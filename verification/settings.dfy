/** The VdoMap of stream settings the backend keeps (`vdo_prop`): string keys
    to typed values, read with a default for a missing key. */
module Settings {
  import opened Common

  datatype Value = Num(n: u32) | Text(s: string)

  type Settings = map<string, Value>

  /** vdo_map_get_uint32: the key's number, or `default` when the key is
      missing or holds no number. */
  function GetU32(m: Settings, key: string, default: u32): (r: u32)
    ensures key in m && m[key].Num? ==> r == m[key].n
    ensures !(key in m && m[key].Num?) ==> r == default
  {
    if key in m && m[key].Num? then m[key].n else default
  }

  /** vdo_map_get_string: the key's text, or `default` when there is none. */
  function GetString(m: Settings, key: string, default: string): (r: string)
    ensures key in m && m[key].Text? ==> r == m[key].s
    ensures !(key in m && m[key].Text?) ==> r == default
  {
    if key in m && m[key].Text? then m[key].s else default
  }

  /** vdo_map_merge: every entry of `from`, when there is a map at all,
      overrides the entry of the same key. */
  function Merge(m: Settings, from: Option<Settings>): (r: Settings)
    ensures from.None? ==> r == m
    ensures from.Some? ==> r.Keys == m.Keys + from.value.Keys
    ensures from.Some? ==> forall k :: k in from.value ==> r[k] == from.value[k]
    ensures forall k :: k in m && (from.None? || k !in from.value) ==> r[k] == m[k]
  {
    match from
    case None => m
    case Some(f) => m + f
  }
}
