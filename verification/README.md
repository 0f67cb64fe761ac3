# VdoCapture, modelled in Dafny

This project models the Axis VDO capture backend of OpenCV
(`VdoCapture` in `sdk/opencv/cap_axis_vdo.cpp`). The backend opens a VDO
stream on the first `grabFrame`. `retrieveFrame` then pulls the first frame
that is not too old. For an RGB3 capture it converts NV12 frames into a new
buffer. It lends every delivered image to the caller under the image's data
address, and takes loans back when the caller hands an image in again or
when the loan budget is used up.

The model is purely functional. Each C++ member that can throw returns an
`Outcome`: `Done(state, value)` or `Failed(state, error)`. The failed state
is the object as it stood at the throw, so assignments made before the throw
persist, as they do in the C++ object. VDO, the clock and the memory
allocator are inputs:

- a `Stream` is a finite queue of pulls, the log of buffers handed back, and
  the buffers the server refuses to take back;
- `StreamOpen` is what opening the stream answers;
- `Option<Timespec>` is the clock reading;
- `Alloc` is what `memfd_create`, `ftruncate`, `sysconf` and
  `vdo_buffer_new_full` give.

Modules:

- `Common`: fixed-width integers, `Outcome`, bit masks.
- `Vdo`: buffers, pulls, hand-back.
- `Settings`: the `vdo_prop` map.
- `Fourcc`: the four formats.
- `Negotiation`: `create`.
- `Staleness`: the pull loop.
- `Loans`: the `buffers` table and its eviction.
- `Conversion`: `convert_nv12_to_rgb3`.
- `Properties`: `setProperty` and `getProperty`.
- `Capture`: the session, `grabFrame` and `retrieveFrame`.

For RGB3 the stream is asked for NV12. The capture geometry counts the
height the stream answered plus half of it for the chroma plane, so 1620
rows for 1080 lines (line 442). The conversion keeps two thirds of the
capture height (line 248). A non-zero even answered height is therefore
delivered as it is: a 1080-line RGB3 capture is delivered 1080 lines high. An odd
answered height gives a capture height that is not a multiple of three,
which OpenCV's `cvtColor` refuses (line 279), so no image is delivered.

## Model

| member | source | states |
|---|---|---|
| Common.Wrap32 | sdk/opencv/cap_axis_vdo.cpp:442 | uint32 arithmetic such as `3u * height` keeps the exact result modulo 2^32, and a result already in range is unchanged |
| Fourcc.Subformat | sdk/opencv/cap_axis_vdo.cpp:388-396 | Y800, NV12 and NV21 are requested as themselves, RGB3 as NV12, and every other fourcc is unsupported |
| Negotiation.Request | sdk/opencv/cap_axis_vdo.cpp:388-407 | the request carries the fourcc's subformat; an RGB3 capture above 1920x1080 pixels asks for at most 15 fps; no other key changes; an unsupported fourcc has no request |
| Negotiation.CheckSubformat | sdk/opencv/cap_axis_vdo.cpp:428-435 | a Y800, NV12 or NV21 capture fails with "Unsupported Format: <name>" exactly when the stream answered another subformat; RGB3 is never checked |
| Negotiation.Geometry | sdk/opencv/cap_axis_vdo.cpp:437-442 | the width comes from the answer; an answered pitch becomes the stride, and a missing one defaults to the width; the height is the answer's for Y800, and 3/2 of it (rounded down) for the two-plane formats |
| Negotiation.Create | sdk/opencv/cap_axis_vdo.cpp:384-451 | an unsupported fourcc fails and changes nothing; a stream that fails to open gives its error and leaves only the request written; once the stream opens it is kept even when a later check throws, and the settings are the request with the stream's settings and info merged over it; the budget is re-read from them; the negotiation succeeds exactly when the subformat check passes, the stride is not below the width and the stream starts, with the geometry read from the merged settings; a subformat mismatch is raised before the geometry is read; a failed start raises the stream's own message with the geometry already written |
| Negotiation.NarrowPitchFails | sdk/opencv/cap_axis_vdo.cpp:437-445 | an opened stream whose answered pitch is narrower than its answered width fails with "Invalid image stride" once the subformat check has passed |
| Staleness.GrabbedUs | sdk/opencv/cap_axis_vdo.cpp:331 | without uint64 wrap-around, the grab instant is the clock reading truncated to whole microseconds |
| Staleness.IsStale | sdk/opencv/cap_axis_vdo.cpp:341-342 | unless the sum wraps, a frame is dropped exactly when it is more than 66666 us older than the grab |
| Staleness.Filter | sdk/opencv/cap_axis_vdo.cpp:333-354 | the pull loop only appends to the log of handed-back buffers and never changes what the server refuses |
| Staleness.FilterRun | sdk/opencv/cap_axis_vdo.cpp:333-354 | every pull before the last was a stale frame handed back in order; the last pull decides the outcome (fresh frame kept, "No Frame", or the server's refusal message); nothing past the last pull is consumed |
| Staleness.DroppedNeverHeld | sdk/opencv/cap_axis_vdo.cpp:342-353 | the frame the loop keeps is never one of those it handed back |
| Staleness.BudgetBoundary | sdk/opencv/cap_axis_vdo.cpp:342 | a frame exactly 66666 us older than the grab is kept; one a microsecond older is dropped |
| Loans.Oldest | sdk/opencv/cap_axis_vdo.cpp:303-313 | the evicted entry has the smallest sequence number; ties go to the lowest address |
| Loans.MinElement | sdk/opencv/cap_axis_vdo.cpp:306-312 | min_element over the map in ascending key order, with a strict less-than, finds the entry Oldest describes |
| Loans.ReclaimKey | sdk/opencv/cap_axis_vdo.cpp:295-315 | nothing is reclaimed from an empty table; the caller's image is reclaimed when it is on loan; otherwise the oldest entry once the table holds the budget or more; otherwise nothing |
| Loans.GiveBack | sdk/opencv/cap_axis_vdo.cpp:315-327 | the entry leaves the table even when the hand-back throws; RGB3 drops the buffer itself, and other formats hand it back to the stream, which fails exactly when the server refuses |
| Loans.Publish | sdk/opencv/cap_axis_vdo.cpp:366 | the buffer is filed under its data address; every other entry is unchanged; the table grows by one unless the address was already there |
| Loans.ReclaimThenPublishBound | sdk/opencv/cap_axis_vdo.cpp:295-329 | a reclaim followed by a publish leaves the table no larger than the larger of its old size and the budget (at least one) |
| Conversion.PageRoundBounds | sdk/opencv/cap_axis_vdo.cpp:250-253 | for a power-of-two page size, the RGB3 buffer size is a whole number of pages, strictly above the pixel bytes and at most one page above |
| Conversion.DeliveredHeight | sdk/opencv/cap_axis_vdo.cpp:248 | two thirds of the capture height set at line 442 is the answered height (line 439) rounded down to even |
| Conversion.CaptureRowsDivisible | sdk/opencv/cap_axis_vdo.cpp:439-442 | the capture rows of a two-plane format are a multiple of three exactly when the answered height is even, so the conversion refuses every odd answered height |
| Conversion.Convert | sdk/opencv/cap_axis_vdo.cpp:235-287 | success exactly when the NV12 data, memfd_create, ftruncate and the new buffer succeed, cvtColor accepts the size (not empty, even width, rows a multiple of three) and the hand-back succeeds; a refused size leaves the source held and not handed back; the new buffer carries the source's sequence number and timestamp and has the page-rounded capacity; the source goes back to the stream; errors are reported in the code's order; the height changes once memfd_create succeeds |
| Properties.GetProperty | sdk/opencv/cap_axis_vdo.cpp:153-217 | the result is -1 exactly for an unhandled key, or for a property of the held buffer while nothing is held; the frame counter is the held buffer's sequence number and the capacity its capacity; the fourcc reads back; the image type is CV_8UC3 for RGB3 and CV_8UC1 otherwise; a stored number reads back, and an unset key reads 1 for the SIMD alignment, the budget field for the buffer count and 0 otherwise |
| Properties.ReadsAlike | sdk/opencv/cap_axis_vdo.cpp:158-186 | a property reads the same on two setups that agree on its stored value, its default and, for the fourcc and the image type, on the fourcc |
| Properties.SetProperty | sdk/opencv/cap_axis_vdo.cpp:112-151 | a stored property reads back as the value modulo 2^32; only the budget property moves the budget and only the fourcc property moves the fourcc; the negotiated stream is untouched |
| Properties.SetLeavesOthers | sdk/opencv/cap_axis_vdo.cpp:119-136 | setting one property leaves every other property as it reads, except the image type, which follows the fourcc |
| Capture.New | sdk/opencv/cap_axis_vdo.cpp:454-461 | a new capture is NV12 with a budget of three and no stream, and its channel property reads back as the channel given |
| Capture.Grab | sdk/opencv/cap_axis_vdo.cpp:219-233 | the stream is negotiated only if it does not exist yet; a failed negotiation keeps the held frame; otherwise the held frame is forgotten and the geometry restored, and only then is the clock read, so a clock failure leaves them so; the grab fails exactly when the clock fails |
| Capture.TakeBack | sdk/opencv/cap_axis_vdo.cpp:315-328 | the chosen entry leaves the table and is disposed of as Loans.GiveBack does, unless it is the buffer about to be delivered again; nothing else changes |
| Capture.Acquire | sdk/opencv/cap_axis_vdo.cpp:331-357 | a held frame is kept; otherwise the outcome is the pull loop's; whatever is held at the end has non-null data, or "No Data" is thrown |
| Capture.Deliver | sdk/opencv/cap_axis_vdo.cpp:359-376 | only an RGB3 capture holding a YUV frame converts; the held buffer is lent under its data address as a 3-channel image with packed rows for RGB3, and as a 1-channel image with the stride otherwise |
| Capture.RetrieveWith | sdk/opencv/cap_axis_vdo.cpp:289-377 | a retrieve ends with the reclaimed table, plus on success the delivered buffer published under its non-null address; a reclaim the server refuses ends the retrieve at once, before any pull and with the held buffer untouched; after the reclaim, a failing pull loop or "No Data" ends it with the acquire's error and state (the frames handed back and the buffer held so far), and otherwise the outcome is the delivery's, conversion errors included; a session without a stream gets "No Frame" |
| Capture.RetrieveAsWritten | sdk/opencv/cap_axis_vdo.cpp:289-377 | retrieveFrame as written: a delivered image is on loan under its own address and has the fourcc's channel count |
| Capture.Retrieve | sdk/opencv/cap_axis_vdo.cpp:289-377 | retrieveFrame with the reclaim corrected: the same as written after a grab, and a repeated retrieve never disposes of the buffer it delivers again |
| Capture.SparedStaysHeld | sdk/opencv/cap_axis_vdo.cpp:315-374 | sparing the held buffer at the reclaim keeps it out of both disposal logs whenever it needs no conversion |
| Capture.RetrieveBound | sdk/opencv/cap_axis_vdo.cpp:295-376 | one retrieve never leaves more loans than the larger of the table's old size and the budget |
| Capture.RetrieveKeepsValid | sdk/opencv/cap_axis_vdo.cpp:295-376 | a retrieve, whether it delivers or throws, keeps the table well formed and within the budget |
| Capture.GrabKeepsValid | sdk/opencv/cap_axis_vdo.cpp:219-233 | a grab keeps the session valid |
| Capture.RunKeepsValid | sdk/opencv/cap_axis_vdo.cpp:112-377 | any sequence of grabs, retrieves and property writes that leaves the budget alone keeps the session valid, with caught exceptions included, for retrieveFrame as written and corrected alike |
| Capture.AsWrittenDisposesDelivered | sdk/opencv/cap_axis_vdo.cpp:300-328 | as written, a retrieve without a grab that is given back the image it just lent disposes of the held buffer and lends it again |
| Capture.RepeatedRetrieveWitness | sdk/opencv/cap_axis_vdo.cpp:289-377 | for one NV12 frame, a second retrieve as written hands the frame back to the server and lends it again; corrected, nothing goes back |
| Capture.DeliversFirstFresh | sdk/opencv/cap_axis_vdo.cpp:333-367 | a retrieve after a grab delivers the first frame in the queue that is not stale, either as it is or converted with its sequence number and timestamp |
| Capture.AcquireFirstFresh | sdk/opencv/cap_axis_vdo.cpp:331-357 | with nothing held, a successful acquire holds the first frame in the queue that is not stale |
| Capture.Rgb3EndToEnd | sdk/opencv/cap_axis_vdo.cpp:394-442 | a 1920x1080 RGB3 capture asks the stream for NV12 at 1080 lines and the full 30 fps, computes a capture geometry of 1620 rows, and delivers a 1920x1080 three-channel image with 5760-byte rows |
| Capture.MismatchIsSticky | sdk/opencv/cap_axis_vdo.cpp:413-435 | after the stream answers the wrong subformat, later grabs never renegotiate and succeed whenever the clock does |

## Left out

- The pixel transform of `cvtColor` (line 279) is left out. The model keeps track of which buffers exist and what their metadata is, and of OpenCV's size check for one-plane NV12 input: a non-empty image with an even width and a row count that is a multiple of three.
- The memory region is modelled through the `Alloc` input. That input says whether `memfd_create` and `ftruncate` succeeded, gives the page size from `sysconf`, and gives the buffer `vdo_buffer_new_full` returns. File descriptors are not modelled, and neither are the leaks when a later step fails.
- The clock is an input. `Grab` takes `None` for a failing `clock_gettime`.
- Logging to standard output (line 348) is left out.
- GObject reference counts and the destructor (lines 97-104) are left out. A dropped RGB3 buffer is logged in `freed`.
- The fixed request keys `format`, `buffer.strategy` and `timestamp.type` (lines 409-411) are not modelled. No modelled behaviour reads them.
- The Axis-internal properties are left out. Both getProperty and setProperty delegate them to `AxisInternal`, which is not part of this model.
- The frame time `CAP_PROP_POS_MSEC` (line 205) is left out: it divides the timestamp by a double.
- The FD and FD offset properties (lines 208-211) are left out: the model's buffer has no file descriptor or offset. The capacity property is modelled.
- Properties.SetProperty takes an integer rather than a double. `std::lround` is not modelled, and neither is the undefined result of a value outside the range of `long`.
- Properties.GetProperty returns an integer. The -1 result of a null `vdo_prop` (lines 114-115, 155-156) cannot occur: the map is created with the object.
- Staleness.Filter works on a finite queue. Where the device would block on an empty queue, the model stops with `Exhausted`.
- Capture.RetrieveWith takes the caller's image as a plain address. When loans are out, `dst.getMatRef()` (line 297) requires the output array to be a `Mat`, and OpenCV's assertion for any other kind of array is not modelled.
- Capture.Acquire gives "No Frame" for a session whose stream was never opened. The C++ calls VDO with a null stream there.
- Settings values are numbers or strings. A typed get of a key stored with another type gives the default.
- The Python files in the repository are not part of this model.

## Findings

| source | as written | input that shows it | evidently intended | confidence | as-written member | corrected member |
|---|---|---|---|---|---|---|
| sdk/opencv/cap_axis_vdo.cpp:300-328 | a retrieveFrame with no grabFrame since the last one, given back the image it just lent, reclaims the held buffer, drops it (RGB3) or hands it back to the server, and then lends the same buffer out again | grab one NV12 frame at address 0x1000, retrieve it, then retrieve again passing the returned image: the server gets buffer 0x1000 back while the caller is handed it again | the buffer being delivered again leaves the loan table without being disposed of | medium, not executed | Capture.RepeatedRetrieveWitness | Capture.Retrieve |
