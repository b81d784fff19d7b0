# nyctal in Dafny

A model of nyctal, a small Wayland compositor written in Go.

Each connected client owns a `WaylandServerConn`. Its read loop does three things:

- takes an 8-byte header and a body off the socket;
- finds the object the header names in that connection's registry of wire ids;
- lets the object's `HandleMessage` parse the body and react.

Objects answer with events on the same socket, and some requests change the shared workspace. The workspace is a tiling tree of panels and splits. It holds the client windows, routes keyboard and pointer input to them, and paints each into its share of the screen.

The model covers:

- the wire format: field encoders, `ParsePacketStructure` and `PacketBulder.Build`;
- framing: `ReadPacket`;
- the registry;
- every object kind the compositor implements, except linux-dmabuf:
  - core objects: display, registry, compositor, region, surface, shm, shm pool and buffer;
  - subsurfaces, seat, keyboard and pointer;
  - output and viewporter;
  - the data-device objects;
  - the xdg-shell objects: xdg_wm_base, xdg_surface, xdg_toplevel, xdg_popup and xdg_positioner;
- the client bridge that paints a window and forwards input to it;
- the panel, split and drag-overlay workspace tree;
- the older `workspace.go` layout;
- the BGRA image operations;
- the small generic stack and queue;
- the keyboard and pointer models;
- the evdev axis names;
- the per-connection loop of `wayland.go`.

Everything is pure:

- A connection is a value `Registry.Conn`. It holds:
  - `objs`, a heap from addresses to objects, standing in for Go pointers;
  - `ids`, a map from wire ids to addresses;
  - the queue of received file descriptors;
  - the counter that numbers top-level windows.
- Every handler returns `Protocol.Reply(conn, out, error)`:
  - `out` lists what Go does through side channels: the events it writes, the descriptors it closes, and the windows it adds to or removes from the workspace;
  - `error` is what `HandleMessage` returns.
- Go keeps the changes made before an error, and so does the model.
- A Go runtime panic, such as a nil dereference or an out-of-range slice, becomes the error `Fault`. The server recovers from those by closing the connection.

Nondeterminism is passed in as a parameter:

- the clock;
- the random serial bytes of `RenderFrame`;
- the outcome of `mmap`;
- Go's map iteration order, fixed to the least wire id or ascending keys. Contracts that depend on it only say "some".

Floating point appears in four places, and each is made integer:

- `FixedField` encodes `v` as the 32-bit pattern of `v * 256`;
- pointer coordinates are integers;
- a split's ratio is kept in tenths;
- the legacy layout's 0.66666 main width is a parameter.

## Model

| member | source | states |
|---|---|---|
| UtilsMath.IntersectsRect | utils/math.go:5-10 | a hit exactly when the point is inside the half-open rectangle; on a hit the returned offsets are the rectangle-local coordinates, within [0, Dx) x [0, Dy); a miss returns (-1, -1) |
| UtilsMath.EmptyNeverIntersects | utils/math.go:5-10 | an empty rectangle is never hit |
| Frame.DecodeHeader | wayland/conn.go:108-112 | the address is the first little-endian word, the opcode the next half-word, and the body length the last half-word minus 8 in uint16 arithmetic, wrapping by 65536 when the declared length is under 8 |
| Frame.ReadPacket | wayland/conn.go:88-129 | a failed header read fails the read and keeps whether the failure was transient; a short or empty header read is retried; a delivered packet carries exactly `length` body bytes, namely those the body read returned |
| Frame.BuildReadBack | wayland/conn.go:108-129 | a message built by `Build` and read back as header plus body gives the same id, opcode and body |
| Frame.ShortLengthWraps | wayland/conn.go:110-112 | a declared length below 8 wraps to a body length of at least 65528 |
| Wire.LE16RoundTrip | wayland/packet.go:34-37 | decoding an encoded uint16 gives it back |
| Wire.LE32RoundTrip | wayland/packet.go:56-59 | decoding an encoded uint32 gives it back |
| Wire.U16OfRoundTrip | wayland/conn.go:110-111 | any two bytes re-encode to themselves after decoding |
| Wire.U32OfRoundTrip | wayland/conn.go:109 | any four bytes re-encode to themselves after decoding |
| Wire.Padding | wayland/packet.go:96-101 | fewer than four padding bytes, and enough to reach a multiple of four |
| Wire.EncodeString | wayland/packet.go:89-106 | a length word of len+1 (as uint32), the bytes, then zeros up to a multiple of four that include the NUL terminator |
| Wire.U16Array | wayland/packet.go:189-195 | a length word of 2n (as uint32), then one uint16 field per element, in order |
| Wire.U32Array | wayland/packet.go:197-203 | a length word of 4n, then one uint32 field per element, in order |
| Wire.U64Array | wayland/packet.go:205-211 | a length word of 8n truncated to 32 bits by the `UintField` conversion, then one uint64 field per element |
| Wire.EncodeAllAppend | wayland/packet.go:213-217 | the body of a concatenation of fields is the concatenation of their bodies |
| Wire.U32ArrayEncoding | wayland/packet.go:197-203 | an encoded uint32 array is 4 + 4n bytes: the byte-length word, then element i at offset 4 + 4i |
| Wire.TrimNul | wayland/packet.go:138 | the result neither starts nor ends with NUL, is no longer than the input, and is the input itself when it holds no NUL |
| Wire.TrimNulIsInfix | wayland/packet.go:138 | the result is the input with a run of NULs cut from the front and a run cut from the back, so with its NUL-free ends it is exactly what bytes.Trim keeps, inner NULs included |
| Wire.TrimTrailingNul | wayland/packet.go:92-94 | trimming ignores the terminator the encoder appends |
| Wire.PaddedLen | wayland/packet.go:129-136 | the padded length is computed in uint32 and stays in range |
| Wire.PaddedLenNoWrap | wayland/packet.go:129-136 | when nothing wraps the padded length is the declared length plus its padding |
| Wire.ParseOne | wayland/packet.go:110-153 | a parsed field has the requested kind and consumes at least four bytes, leaving a suffix of the buffer as the rest; fewer than four bytes is a parse error |
| Wire.Parse | wayland/packet.go:108-156 | the values parsed so far match the requested kinds in order, and there is no error exactly when every kind was parsed |
| Wire.ParseAll | wayland/packet.go:108-156 | success exactly when the structure parses without error, with one value of the right kind per requested field |
| Wire.ParseStopsAtShortBuffer | wayland/packet.go:111-126 | a body of n words, read as more than n numeric fields, yields those n values and then a parse error |
| Wire.UintRoundTrip | wayland/packet.go:111-118 | an encoded uint field parses back and leaves the rest of the buffer |
| Wire.IntRoundTrip | wayland/packet.go:119-126 | an encoded int32 field parses back through two's complement |
| Wire.ParseStringNoWrap | wayland/packet.go:127-147 | when the declared length cannot wrap, a string field is the NUL-trimmed declared bytes and parsing resumes after the padded length |
| Wire.StringFieldRoundTrip | wayland/packet.go:89-147 | an encoded string parses back to its NUL-trimmed bytes and leaves the rest |
| Wire.StringRoundTrip | wayland/packet.go:89-147 | a string without NUL bytes parses back exactly |
| Wire.HugeStringLengthFaults | wayland/packet.go:137-138 | a declared string length of 2^32 - 4 or more makes the slice `buf[4:4+strlen]` go out of range, which is a panic |
| Wire.FieldRoundTrip | wayland/packet.go:56-150 | every parseable field, once encoded, parses back to its decoded value and leaves the rest |
| Wire.ParseRoundTrip | wayland/packet.go:108-156 | a body built from parseable fields parses back, with no error, to the decoded values of those fields |
| Wire.Build | wayland/packet.go:213-225 | the id word, the opcode half-word, then 8 + body length truncated to uint16, then the body |
| Wire.OneWord | wayland/packet.go:111-118 | a four-byte body parses as one uint field |
| Queue.Top | utils/queue.go:11-19 | absent exactly when the queue is empty, otherwise the front element |
| Queue.Pop | utils/queue.go:28-36 | returns `Top`; an empty queue is left alone, otherwise the popped value followed by the new queue is the old queue |
| Queue.PushAllAppends | utils/queue.go:20-23 | pushing values one by one appends them, in order, at the back |
| Queue.PopNTakesPrefix | utils/queue.go:28-36 | popping n values returns the first n in order and leaves the rest |
| Queue.FifoOrder | utils/queue.go:20-36 | values pushed into an empty queue come out in the order they went in, leaving it empty |
| Queue.PushTopThenPop | utils/queue.go:24-27 | a value pushed at the top is the next one popped, and popping it restores the queue |
| Queue.PushKeepsFront | utils/queue.go:20-23 | pushing at the back changes the front only of an empty queue |
| Queue.EmptyQueueUnchanged | utils/queue.go:11-19 | popping or peeking an empty queue gives nothing and changes nothing |
| Stack.Top | utils/stack.go:15-23 | absent exactly when the stack is empty, otherwise the last element pushed |
| Stack.Pop | utils/stack.go:24-32 | returns `Top`; an empty stack is left alone, otherwise the new stack followed by the popped value is the old stack |
| Stack.PushThenPop | utils/stack.go:11-32 | the value just pushed is the top, and popping it restores the stack |
| Stack.EmptyStackUnchanged | utils/stack.go:15-32 | popping or peeking an empty stack gives nothing and changes nothing |
| Stack.PushAllPopAll | utils/stack.go:11-32 | values pushed one by one pop back in reverse order, restoring the stack |
| Stack.Reverse | utils/stack.go:24-32 | the i-th value from the front is the i-th from the back |
| Pixels.OffsetInBounds | model/format.go:155-157 | in a valid image, the four bytes of any pixel inside the rectangle lie in Pix |
| Pixels.OffsetsDisjoint | model/format.go:155-157 | two different pixels of a valid image occupy disjoint byte ranges |
| Pixels.EmptyBGRA | model/format.go:27-33 | an all-zero image of Dx * Dy * 4 bytes with stride 4 * Dx; valid when the rectangle is canonical |
| Pixels.NewBGRA | model/format.go:35-44 | a copy of the first Dy * stride bytes with the given rectangle and stride |
| Pixels.SetRGBA | model/format.go:141-153 | a point outside the rectangle changes nothing; inside, that point reads back as the colour and no other pixel or byte changes |
| Pixels.SubImageView | model/format.go:102-107 | the view that starts at the bounds' first pixel is a valid image showing the same colours there |
| Pixels.SubImage | model/format.go:94-108 | an empty intersection gives the zero image; otherwise a valid image on the intersection, with the same stride, showing the same colour at every point |
| Pixels.Clip | model/format.go:161-173 | the clipped rectangle holds exactly the points in the target, the destination and the shifted source, and the source point moves with its top-left corner |
| Pixels.ClipKeepsSourcePoint | model/format.go:161-173 | clipping does not change which source pixel a destination pixel reads, and that pixel lies in the source |
| Pixels.BlendNoOverflow | model/format.go:205-217 | no intermediate value of the uint32 blend arithmetic leaves uint32 |
| Pixels.BlendOpaque | model/format.go:211-217 | an opaque source channel replaces the destination |
| Pixels.BlendClear | model/format.go:211-217 | a fully transparent zero source keeps the destination |
| Pixels.BlendRow | model/format.go:203-218 | blending one row changes exactly the pixels of that row's span, each to its blend with the source |
| Pixels.BlendRows | model/format.go:200-221 | blending rows y..y1 changes exactly the pixels of that block, each to its blend with the source |
| Pixels.DrawCopyOver | model/format.go:175-222 | every pixel in the clipped rectangle becomes its blend with the corresponding source pixel, and every other pixel keeps its colour; the traversal order does not matter |
| Pixels.BlendPixelOpaque | model/format.go:205-217 | an opaque source colour replaces the destination colour |
| Pixels.BlendPixelClear | model/format.go:205-217 | a fully transparent source keeps the destination colour |
| Pixels.DrawCopyOverOpaque | model/format.go:175-222 | a pixel drawn from an opaque source pixel takes exactly the source colour |
| Pixels.DrawCopyOverClear | model/format.go:175-222 | a pixel whose source is fully transparent keeps its colour |
| Pixels.Update | model/format.go:68-92 | a damage box to the right of the image changes nothing; an out-of-range row slice panics; otherwise the bytes of the damaged row spans are copied from the new pixels and all other bytes are kept |
| Pixels.TightRowsOk | model/format.go:78-88 | for a tightly packed image and new pixels of the same size, no row slice of a damage box inside the image goes out of range |
| Pixels.DamagedPixelInSpan | model/format.go:78-88 | every byte of a damaged pixel lies in a copied span |
| Pixels.CleanPixelOutsideSpans | model/format.go:78-88 | no byte of an undamaged pixel lies in a copied span |
| Pixels.UpdatePatchesDamage | model/format.go:68-92 | updating a tightly packed image succeeds; damaged pixels take the new colours and undamaged ones keep theirs |
| Pixels.HLine | model/format.go:47-51 | exactly the in-bounds points of row y from x1 to x2 take the colour |
| Pixels.VLine | model/format.go:54-58 | exactly the in-bounds points of column x from y1 to y2 take the colour |
| Pixels.DrawRect | model/format.go:61-66 | exactly the in-bounds points on the rectangle's border take the colour |
| KeyboardModel.ProcessKeyboardEvent | model/keyboard.go:25-31 | a release leaves the key up, any other state leaves it down, and no other key changes |
| KeyboardModel.RepeatIsIdempotent | model/keyboard.go:25-31 | an event that agrees with the key's current state changes nothing |
| KeyboardModel.ProcessAllSnoc | model/keyboard.go:25-31 | processing a sequence of events and then one more is processing them all |
| KeyboardModel.DownKeysAreHeld | model/keyboard.go:21-31 | after any sequence of events a key is down exactly when its last event pressed it, or, with no event for it, when it started down |
| PointerModel.ToLocalPointer | model/pointer.go:29-37 | absent outside the half-open rectangle; inside, the position becomes rectangle-local within [0, Dx) x [0, Dy) and the origin is kept |
| PointerModel.ProcessPointerEvent | model/pointer.go:17-27 | a move made once the whole milliseconds since the last one exceed 1 is reported and sets both the position and the origin to the move; anything else is not reported and changes nothing |
| PointerModel.MovesThrottled | model/pointer.go:17-27 | after a move is taken, any event less than 2 ms later is dropped and the pointer stays where the move put it |
| PointerModel.NonMoveIgnored | model/pointer.go:17-27 | an event without a move never changes the pointer and is not reported |
| Evdev.DecimalRoundTrip | cmd/nyctal-dri/evdev/consts.go:95 | the decimal digits printed for a code read back as that code |
| Evdev.UnknownRoundTrip | cmd/nyctal-dri/evdev/consts.go:95 | "Unknown(n)" reads back as n |
| Evdev.RelStringRoundTrip | cmd/nyctal-dri/evdev/consts.go:76-99 | every uint16 Rel code, named or not, can be recovered from its string |
| Evdev.AbsStringRoundTrip | cmd/nyctal-dri/evdev/consts.go:153-205 | every uint16 Abs code, named or not, can be recovered from its string |
| Evdev.RelStringInjective | cmd/nyctal-dri/evdev/consts.go:92-99 | two Rel codes with the same string are the same code |
| Evdev.AbsStringInjective | cmd/nyctal-dri/evdev/consts.go:198-205 | two Abs codes with the same string are the same code |
| Evdev.RelStringCases | cmd/nyctal-dri/evdev/consts.go:76-99 | codes 0x00 to 0x0c print their table name, and every higher code prints as Unknown |
| Evdev.AbsStringGaps | cmd/nyctal-dri/evdev/consts.go:153-205 | the codes between the table's runs, and all those above 0x3d, print as Unknown |
| Registry.NewConn | wayland/registry.go:28-30 | a fresh connection has no ids, no objects, no pending descriptors, no ping target and a window counter of 0 |
| Registry.New | wayland/registry.go:48-53 | the id now names a freshly allocated object; every other id and every existing object is unchanged |
| Registry.Alias | wayland/registry.go:48-53 | the id now names an object that already exists, as when Go stores the same pointer under a second id |
| Registry.Get | wayland/registry.go:38-46 | "unknown object" exactly when the id is absent, otherwise the object the id names |
| Registry.Destroy | wayland/registry.go:32-36 | exactly that id disappears; every other id keeps its object |
| Registry.NewThenGet | wayland/registry.go:38-53 | an id just registered looks up to its object |
| Registry.NewKeepsOthers | wayland/registry.go:38-53 | registering one id does not change what any other id looks up to |
| Registry.DestroyThenGet | wayland/registry.go:32-46 | a destroyed id is unknown; other ids are unaffected; destroying an absent id changes nothing |
| Registry.FindSeat | wayland/registry.go:80-89 | nothing exactly when no live id names a seat; otherwise a seat that some live id names |
| Registry.FindOutput | wayland/registry.go:91-100 | nothing exactly when no live id names an output; otherwise an output that some live id names |
| Registry.FindSurfaces | wayland/registry.go:55-66 | exactly the surfaces that some live id names |
| Registry.FindXdgSurfaces | wayland/registry.go:68-78 | exactly the xdg_surfaces that some live id names |
| Displays.Sync | wayland/display.go:16-36 | a body without a callback id fails and changes nothing; otherwise a `done` event on the callback carries the display's sync count, `delete_id` of the callback follows, the count goes up by one, and nothing else changes |
| Displays.SuccessiveSyncs | wayland/display.go:24-34 | two syncs in a row answer with consecutive counts, each followed by the deletion of its own callback |
| Displays.Globals | wayland/display.go:47-94 | seven `global` events on the new registry, named 1 to 7, advertising wl_compositor v5, wl_subcompositor v1, wl_seat v7, wl_shm v2, xdg_wm_base v2, wl_data_device_manager v3 and wl_output v1 |
| Displays.GetRegistry | wayland/display.go:37-103 | a body shorter than a word panics; otherwise the new id names an unbound registry object, the seven globals are sent on it, and no other id changes |
| Displays.HandleDisplay | wayland/display.go:13-107 | opcode 0 is sync, opcode 1 is get_registry, and any other opcode is an error that changes nothing |
| Displays.BindingOf | wayland/unbound.go:30-70 | exactly the eight names bind accepts have a binding, and each names its own object kind |
| Displays.Bind | wayland/unbound.go:31-64 | the new id names the right object: shm sends its two formats; xdg_wm_base becomes the ping target; a seat bound again is the existing seat, renamed to the new id, with no events; a first seat and an output send their announcements; ids naming anything but a seat are unchanged |
| Displays.BindName | wayland/unbound.go:29-71 | success exactly when the name is bindable; an unknown name is a "failed to bind" error that changes nothing |
| Displays.HandleUnbound | wayland/unbound.go:15-76 | a request other than bind is an error; a body that does not parse as (uint, string, uint, uint) returns the parse error and changes nothing; otherwise the interface name and new id are bound |
| Displays.BindRequestParses | wayland/unbound.go:20-27 | a bind body encoded from its four fields parses back to them, with the interface name stripped of NUL |
| Displays.AdvertisedGlobalsBind | wayland/unbound.go:15-71 | binding any advertised global, under the name and version it was advertised with, succeeds and registers the new id |
| Displays.AdvertisedNameBindable | wayland/display.go:47-94 | every advertised interface name survives the parser's NUL trimming and is one bind accepts |
| Displays.SeatRebindSharesSeat | wayland/unbound.go:48-55 | binding wl_seat twice leaves both ids naming one seat object, whose id is now the second; only the first bind sends events |
| Regions.NewRegion | wayland/region.go:23-25 | a region with its id and no areas |
| Regions.FirstHit | wayland/region.go:34-38 | the first area in the list that holds the point, or -1 exactly when none does |
| Regions.Intersects | wayland/region.go:30-41 | the point lies in some area exactly when the first answer is true; the second answer is true only then, and only if the last-added area holding the point adds rather than subtracts; the region's area list is left reversed in place |
| Regions.ReversedSearch | wayland/region.go:32-38 | searching the reversed list finds the last-added area that holds the point |
| Regions.IntersectsTwiceRestores | wayland/region.go:32-33 | two queries in a row restore the original area order |
| Regions.IntersectsAlternates | wayland/region.go:30-41 | for a rectangle added and then subtracted, two identical queries answer differently, because the first reversed the list |
| Regions.AreaOf | wayland/region.go:62 | the rectangle from x, y, x + width and y + height, canonicalised as `image.Rect` does, flagged as added or subtracted |
| Regions.HandleRegion | wayland/region.go:43-79 | destroy removes the id and sends `delete_id`; add and subtract push one area when the four ints parse, and otherwise fail and change nothing; other opcodes are errors |
| Regions.AddedAreaIsInRegion | wayland/region.go:30-62 | a point in the area just added is reported as in the region |
| Regions.NewSurface | wayland/compositor.go:22 | a fresh surface: no callback, nothing attached, no pending or committed input region, no children, no cache and no damage |
| Regions.HandleCompositor | wayland/compositor.go:13-34 | create_surface and create_region register a fresh surface or region under the parsed id and touch no other id; a short body fails and changes nothing; other opcodes are errors; no events are sent |
| Outputs.Announcement | wayland/output.go:16-30 | geometry (a 1024 x 1024 "nyctal"/"none" output), the current mode (flags 3, 1024 x 1024 at 60000 mHz), scale 1, then done, in that order |
| Outputs.ModeReadsBack | wayland/output.go:27-28 | a client parsing the mode event's body as four uints reads back flags 3, 1024 x 1024 and 60000 mHz, with no parse error |
| Outputs.GeometryReadsBack | wayland/output.go:16-25 | a client parsing the geometry event's body with wl_output's argument types reads back the 1024 x 1024 size and the make "nyctal" and model "none" unchanged by NUL trimming, with no parse error |
| Outputs.NewOutput | wayland/output.go:12-32 | the id names the output, no other id changes, and the announcement is sent |
| Outputs.HandleOutput | wayland/output.go:34-46 | release and opcode 1 are accepted and change nothing; any other opcode is an error |
| Outputs.HandleViewporter | wayland/viewporter.go:9-11 | every request is an error and changes nothing |
| Buffers.MarkDestroyed | wayland/buffer.go:21-32 | the buffer is marked destroyed and nothing else about it changes |
| Buffers.MarkDestroyedIdempotent | wayland/buffer.go:22 | destroying a buffer twice is the same as once |
| Buffers.HandleBuffer | wayland/buffer.go:34-43 | destroy removes the buffer's id and no other; other opcodes are errors; no events |
| Buffers.HandleShm | wayland/shm.go:14-42 | create_pool: a short body fails and changes nothing; with no received descriptor it fails; a failed mmap still consumes the descriptor; otherwise the new id names a pool over the front descriptor with the mapped bytes, the descriptor leaves the queue, and no other id changes |
| Buffers.PoolsTakeDescriptorsInOrder | wayland/shm.go:26-35 | two pools created in a row take the received descriptors in the order they arrived |
| Buffers.NewBuffer | wayland/shm_pool.go:42-43 | a buffer on this pool with the parsed id, offset, width, height and stride, format 0 (ARGB) and not destroyed |
| Buffers.HandlePool | wayland/shm_pool.go:27-73 | create_buffer registers the buffer under the parsed id when the five uints parse; destroy removes the pool's id; resize sets the size as soon as it parses, and the data only when the remap succeeds; a parse failure changes nothing; other opcodes are errors |
| Buffers.FailedResizeKeepsSize | wayland/shm_pool.go:59-65 | a resize whose remap fails still records the new size, and reports the failure |
| DataDevices.CreateSource | wayland/data_device_manager.go:18-26 | the parsed id names a fresh data source with no mime types and no other id changes; a short body fails and changes nothing |
| DataDevices.GetDevice | wayland/data_device_manager.go:27-44 | success exactly when the body parses and its seat id names a seat; the new id then names a device on that seat with no selection; on failure nothing changes |
| DataDevices.HandleManager | wayland/data_device_manager.go:15-49 | opcode 0 creates a source, opcode 1 gets a device, and anything else is an error; no events |
| DataDevices.Selection | wayland/data_device.go:13-15 | a `selection` event on the device, with a null offer |
| DataDevices.HandleDevice | wayland/data_device.go:17-45 | set_selection succeeds exactly when the body parses and its source id names a data source, and then records that source; every other opcode, and every failure, changes nothing |
| DataDevices.SelectionCannotBeUnset | wayland/data_device.go:20-40 | a selection with a null source, which the protocol says clears it, is refused, because id 0 names the null object rather than a data source |
| DataDevices.HandleSource | wayland/data_source.go:11-32 | offer adds the parsed mime type to the set; destroy removes the source's id and no other; a short body fails and changes nothing; other opcodes are errors |
| DataDevices.OfferIdempotent | wayland/data_source.go:22 | offering the same mime type twice is the same as offering it once |
| SubSurfaces.SurfaceNamed | wayland/subcompositor.go:28-32 | present exactly when the id names a surface, and then that surface's address |
| SubSurfaces.AddSubSurface | wayland/subcompositor.go:36 | the subsurface is appended to the parent's children, and no other object changes |
| SubSurfaces.HandleSubCompositor | wayland/subcompositor.go:13-47 | get_subsurface succeeds exactly when the body parses and both the surface id and the parent id name surfaces; the new id then names a subsurface at the origin, unsynchronised, appended to the parent's children, and ids naming neither change; destroy does nothing; failures change nothing |
| SubSurfaces.HandleSubSurface | wayland/subsurface.go:20-63 | set_position stores the two uint32 words as the position; place_above and place_below only parse; set_sync and set_desync set and clear the synchronised flag; destroy does nothing; other opcodes are errors |
| SubSurfaces.NegativePositionWraps | wayland/subsurface.go:27-34 | a negative x, read as a uint field, is stored as x + 2^32 |
| Positioners.NewPositioner | wayland/xdg_base.go:34 | a fresh positioner: zero size and anchor rectangle, anchor 0, zero offset, not reactive |
| Positioners.CalculateAnchorPoint | wayland/xdg_positioner.go:22-34 | the offset plus the anchor rectangle's corner that anchors 5 to 8 name, or its centre, rounded toward zero, for any other anchor |
| Positioners.AnchorPointInAnchorRect | wayland/xdg_positioner.go:22-34 | the anchor point, less the offset, lies within the closed anchor rectangle |
| Positioners.Set | wayland/xdg_positioner.go:43-95 | each setter changes exactly its own attribute: the size from (0, 0) to (w, h), the anchor rectangle from x, y, w and h, the anchor, gravity, constraint adjustment or offset |
| Positioners.HandlePositioner | wayland/xdg_positioner.go:36-110 | destroy removes the positioner's id; setters 1 to 6 succeed exactly when their fields parse and change only this positioner; set_reactive sets the flag; 8 and 9 do nothing; other opcodes are errors; no events |
| Positioners.GravityIsNeverRead | wayland/xdg_positioner.go:22-34 | the gravity a client sets never affects where a popup is anchored |
| XdgGeometry.RelativeOffset | wayland/xdg_surface.go:30-36 | the parent's own offset (one level only, origin without a parent) plus the surface's offset, minus the origin of its window geometry |
| XdgGeometry.InputHit | wayland/xdg_surface.go:44-56 | without an input region every point hits; with one, a point hits unless it is inside the region's area but in none of its rectangles; the region's area list is left in the order the query put it in, and nothing else changes |
| XdgGeometry.PopupBounds | wayland/xdg_surface.go:58-60 | a popup's bounds are the positioner's size moved so that its corner sits at the relative offset |
| XdgGeometry.Intersects | wayland/xdg_surface.go:40-77 | no surface never hits; a surface without a positioner is tested in top-level coordinates; a popup hits only inside its bounds, and there it is tested at the point shifted by the relative offset; only region objects can change |
| XdgGeometry.ToplevelWithoutRegionAlwaysHit | wayland/xdg_surface.go:44-47 | a top-level surface without a committed input region accepts every point and changes nothing |
| XdgShell.ToplevelOf | wayland/xdg_surface.go:17 | the surface's top-level role is present exactly when its reference names an xdg_toplevel object |
| XdgShell.ConfigureToplevel | wayland/xdg_toplevel.go:17-28 | the top level records the new size and sends configure with the width and height cut to 32 bits and an empty state list, whatever the old size |
| XdgShell.ConfigureEvents | wayland/xdg_surface.go:83-95 | a surface's configure ends with xdg_surface.configure carrying the serial, preceded, only when it has a top level, by event 3 on the top level carrying 0 |
| XdgShell.Configure | wayland/xdg_surface.go:79-100 | while a configure waits for its ack nothing is sent and nothing changes; otherwise the serial steps by one modulo 2^32, the surface starts waiting, and the events above go out |
| XdgShell.Resize | wayland/xdg_surface.go:102-109 | a top level is sent its new size first, then the surface is configured; nothing but the surface and its top level changes, and the surface only in its serial and waiting flag |
| XdgShell.ConfigurePopup | wayland/xdg_popup.go:20-35 | a popup whose parent, surface or positioner is gone is a fault; otherwise the popup is marked configured, sends its placement first, and both its surface and its parent are left waiting for an ack |
| XdgShell.Ping | wayland/xdg_base.go:17-19 | xdg_wm_base.ping on the base's id carries the clock in milliseconds cut to 32 bits |
| XdgShell.NewXdgSurface | wayland/xdg_base.go:49-50 | a fresh xdg_surface has the client's id, the wl_surface, no role, no parent, positioner or popup, serial 0, no pending configure, and empty geometry and offset |
| XdgShell.GetXdgSurface | wayland/xdg_base.go:37-58 | get_xdg_surface succeeds exactly when both ids parse and the second names a wl_surface; an unknown id is the registry's unknown-object error; success adds only the new xdg_surface for that surface |
| XdgShell.HandleBase | wayland/xdg_base.go:21-64 | destroy removes the base; create_positioner adds a fresh positioner under the new id exactly when it parses; get_xdg_surface as above; other opcodes are errors; no events |
| XdgShell.NextIndex | wayland/registry.go:24 | the next compositor-wide window index is one past the current one, held in 32 bits |
| XdgShell.AddToplevel | wayland/xdg_surface.go:119-129 | get_toplevel adds a fresh xdg_toplevel under the new id, links it to the surface, gives the surface the next window index and hands a new Wayland window with that index to the workspace; which ids name seats is unchanged |
| XdgShell.GetToplevel | wayland/xdg_surface.go:118-136 | after the window is added, the seat grabs the surface; the request fails, keeping the added window, exactly when the connection has no seat |
| XdgShell.GetPopup | wayland/xdg_surface.go:137-173 | get_popup succeeds exactly when the parent id names an xdg_surface and the positioner id names a positioner; a failure changes nothing and sends nothing |
| XdgShell.OpenPopup | wayland/xdg_surface.go:150-170 | the popup is registered under its id and linked both ways; the surface takes the parent, the positioner and the anchor point as its offset; it is pushed onto the parent's window when that window is shown, and its placement is sent |
| XdgShell.SetWindowGeometry | wayland/xdg_surface.go:174-184 | set_window_geometry succeeds exactly when x, y, width and height parse, and then only the geometry changes, to the rectangle at (x, y) with that width and height |
| XdgShell.HandleXdgSurface | wayland/xdg_surface.go:111-192 | destroy removes the id and takes the surface's window off the workspace; ack_configure clears the waiting flag; the other requests dispatch as above; other opcodes are errors |
| XdgShell.HandleToplevel | wayland/xdg_toplevel.go:30-77 | destroy removes the id; set_title stores the decoded title exactly when it parses; the other listed requests are accepted and ignored; opcode 11 and any other is an error; no events |
| XdgShell.DestroyPopup | wayland/xdg_popup.go:36-50 | destroy removes the popup's id; when the parent's window is shown its popup is popped and the parent forgets the popup, otherwise nothing else changes |
| XdgShell.GrabPopup | wayland/xdg_popup.go:51-63 | grab succeeds only when the seat id it names is this connection's seat, and then that seat grabs the popup's surface; otherwise nothing changes |
| XdgShell.HandlePopup | wayland/xdg_popup.go:36-69 | destroy and grab as above; reposition configures the parent surface; other opcodes are errors |
| XdgShell.ConfigureWaitsForAck | wayland/xdg_surface.go:79-100 | a second configure before the ack sends nothing; after ack_configure the next one carries the following serial |
| XdgShell.ResizeBeforeAck | wayland/xdg_surface.go:102-109 | a resize that arrives while a configure is unacknowledged still sends the top level its size, and nothing else |
| XdgShell.ToplevelIndicesDiffer | wayland/xdg_surface.go:128 | two top levels created in turn on one connection get different window indices |
| XdgShell.PopupOpenThenDestroy | wayland/xdg_popup.go:36-50 | a popup opened on a shown window is pushed, and destroying it pops exactly that window's popup, unlinks it from the parent and frees its id |
| XdgShell.SetTitleRoundTrip | wayland/xdg_toplevel.go:40-49 | any title without NUL bytes, sent as a Wayland string, is stored back unchanged |
| Seats.NewSeat | wayland/seat.go:161-168 | a new seat announces pointer-and-keyboard capabilities, then the name "default", and starts with no devices, no focus and serial 0 |
| Seats.Grab | wayland/seat.go:21-27 | without a keyboard a grab changes nothing; with one, the keyboard leaves at the current serial, the serial steps once, and the keyboard enters the new surface at that serial; only the seat's serial and the keyboard's focus change |
| Seats.GrabThenGrabLeavesFirst | wayland/seat.go:21-27 | after two grabs, the second leaves the first surface at the serial it entered with and enters the second surface at the next serial |
| Seats.ProcessKeyboardEvent | wayland/seat.go:29-34 | a key is forwarded only when the seat has a keyboard, and then the serial steps before the keyboard handles it; without a keyboard nothing changes |
| Seats.CheckIntersectAsWritten | wayland/seat.go:36-53 | the innermost popup whose input region takes the point wins over its parent; a missing surface gives no hit; only region objects can change |
| Seats.SelfPopupDiverges | wayland/seat.go:43-45 | a surface that is its own popup's surface makes the search recurse without end, whatever the depth allowed |
| Seats.CheckIntersect | wayland/seat.go:36-53 | the same search, but it stops at a surface already visited; a hit is an xdg_surface that was not visited before |
| Seats.CheckIntersectKeepsRegions | wayland/seat.go:36-53 | region objects stay region objects through the search |
| Seats.CheckIntersectAgrees | wayland/seat.go:36-53 | on every popup chain that does not revisit a surface, the guarded search gives the same hit and the same connection as the search as written |
| Seats.BareToplevelIsHit | wayland/seat.go:47-50 | a top level with no popup, no positioner and no input region is hit at any point and nothing changes |
| Seats.SetHasPointer | wayland/seat.go:69 | only the named surface's has-pointer flag changes |
| Seats.Unfocus | wayland/seat.go:63-70 | losing the pointer steps the serial, clears the old surface's has-pointer flag and sets the new focus; nothing else changes |
| Seats.Retarget | wayland/seat.go:57-88 | with no hit, an existing focus is left with a pointer.leave at the next serial and cleared; a first hit takes the focus with the flag cleared and sends nothing; a hit with the focused id keeps everything; another hit leaves the old surface at the next serial and focuses the new one; processing goes on exactly when something was hit |
| Seats.KeyboardRefocus | wayland/seat.go:103-108 | the keyboard leaves at the next serial and enters the surface at the one after, so the serial steps twice |
| Seats.EnterFocus | wayland/seat.go:101-127 | a surface first reached by the pointer is sent, with a keyboard, exactly the keyboard leave at serial + 1 and the keyboard enter and modifiers at serial + 2, and without one nothing; then pointer.enter at the final serial with the surface id and local position, then pointer.frame; the surface is marked as holding the pointer |
| Seats.PointerTail | wayland/seat.go:130-155 | exactly these messages, in this order: motion with the local position when the event moves, the button at the next serial when it has one (the only serial step), the axis with its time, axis and value when it has one, then the frame |
| Seats.DeliverTo | wayland/seat.go:89-158 | an event for the focused surface sends pointer.enter exactly when the surface did not already hold the pointer, always ends with a frame and leaves it holding the pointer; motion is reported in surface-local coordinates |
| Seats.MoveFocus | wayland/seat.go:57-88 | the focus follows the hit of the guarded search; no hit means no focus and at most one leave event; moving within the focused surface sends nothing and keeps its state |
| Seats.PointerMoved | wayland/seat.go:55-159 | after a motion, the surface under the pointer holds the focus and the pointer and the batch ends with a frame; with nothing under the pointer there is no focus and at most a leave |
| Seats.ProcessPointerEvent | wayland/seat.go:55-159 | without a pointer object nothing happens; a button or axis event without motion goes to the current focus, or nowhere when there is none; only the seat's serial and focus change in the seat |
| Seats.GetPointer | wayland/seat.go:173-185 | get_pointer succeeds exactly when its id parses, registers a fresh pointer under that id and makes it the seat's pointer; nothing else changes |
| Seats.GetKeyboard | wayland/seat.go:186-194 | get_keyboard succeeds exactly when its id parses, registers a fresh keyboard, sends its keymap and repeat info, and makes it the seat's keyboard |
| Seats.HandleSeat | wayland/seat.go:170-198 | opcode 0 is get_pointer, 1 is get_keyboard, any other is an error |
| Seats.GetKeyboardThenGrab | wayland/seat.go:21-27 | once a client has asked for a keyboard, a grab gives that keyboard the grabbed surface |
| Keyboards.AscendingSorted | wayland/keyboard.go:44-54 | the list of held keys sent on enter holds every held key once, in strictly increasing order |
| Keyboards.NewKeyboard | wayland/keyboard.go:17-38 | a new keyboard with no keys held and no focus is registered under its id, then keymap with format 0 and size 0 is sent with descriptor 0 attached |
| Keyboards.Depressed | wayland/keyboard.go:87-97 | the depressed mask has bit 0x1 exactly when shift is held and 0x4 exactly when control is held, and no other bits |
| Keyboards.Modifiers | wayland/keyboard.go:87-106 | wl_keyboard.modifiers carries the serial and the depressed mask, with latched, locked and group all 0 |
| Keyboards.EnterFields | wayland/keyboard.go:46-54 | enter carries the serial, the surface id, the number of held keys, and then each key as a 32-bit word |
| Keyboards.EnterPrefixIsCount | wayland/keyboard.go:49 | the key list is prefixed with a key count, not the byte length a Wayland array carries, so the event does not decode as an array for any non-empty key list |
| Keyboards.Enter | wayland/keyboard.go:40-59 | enter records the focused surface and sends enter with the held keys followed by the modifiers at the same serial |
| Keyboards.Leave | wayland/keyboard.go:61-70 | leave is sent, with the serial and the focused surface's id, exactly when the keyboard has a focus; the focus itself is kept |
| Keyboards.ProcessKey | wayland/keyboard.go:72-85 | the key state is always updated; when the keyboard has a focus, key with serial, time, key and state goes out, then the modifiers as they are after the key; without a focus nothing is sent |
| Keyboards.ShiftPressRelease | wayland/keyboard.go:87-97 | pressing shift adds 0x1 to the depressed mask and releasing it restores the mask |
| Keyboards.HandleKeyboard | wayland/keyboard.go:108-118 | release removes exactly the keyboard's id; any other opcode is an error |
| Keyboards.HandlePointer | wayland/pointer.go:17-44 | set_cursor succeeds exactly when serial, surface and hotspot parse, and then records only the cursor surface id and hotspot; release is accepted and ignored; other opcodes are errors |
| Keyboards.SetCursorIgnoresSerial | wayland/pointer.go:20-38 | the serial a client passes to set_cursor never affects the outcome |
| Surfaces.SameSpans | model/format.go:78-88 | which pixels a damage rectangle covers depends only on the image's bounds and stride, not on its pixels |
| Surfaces.Clamp | wayland/surface.go:47-62 | a clamped damage rectangle holds exactly the points of the damage that lie inside the buffer |
| Surfaces.PatchAll | wayland/surface.go:47-64 | patching keeps the cache's bounds, stride and length; every pixel either keeps its value or takes the buffer's byte at the same index; a pixel outside every clamped damage span keeps its value |
| Surfaces.PatchAllCopies | wayland/surface.go:47-64 | a pixel inside some clamped damage span takes the buffer's byte |
| Surfaces.ReadBuffer | wayland/surface.go:33-72 | a surface without a buffer in an ARGB pool keeps its cache; with no cache, no damage or a change of size the cache is replaced by the buffer's rows, otherwise the damage is patched in; reading past the pool's data is a fault |
| Surfaces.RenderFrame | wayland/surface.go:74-94 | a pending frame callback gets done with the four random bytes and is then deleted with delete_id from the display; with no callback nothing is sent; either way the callback is cleared |
| Surfaces.RenderFrameOnce | wayland/surface.go:74-94 | a second render without a new frame request sends nothing |
| Surfaces.Attach | wayland/surface.go:103-130 | attach succeeds exactly when it parses and names either no buffer or a wl_buffer; then the surface has an attachment and the pending buffer is that buffer or none; the offset is ignored; a failure changes nothing |
| Surfaces.Damage | wayland/surface.go:131-142 | damage succeeds exactly when it parses, and appends the rectangle at (x, y) with that width and height to the damage list |
| Surfaces.Frame | wayland/surface.go:143-150 | frame succeeds exactly when its id parses and replaces the pending callback id |
| Surfaces.SetInputRegion | wayland/surface.go:151-170 | set_input_region succeeds exactly when it parses and names no region or a wl_region, which becomes the pending input region; a failure changes nothing |
| Surfaces.Commit | wayland/surface.go:177-218 | commit makes the pending input region current; a pending buffer is read into the cache and released, an attachment of no buffer clears the cache; afterwards nothing is pending or attached; the first commit sends wl_surface.enter for the output, later ones send nothing; a bad buffer or a missing output is a fault; damage, children and the frame callback are kept |
| Surfaces.HandleSurface | wayland/surface.go:96-225 | each request dispatches as above; the hint requests 5, 8, 9 and 10 are ignored; 7 and any other opcode is an error; a surface's damage list only ever grows |
| Surfaces.EnterSentOnce | wayland/surface.go:209-216 | after one successful commit, no later commit sends an event to the client |
| Surfaces.AttachNothingClears | wayland/surface.go:113-118 | attaching no buffer and committing leaves the surface without content |
| Surfaces.FreshCacheCopiesBuffer | wayland/surface.go:41-44 | a surface's first read copies the buffer's rows byte for byte from its offset in the pool |
| Window.NewWaylandClient | wayland/client.go:23-25 | a new Wayland window has the given index, parent and surface, no pointer, no popups and no attempted geometry |
| Window.PushPopup | wayland/client.go:35-37 | the pushed popup is on top, and popping it gives back the window as it was |
| Window.PopPopup | wayland/client.go:39-42 | popping returns the top popup and removes exactly it; an empty stack gives nothing and changes nothing |
| Window.PopupsAreLifo | wayland/client.go:35-42 | push then pop is the identity on a window and returns the pushed popup |
| Window.ResizeAttempt | wayland/client.go:44-47 | a resize is attempted exactly when the size differs from the last attempted one, and then the attempt is recorded as the rectangle from the origin |
| Window.ResizeIsIdempotent | wayland/client.go:44-47 | attempting the same non-negative size twice attempts it once |
| Window.ReceivePointer | wayland/client.go:164-177 | a pointer event is claimed exactly when the connection has a seat; then the window holds the pointer and records the motion's position, if any; without a seat nothing changes |
| Window.HandlePointerLeave | wayland/client.go:190-195 | after a pointer leave the window does not hold the pointer, and nothing else changes |
| Clients.Resize | wayland/client.go:44-53 | the surface is resized only for a new attempted size that also differs from its window geometry; otherwise nothing is sent; surfaces, popups, seats, pointers and ids are untouched |
| Clients.ResizeTwiceSendsOnce | wayland/client.go:44-53 | resizing a window twice to the same size sends nothing the second time and changes nothing |
| Clients.RenderFrameAt | wayland/surface.go:74-94 | firing one surface's frame callback clears only that callback |
| Clients.Subsurface | wayland/client.go:67-86 | a subsurface with content is copied at its position plus the parent's offset and outlined in red before its own children are drawn; one without content draws and sends nothing; only surfaces change |
| Clients.Subsurfaces | wayland/client.go:103-105 | drawing a list of subsurfaces keeps ids and every non-surface object |
| Clients.PopupLayer | wayland/client.go:107-131 | a popup that was never configured is configured instead of drawn; a configured one with content is copied into its bounds at the relative offset, taken from its window geometry's origin, outlined in blue, and its frame callback fires |
| Clients.Popups | wayland/client.go:107-131 | each popup adds at most two paint steps |
| Clients.UnconfiguredPopupIsSkipped | wayland/client.go:108-111 | an unconfigured popup paints nothing and only sends its configure |
| Clients.CursorImage | wayland/client.go:134-142 | a cursor is drawn only while the window holds the pointer, the seat has a pointer, and its cursor id names a surface with content |
| Clients.Cursor | wayland/client.go:134-152 | the cursor image is copied at the pointer's local position less the hotspot and its frame callback fires; with no cursor image nothing happens |
| Clients.SourceOrigin | wayland/client.go:95-98 | the window is read from its geometry's origin, or from the image's origin when the geometry has no width |
| Clients.Draw | wayland/client.go:92-154 | a surface without content draws and sends nothing; otherwise the window's content fills the view first and its own frame callback fires first |
| Clients.Buffer | wayland/client.go:88-155 | rendering always resizes first and its events go first; the window's content fills the view when there is content |
| Clients.ProcessKeyboardEvent | wayland/client.go:157-162 | a key goes to the connection's seat, or is dropped when there is none |
| Clients.ProcessFocus | wayland/client.go:179-184 | focusing a window makes the connection's seat grab its surface; without a seat nothing happens |
| Clients.ProcessPointerEvent | wayland/client.go:164-177 | a pointer event is claimed exactly when the connection has a seat, and then goes to the seat with the window's surface; unclaimed, nothing changes |
| Clients.FocusActivatesSurface | wayland/client.go:179-184 | with a keyboard, focusing a window gives its wl_surface the keyboard focus |
| Clients.LeaveHidesCursor | wayland/client.go:134-195 | after a pointer leave the window draws no cursor |
| Tiling.PanelGet | workspace/panel.go:34-43 | a panel lookup finds a window of the panel with that index, and finds nothing exactly when no window has it |
| Tiling.Filter | workspace/panel.go:45-71 | a removal keeps exactly the windows it does not select, never adding one |
| Tiling.DrainPanel | workspace/panel.go:49-56 | popping every window and pushing back the unselected ones keeps them in their original order |
| Tiling.ReplaceFirst | workspace/panel.go:37-41 | updating the window a lookup finds changes at most the windows with that index, and keeps the panel's length |
| Tiling.ReplaceFirstFound | workspace/panel.go:37-41 | without a window of that index nothing changes; otherwise a lookup then finds the updated window |
| Tiling.AddTopLevel | workspace/panel.go:23-32 | a new window goes on top of the panel the focus leads to: the layout is unchanged, the window is inserted just before that panel's windows, and the tree's index bag gains exactly its index |
| Tiling.AddToSecond | workspace/split.go:27-31 | on a split focused on its second half the window goes to the second half, with the same guarantees |
| Tiling.AddToFirst | workspace/split.go:27-31 | on a split focused on its first half the window goes to the first half, with the same guarantees |
| Tiling.GetTopLevel | workspace/split.go:33-41 | a tree lookup gives the first window with the index in tree order, the first half before the second |
| Tiling.Remove | workspace/split.go:43-59 | a removal by index or by connection keeps the layout and removes the selected windows from every panel, keeping the rest in order |
| Tiling.ReplaceTopLevel | workspace/split.go:33-41 | updating the window a lookup finds keeps the layout and changes at most that window |
| Tiling.AddThenGet | workspace/split.go:27-41 | a window added under an index no window holds is what a lookup of that index then returns |
| Tiling.RemoveThenGet | workspace/split.go:43-50 | after removing an index, no window with it is found |
| Tiling.RemoveAllWithParentKeepsOthers | workspace/split.go:52-59 | removing a connection's windows drops exactly the windows of that connection; when it has none the tree is unchanged |
| Tiling.NoSelectedNoChange | workspace/panel.go:45-71 | a removal that selects no window leaves the tree as it was |
| Tiling.GetBounds | workspace/split.go:83-95 | both halves of an active split are proper rectangles |
| Tiling.SplitPointInRange | workspace/split.go:85-91 | with a ratio from 0 to 1 the split point lies between 0 and the panel's length |
| Tiling.BoundsPartition | workspace/split.go:83-95 | with a ratio from 0 to 1, every point of the split panel lies in exactly one half and no point outside it lies in either |
| Tiling.SubView | model/format.go:94-108 | a sub-image's bounds hold exactly the points of the view that lie in the requested rectangle |
| Tiling.Leave | workspace/split.go:192-202 | a pointer leave reaches the top window of every panel below; the layout and the windows' indices are kept |
| Tiling.PanelPointer | workspace/panel.go:92-117 | with Ctrl+Alt held, a left press on a non-empty panel while nothing is dragged lifts the top window into the drag; otherwise the top window gets the event and claims it only when its connection has a seat; an empty panel does nothing; no index is lost or duplicated |
| Tiling.NodePointer | workspace/split.go:142-190 | a pointer event on any subtree keeps every window index, counting the dragged one, and the drag state only starts, stops or stays |
| Tiling.DuoDrop | workspace/split.go:148-168 | a drop on an active split puts the dragged window into the half under the pointer and ends the drag, or does nothing when the pointer is in neither half; the event is claimed either way |
| Tiling.DuoPointer | workspace/split.go:173-189 | an active split never reports an ordinary pointer event as claimed |
| Tiling.FirstHalfPointer | workspace/split.go:175-178 | over the first half, that half gets the event at the local position and the focus, and the second half gets a pointer leave |
| Tiling.SecondHalfPointer | workspace/split.go:179-183 | over the second half, that half gets the event and the focus, and the first half gets a pointer leave |
| Tiling.PickUpPutDown | workspace/panel.go:96-105 | pressing with Ctrl+Alt lifts the top window and releasing drops it back on top of the same panel, ending the drag |
| Tiling.DuoRoutesToHalf | workspace/split.go:173-189 | in an active split a non-drop event goes to the first half when the pointer is over it, else to the second half when over that, else nowhere, and is never claimed |
| Tiling.NodeKey | workspace/split.go:97-140 | a key event never changes the windows, and reaches at most one window, which is the top of some panel |
| Tiling.SplitActivates | workspace/split.go:117-135 | Ctrl+Alt+V or Ctrl+Alt+H on an inactive split activates it at ratio 0.5 with the old child first and an empty panel second, vertical exactly when V is held; nothing is delivered and the focus still leads to the old panel |
| Tiling.ShrinkGrowRestores | workspace/split.go:102-105 | Ctrl+Alt+J followed by Ctrl+Alt+L leaves an active split as it was |
| Tiling.NodeRender | workspace/split.go:61-81 | rendering paints the top window of every panel exactly once, in tree order, and keeps every index |
| Tiling.DuoRender | workspace/split.go:64-77 | an active split records its new bounds, paints both halves and draws the white divider last |
| Tiling.RenderTwiceNoResize | workspace/panel.go:73-81 | rendering a panel twice at one size asks its top window to resize only the first time |
| Tiling.NewDragOverlay | workspace/dragoverlay.go:64-68 | the root starts with no windows and no drag |
| Tiling.OverlayPointer | workspace/dragoverlay.go:47-51 | the overlay records the pointer before the tree handles the event; no window index is lost or duplicated |
| Tiling.OverlayKey | workspace/dragoverlay.go:31-46 | a key event never changes the drag or the set of windows |
| Tiling.OverlayRender | workspace/dragoverlay.go:52-63 | the tree is painted, then the dragged window, if any, and a red marker at the drag pointer is drawn last |
| LegacyWorkspace.NewWorkspace | workspace/workspace.go:37-39 | a new workspace has no children, nothing focused and is not quitting |
| LegacyWorkspace.GetChild | workspace/workspace.go:45-54 | a child is found exactly when its id is in the workspace, and it is that child |
| LegacyWorkspace.Configure | workspace/workspace.go:65-86 | every child gets its slot, nothing else in the workspace changes, and each child in order is asked to resize to its slot's size |
| LegacyWorkspace.Place | workspace/workspace.go:69-84 | laying out keeps each child's id and parent and gives the i-th child in order the i-th slot |
| LegacyWorkspace.Resizes | workspace/workspace.go:72-82 | one resize call per child, in order, each for that child's slot size |
| LegacyWorkspace.BoundsDisjoint | workspace/workspace.go:76-84 | with the main column inside the workspace no two slots share a point |
| LegacyWorkspace.BoundsInside | workspace/workspace.go:76-84 | with the main column inside the workspace every slot lies inside the workspace |
| LegacyWorkspace.StackFits | workspace/workspace.go:80 | the stacked slots together are no taller than the workspace |
| LegacyWorkspace.LayoutDisjoint | workspace/workspace.go:65-86 | after a layout, two different children never share a point |
| LegacyWorkspace.AddChild | workspace/workspace.go:88-103 | the new child takes the next id and joins the end of the order with its parent; all children are laid out again; focus, size, keyboard state and quitting are unchanged; the new child is told it has focus exactly when it is the only one, and then every child in order is asked to resize to its slot |
| LegacyWorkspace.Insert | workspace/workspace.go:93-97 | inserting adds exactly one child under a fresh id, at the end of the order, and advances the id counter |
| LegacyWorkspace.FilterOut | workspace/workspace.go:110-115 | removing an id from the order keeps exactly the other ids |
| LegacyWorkspace.RemoveUndoesInsert | workspace/workspace.go:88-120 | removing a child just inserted restores the order and the children |
| LegacyWorkspace.RemoveChild | workspace/workspace.go:105-120 | exactly the child with the id is removed from the children and the order; the rest are laid out again and each, in order, is asked to resize to its slot; nothing else in the workspace changes |
| LegacyWorkspace.KeepOtherParents | workspace/workspace.go:127-132 | the order keeps exactly the children whose parent differs |
| LegacyWorkspace.RemoveChildren | workspace/workspace.go:122-143 | exactly the children of the given parent are removed and the order keeps the others; they are laid out again and each, in order, is asked to resize to its slot; nothing else in the workspace changes |
| LegacyWorkspace.Resize | workspace/workspace.go:56-63 | a resize records the new size and lays the same children out for it, asking each in order to resize to its new slot; nothing else in the workspace changes |
| LegacyWorkspace.ProcessKeyboardEvent | workspace/workspace.go:194-208 | the key state is always updated; with Alt and Esc held the workspace quits and forwards nothing; otherwise the key goes to the focused child, if there is one |
| LegacyWorkspace.AltEscQuits | workspace/workspace.go:200-203 | pressing Esc while Alt is held quits |
| LegacyWorkspace.RoutePointer | workspace/workspace.go:229-243 | each child in order gets the event, in its own coordinates, when the pointer is in its slot and a pointer leave otherwise; the focus moves only to a child that claims the event under the pointer |
| LegacyWorkspace.PointerCall | workspace/workspace.go:231-241 | a child gets the event exactly when the point is in its slot, moved by the slot's origin, and a leave otherwise |
| LegacyWorkspace.ProcessPointerEvent | workspace/workspace.go:210-247 | a motion records the pointer position; outside the workspace every child gets a leave and the focus is kept; otherwise the focus changes only to a claiming child under the pointer; the event is always claimed |
| LegacyWorkspace.PointerReachesOneChild | workspace/workspace.go:229-243 | after a layout, a pointer event reaches at most one child |
| LegacyWorkspace.HandlePointerLeave | workspace/workspace.go:249-259 | a pointer leave goes to every child |
| LegacyWorkspace.ProcessFocus | workspace/workspace.go:261-267 | focusing the workspace focuses its first child, or does nothing without children |
| LegacyWorkspace.ProcessUnFocus | workspace/workspace.go:269-276 | unfocusing tells every child and leaves nothing focused |
| LegacyWorkspace.UnFocusSilencesKeys | workspace/workspace.go:205-207 | once unfocused, no key reaches a child |
| LegacyWorkspace.AckFrame | workspace/workspace.go:186-192 | every child is told the frame was acknowledged |
| LegacyWorkspace.BlitAll | workspace/workspace.go:164-184 | every child with a buffer is copied into its slot; one without a buffer, or with a buffer of the wrong size, is asked to resize to its slot |
| LegacyWorkspace.Buffer | workspace/workspace.go:144-162 | every child with a buffer is drawn, and every child without one or with a buffer of the wrong size is asked to resize to its slot; the pointer marker is drawn at the pointer exactly when no child has focus |
| Server.HandleNull | wayland/registry.go:15-20 | every request on object 0 is an error and changes nothing |
| Server.Initial | wayland/wayland.go:75-76 | a new connection's registry holds exactly the null object at 0 and the display at 1 with last sync 5; no descriptors are queued and nothing is pinged |
| Server.DispatchCore | wayland/wayland.go:114-118 | a request goes to the handler of the kind of object its id names: null, display, registry binding, compositor, region, surface, buffer, shm, pool, subcompositor or subsurface |
| Server.DispatchShell | wayland/wayland.go:114-118 | likewise for seat, keyboard, pointer, data devices, output, viewporter and the xdg-shell objects |
| Server.Dispatch | wayland/wayland.go:114-118 | every object kind has exactly one handler |
| Server.WindowIndices | workspace/split.go:33-41 | an index is shown exactly when the workspace holds a window with it |
| Server.Effect | wayland/xdg_surface.go:116-166 | adding a window keeps the layout and adds its index once; removing drops exactly the windows with that index; a popup push or pop changes the window a lookup finds, or nothing when there is none; other effects leave the workspace alone |
| Server.Apply | wayland/xdg_surface.go:116-166 | carrying out a list of effects keeps the layout, and a list with no workspace effect changes nothing |
| Server.ApplyAppend | wayland/wayland.go:97-124 | carrying out two lists in turn is carrying out their concatenation |
| Server.AddedWindows | workspace/panel.go:23-32 | after adding a window the workspace holds exactly its old windows and the new one |
| Server.ExchangeAsWritten | wayland/xdg_surface.go:128 | one request as written: the handler runs on the connection's own counter, and the workspace takes its effects |
| Server.Exchange | wayland/wayland.go:55 | one request with one counter for the whole server: the handler sees the shared counter and leaves its new value shared |
| Server.GetToplevelNumbers | wayland/xdg_surface.go:118-129 | get_toplevel reports its window first, numbered one past the counter the connection sees, and leaves that number in it |
| Server.PerConnectionIndicesCollide | wayland/xdg_surface.go:128 | as written, the first top levels of two fresh connections both get window index 1 |
| Server.RemovingSharedIndexTakesBoth | wayland/xdg_surface.go:116 | when two windows share an index, destroying one also removes the other from the workspace |
| Server.SharedIndicesDiffer | wayland/xdg_surface.go:128 | with one server-wide counter, two top levels from any two connections get consecutive, different indices |
| Server.Retry | wayland/wayland.go:102-106 | a stalled read with a ping target pings it with the clock and counts one more retry; a ping target that is no longer an xdg_wm_base is a fault |
| Server.Deliver | wayland/wayland.go:114-122 | a packet for an unknown id ends the loop; otherwise the request is handled, its effects are appended in order, and a handler error ends the loop |
| Server.ReadError | wayland/wayland.go:99-109 | a read failure ends the loop with that error unless it is transient, fewer than 10 retries were made and there is a ping target, in which case one ping is sent and the count goes up |
| Server.Turn | wayland/wayland.go:97-124 | a read that restarts does nothing; a failed read goes to the retry rule; a packet is delivered once its descriptors are queued; effects are only ever appended and the retry count rises only on a failed read |
| Server.Serve | wayland/wayland.go:97-124 | the loop only appends effects, does nothing once ended, and never counts more than 10 retries |
| Server.ServeInOrder | wayland/wayland.go:97-124 | serving two runs of reads in turn is serving them together |
| Server.CloseAll | wayland/wayland.go:90-93 | every queued descriptor is closed once, in queue order |
| Server.Teardown | wayland/wayland.go:79-95 | teardown drops exactly this connection's windows from the workspace, keeping its layout and counter, empties the registry and closes every queued descriptor |
| Server.Handle | wayland/wayland.go:65-127 | a connection counts at most 10 retries, and once its loop has ended none of its windows remain, its registry is empty and no descriptor is left queued |

Where the design description and the Go code disagree, the model follows the code:

- `RelativeOffset` adds one parent's offset, not the offsets of the whole popup chain (wayland/xdg_surface.go:30-36).
- A popup's input region is tested at the pointer plus the offset, not minus it (wayland/xdg_surface.go:58-76).
- A top level's `Configure` always sends the size; the "only if changed" test is commented out (wayland/xdg_toplevel.go:17-28).
- The keyboard `enter` key array is prefixed with the number of keys, not its byte length (wayland/keyboard.go:40-59).
- Top-level window indices come from a per-connection counter, so they are not unique across clients (see Findings).

## Left out

- Socket I/O: `RecvMsg`, `SendMessage`, `SendMessageWithFd`, `Listen` and the `getConnFd` call in `ReadPacket`. Reads arrive as a sequence of `Frame.Framed` results, sent messages become `Send`/`SendWithFd` entries in the output log, and descriptors received with a message are a parameter.
- `mmap`/`mremap` and memfd: pool memory is an abstract byte sequence, and the mapping outcome is a parameter.
- The `crypto/rand` serial bytes of `RenderFrame` and the wall clock of `Ping` and the pointer model are parameters.
- Floating point: `FixedField` encodes `v` as the 32-bit pattern of `v * 256` instead of the float64 bit trick; pointer coordinates are integers; a split's ratio is kept in tenths; the legacy layout's 0.66666 main width is a parameter bounded by the workspace width.
- Concurrency: the mutexes of the registry, panel, split and workspace, and the atomic counter of the registry. Everything runs sequentially.
- `debug.SetPanicOnFault` and `recover`: a Go runtime panic is the error `Fault`, after which the connection is torn down.
- Go's map iteration order is random. `FindSeat`/`FindOutput` take the least wire id, the keyboard's down keys are listed in ascending order, and the legacy workspace iterates in `order`. Contracts that depend on the choice state only that some candidate is taken.
- `Clients.Subsurface`: Go recurses through subsurface children without a bound. The model takes a `fuel` depth and paints nothing below it, so a subsurface tree deeper than the fuel, or a cyclic one, is not fully modelled.
- `Seats.CheckIntersectAsWritten` carries a `fuel` depth for the same reason; running out of fuel is reported as divergence (see Findings).
- The paint plan of `Clients.Draw` lists which images go where; it is not rasterised onto a framebuffer.
- `WaylandClient.ProcessUnFocus` (wayland/client.go:186-188) has an empty body and has no member.
- `Buffer.Release`, `Surface.AddSubSurface` and the registry's `Close` are called but their code is not part of this model. Release is the output `Released(buffer)`, AddSubSurface appends the subsurface to the parent's children, and Close drops every entry.
- `wayland/compositor.go:29` calls `NewRegion` with two arguments, while `wayland/region.go:23` declares one; the model creates the region with its id. `wayland/shm_pool.go:43` sets `server` and `backing` fields that the `Buffer` type (wayland/buffer.go:8-19) does not declare; the model keeps the declared fields. A buffer's format is never set and so is `FormatARGB`.
- `wayland/client.go:101` takes a serial from `RenderFrame`, which returns nothing (wayland/surface.go:74); the serial used for configuring popups is a parameter.
- A Go pointer is an address into the connection's heap. `destroy` drops only the wire id and the object stays on the heap, so a use through a pointer held before `destroy` behaves as in Go, and only a later lookup by id fails.
- `wayland/linux_dma.go`: prototype dma-buf support whose bind is commented out.
- `wayland/viewporter.go` is one object kind whose handler rejects every message; `model/client.go` holds only types, transcribed as datatypes.
- The DRM and X11 frontends, evdev device reading and probing, the JPEG dump and `main`: hardware and process setup, outside the compositor core. Of the evdev package only the axis-name tables of `consts.go` are modelled.
- With Ctrl+Alt+Enter held, the drag overlay starts `./elope` in a goroutine that exits the compositor when the program ends (workspace/dragoverlay.go:31-44). The model starts nothing and passes the event on to the split, as the code does next.
- `utils/log.go` and every `utils.Debug` call: printing only.

## Findings

| source | as written | input that shows it | evidently intended | confidence | as-written member | corrected member |
|---|---|---|---|---|---|---|
| wayland/seat.go:36-53, wayland/xdg_surface.go:155-158 | `checkIntersect` follows `surface.popup.surface` with no guard against revisiting a surface, and `get_popup` accepts the surface itself as the parent | xdg_surface #X sends `get_popup(new_id, X, positioner)`; the next pointer event recurses through X without end | the search stops at a surface already visited, or a surface cannot parent its own popup | medium; not executed | Seats.CheckIntersectAsWritten, Seats.SelfPopupDiverges | Seats.CheckIntersect, Seats.CheckIntersectAgrees |
| wayland/xdg_surface.go:128, wayland/registry.go:24, wayland/wayland.go:55 | `get_toplevel` numbers the window from the connection's own `registry.globalIdx`, yet the workspace is shared by all connections and finds and removes windows by that number | two clients each send their first `get_toplevel`: both windows get index 1, and destroying either xdg_surface removes both windows | one server-wide counter, so window indices are distinct across connections | high; not executed | Server.ExchangeAsWritten, Server.PerConnectionIndicesCollide, Server.RemovingSharedIndexTakesBoth | Server.Exchange, Server.SharedIndicesDiffer |
