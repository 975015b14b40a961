# uvc-gadget in Dafny

This project models the sequential core of ujuo/uvc-gadget. The program exposes an RGB camera and a depth sensor to a USB host as a UVC webcam. The model has four parts.

- **The UVC gadget device** (`uvc_gadget.dfy`, `uvc_requests.dfy`, `uvc_streaming.dfy`). This is the `uvc_device` record and the request handlers that update it in place.
  - SETUP requests are routed by `bmRequestType` (section 9.3 of USB 2.0).
  - The Video Control interface answers the processing-unit brightness and contrast controls. It keeps the Request Error Code control (section 4.2.1.2 of the USB Video Class 1.1 specification).
  - The Video Streaming interface answers the Probe and Commit controls (section 4.3.1.1 of the same specification). These use the 34-byte `uvc_streaming_control` structure, which is modelled with its little-endian wire layout and proved to round-trip.
  - `uvc_fill_streaming_control` builds the control offered to the host.
  - The data phase negotiates format, frame and interval. A commit forces 640x480.
  - Stream on, stream off and disconnect each change the state.
  - Also covered: the `select` timeout split and the max-packet table.
  - Each handler is a method of the class `UvcDevice`, proved against a function giving the record after the call.
- **The frame FIFO and the RGB+depth merge** (`fifo.dfy`, `rgbd.dfy`).
  - The `fifo_t` ring of `RGBDClass.hpp` is a class over an array of slots, with its `uint8` head, tail, size and mask.
  - `TRGBDClass` holds the 32-slot RGB history. Three steps use the ring:
    - the merge step `runner` pushes a pair, or drops it when the ring is full;
    - the RGB capture loop fills the history;
    - `fill_buf_func` pops a pair, or does nothing when the ring is empty.
- **`TVector`** (`vector.dfy`): the growable array of `private_vector.cpp`. It has explicit capacity growth and shifting insert and remove, on a Dafny `array`.
- **The capture side** (`video.dfy`): the pure and stateful logic of `video_api.c`.
  - `get_size`, and the module-to-device dispatch of `open_video_device` and `vidioc_set_ctrl`.
  - The buffer-count rule of `init_mmap` and the unmapping loop of `uninit_video_device`.
  - The select-retry and copy rule of `dequeue_and_capture`.

Kernel calls (`open`, `ioctl`, `mmap`, `munmap`, `select`, `calloc`) are not modelled. Each appears as a parameter standing for what the kernel or allocator answered. Some of the calls the program makes are appended to logs: on the gadget, the event subscriptions and the video queue calls; on the capture side, the opened device nodes, the sensor controls, and the addresses passed to `munmap` and `free` by `uninit_video_device`.

`bits.dfy` holds shared machine-level helpers: bytes, the C `&` on non-negative operands, little-endian layouts and `memcpy`.

## Model

| member | source | states |
|---|---|---|
| Bits.AndLowMask | src/RGBDClass.hpp:45-47 | `x & (2^k - 1)` keeps exactly `x mod 2^k`, which is what the FIFO's `& mask` relies on |
| Bits.LeValueOfBytes | src/uvc_api.c:1224 | writing a value in n little-endian bytes and reading it back gives the value modulo 256^n |
| Bits.LeBytesOfValue | src/uvc_api.c:1410 | reading n little-endian bytes and writing the value back gives the same bytes |
| Bits.Memcpy | src/RGBDClass.cpp:132-133 | `memcpy(dst, src, n)`: the first n bytes come from src and the rest of dst is kept |
| Fifo.Advance | src/RGBDClass.hpp:45 | the masked `uint8` increment never exceeds the mask |
| Fifo.DataIn | src/RGBDClass.hpp:49 | `DATA_IN_FIFO` is `(head - tail) mod size` and lies in [0, size) |
| Fifo.AdvanceIsSuccessor | src/RGBDClass.hpp:45-47 | for a power-of-two size, `QUE_FIFO_*` moves the index to `(i + 1) mod size` |
| Fifo.RingEnd | src/RGBDClass.hpp:49 | tail plus the frame count lands exactly on head |
| Fifo.FullIffSizeMinusOne | src/RGBDClass.hpp:48 | `FIFO_FULL` holds exactly when the ring holds size - 1 frames |
| Fifo.EmptyIffNoData | src/RGBDClass.hpp:43 | `FIFO_EMPTY` holds exactly when the frame count is 0 |
| Fifo.PushAddsOne | src/RGBDClass.hpp:45 | advancing head on a ring that is not full adds one frame |
| Fifo.PopRemovesOne | src/RGBDClass.hpp:47 | advancing tail on a ring that is not empty removes one frame |
| Fifo.WriteAtHeadKeepsWindow | src/RGBDClass.hpp:44 | writing the slot at head leaves the frames waiting between tail and head unchanged |
| Fifo.WindowPush | src/RGBDClass.hpp:45 | a push appends the head slot to the waiting frames |
| Fifo.WindowPop | src/RGBDClass.hpp:47 | a pop drops the oldest waiting frame |
| Fifo.FourthPushRefused | src/RGBDClass.hpp:48 | with size 4, three pushes from empty are accepted and the fourth is refused |
| Fifo.SizeThreeRingIsStuck | src/RGBDClass.hpp:42 | with a size that is not a power of two (3), head never moves and a fresh ring counts as full |
| Fifo.FrameFifo.constructor | src/RGBDClass.hpp:67 | the backing store has four slots of the sizes the struct fixes, and all indices are zero |
| Fifo.FrameFifo.Init | src/RGBDClass.hpp:42 | `INIT_FIFO`: head = tail = 0, size = s, mask = s - 1; for a power-of-two s the ring is empty |
| Fifo.FrameFifo.Empty | src/RGBDClass.hpp:43 | true exactly when no frame waits |
| Fifo.FrameFifo.Full | src/RGBDClass.hpp:48 | true exactly when size - 1 frames wait |
| Fifo.FrameFifo.Count | src/RGBDClass.hpp:49 | the number of waiting frames, always below size |
| Fifo.FrameFifo.HeadSlot | src/RGBDClass.hpp:44 | `DQUE_FIFO_HEAD` is the slot at head, inside the store |
| Fifo.FrameFifo.TailSlot | src/RGBDClass.hpp:46 | `DQUE_FIFO_TAIL` is the slot at tail, which holds the oldest waiting frame |
| Fifo.FrameFifo.WriteHead | src/RGBDClass.hpp:44 | writing through the head pointer changes only that slot and keeps the waiting frames |
| Fifo.FrameFifo.QueHead | src/RGBDClass.hpp:45 | head advances by one modulo size; on a ring that is not full the head slot is appended to the contents |
| Fifo.FrameFifo.QueTail | src/RGBDClass.hpp:47 | tail advances by one modulo size; on a non-empty ring the oldest frame leaves the contents |
| Rgbd.PreviousSlotPattern | src/RGBDClass.cpp:125 | `(i - 1) & 31` on the 32-bit pattern of i - 1 is `(i + 31) mod 32` |
| Rgbd.PreviousSlot | src/RGBDClass.cpp:125 | the slot runner reads is the history slot just before `rgb_index` |
| Rgbd.NextSlot | src/RGBDClass.cpp:177-178 | `idx++; idx &= 31` keeps the index in [0, 32) as `(i + 1) mod 32` |
| Rgbd.PreviousOfNext | src/RGBDClass.cpp:125 | the slot runner reads after a capture is the slot that capture wrote |
| Rgbd.InitCode | src/RGBDClass.cpp:304-326 | Init returns 0 exactly when every step succeeds, otherwise the error code of the first failing step |
| Rgbd.RgbdCamera.constructor | src/RGBDClass.cpp:65-73 | the buffer count is kept; all done flags, the exit request and the callback are cleared |
| Rgbd.RgbdCamera.RegisterCallback | src/RGBDClass.cpp:91-96 | stores whether a callback is present and returns 0 |
| Rgbd.RgbdCamera.Init | src/RGBDClass.cpp:291-327 | sets the 640x480 geometry and `rgb_size` = 640*480*2, initialises the FIFO with the buffer count before opening anything, then returns the first failure's code; each thread-started and capturing flag is raised exactly when every step before it succeeded, and the done flags, the exit request and the RGB capture state are kept |
| Rgbd.RgbdCamera.Uninit | src/RGBDClass.cpp:337-358 | stops both captures and raises every done flag; no other field changes |
| Rgbd.RgbdCamera.Runner | src/RGBDClass.cpp:119-148 | copies the depth frame; when the FIFO is full, changes no index or slot; otherwise fills the head slot from the previous RGB slot and the depth frame, logs the callback and appends the pair to the contents; always requeues the depth buffer; only the depth frame, the callback log, the requeue count and the FIFO change |
| Rgbd.RgbdCamera.CaptureRgb | src/RGBDClass.cpp:172-182 | writes frame and stamp at `rgb_index` before moving `rgb_index` to the next slot, and requeues the buffer |
| Rgbd.RgbdCamera.RgbCaptureThread | src/RGBDClass.cpp:161-208 | when the device fails to initialise, the index, the history, the capturing flag and the requeue count are unchanged; otherwise capturing is on, each of the last 32 frames sits in slot (its position mod 32), slots no frame reached keep their contents, one buffer is requeued per frame, and `rgb_index` points past the newest |
| Rgbd.RgbdCamera.FillBuf | src/RGBDClass.cpp:217-239 | an empty FIFO leaves destination and ring untouched; otherwise the oldest pair's RGB bytes are copied and that pair leaves the contents |
| Vector.GrownCapacityBounds | src/private_vector.cpp:41-57 | the grown capacity is at least the minimum, at least old+increment (or twice the old when the increment is not positive), and is one of the two |
| Vector.InsertAt | src/private_vector.cpp:107-119 | the element lands at i, earlier elements stay and later ones shift right by one |
| Vector.RemoveAt | src/private_vector.cpp:94-105 | earlier elements stay and later ones shift left by one |
| Vector.RemoveInsert | src/private_vector.cpp:94-119 | removing what was just inserted at i gives back the sequence |
| Vector.InsertRemove | src/private_vector.cpp:94-119 | re-inserting the element removed at i gives back the sequence |
| Vector.InsertRemoveMultiset | src/private_vector.cpp:94-119 | insert adds exactly one copy of the element and remove takes away exactly one |
| Vector.TVector.constructor | src/private_vector.cpp:6-12 | an empty vector with the given capacity and increment |
| Vector.TVector.Capacity | src/private_vector.hpp:21 | the capacity is the array length and never below the count |
| Vector.TVector.Size | src/private_vector.hpp:22 | the number of elements |
| Vector.TVector.EnsureCapacityHelper | src/private_vector.cpp:41-57 | reallocates to the grown capacity, at least the minimum, and keeps the elements |
| Vector.TVector.EnsureCapacity | src/private_vector.cpp:33-39 | grows only when the minimum exceeds the capacity; the elements are kept |
| Vector.TVector.TrimToSize | src/private_vector.cpp:19-31 | the capacity becomes the count and the elements are kept |
| Vector.TVector.SetSize | src/private_vector.cpp:59-70 | grows only when n exceeds both count and capacity; when shrinking, clears [n, old count); the count ends as n; the slots from the old count on are null handles after growth and keep their old contents otherwise |
| Vector.TVector.IndexOf | src/private_vector.cpp:72-81 | the least matching index at or after k, or -1 when there is none |
| Vector.TVector.Contains | src/private_vector.hpp:25 | true exactly when the element is present |
| Vector.TVector.LastIndexOf | src/private_vector.cpp:83-92 | the greatest matching index at or before k, or -1 when there is none |
| Vector.TVector.LastIndexOfAll | src/private_vector.hpp:27 | the last occurrence among the elements, or -1 |
| Vector.TVector.RemoveElementAt | src/private_vector.cpp:94-105 | on a non-empty vector, the elements become `RemoveAt(old, i)` for i inside the count, and lose the last element for i at or past it; the vacated slot is cleared |
| Vector.TVector.InsertElementAt | src/private_vector.cpp:107-119 | growing only when the count reaches the capacity, the elements become `InsertAt(old, i, obj)` for i up to the count; for i past the count, obj is stored at i outside the elements and the slot at the old count (null after growth) becomes the last element |
| Vector.TVector.ShiftRight | src/private_vector.cpp:114-116 | slots [i, count) move one place right and earlier slots stay |
| Vector.TVector.AddElement | src/private_vector.cpp:121-129 | appends the element and grows only when count + 1 exceeds the capacity |
| Vector.TVector.RemoveElement | src/private_vector.cpp:131-140 | true exactly when the element is present, and then only its first occurrence is removed |
| Vector.TVector.RemoveAllElements | src/private_vector.cpp:142-149 | clears every used slot and empties the vector; the capacity is kept |
| Video.DevicePath | src/video_api.c:114-120 | a device node exactly for modules 0 and 1 |
| Video.DevicePathsDistinct | src/video_api.c:114-118 | the two modules open different nodes |
| Video.FrameBytesMatchSampling | src/video_api.c:303-335 | summed over its planes, YUYV and YUV422P give 16 bits per pixel and YUV420M gives 12, as their subsampling names |
| Video.PlaneSizesBounded | src/video_api.c:307-331 | YUYV has nothing after plane 0; a chroma plane is never larger than plane 0; plane 0 is at most two bytes per pixel |
| Video.AsWrittenUnmapLeaks | src/video_api.c:757 | for two buffers, the loop as written unmaps the first buffer twice and never the second |
| Video.IntendedUnmapsEachOnce | src/video_api.c:748-761 | unmapping `buffers[i].start` hits every buffer exactly once |
| Video.FirstStop | src/video_api.c:804-813 | the first select result that ends the wait loop, with all earlier ones retried |
| Video.AsWrittenHidesSelectError | src/video_api.c:813-818 | as written, the loop ends only on a ready descriptor, so a failing select is never reported |
| Video.IntendedReportsSelectError | src/video_api.c:813-818 | with the comparison intended, a failure that is not an interruption ends the wait at once |
| Video.RetryRulesAgreeWithoutErrors | src/video_api.c:813 | both retry rules stop at the same place when no select call fails |
| Video.CaptureDevices.constructor | src/video_api.c:51-65 | all globals start zero and empty; the zero I/O method is `IO_METHOD_MMAP` |
| Video.CaptureDevices.GetFd | src/video_api.c:141-147 | the descriptor of the module asked for |
| Video.CaptureDevices.OpenVideoDevice | src/video_api.c:107-139 | an unknown module returns -1 and changes nothing; a failed open exits; otherwise the module's descriptor is set and the I/O method becomes mmap |
| Video.CaptureDevices.SetCtrl | src/video_api.c:158-177 | an unknown module returns -1 with no control issued; otherwise one control goes to that module's descriptor and its result is returned |
| Video.CaptureDevices.InitMmap | src/video_api.c:179-301 | fewer than two granted buffers, or a failed `calloc`, is fatal and changes nothing; otherwise the granted buffers and their record array are recorded for the module whose descriptor was used |
| Video.CaptureDevices.UninitVideoDevice | src/video_api.c:728-780 | an unknown module returns -1; with mmap, munmap runs once per buffer on the first buffer's start and then the record array is freed; with user pointers, each start is freed and then the record array; with DMA buffers nothing happens |
| Video.CaptureDevices.UnmapBuffers | src/video_api.c:747-763 | the munmap addresses are the as-written sequence |
| Video.CaptureDevices.FreeBuffers | src/video_api.c:766-770 | each buffer's start is freed in order |
| Video.CaptureDevices.WaitReadable | src/video_api.c:804-813 | the loop stops at `FirstStop` under the chosen retry rule |
| Video.CaptureDevices.DequeueAndCapture | src/video_api.c:782-836 | an unknown module returns no value; the wait follows the as-written rule; a failed dequeue exits; `bytesused` bytes are copied only when a destination is given |
| UvcStreaming.Fields | src/uvc_api.c:1224 | the 16 fields of the structure in wire order |
| UvcStreaming.FromFields | src/uvc_api.c:1410 | the inverse of `Fields` |
| UvcStreaming.ParseSerialize | src/uvc_api.c:1224 | parsing serialized fields that fit their widths gives them back |
| UvcStreaming.SerializeParse | src/uvc_api.c:1410 | serializing parsed fields gives back the bytes they cover |
| UvcStreaming.ControlSize | src/uvc_api.c:1214 | the field widths add up to 34 bytes |
| UvcStreaming.Decode | src/uvc_api.c:1410 | a decoded structure always fits its field widths |
| UvcStreaming.DecodeEncode | src/uvc_api.c:1224 | decoding an encoded control gives it back |
| UvcStreaming.EncodeDecode | src/uvc_api.c:1410 | encoding a decoded buffer gives back its first 34 bytes |
| UvcStreaming.DecodeZeros | src/uvc_api.c:815 | zero bytes decode to the all-zero structure |
| UvcStreaming.NFrames | src/uvc_api.c:805-807 | the count of frames before the first zero-width entry |
| UvcStreaming.FormatTable | src/uvc_api.c:134-187 | one format, YUYV, with four frames, each with a zero-ended interval list |
| UvcStreaming.IntervalIndexFrom | src/uvc_api.c:1422-1423 | the walk stops at an interval at least the request or before a zero slot, and skips only shorter non-zero intervals |
| UvcStreaming.IntervalChoice | src/uvc_api.c:1420-1437 | the chosen interval is the first listed one at least the request, or the last listed one |
| UvcStreaming.TableIntervalsListed | src/uvc_api.c:134-162 | the number of listed intervals of each frame |
| UvcStreaming.Clamp | src/uvc_api.c:70-79 | the result lies in [lo, hi]; a value inside is kept, one below lo becomes lo and one above hi becomes hi |
| UvcStreaming.FromEnd | src/uvc_api.c:799-810 | exactly the indices in [-count, count) land on an entry, a negative one counting from the end; any other index stays out of range, so the fill rejects it |
| UvcStreaming.PayloadSize | src/uvc_api.c:833-836 | the payload size fits 32 bits |
| UvcStreaming.FilledControl | src/uvc_api.c:792-841 | None exactly when an index is out of range after counting negatives from the end; otherwise the zeroed control with hint 1, 1-based indices, first interval, width*height*2, bulk or isochronous payload size, framing info 3 and both versions 1 |
| UvcStreaming.FilledControlRange | src/uvc_api.c:799-812 | frames -4 .. 3 are offered; -1 names the last format and the last frame |
| UvcStreaming.FilledControlFits | src/uvc_api.c:815-840 | the offered control fits the 34-byte structure |
| UvcStreaming.Negotiate | src/uvc_api.c:1410-1437 | indices clamped into the table (in-range indices kept, a low one to 1, a high one to the last), the walk's interval and the frame's size; every other field of the target kept |
| UvcStreaming.FrameTableBounds | src/uvc_api.c:134-162 | every frame is at most 1280x720 and every interval at most 50000000 |
| UvcStreaming.NegotiateBounds | src/uvc_api.c:1411-1437 | the four negotiated fields stay within the table's ranges |
| UvcStreaming.NegotiateFits | src/uvc_api.c:1425-1437 | negotiation keeps a control that fits the structure fitting it |
| UvcStreaming.NegotiatedFieldsFit | src/uvc_api.c:1425-1437 | replacing the four fields by in-range values keeps a control fitting |
| UvcStreaming.NegotiatedInterval | src/uvc_api.c:1418-1437 | the negotiated frame and interval come from the table |
| UvcStreaming.OfferedControlAccepted | src/uvc_api.c:1410-1437 | a control the device offered and the host sent back keeps its format, frame, interval and size |
| UvcStreaming.CountFrames | src/uvc_api.c:1414-1416 | the frame-counting loop returns `NFrames` |
| UvcStreaming.SelectInterval | src/uvc_api.c:1420-1423 | the interval loop stops where `IntervalIndexFrom` says |
| UvcRequests.StallResponse | src/uvc_api.c:1478-1479 | the response starts zeroed with a negative (stall) length |
| UvcRequests.RouteFollowsRequestLayout | src/uvc_api.c:1253-1298 | standard, class-to-control and class-to-streaming routes match the type, recipient and interface fields of the request, with the selector from `wValue >> 8` |
| UvcRequests.AnswerControl | src/uvc_api.c:852-1202 | every answer keeps the response well formed |
| UvcRequests.ErrorCodeTable | src/uvc_api.c:855-1198 | 0x00 exactly for a supported request on an implemented control; 0x07 with a stall for another request on one; 0x06 for an unknown entity or selector; GET of the Request Error Code control returns the stored code |
| UvcRequests.ProcessingUnitAnswers | src/uvc_api.c:969-1172 | brightness and contrast report minimum 0, maximum 255, step 1 and default 127; GET_CUR reports the low 16 bits of `brightness_val` |
| UvcRequests.WriteControl | src/uvc_api.c:1222-1227 | copying a control into the response keeps it well formed |
| UvcRequests.AnswerStreaming | src/uvc_api.c:1204-1250 | every streaming answer keeps the response well formed |
| UvcRequests.RangeAnswer | src/uvc_api.c:1229-1233 | GET_MIN/GET_DEF/GET_MAX write the table control for that index |
| UvcRequests.AsWrittenGetLen | src/uvc_api.c:1239-1243 | GET_LEN as written: length 2 |
| UvcRequests.IntendedGetLen | src/uvc_api.c:1239-1243 | GET_LEN as intended: length 2 |
| UvcRequests.AsWrittenGetLenMisreads | src/uvc_api.c:1239-1243 | the bytes 0x00, 0x22 read little-endian as 0x2200, not 34 |
| UvcRequests.IntendedGetLenReadsSize | src/uvc_api.c:1239-1243 | the intended bytes read as 34 |
| UvcRequests.StreamingGetCur | src/uvc_api.c:1222-1227 | GET_CUR on probe or commit returns that control verbatim, 34 bytes long |
| UvcRequests.StreamingGetRange | src/uvc_api.c:1229-1233 | GET_MIN and GET_DEF return the first format and frame, GET_MAX the last |
| UvcRequests.StreamingZeroAnswers | src/uvc_api.c:1217-1237 | GET_RES and SET_CUR leave 34 zero bytes |
| UvcRequests.StreamingInfoAnswers | src/uvc_api.c:1239-1248 | GET_INFO answers 3 in one byte; GET_LEN answers 0x00, 0x22 |
| UvcRequests.WriteControlDecodes | src/uvc_api.c:1222-1227 | a control copied into a response decodes back to itself |
| UvcRequests.OtherStreamingSelectorsIgnored | src/uvc_api.c:1210-1211 | selectors other than probe and commit leave the response untouched |
| UvcRequests.DataValue | src/uvc_api.c:1370 | the checked value is the first four data bytes as an unsigned 32-bit integer |
| UvcRequests.CopyCount | src/uvc_api.c:1305 | at most 4 bytes are copied into the 4-byte variable |
| UvcRequests.CopiedValue | src/uvc_api.c:1304-1305 | the copied value fits 32 bits |
| UvcRequests.StoredBrightness | src/uvc_api.c:1315 | `brightness_val` stays within 32 bits |
| UvcRequests.BrightnessRoundTrip | src/uvc_api.c:1010-1019 | after a brightness write of a 2-byte value that passes the check, GET_CUR reports exactly that value |
| UvcRequests.TimeoutSplit | src/uvc_api.c:1672-1683 | seconds and microseconds add up to the request, whole seconds split off only above one second, and 0 means 2 seconds |
| UvcRequests.MaxPacketSize | src/uvc_api.c:1608-1633 | full, high and super speed take the largest packet each speed allows for bulk or isochronous; any other speed takes 1024 |
| UvcGadget.StreamResult | src/uvc_api.c:297-325 | the result of `uvc_video_stream` is never positive |
| UvcGadget.StreamOnResult | src/uvc_api.c:759-786 | the result of the stream-on handler is never positive |
| UvcGadget.SetupAnswer | src/uvc_api.c:1273-1298 | the setup answer is always a well-formed response |
| UvcGadget.InitialControl | src/uvc_api.c:1550-1556 | probe and commit start as the first format's first frame (640x550, its first interval, hint 1); on bulk the payload size is the format's payload mod 2^32, otherwise the fill's isochronous size; every other field is the fill's |
| UvcGadget.InitialControlFits | src/uvc_api.c:1550-1556 | the starting probe and commit fit the 34-byte structure |
| UvcGadget.UvcDevice.constructor | src/uvc_api.c:382-392 | the zero-filled record `calloc` gives, whose I/O method is `IO_METHOD_MMAP` |
| UvcGadget.UvcDevice.EventsInit | src/uvc_api.c:1536-1566 | probe and commit both become the initial control, then the SETUP, DATA, STREAMON and STREAMOFF subscriptions are made in that order; the other fields are kept |
| UvcGadget.UvcDevice.InitFormat | src/uvc_api.c:1592-1594 | 640x550 YUYV; nothing else changes |
| UvcGadget.UvcDevice.InitTransfer | src/uvc_api.c:1595-1597 | user pointers, bulk, two buffers; nothing else changes |
| UvcGadget.UvcDevice.InitEndpoint | src/uvc_api.c:1598-1600 | mult 0, burst 0, SuperSpeed; nothing else changes |
| UvcGadget.UvcDevice.InitFlags | src/uvc_api.c:1601-1603 | not streaming, standalone, image size width*height*2; nothing else changes |
| UvcGadget.UvcDevice.SelectMaxPacket | src/uvc_api.c:1608-1633 | maxpkt follows the table for the speed and transfer type |
| UvcGadget.UvcDevice.InitGadget | src/uvc_api.c:1590-1650 | returns 0 and leaves the record `InitState` gives |
| UvcGadget.UvcDevice.VideoStream | src/uvc_api.c:297-325 | one stream call; a successful start clears the shutdown request |
| UvcGadget.UvcDevice.HandleStreamOn | src/uvc_api.c:759-786 | request buffers, queue them and, when standalone, start streaming, stopping at the first failure |
| UvcGadget.UvcDevice.HandleStreamOff | src/uvc_api.c:1514-1526 | a streaming device stops, releases its buffers and clears both flags; otherwise nothing changes |
| UvcGadget.UvcDevice.HandleDisconnect | src/uvc_api.c:1486-1492 | only the shutdown request is set |
| UvcGadget.UvcDevice.ProcessControl | src/uvc_api.c:852-1202 | answers with `AnswerControl`, stores the selector, entity and any new error code |
| UvcGadget.UvcDevice.ProcessStreaming | src/uvc_api.c:1204-1250 | answers with `AnswerStreaming`; a SET_CUR on probe or commit records the pending control |
| UvcGadget.UvcDevice.ProcessSetup | src/uvc_api.c:1273-1298 | clears the pending control, then answers and updates through the route |
| UvcGadget.UvcDevice.StoreBrightness | src/uvc_api.c:1315 | the data is copied over `brightness_val` |
| UvcGadget.UvcDevice.ForwardControl | src/uvc_api.c:1319 | one control call on the RGB sensor; the record is unchanged |
| UvcGadget.UvcDevice.ProcessControlData | src/uvc_api.c:1300-1358 | returns 0; only a processing-unit brightness write changes `brightness_val`; brightness and contrast are forwarded to the sensor |
| UvcGadget.UvcDevice.BrightnessData | src/uvc_api.c:1314-1320 | stores the brightness and forwards it |
| UvcGadget.UvcDevice.ContrastData | src/uvc_api.c:1321-1325 | forwards the contrast value |
| UvcGadget.UvcDevice.NegotiateTarget | src/uvc_api.c:1410-1437 | the two table walks compute `Negotiate` |
| UvcGadget.UvcDevice.ForceGeometry | src/uvc_api.c:1443-1445 | 640x480 with image size 640*480*2, whatever frame was negotiated |
| UvcGadget.UvcDevice.CommitFormat | src/uvc_api.c:1439-1447 | commit is negotiated, the format and forced geometry are set, and the format call is made |
| UvcGadget.UvcDevice.RestartStream | src/uvc_api.c:1449-1456 | stream off, then the stream-on handler |
| UvcGadget.UvcDevice.ProcessCommit | src/uvc_api.c:1439-1457 | the commit branch as `CommitState` |
| UvcGadget.UvcDevice.ProcessProbe | src/uvc_api.c:1374-1377 | only probe changes, to the negotiated control |
| UvcGadget.UvcDevice.ControlWrite | src/uvc_api.c:1384-1407 | a value above 255 returns -EINVAL and changes and forwards nothing; otherwise the control write |
| UvcGadget.UvcDevice.ProcessData | src/uvc_api.c:1360-1463 | result, new record and forwarded controls as `DataResult`, `DataState` and `DataCalls` say |
| UvcGadget.UvcDevice.Respond | src/uvc_api.c:1529-1533 | the response is sent |
| UvcGadget.UvcDevice.ProcessEvent | src/uvc_api.c:1465-1534 | the record after one event is `EventState`; only a data phase forwards sensor controls |
| UvcGadget.StreamOffIdempotent | src/uvc_api.c:1514-1526 | after STREAMOFF the device is not streaming, and a second STREAMOFF changes nothing |
| UvcGadget.StreamOnMarksStreaming | src/uvc_api.c:759-786 | streaming afterwards exactly when it was before or buffers were granted and queued in standalone mode; the result is 0 exactly then; probe, commit and brightness are kept |
| UvcGadget.StreamOnThenOff | src/uvc_api.c:1514-1526 | a successful stream-on followed by STREAMOFF leaves the device stopped, with the six queue calls in order |
| UvcGadget.DisconnectThenStart | src/uvc_api.c:1486-1492 | a disconnect only requests shutdown, and a successful stream start clears the request |
| UvcGadget.SetupPendingControl | src/uvc_api.c:1273-1298 | after a setup the pending control is 0, probe or commit, and non-zero exactly for a streaming SET_CUR on probe or commit |
| UvcGadget.ProbeDataPhase | src/uvc_api.c:1374-1437 | a probe data phase changes only `probe`, to the negotiated control |
| UvcGadget.ProbeRoundTrip | src/uvc_api.c:1217-1227 | SET_CUR(probe), its data phase, then GET_CUR(probe) returns the negotiated control in 34 bytes |
| UvcGadget.CommitForcesFormat | src/uvc_api.c:1439-1457 | a commit negotiates `commit`, keeps `probe`, forces YUYV 640x480 with size 640*480*2, makes the format call first, and restarts the stream exactly when bulk |
| UvcGadget.RestartKeepsFormat | src/uvc_api.c:1449-1456 | the bulk restart keeps the format, geometry and controls and only appends queue calls |
| UvcGadget.RejectedWriteStalls | src/uvc_api.c:1395-1396 | a control write above 255 only sends the stall response and forwards nothing |
| UvcGadget.BrightnessEventsRoundTrip | src/uvc_api.c:1384-1407 | SET_CUR(brightness), its data phase, then GET_CUR(brightness) reports the value written |
| UvcGadget.InitStateSettings | src/uvc_api.c:1590-1650 | after init probe equals commit and fits, format and frame index 1, payload 640*550*2, maxpkt 1024, bulk SuperSpeed, not streaming, then the four subscriptions, the format call and two buffers |

The `UvcDevice` methods are each proved against a function on `DeviceState`: `StreamState` (`uvc_video_stream`), `StreamOnState` and `StreamOffState` (the stream handlers), `SetupState` with `RouteOf` (`uvc_events_process_setup`), `DataState` with `CommitState`, `FormatCommitted`, `RestartState` and `ControlWriteState` (`uvc_events_process_data`), `EventState` (`uvc_events_process`), and `InitSettings` with `InitState` (`init_uvc_gadget_device`). These functions carry the behaviour. The methods' rows above state that each method leaves the record the function gives, and the lemma rows state what the functions promise across calls.

## Left out

- Threads, the done flags as stop signals, and memory ordering between the producer and consumer of the FIFO and of `rgb_index`. Each step is modelled as one sequential operation.
- All kernel interaction (`open`, `ioctl`, `mmap`/`munmap`, `select`, `VIDIOC_*`, `UVCIOC_SEND_RESPONSE`). Results are parameters; only the calls the overview names are logged. `uvc_video_reqbufs`, `uvc_video_qbuf`, `uvc_uninit_device` and `uvc_video_set_format` are logged as single queue calls; their own buffer handling is not modelled.
- `UvcGadget.Kernel` gives one result per kind of call. When a handler makes the same kind of call more than once, every call sees that result: `uvc_video_qbuf` issues one `VIDIOC_QBUF` per buffer, and all of them see `qbuf`, so a failure part-way through the buffers is not modelled.
- The MJPEG branches and the `CAPTURE_MPLANE` code. MJPEG is commented out of the format table, and the `imgsize * 1.5` is floating point.
- The entry programs (test programs, `rgbd_uvc_main.cpp`, `RGBDSensor.cpp`), `capture.cpp`, `util_api.c`, `elasped_time`, `object.h` and `application.cpp`: none is part of the core.
- `start_video_capture`, `stop_video_capture`, `queue_capture`, `init_video_device`, `read_frame`, `close_video_device`, `gain_ctrl`, `exposure_ctrl`, `uvc_video_process` and `uvc_video_fill_buffer` are not modelled. They are kernel plumbing; their effect on the modelled state is at most a counter or a flag.
- Frame contents are abstract byte sequences, and timestamps are opaque values.
- UvcRequests.CopyCount: a data phase longer than 4 bytes would overflow the 4-byte `val` in the source; the model copies at most 4 bytes.
- UvcRequests.StoredBrightness: `memcpy(&dev->brightness_val, data->data, data->length)` copies the whole data phase; for a data phase longer than 4 bytes the source writes past `brightness_val` into the fields after it, and the model copies at most 4 bytes and leaves those fields unchanged.
- UvcGadget.UvcDevice.StoreBrightness: the same 4-byte cut as StoredBrightness, which it applies to the record.
- Video.CaptureDevices.UninitVideoDevice: every `munmap` is taken to succeed. In the source a failing `munmap` calls `errno_exit` and the program ends; the model logs every unmap and returns 0.
- Rgbd.RgbdCamera.Runner: requires the dequeued depth frame to fit `thr_data.depth`; the source's `memcpy` trusts the driver's `bytesused`.
- Rgbd.RgbdCamera.CaptureRgb: requires the dequeued RGB frame to fit its history slot, for the same reason.
- UvcRequests.CopiedValue: the bytes of `val` that the copy leaves uninitialised are taken as zero.
- UvcStreaming.PayloadSize: the isochronous payload `maxpkt*(mult+1)*(burst+1)` is taken modulo 2^32, the width of the field.
- UvcRequests.MaxPacketSize: low speed and unlisted speeds fall to the default branch, 1024, as the switch does.
- UvcRequests.StreamingInfoAnswers: Dafny proves it from the definitions alone; it documents the GET_INFO and GET_LEN answers.
- UvcGadget.UvcDevice.InitGadget: the second `io = USERPTR` assignment and `fill_buffer_handler`/`buffer_release_handler` are not modelled; the handlers are callbacks.
- UvcGadget.UvcDevice.CommitFormat: the negotiated frame's width and height are stored and then overwritten at once. Only the forced 640x480 is visible.
- UvcGadget.UvcDevice.HandleStreamOn: `nbufs` is not updated from what the kernel grants.
- Fifo.FrameFifo.Init: requires a size from 1 to 4. The source accepts any `num_buf`, but a size above the four-slot store (or 0, whose mask wraps to 255) indexes past `__fifo_data`.
- Rgbd.RgbdCamera.Init: requires a buffer count from 1 to 4, for the same reason.
- Vector.TVector.IndexOf, Vector.TVector.LastIndexOf and Vector.TVector.SetSize: require a non-negative index (IndexOf, SetSize) or one below the capacity (LastIndexOf). Other indices make the source's loop read or write outside `elementData`.
- Vector.TVector.RemoveElementAt: requires a non-negative index and a non-empty vector. A negative index makes the shift loop write before `elementData`, and an empty vector makes the final clear write `elementData[-1]`.
- Vector.TVector.InsertElementAt: requires a non-negative index below the capacity after growth. A negative index makes the shift loop read before `elementData`, and a larger one writes past it.
- Vector.GrownCapacity and Video.GetSize: the source computes `oldCapacity * 2`, `oldCapacity + capacityIncrement` and `ww * hh * 2` in C `int`, which can overflow; the model's integers are unbounded, so results past 2^31 - 1 are not wrapped.
- Video.FrameBytesMatchSampling: YUV444 is not covered. `get_size` gives `ww * hh` bytes for every plane number, and the source fixes no plane count for that format, so no per-pixel total follows from the code.
- Video.CaptureDevices.GetFd: requires a known module. For another module the source falls off the end of a non-void function.
- Video.CaptureDevices.DequeueAndCapture: requires the destination to have room for `bytesused` bytes, which the caller must ensure in the source.
- `process_uvc_gadget_device` beyond the timeout split: the `select` call and the dispatch on its result.
- `close_uvc_gadget_device`, `uvc_open` (beyond the zero-filled record) and `uvc_close`.

## Findings

The operations follow the code as written: `UninitVideoDevice` uses the as-written unmap loop, `DequeueAndCapture` the as-written retry rule, and `AnswerStreaming` the as-written GET_LEN bytes. The corrected definitions sit beside them with their intended properties proved.

| source | as written | input that shows it | evidently intended | confidence | as-written member | corrected member |
|---|---|---|---|---|---|---|
| src/video_api.c:813 | `(r == -1) && (errno = EINTR)` assigns EINTR, so every failed `select` retries | `select` fails with EBADF, then reports ready: the error is never returned | `errno == EINTR`: retry only an interrupted call | not executed | Video.AsWrittenHidesSelectError | Video.IntendedReportsSelectError |
| src/video_api.c:757 | `munmap(buffers->start, buffers->length)` inside the loop over `i` | two buffers at 0x1000 and 0x2000: 0x1000 is unmapped twice, 0x2000 never | `munmap(buffers[i].start, buffers[i].length)` | not executed | Video.AsWrittenUnmapLeaks | Video.IntendedUnmapsEachOnce |
| src/uvc_api.c:1239-1243 | GET_LEN answers the bytes 0x00, 0x22 | read as a little-endian 16-bit USB value, the answer is 0x2200 = 8704 | the bytes 0x22, 0x00, meaning 34 | not executed | UvcRequests.AsWrittenGetLenMisreads | UvcRequests.IntendedGetLenReadsSize |
