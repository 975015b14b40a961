/*
 * The UVC gadget device of uvc_api.c: the uvc_device record the request
 * handlers update in place, and the handlers themselves. Each handler is
 * a method proved against a function giving the record after the call
 * in terms of the record before it; the lemmas at the end state what
 * those functions promise across calls.
 *
 * The kernel is an oracle: the results of the V4L2 calls a handler makes
 * come in as a `Kernel` record, and the calls made are appended to
 * `ioLog` (the gadget's own queue) or to the capture side's `ctrlLog`.
 */
module UvcGadget {
  import opened Bits
  import opened UvcStreaming
  import opened UvcRequests
  import Video

  const V4L2_CID_BRIGHTNESS := 0x0098_0900
  const V4L2_CID_CONTRAST := 0x0098_0901

  /** The geometry a commit forces, whatever frame was negotiated. */
  const COMMIT_WIDTH := 640
  const COMMIT_HEIGHT := 480

  /** The results the kernel gives the gadget's V4L2 calls. */
  datatype Kernel = Kernel(reqbufs: int, qbuf: int, streamon: int, streamoff: int, setCtrl: int)

  /** The event kinds uvc_events_init subscribes to. */
  datatype EventKind = SetupEvents | DataEvents | StreamOnEvents | StreamOffEvents

  /** The calls made on the gadget's video device, in order. */
  datatype IoCall =
    | Subscribe(kind: EventKind)
    | SetFormat(fcc: nat, width: int, height: int)
    | Stream(enable: bool)
    | ReqBufs(count: int)
    | QueueBuffers
    | UninitBuffers

  /** The VIDIOC_SUBSCRIBE_EVENT calls of uvc_events_init, in order. */
  const SUBSCRIPTIONS: seq<IoCall> :=
    [Subscribe(SetupEvents), Subscribe(DataEvents), Subscribe(StreamOnEvents), Subscribe(StreamOffEvents)]

  /** The events VIDIOC_DQEVENT delivers. */
  datatype Event =
    | Connect
    | Disconnect
    | Setup(req: CtrlRequest)
    | Data(data: Payload)
    | StreamOn
    | StreamOff
    | OtherEvent(kind: int)

  predicate EventWellFormed(ev: Option<Event>)
  {
    ev.Some? && ev.value.Data? ==> WellFormed(ev.value.data)
  }

  /** The fields of struct uvc_device the handlers read or write. */
  datatype DeviceState = DeviceState(
    probe: StreamingControl,
    commit: StreamingControl,
    control: int,
    errorCode: ErrorCode,
    brightnessVal: nat,
    puBmControlVal: int,
    descriptorType: int,
    fcc: nat,
    width: int,
    height: int,
    imgsize: int,
    io: Video.IoMethod,
    bulk: bool,
    mult: int,
    burst: int,
    maxpkt: int,
    speed: UsbSpeed,
    nbufs: int,
    runStandalone: bool,
    isStreaming: bool,
    firstBufferQueued: bool,
    shutdownRequested: bool,
    ioLog: seq<IoCall>,
    sent: seq<Payload>)

  /** uvc_video_stream: the queue call, and a successful start clears the shutdown request. */
  function StreamState(s: DeviceState, enable: bool, k: Kernel): (t: DeviceState)
  {
    s.(ioLog := s.ioLog + [Stream(enable)],
       shutdownRequested := if enable && k.streamon >= 0 then false else s.shutdownRequested)
  }

  function StreamResult(enable: bool, k: Kernel): (r: int)
    ensures r <= 0
  {
    var result := if enable then k.streamon else k.streamoff;
    if result < 0 then result else 0
  }

  /**
   * uvc_handle_streamon_event: request nbufs buffers and queue them,
   * stopping at the first failure; when standalone, start the stream and
   * mark the device streaming whatever the start returned.
   */
  function StreamOnState(s: DeviceState, k: Kernel): (t: DeviceState)
  {
    var requested := s.(ioLog := s.ioLog + [ReqBufs(s.nbufs)]);
    if k.reqbufs < 0 then requested
    else
      var queued := requested.(ioLog := requested.ioLog + [QueueBuffers]);
      if k.qbuf < 0 || !s.runStandalone then queued
      else StreamState(queued, true, k).(firstBufferQueued := true, isStreaming := true)
  }

  function StreamOnResult(k: Kernel): (r: int)
    ensures r <= 0
  {
    if k.reqbufs < 0 then k.reqbufs else if k.qbuf < 0 then k.qbuf else 0
  }

  /** The STREAMOFF event: a streaming device stops, releases its buffers and clears both flags. */
  function StreamOffState(s: DeviceState, k: Kernel): (t: DeviceState)
  {
    if !s.isStreaming then s
    else
      var stopped := StreamState(s, false, k);
      stopped.(ioLog := stopped.ioLog + [UninitBuffers, ReqBufs(0)], isStreaming := false, firstBufferQueued := false)
  }

  /** brightness_val after uvc_events_process_control_data: only a processing-unit brightness write changes it. */
  function ControlDataBrightness(brightness: nat, cs: int, entity: int, data: Payload): (b: nat)
    requires WellFormed(data)
  {
    if entity == ENTITY_PROCESSING_UNIT && cs == PU_BRIGHTNESS_CONTROL then StoredBrightness(brightness, data)
    else brightness
  }

  /** The sensor controls uvc_events_process_control_data forwards through the RGB device `fd`. */
  function ControlDataCalls(fd: int, brightness: nat, cs: int, entity: int, data: Payload): (calls: seq<Video.CtrlCall>)
    requires WellFormed(data)
  {
    if fd < 0 || entity != ENTITY_PROCESSING_UNIT then []
    else if cs == PU_BRIGHTNESS_CONTROL then [Video.CtrlCall(fd, V4L2_CID_BRIGHTNESS, StoredBrightness(brightness, data))]
    else if cs == PU_CONTRAST_CONTROL then [Video.CtrlCall(fd, V4L2_CID_CONTRAST, CopiedValue(data))]
    else []
  }

  /** True when the data phase belongs to a probe or commit. */
  predicate StreamingData(s: DeviceState)
  {
    s.control == VS_PROBE_CONTROL || s.control == VS_COMMIT_CONTROL
  }

  /** The value uvc_events_process_data returns. */
  function DataResult(s: DeviceState, data: Payload): (r: int)
    requires WellFormed(data)
  {
    if StreamingData(s) then 0
    else if DataValue(data) > PU_BRIGHTNESS_MAX_VAL then -EINVAL
    else 0
  }

  /**
   * uvc_events_process_data: a probe data phase negotiates into `probe`;
   * a commit negotiates into `commit`, sets the format with the geometry
   * forced to 640x480 and, on a bulk endpoint, restarts the stream; any
   * other data phase is a control write on the processing unit, refused
   * above 255.
   */
  function DataState(s: DeviceState, data: Payload, k: Kernel): (t: DeviceState)
    requires WellFormed(data)
  {
    if s.control == VS_PROBE_CONTROL then s.(probe := Negotiate(s.probe, Decode(data.data)))
    else if s.control == VS_COMMIT_CONTROL then CommitState(s, data, k)
    else ControlWriteState(s, data)
  }

  /**
   * Any other data phase is a write to the processing-unit control the
   * last request named; a value above 255 is refused and changes nothing.
   */
  function ControlWriteState(s: DeviceState, data: Payload): (t: DeviceState)
    requires WellFormed(data)
  {
    if DataValue(data) > PU_BRIGHTNESS_MAX_VAL then s
    else s.(brightnessVal := ControlDataBrightness(s.brightnessVal, s.puBmControlVal, ENTITY_PROCESSING_UNIT, data))
  }

  /**
   * The commit data phase: negotiate into `commit`, take the format's
   * fourcc, force 640x480, set the format and, on a bulk endpoint, stop
   * the stream and run the stream-on handler.
   */
  function CommitState(s: DeviceState, data: Payload, k: Kernel): (t: DeviceState)
    requires WellFormed(data)
  {
    var committed := FormatCommitted(s, data);
    if s.bulk then RestartState(committed, k) else committed
  }

  /** The commit data phase up to and including the format call. */
  function FormatCommitted(s: DeviceState, data: Payload): (t: DeviceState)
    requires WellFormed(data)
  {
    s.(commit := Negotiate(s.commit, Decode(data.data)),
       fcc := Video.PIX_FMT_YUYV, width := COMMIT_WIDTH, height := COMMIT_HEIGHT,
       imgsize := COMMIT_WIDTH * COMMIT_HEIGHT * 2,
       ioLog := s.ioLog + [SetFormat(Video.PIX_FMT_YUYV, COMMIT_WIDTH, COMMIT_HEIGHT)])
  }

  /** The bulk restart after a commit: stream off, then the stream-on handler. */
  function RestartState(s: DeviceState, k: Kernel): (t: DeviceState)
  {
    StreamOnState(StreamState(s, false, k), k)
  }

  /** The sensor controls a data phase forwards. */
  function DataCalls(s: DeviceState, fd: int, data: Payload): (calls: seq<Video.CtrlCall>)
    requires WellFormed(data)
  {
    if StreamingData(s) then [] else ControlWriteCalls(s, fd, data)
  }

  /** The sensor controls a processing-unit write forwards. */
  function ControlWriteCalls(s: DeviceState, fd: int, data: Payload): (calls: seq<Video.CtrlCall>)
    requires WellFormed(data)
  {
    if DataValue(data) > PU_BRIGHTNESS_MAX_VAL then []
    else ControlDataCalls(fd, s.brightnessVal, s.puBmControlVal, ENTITY_PROCESSING_UNIT, data)
  }

  /** The record after uvc_events_process_setup: control reset, then the handler the route names. */
  function SetupState(s: DeviceState, r: CtrlRequest): (t: DeviceState)
  {
    var reset := s.(control := 0);
    match RouteOf(r)
    case ToControl(req, cs, entity, len) =>
      var a := AnswerControl(req, cs, entity, len, s.errorCode, s.brightnessVal, StallResponse());
      reset.(puBmControlVal := cs, descriptorType := entity,
             errorCode := if a.code.Some? then ErrorCode(a.code.value, 1) else s.errorCode)
    case ToStreaming(req, cs) =>
      if (cs == VS_PROBE_CONTROL || cs == VS_COMMIT_CONTROL) && req == SET_CUR then reset.(control := cs) else reset
    case _ => reset
  }

  /** The response uvc_events_process_setup leaves in `resp`. */
  function SetupAnswer(s: DeviceState, r: CtrlRequest, resp: Payload): (p: Payload)
    requires WellFormed(resp)
    ensures WellFormed(p)
  {
    match RouteOf(r)
    case ToControl(req, cs, entity, len) =>
      AnswerControl(req, cs, entity, len, s.errorCode, s.brightnessVal, resp).resp
    case ToStreaming(req, cs) =>
      AnswerStreaming(req, cs, s.probe, s.commit, s.bulk, s.maxpkt, s.mult, s.burst, resp)
    case _ => resp
  }

  /**
   * uvc_events_process: nothing for a failed dequeue or a connect, the
   * shutdown request for a disconnect; a setup sends its answer; a data
   * phase that fails sends the stall response; stream on (isochronous
   * only) and stream off run their handlers; an unknown event is stalled.
   */
  function EventState(s: DeviceState, ev: Option<Event>, k: Kernel): (t: DeviceState)
    requires EventWellFormed(ev)
  {
    match ev
    case None => s
    case Some(e) =>
      match e
      case Connect => s
      case Disconnect => s.(shutdownRequested := true)
      case Setup(r) =>
        var t := SetupState(s, r);
        t.(sent := t.sent + [SetupAnswer(s, r, StallResponse())])
      case Data(d) =>
        var t := DataState(s, d, k);
        if DataResult(s, d) < 0 then t.(sent := t.sent + [StallResponse()]) else t
      case StreamOn => if !s.bulk then StreamOnState(s, k) else s
      case StreamOff => StreamOffState(s, k)
      case OtherEvent(_) => s.(sent := s.sent + [StallResponse()])
  }

  /**
   * The controls init_uvc_gadget_device starts probe and commit with
   * (uvc_events_init): the first frame of the first format at its first
   * interval; on a bulk endpoint the payload size is overridden with the
   * format's payload, truncated to the 32-bit field.
   */
  function InitialControl(bulk: bool, maxpkt: int, mult: int, burst: int, payload: nat): (c: StreamingControl)
    ensures c.bFormatIndex == 1 && c.bFrameIndex == 1 && c.bmHint == 1
    ensures c.dwFrameInterval == FRAMES_YUYV[0].intervals[0]
    ensures c.dwMaxVideoFrameSize == FRAMES_YUYV[0].width * FRAMES_YUYV[0].height * 2
    ensures bulk ==> c.dwMaxPayloadTransferSize == payload % 0x1_0000_0000
    ensures !bulk ==> c.dwMaxPayloadTransferSize == PayloadSize(false, c.dwMaxVideoFrameSize, maxpkt, mult, burst)
    ensures FilledControl(0, 0, bulk, maxpkt, mult, burst).Some? &&
            c == FilledControl(0, 0, bulk, maxpkt, mult, burst).value.(dwMaxPayloadTransferSize := c.dwMaxPayloadTransferSize)
  {
    FormatTable();
    FilledControlRange(0, bulk, maxpkt, mult, burst);
    var c := FilledControl(0, 0, bulk, maxpkt, mult, burst).value;
    if bulk then c.(dwMaxPayloadTransferSize := payload % 0x1_0000_0000) else c
  }

  /** The payload size uvc_events_init advertises for the current format. */
  function InitPayload(fcc: nat, width: int, height: int, imgsize: int): (p: nat)
  {
    if fcc == Video.PIX_FMT_YUYV then (width * height * 2) % 0x1_0000_0000
    else imgsize % 0x1_0000_0000
  }

  /** The settings init_uvc_gadget_device fixes before it builds the controls. */
  function InitSettings(s: DeviceState): (t: DeviceState)
  {
    s.(width := 640, height := 550, fcc := Video.PIX_FMT_YUYV, io := Video.UserPtr, bulk := true,
       nbufs := 2, mult := 0, burst := 0, speed := SuperSpeed, isStreaming := false, runStandalone := true,
       imgsize := 640 * 550 * 2, maxpkt := MaxPacketSize(SuperSpeed, true))
  }

  /** init_uvc_gadget_device: the fixed settings, the starting controls, then the format and two buffers. */
  function InitState(s: DeviceState): (t: DeviceState)
  {
    var u := InitSettings(s);
    var c := InitialControl(u.bulk, u.maxpkt, u.mult, u.burst, InitPayload(u.fcc, u.width, u.height, u.imgsize));
    u.(probe := c, commit := c, ioLog := u.ioLog + SUBSCRIPTIONS + [SetFormat(u.fcc, u.width, u.height), ReqBufs(2)])
  }

  class UvcDevice {
    var probe: StreamingControl
    var commit: StreamingControl
    /** The streaming selector a pending data phase belongs to (0: none). */
    var control: int
    /** request_error_code. */
    var errorCode: ErrorCode
    var brightnessVal: nat
    /** The selector and entity of the last Video Control request. */
    var puBmControlVal: int
    var descriptorType: int
    var fcc: nat
    var width: int
    var height: int
    var imgsize: int
    var io: Video.IoMethod
    var bulk: bool
    var mult: int
    var burst: int
    var maxpkt: int
    var speed: UsbSpeed
    var nbufs: int
    var runStandalone: bool
    var isStreaming: bool
    var firstBufferQueued: bool
    var shutdownRequested: bool
    /** The calls made on the video output queue. */
    var ioLog: seq<IoCall>
    /** The responses sent with UVCIOC_SEND_RESPONSE. */
    var sent: seq<Payload>
    /** The capture side, through which sensor controls are forwarded. */
    const capture: Video.CaptureDevices

    function State(): (s: DeviceState)
      reads this
    {
      DeviceState(probe, commit, control, errorCode, brightnessVal, puBmControlVal, descriptorType,
                  fcc, width, height, imgsize, io, bulk, mult, burst, maxpkt, speed, nbufs,
                  runStandalone, isStreaming, firstBufferQueued, shutdownRequested, ioLog, sent)
    }

    /** The controls are representable in 34 bytes and brightness_val in 32 bits. */
    ghost predicate Valid()
      reads this
    {
      Fits(probe) && Fits(commit) && brightnessVal < 0x1_0000_0000
    }

    /** The zero-filled record uvc_open allocates. */
    constructor (capture: Video.CaptureDevices)
      ensures Valid()
      ensures State() == DeviceState(ZERO_CONTROL, ZERO_CONTROL, 0, ErrorCode(0, 0), 0, 0, 0, 0, 0, 0, 0,
                                     Video.Mmap, false, 0, 0, 0, UnknownSpeed, 0, false, false, false, false, [], [])
      ensures this.capture == capture
    {
      probe, commit := ZERO_CONTROL, ZERO_CONTROL;
      control := 0;
      errorCode := ErrorCode(0, 0);
      brightnessVal, puBmControlVal, descriptorType := 0, 0, 0;
      fcc, width, height, imgsize := 0, 0, 0, 0;
      io := Video.Mmap;
      bulk, mult, burst, maxpkt := false, 0, 0, 0;
      speed := UnknownSpeed;
      nbufs := 0;
      runStandalone, isStreaming, firstBufferQueued, shutdownRequested := false, false, false, false;
      ioLog, sent := [], [];
      this.capture := capture;
      ZeroControlFits();
    }

    /** uvc_events_init: probe and commit start as the first format and frame, then the four subscriptions. */
    method EventsInit()
      modifies this`probe, this`commit, this`ioLog
      ensures var c := InitialControl(bulk, maxpkt, mult, burst, InitPayload(fcc, width, height, imgsize));
              State() == old(State()).(probe := c, commit := c, ioLog := old(ioLog) + SUBSCRIPTIONS)
    {
      var c := InitialControl(bulk, maxpkt, mult, burst, InitPayload(fcc, width, height, imgsize));
      probe, commit := c, c;
      ioLog := ioLog + SUBSCRIPTIONS;
    }

    /** The format init_uvc_gadget_device starts with. */
    method InitFormat()
      modifies this`width, this`height, this`fcc
      ensures State() == old(State()).(width := 640, height := 550, fcc := Video.PIX_FMT_YUYV)
    {
      width := 640;
      height := 550;
      fcc := Video.PIX_FMT_YUYV;
    }

    /** The transfer settings: user-pointer buffers, two of them, on a bulk endpoint. */
    method InitTransfer()
      modifies this`io, this`bulk, this`nbufs
      ensures State() == old(State()).(io := Video.UserPtr, bulk := true, nbufs := 2)
    {
      io := Video.UserPtr;
      bulk := true;
      nbufs := 2;
    }

    /** No multiple transactions, no burst, a SuperSpeed link. */
    method InitEndpoint()
      modifies this`mult, this`burst, this`speed
      ensures State() == old(State()).(mult := 0, burst := 0, speed := SuperSpeed)
    {
      mult := 0;
      burst := 0;
      speed := SuperSpeed;
    }

    /** Not streaming, standalone, and the image size of the format. */
    method InitFlags()
      modifies this`isStreaming, this`runStandalone, this`imgsize
      ensures State() == old(State()).(isStreaming := false, runStandalone := true, imgsize := old(width) * old(height) * 2)
    {
      isStreaming := false;
      runStandalone := true;
      imgsize := width * height * 2;
    }

    /** The switch on the speed that picks maxpkt. */
    method SelectMaxPacket()
      modifies this`maxpkt
      ensures State() == old(State()).(maxpkt := MaxPacketSize(speed, bulk))
    {
      maxpkt := MaxPacketSize(speed, bulk);
    }

    /** Record calls made on the video output queue. */
    method Issue(calls: seq<IoCall>)
      modifies this`ioLog
      ensures State() == old(State()).(ioLog := old(ioLog) + calls)
    {
      ioLog := ioLog + calls;
    }

    /** Set or clear is_streaming and first_buffer_queued together. */
    method SetStreaming(on: bool)
      modifies this`firstBufferQueued, this`isStreaming
      ensures State() == old(State()).(firstBufferQueued := on, isStreaming := on)
    {
      firstBufferQueued := on;
      isStreaming := on;
    }

    /** init_uvc_gadget_device. */
    method InitGadget() returns (r: int)
      requires Valid()
      modifies this
      ensures Valid()
      ensures r == 0 && State() == InitState(old(State()))
    {
      InitFormat();
      InitTransfer();
      InitEndpoint();
      InitFlags();
      SelectMaxPacket();
      // the source sets io to USERPTR a second time here
      EventsInit();
      Issue([SetFormat(fcc, width, height), ReqBufs(2)]);
      InitialControlFits(bulk, maxpkt, mult, burst, InitPayload(fcc, width, height, imgsize));
      r := 0;
    }

    /** uvc_video_stream(dev, enable). */
    method VideoStream(enable: bool, k: Kernel) returns (r: int)
      modifies this`ioLog, this`shutdownRequested
      ensures r == StreamResult(enable, k) && State() == StreamState(old(State()), enable, k)
    {
      Issue([Stream(enable)]);
      var result := if enable then k.streamon else k.streamoff;
      if result < 0 {
        return result;
      }
      if enable {
        shutdownRequested := false;
      }
      r := 0;
    }

    /** uvc_handle_streamon_event. */
    method HandleStreamOn(k: Kernel) returns (r: int)
      modifies this`ioLog, this`shutdownRequested, this`firstBufferQueued, this`isStreaming
      ensures r == StreamOnResult(k) && State() == StreamOnState(old(State()), k)
    {
      Issue([ReqBufs(nbufs)]);
      if k.reqbufs < 0 {
        return k.reqbufs;
      }
      Issue([QueueBuffers]);
      if k.qbuf < 0 {
        return k.qbuf;
      }
      if runStandalone {
        var started := VideoStream(true, k);
        SetStreaming(true);
      }
      r := 0;
    }

    /** The STREAMOFF branch of uvc_events_process. */
    method HandleStreamOff(k: Kernel)
      modifies this`ioLog, this`shutdownRequested, this`firstBufferQueued, this`isStreaming
      ensures State() == StreamOffState(old(State()), k)
    {
      if isStreaming {
        var stopped := VideoStream(false, k);
        Issue([UninitBuffers]);
        Issue([ReqBufs(0)]);
        SetStreaming(false);
      }
    }

    /** The DISCONNECT branch of uvc_events_process. */
    method HandleDisconnect()
      modifies this`shutdownRequested
      ensures State() == old(State()).(shutdownRequested := true)
    {
      shutdownRequested := true;
    }

    /** uvc_events_process_control. */
    method ProcessControl(req: byte, cs: byte, entity: byte, len: byte, resp: Payload) returns (answer: Payload)
      requires WellFormed(resp)
      modifies this`puBmControlVal, this`descriptorType, this`errorCode
      ensures var a := AnswerControl(req, cs, entity, len, old(errorCode), brightnessVal, resp);
              answer == a.resp &&
              State() == old(State()).(puBmControlVal := cs, descriptorType := entity,
                                       errorCode := if a.code.Some? then ErrorCode(a.code.value, 1) else old(errorCode))
    {
      puBmControlVal := cs;
      descriptorType := entity;
      var a := AnswerControl(req, cs, entity, len, errorCode, brightnessVal, resp);
      answer := a.resp;
      if a.code.Some? {
        errorCode := ErrorCode(a.code.value, 1);
      }
    }

    /** uvc_events_process_streaming. */
    method ProcessStreaming(req: byte, cs: byte, resp: Payload) returns (answer: Payload)
      requires WellFormed(resp)
      modifies this`control
      ensures answer == AnswerStreaming(req, cs, probe, commit, bulk, maxpkt, mult, burst, resp)
      ensures State() == old(State()).(control := if (cs == VS_PROBE_CONTROL || cs == VS_COMMIT_CONTROL) && req == SET_CUR
                                                  then cs else old(control))
    {
      answer := AnswerStreaming(req, cs, probe, commit, bulk, maxpkt, mult, burst, resp);
      if (cs == VS_PROBE_CONTROL || cs == VS_COMMIT_CONTROL) && req == SET_CUR {
        control := cs;
      }
    }

    /** uvc_events_process_setup, with uvc_events_process_class. */
    method ProcessSetup(r: CtrlRequest, resp: Payload) returns (answer: Payload)
      requires WellFormed(resp)
      modifies this`control, this`puBmControlVal, this`descriptorType, this`errorCode
      ensures answer == SetupAnswer(old(State()), r, resp) && State() == SetupState(old(State()), r)
    {
      control := 0;
      answer := resp;
      var kind := And(r.bRequestType, USB_TYPE_MASK);
      if kind == USB_TYPE_STANDARD {
        // uvc_events_process_standard does nothing
      } else if kind == USB_TYPE_CLASS {
        if And(r.bRequestType, USB_RECIP_MASK) == USB_RECIP_INTERFACE {
          var intf := And(r.wIndex, 0xff);
          if intf == INTF_CONTROL {
            answer := ProcessControl(r.bRequest, r.wValue / 256, r.wIndex / 256, r.wLength % 256, resp);
          } else if intf == INTF_STREAMING {
            answer := ProcessStreaming(r.bRequest, r.wValue / 256, resp);
          }
        }
      }
    }

    /** The copy of the data phase over brightness_val. */
    method StoreBrightness(data: Payload)
      requires WellFormed(data)
      modifies this`brightnessVal
      ensures State() == old(State()).(brightnessVal := StoredBrightness(old(brightnessVal), data))
    {
      brightnessVal := StoredBrightness(brightnessVal, data);
    }

    /** vidioc_set_ctrl(0, id, value): one control call on the RGB sensor; the gadget's record is untouched. */
    method ForwardControl(id: int, value: int, k: Kernel)
      modifies capture`ctrlLog
      ensures capture.ctrlLog == old(capture.ctrlLog) + [Video.CtrlCall(capture.fdRgb, id, value)]
      ensures State() == old(State())
    {
      var done := capture.SetCtrl(Video.MODULE_RGB, id, value, k.setCtrl);
    }

    /** uvc_events_process_control_data(dev, cs, entity_id, data). */
    method ProcessControlData(cs: int, entity: int, data: Payload, k: Kernel) returns (r: int)
      requires WellFormed(data)
      modifies this`brightnessVal, capture`ctrlLog
      ensures r == 0
      ensures old(brightnessVal) < 0x1_0000_0000 ==> brightnessVal < 0x1_0000_0000
      ensures State() == old(State()).(brightnessVal := ControlDataBrightness(old(brightnessVal), cs, entity, data))
      ensures capture.ctrlLog ==
                old(capture.ctrlLog) + ControlDataCalls(capture.fdRgb, old(brightnessVal), cs, entity, data)
    {
      var fd := capture.GetFd(Video.MODULE_RGB);
      if entity == ENTITY_PROCESSING_UNIT {
        if cs == PU_BRIGHTNESS_CONTROL {
          BrightnessData(fd, data, k);
        } else if cs == PU_CONTRAST_CONTROL {
          ContrastData(fd, data, k);
        }
      }
      r := 0;
    }

    /** The brightness case: the data is copied over brightness_val, which is forwarded to the sensor. */
    method BrightnessData(fd: int, data: Payload, k: Kernel)
      requires WellFormed(data) && fd == capture.fdRgb
      modifies this`brightnessVal, capture`ctrlLog
      ensures State() == old(State()).(brightnessVal := StoredBrightness(old(brightnessVal), data))
      ensures capture.ctrlLog == old(capture.ctrlLog) +
                (if fd < 0 then [] else [Video.CtrlCall(fd, V4L2_CID_BRIGHTNESS, StoredBrightness(old(brightnessVal), data))])
    {
      StoreBrightness(data);
      if fd >= 0 {
        ForwardControl(V4L2_CID_BRIGHTNESS, brightnessVal, k);
      }
    }

    /** The contrast case: the data is forwarded to the sensor. */
    method ContrastData(fd: int, data: Payload, k: Kernel)
      requires WellFormed(data) && fd == capture.fdRgb
      modifies capture`ctrlLog
      ensures capture.ctrlLog == old(capture.ctrlLog) +
                (if fd < 0 then [] else [Video.CtrlCall(fd, V4L2_CID_CONTRAST, CopiedValue(data))])
    {
      if fd >= 0 {
        ForwardControl(V4L2_CID_CONTRAST, CopiedValue(data), k);
      }
    }

    /** The probe/commit negotiation of uvc_events_process_data, with the source's two table walks. */
    method NegotiateTarget(target: StreamingControl, data: Payload) returns (t: StreamingControl)
      requires WellFormed(data)
      ensures t == Negotiate(target, Decode(data.data))
    {
      var request := Decode(data.data);
      FormatTable();
      var iformat := Clamp(request.bFormatIndex, 1, |FORMATS|);
      var format := FORMATS[iformat - 1];
      var nframes := CountFrames(format.frames);
      var iframe := Clamp(request.bFrameIndex, 1, nframes);
      var frame := format.frames[iframe - 1];
      var k := SelectInterval(frame.intervals, request.dwFrameInterval);
      t := target.(bFormatIndex := iformat, bFrameIndex := iframe,
                   dwMaxVideoFrameSize := frame.width * frame.height * 2,
                   dwFrameInterval := frame.intervals[k]);
    }

    /** The geometry the commit branch forces, and its image size. */
    method ForceGeometry()
      modifies this`width, this`height, this`imgsize
      ensures State() == old(State()).(width := COMMIT_WIDTH, height := COMMIT_HEIGHT, imgsize := COMMIT_WIDTH * COMMIT_HEIGHT * 2)
    {
      width := COMMIT_WIDTH;
      height := COMMIT_HEIGHT;
      imgsize := width * height * 2;
    }

    /** The commit branch of uvc_events_process_data, up to the format call. */
    method CommitFormat(data: Payload)
      requires WellFormed(data)
      modifies this`commit, this`fcc, this`width, this`height, this`imgsize, this`ioLog
      ensures commit == Negotiate(old(commit), Decode(data.data))
      ensures State() == FormatCommitted(old(State()), data)
    {
      var t := NegotiateTarget(commit, data);
      commit := t;
      FormatTable();
      fcc := FORMATS[0].fcc;
      // the negotiated frame's width and height are stored here and
      // immediately overwritten by the fixed geometry
      ForceGeometry();
      Issue([SetFormat(fcc, width, height)]);
    }

    /** The bulk branch after a commit. */
    method RestartStream(k: Kernel)
      modifies this`ioLog, this`shutdownRequested, this`firstBufferQueued, this`isStreaming
      ensures State() == RestartState(old(State()), k)
    {
      var stopped := VideoStream(false, k);
      var started := HandleStreamOn(k);
    }

    /** The commit branch of uvc_events_process_data. */
    method ProcessCommit(data: Payload, k: Kernel)
      requires Valid() && WellFormed(data)
      modifies this`commit, this`fcc, this`width, this`height, this`imgsize, this`ioLog,
               this`shutdownRequested, this`firstBufferQueued, this`isStreaming
      ensures Valid()
      ensures State() == CommitState(old(State()), data, k)
    {
      NegotiateFits(commit, Decode(data.data));
      CommitFormat(data);
      if bulk {
        RestartStream(k);
      }
    }

    /** The probe branch of uvc_events_process_data. */
    method ProcessProbe(data: Payload)
      requires Valid() && WellFormed(data)
      modifies this`probe
      ensures Valid()
      ensures State() == old(State()).(probe := Negotiate(old(probe), Decode(data.data)))
    {
      var t := NegotiateTarget(probe, data);
      NegotiateFits(probe, Decode(data.data));
      probe := t;
    }

    /** The default branch of uvc_events_process_data. */
    method ControlWrite(data: Payload, k: Kernel) returns (r: int)
      requires Valid() && WellFormed(data)
      modifies this`brightnessVal, capture`ctrlLog
      ensures Valid()
      ensures r == (if DataValue(data) > PU_BRIGHTNESS_MAX_VAL then -EINVAL else 0)
      ensures State() == ControlWriteState(old(State()), data)
      ensures capture.ctrlLog == old(capture.ctrlLog) + ControlWriteCalls(old(State()), capture.fdRgb, data)
    {
      if DataValue(data) > PU_BRIGHTNESS_MAX_VAL {
        return -EINVAL;
      }
      r := ProcessControlData(puBmControlVal, ENTITY_PROCESSING_UNIT, data, k);
    }

    /** uvc_events_process_data. */
    method ProcessData(data: Payload, k: Kernel) returns (r: int)
      requires Valid() && WellFormed(data)
      modifies this`probe, this`commit, this`fcc, this`width, this`height, this`imgsize, this`ioLog,
               this`shutdownRequested, this`firstBufferQueued, this`isStreaming, this`brightnessVal, capture`ctrlLog
      ensures Valid()
      ensures r == DataResult(old(State()), data)
      ensures State() == DataState(old(State()), data, k)
      ensures capture.ctrlLog == old(capture.ctrlLog) + DataCalls(old(State()), capture.fdRgb, data)
    {
      if control == VS_PROBE_CONTROL {
        ProcessProbe(data);
        r := 0;
      } else if control == VS_COMMIT_CONTROL {
        ProcessCommit(data, k);
        r := 0;
      } else {
        r := ControlWrite(data, k);
      }
    }

    /** UVCIOC_SEND_RESPONSE: the response goes back to the host. */
    method Respond(resp: Payload)
      modifies this`sent
      ensures State() == old(State()).(sent := old(sent) + [resp])
    {
      sent := sent + [resp];
    }

    /** uvc_events_process: `ev` is the dequeued event, None when VIDIOC_DQEVENT fails. */
    method ProcessEvent(ev: Option<Event>, k: Kernel)
      requires Valid() && EventWellFormed(ev)
      modifies this, capture`ctrlLog
      ensures Valid()
      ensures State() == EventState(old(State()), ev, k)
      ensures ev.Some? && ev.value.Data? ==>
                capture.ctrlLog == old(capture.ctrlLog) + DataCalls(old(State()), capture.fdRgb, ev.value.data)
      ensures !(ev.Some? && ev.value.Data?) ==> capture.ctrlLog == old(capture.ctrlLog)
    {
      if ev.None? {
        return;
      }
      var resp := StallResponse();
      match ev.value {
        case Connect =>
          return;
        case Disconnect =>
          HandleDisconnect();
          return;
        case Setup(req) =>
          resp := ProcessSetup(req, resp);
        case Data(d) =>
          var ret := ProcessData(d, k);
          if ret >= 0 {
            return;
          }
        case StreamOn =>
          if !bulk {
            var started := HandleStreamOn(k);
          }
          return;
        case StreamOff =>
          HandleStreamOff(k);
          return;
        case OtherEvent(_) =>
      }
      Respond(resp);
    }
  }

  /** The all-zero control fits the structure. */
  lemma ZeroControlFits()
    ensures Fits(ZERO_CONTROL)
  {
    forall i | 0 <= i < |FIELD_WIDTHS|
      ensures Fields(ZERO_CONTROL)[i] < Pow256(FIELD_WIDTHS[i])
    {
    }
  }

  /** The starting controls fit the structure. */
  lemma InitialControlFits(bulk: bool, maxpkt: int, mult: int, burst: int, payload: nat)
    ensures Fits(InitialControl(bulk, maxpkt, mult, burst, payload))
  {
    FilledControlRange(0, bulk, maxpkt, mult, burst);
    FilledControlFits(0, 0, bulk, maxpkt, mult, burst);
    var c := FilledControl(0, 0, bulk, maxpkt, mult, burst).value;
    var d := InitialControl(bulk, maxpkt, mult, burst, payload);
    assert Pow256(4) == 0x1_0000_0000;
    forall i | 0 <= i < |FIELD_WIDTHS|
      ensures Fields(d)[i] < Pow256(FIELD_WIDTHS[i])
    {
      if i != 10 {
        assert Fields(d)[i] == Fields(c)[i];
      }
    }
  }

  /** A second STREAMOFF changes nothing: the first one left the device stopped. */
  lemma StreamOffIdempotent(s: DeviceState, k: Kernel)
    ensures !StreamOffState(s, k).isStreaming
    ensures StreamOffState(StreamOffState(s, k), k) == StreamOffState(s, k)
  {
  }

  /**
   * uvc_handle_streamon_event marks the device streaming exactly when the
   * buffer request and the queueing succeed on a standalone device, even
   * when the stream start then fails; its result reports only the first
   * two calls.
   */
  lemma StreamOnMarksStreaming(s: DeviceState, k: Kernel)
    ensures var t := StreamOnState(s, k);
            (t.isStreaming <==> s.isStreaming || (k.reqbufs >= 0 && k.qbuf >= 0 && s.runStandalone)) &&
            (StreamOnResult(k) == 0 <==> k.reqbufs >= 0 && k.qbuf >= 0) &&
            t.probe == s.probe && t.commit == s.commit && t.brightnessVal == s.brightnessVal
  {
  }

  /**
   * STREAMON then STREAMOFF on a standalone device whose buffer calls
   * succeed: the queue sees the buffer request, the queueing, the start,
   * the stop, the release and the zero-buffer request, and both flags end
   * clear.
   */
  lemma StreamOnThenOff(s: DeviceState, k: Kernel)
    requires k.reqbufs >= 0 && k.qbuf >= 0 && s.runStandalone
    ensures var t := StreamOffState(StreamOnState(s, k), k);
            !t.isStreaming && !t.firstBufferQueued &&
            t.ioLog == s.ioLog + [ReqBufs(s.nbufs), QueueBuffers, Stream(true), Stream(false), UninitBuffers, ReqBufs(0)]
  {
    var on := StreamOnState(s, k);
    assert on.isStreaming && on.ioLog == s.ioLog + [ReqBufs(s.nbufs), QueueBuffers, Stream(true)];
  }

  /** A DISCONNECT only raises the shutdown request, and a later successful stream start clears it. */
  lemma DisconnectThenStart(s: DeviceState, k: Kernel)
    requires k.streamon >= 0
    ensures EventState(s, Some(Disconnect), k) == s.(shutdownRequested := true)
    ensures !StreamState(EventState(s, Some(Disconnect), k), true, k).shutdownRequested
  {
  }

  /**
   * After a SETUP, `control` names a pending probe or commit data phase
   * exactly when the request was a streaming SET_CUR on one of them, and
   * is zero otherwise; the negotiated controls and the stored brightness
   * are untouched.
   */
  lemma SetupPendingControl(s: DeviceState, r: CtrlRequest)
    ensures var t := SetupState(s, r);
            (t.control == 0 || t.control == VS_PROBE_CONTROL || t.control == VS_COMMIT_CONTROL) &&
            (t.control != 0 <==>
               RouteOf(r).ToStreaming? && RouteOf(r).req == SET_CUR &&
               (RouteOf(r).cs == VS_PROBE_CONTROL || RouteOf(r).cs == VS_COMMIT_CONTROL)) &&
            t.probe == s.probe && t.commit == s.commit && t.brightnessVal == s.brightnessVal
  {
  }

  /** A probe data phase changes nothing but `probe`, which becomes the negotiation of the request against it. */
  lemma ProbeDataPhase(s: DeviceState, d: Payload, k: Kernel)
    requires WellFormed(d) && s.control == VS_PROBE_CONTROL
    ensures EventState(s, Some(Data(d)), k) == s.(probe := Negotiate(s.probe, Decode(d.data)))
  {
    assert DataResult(s, d) == 0;
  }

  /**
   * A probe SET_CUR, its data phase, then a probe GET_CUR: the host reads
   * back, as a whole control, the negotiation of what it sent against the
   * previous probe.
   */
  lemma ProbeRoundTrip(s: DeviceState, setReq: CtrlRequest, d: Payload, getReq: CtrlRequest, k: Kernel)
    requires Fits(s.probe) && Fits(s.commit) && WellFormed(d)
    requires RouteOf(setReq) == ToStreaming(SET_CUR, VS_PROBE_CONTROL)
    requires RouteOf(getReq) == ToStreaming(GET_CUR, VS_PROBE_CONTROL)
    ensures var s1 := EventState(s, Some(Setup(setReq)), k);
            var s2 := EventState(s1, Some(Data(d)), k);
            var answer := SetupAnswer(s2, getReq, StallResponse());
            answer.length == CONTROL_SIZE && Decode(answer.data) == Negotiate(s.probe, Decode(d.data))
  {
    var s1 := EventState(s, Some(Setup(setReq)), k);
    assert s1.control == VS_PROBE_CONTROL && s1.probe == s.probe && s1.commit == s.commit;
    ProbeDataPhase(s1, d, k);
    var s2 := EventState(s1, Some(Data(d)), k);
    NegotiateFits(s.probe, Decode(d.data));
    StreamingGetCur(VS_PROBE_CONTROL, s2.probe, s2.commit, s2.bulk, s2.maxpkt, s2.mult, s2.burst);
  }

  /**
   * A commit data phase stores the negotiation in `commit`, leaves `probe`
   * alone, and sets the format to YUYV at 640x480 whatever frame was
   * negotiated; only a bulk endpoint goes on to restart the stream.
   */
  lemma CommitForcesFormat(s: DeviceState, d: Payload, k: Kernel)
    requires WellFormed(d) && s.control == VS_COMMIT_CONTROL
    ensures var t := DataState(s, d, k);
            t.commit == Negotiate(s.commit, Decode(d.data)) && t.probe == s.probe &&
            t.fcc == Video.PIX_FMT_YUYV && t.width == 640 && t.height == 480 && t.imgsize == 640 * 480 * 2 &&
            |t.ioLog| > |s.ioLog| &&
            t.ioLog[..|s.ioLog| + 1] == s.ioLog + [SetFormat(Video.PIX_FMT_YUYV, 640, 480)] &&
            (|t.ioLog| > |s.ioLog| + 1 <==> s.bulk)
    ensures DataResult(s, d) == 0
  {
    var f := FormatCommitted(s, d);
    assert DataState(s, d, k) == CommitState(s, d, k);
    if s.bulk {
      RestartKeepsFormat(f, k);
    }
  }

  /** The bulk restart only appends to the queue's calls: the controls and the format stay as they were. */
  lemma RestartKeepsFormat(s: DeviceState, k: Kernel)
    ensures var t := RestartState(s, k);
            t.probe == s.probe && t.commit == s.commit && t.fcc == s.fcc &&
            t.width == s.width && t.height == s.height && t.imgsize == s.imgsize &&
            |t.ioLog| > |s.ioLog| + 1 && t.ioLog[..|s.ioLog|] == s.ioLog
  {
    var stopped := StreamState(s, false, k);
    var t := StreamOnState(stopped, k);
    assert t.ioLog[..|stopped.ioLog|] == stopped.ioLog;
  }

  /**
   * A processing-unit data phase whose value is above 255 is refused: the
   * record is unchanged but for the stall response sent, and no control
   * reaches the sensor.
   */
  lemma RejectedWriteStalls(s: DeviceState, d: Payload, fd: int, k: Kernel)
    requires WellFormed(d) && !StreamingData(s) && DataValue(d) > PU_BRIGHTNESS_MAX_VAL
    ensures EventState(s, Some(Data(d)), k) == s.(sent := s.sent + [StallResponse()])
    ensures DataCalls(s, fd, d) == []
  {
  }

  /**
   * A brightness SET_CUR, its two-byte data phase with a value in range,
   * then a brightness GET_CUR: the host reads back the value it set.
   */
  lemma BrightnessEventsRoundTrip(s: DeviceState, setReq: CtrlRequest, d: Payload, getReq: CtrlRequest, k: Kernel)
    requires WellFormed(d) && d.length == 2 && DataValue(d) <= PU_BRIGHTNESS_MAX_VAL
    requires RouteOf(setReq).ToControl? && RouteOf(setReq).req == SET_CUR && RouteOf(setReq).cs == PU_BRIGHTNESS_CONTROL &&
             RouteOf(setReq).entity == ENTITY_PROCESSING_UNIT
    requires RouteOf(getReq).ToControl? && RouteOf(getReq).req == GET_CUR && RouteOf(getReq).cs == PU_BRIGHTNESS_CONTROL &&
             RouteOf(getReq).entity == ENTITY_PROCESSING_UNIT
    ensures var s1 := EventState(s, Some(Setup(setReq)), k);
            var s2 := EventState(s1, Some(Data(d)), k);
            var answer := SetupAnswer(s2, getReq, StallResponse());
            |answer.data| >= 2 && LeValue(answer.data[..2]) == DataValue(d)
  {
    var s1 := EventState(s, Some(Setup(setReq)), k);
    assert s1.control == 0 && s1.puBmControlVal == PU_BRIGHTNESS_CONTROL;
    var s2 := EventState(s1, Some(Data(d)), k);
    assert s2.brightnessVal == StoredBrightness(s.brightnessVal, d);
    BrightnessRoundTrip(s.brightnessVal, d, s2.errorCode, RouteOf(getReq).len);
  }

  /**
   * init_uvc_gadget_device: probe and commit both start as the first frame
   * of the first format, fitting the structure and advertising a 640x550
   * YUYV payload, on a SuperSpeed bulk endpoint of 1024-byte packets; the
   * device sees the four event subscriptions, the format call, then a
   * request for two buffers.
   */
  lemma InitStateSettings(s: DeviceState)
    ensures var t := InitState(s);
            t.probe == t.commit && Fits(t.probe) &&
            t.probe.bFormatIndex == 1 && t.probe.bFrameIndex == 1 &&
            t.probe.dwMaxPayloadTransferSize == 640 * 550 * 2 &&
            t.maxpkt == 1024 && t.bulk && t.speed == SuperSpeed && !t.isStreaming &&
            t.ioLog == s.ioLog + SUBSCRIPTIONS + [SetFormat(Video.PIX_FMT_YUYV, 640, 550), ReqBufs(2)]
  {
    InitialControlFits(true, 1024, 0, 0, 640 * 550 * 2);
  }
}
