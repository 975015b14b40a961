/*
 * The answers of the UVC gadget's request handlers in uvc_api.c, as
 * functions of the request and of the device fields they read: routing a
 * SETUP request by bmRequestType and wIndex, the Video Control answers and
 * Request Error Code bookkeeping, the Video Streaming probe/commit answers,
 * the data-phase value check, the select timeout split and the USB
 * max-packet table.
 */
module UvcRequests {
  import opened Bits
  import opened UvcStreaming

  /* UVC request codes (USB Video Class 1.1, table A-8). */
  const SET_CUR := 0x01
  const GET_CUR := 0x81
  const GET_MIN := 0x82
  const GET_MAX := 0x83
  const GET_RES := 0x84
  const GET_LEN := 0x85
  const GET_INFO := 0x86
  const GET_DEF := 0x87

  /* Control selectors. */
  const VS_PROBE_CONTROL := 0x01
  const VS_COMMIT_CONTROL := 0x02
  const VC_REQUEST_ERROR_CODE_CONTROL := 0x02
  const CT_AE_MODE_CONTROL := 0x02
  const PU_BRIGHTNESS_CONTROL := 0x02
  const PU_CONTRAST_CONTROL := 0x03

  /* Interfaces and the entities of the Video Control interface. */
  const INTF_CONTROL := 0
  const INTF_STREAMING := 1
  const ENTITY_INTERFACE := 0
  const ENTITY_CAMERA_TERMINAL := 1
  const ENTITY_PROCESSING_UNIT := 2

  /* Request Error Code values (section 4.2.1.2). */
  const NO_ERROR := 0x00
  const INVALID_CONTROL := 0x06
  const INVALID_REQUEST := 0x07

  /* bmRequestType masks of USB 2.0, section 9.3. */
  const USB_TYPE_MASK := 0x60
  const USB_TYPE_STANDARD := 0x00
  const USB_TYPE_CLASS := 0x20
  const USB_RECIP_MASK := 0x1f
  const USB_RECIP_INTERFACE := 0x01

  const EL2HLT := 51
  const EINVAL := 22

  const PU_BRIGHTNESS_MIN_VAL := 0
  const PU_BRIGHTNESS_MAX_VAL := 255
  const PU_BRIGHTNESS_STEP_SIZE := 1
  const PU_BRIGHTNESS_DEFAULT_VAL := 127

  /** The data bytes a request or response carries (uvc_request_data.data). */
  const PAYLOAD_SIZE := 60

  /** struct uvc_request_data: a signed length and 60 data bytes. */
  datatype Payload = Payload(length: int, data: seq<byte>)

  predicate WellFormed(p: Payload)
  {
    |p.data| == PAYLOAD_SIZE
  }

  /** The response uvc_events_process starts from: zeroed, with a stall length. */
  function StallResponse(): (p: Payload)
    ensures WellFormed(p) && p.length < 0
    ensures forall i :: 0 <= i < |p.data| ==> p.data[i] == 0
  {
    Payload(-EL2HLT, seq(PAYLOAD_SIZE, i => 0))
  }

  /** An unsigned 16-bit field. */
  type u16 = x: int | 0 <= x < 0x10000

  /** struct usb_ctrlrequest. */
  datatype CtrlRequest = CtrlRequest(bRequestType: byte, bRequest: byte, wValue: u16, wIndex: u16, wLength: u16)

  /** Where uvc_events_process_setup and uvc_events_process_class send a request. */
  datatype Route =
    | Standard
    | ToControl(req: byte, cs: byte, entity: byte, len: byte)
    | ToStreaming(req: byte, cs: byte)
    | Ignored

  /**
   * The routing of a SETUP request: by the type bits of bmRequestType,
   * then (for class requests to an interface) by the interface number in
   * the low byte of wIndex. The control selector is the high byte of
   * wValue, the entity the high byte of wIndex, and the length is wLength
   * cut to 8 bits.
   */
  function RouteOf(r: CtrlRequest): (route: Route)
  {
    var kind := And(r.bRequestType, USB_TYPE_MASK);
    if kind == USB_TYPE_STANDARD then Standard
    else if kind != USB_TYPE_CLASS then Ignored
    else if And(r.bRequestType, USB_RECIP_MASK) != USB_RECIP_INTERFACE then Ignored
    else
      var intf := And(r.wIndex, 0xff);
      if intf == INTF_CONTROL then ToControl(r.bRequest, r.wValue / 256, r.wIndex / 256, r.wLength % 256)
      else if intf == INTF_STREAMING then ToStreaming(r.bRequest, r.wValue / 256)
      else Ignored
  }

  /** Bits 6..5 of bmRequestType: 0 standard, 1 class, 2 vendor (USB 2.0, section 9.3). */
  function TypeField(bmRequestType: byte): (t: nat)
  {
    (bmRequestType / 32) % 4
  }

  /** Bits 4..0 of bmRequestType: 0 device, 1 interface, 2 endpoint. */
  function RecipientField(bmRequestType: byte): (t: nat)
  {
    bmRequestType % 32
  }

  /** The masks the handlers apply select exactly the fields section 9.3 of USB 2.0 lays out. */
  lemma RouteFollowsRequestLayout(r: CtrlRequest)
    ensures RouteOf(r).Standard? <==> TypeField(r.bRequestType) == 0
    ensures RouteOf(r).ToControl? <==>
              TypeField(r.bRequestType) == 1 && RecipientField(r.bRequestType) == 1 && r.wIndex % 256 == INTF_CONTROL
    ensures RouteOf(r).ToStreaming? <==>
              TypeField(r.bRequestType) == 1 && RecipientField(r.bRequestType) == 1 && r.wIndex % 256 == INTF_STREAMING
    ensures RouteOf(r).ToControl? ==>
              RouteOf(r) == ToControl(r.bRequest, r.wValue / 256, r.wIndex / 256, r.wLength % 256)
    ensures RouteOf(r).ToStreaming? ==> RouteOf(r) == ToStreaming(r.bRequest, r.wValue / 256)
  {
    AndTypeMask(r.bRequestType);
    AndLowMask(r.bRequestType, 5);
    AndLowMask(r.wIndex, 8);
    assert Pow2(5) == 32 && Pow2(8) == 256;
  }

  /** The entity and selector pairs the Video Control interface implements. */
  predicate SupportedControl(entity: byte, cs: byte)
  {
    (entity == ENTITY_CAMERA_TERMINAL && cs == CT_AE_MODE_CONTROL) ||
    (entity == ENTITY_PROCESSING_UNIT && (cs == PU_BRIGHTNESS_CONTROL || cs == PU_CONTRAST_CONTROL))
  }

  /** The requests each implemented control answers. */
  predicate SupportedRequest(entity: byte, req: byte)
  {
    if entity == ENTITY_CAMERA_TERMINAL then req in {SET_CUR, GET_INFO, GET_CUR, GET_DEF, GET_RES}
    else req in {SET_CUR, GET_MIN, GET_MAX, GET_CUR, GET_INFO, GET_DEF, GET_RES}
  }

  /** request_error_code: the stored code byte and its length. */
  datatype ErrorCode = ErrorCode(code: byte, length: int)

  /** A control answer: the response, and the error code stored for it (None: the stored code is kept). */
  datatype ControlAnswer = ControlAnswer(resp: Payload, code: Option<byte>)

  function Handled(resp: Payload, value: byte, length: int): (a: ControlAnswer)
    requires WellFormed(resp)
  {
    ControlAnswer(Payload(length, resp.data[0 := value]), Some(NO_ERROR))
  }

  function Refused(resp: Payload, code: byte): (a: ControlAnswer)
  {
    ControlAnswer(resp.(length := -EL2HLT), Some(code))
  }

  /**
   * uvc_events_process_control(dev, req, cs, entity_id, len, resp): the
   * answer for each entity and selector, with the error code it stores.
   * `brightness` is brightness_val, whose two low bytes GET_CUR returns for
   * both processing-unit controls.
   */
  function AnswerControl(req: byte, cs: byte, entity: byte, len: byte, stored: ErrorCode,
                         brightness: nat, resp: Payload): (a: ControlAnswer)
    requires WellFormed(resp)
    ensures WellFormed(a.resp)
  {
    if entity == ENTITY_INTERFACE then
      if cs == VC_REQUEST_ERROR_CODE_CONTROL then
        ControlAnswer(Payload(stored.length, resp.data[0 := stored.code]), None)
      else ControlAnswer(resp, Some(INVALID_CONTROL))
    else if entity == ENTITY_CAMERA_TERMINAL then
      if cs != CT_AE_MODE_CONTROL then Refused(resp, INVALID_CONTROL)
      else if req == SET_CUR then Handled(resp, 0x01, 1)
      else if req == GET_INFO then Handled(resp, 0x03, 1)
      else if req == GET_CUR || req == GET_DEF || req == GET_RES then Handled(resp, 0x02, 1)
      else Refused(resp, INVALID_REQUEST)
    else if entity == ENTITY_PROCESSING_UNIT then
      if cs != PU_BRIGHTNESS_CONTROL && cs != PU_CONTRAST_CONTROL then Refused(resp, INVALID_CONTROL)
      else if req == SET_CUR then Handled(resp, 0x00, len)
      else if req == GET_MIN then Handled(resp, PU_BRIGHTNESS_MIN_VAL, 2)
      else if req == GET_MAX then Handled(resp, PU_BRIGHTNESS_MAX_VAL, 2)
      else if req == GET_CUR then
        ControlAnswer(Payload(2, Memcpy(resp.data, LeBytes(brightness, 4), 2)), Some(NO_ERROR))
      else if req == GET_INFO then Handled(resp, 0x03, 1)
      else if req == GET_DEF then Handled(resp, PU_BRIGHTNESS_DEFAULT_VAL, 2)
      else if req == GET_RES then Handled(resp, PU_BRIGHTNESS_STEP_SIZE, 2)
      else Refused(resp, INVALID_REQUEST)
    else ControlAnswer(resp, Some(INVALID_CONTROL))
  }

  /**
   * The Request Error Code bookkeeping: "no error" exactly for a supported
   * request on an implemented control, "invalid request" with a stall for
   * any other request on an implemented control, "invalid control" for an
   * unknown entity or selector; and a GET of the Request Error Code control
   * itself returns the stored code, leaving it as it is.
   */
  lemma ErrorCodeTable(req: byte, cs: byte, entity: byte, len: byte, stored: ErrorCode, brightness: nat, resp: Payload)
    requires WellFormed(resp)
    ensures var a := AnswerControl(req, cs, entity, len, stored, brightness, resp);
            (a.code == Some(NO_ERROR) <==> SupportedControl(entity, cs) && SupportedRequest(entity, req)) &&
            (a.code == Some(INVALID_REQUEST) <==> SupportedControl(entity, cs) && !SupportedRequest(entity, req)) &&
            (a.code == Some(INVALID_CONTROL) <==>
               !SupportedControl(entity, cs) && !(entity == ENTITY_INTERFACE && cs == VC_REQUEST_ERROR_CODE_CONTROL)) &&
            (a.code.None? <==> entity == ENTITY_INTERFACE && cs == VC_REQUEST_ERROR_CODE_CONTROL) &&
            (a.code == Some(INVALID_REQUEST) ==> a.resp.length == -EL2HLT) &&
            (a.code == Some(INVALID_CONTROL) && (entity == ENTITY_CAMERA_TERMINAL || entity == ENTITY_PROCESSING_UNIT) ==>
               a.resp.length == -EL2HLT) &&
            (a.code == Some(INVALID_CONTROL) && !(entity == ENTITY_CAMERA_TERMINAL || entity == ENTITY_PROCESSING_UNIT) ==>
               a.resp == resp) &&
            (a.code == Some(NO_ERROR) ==> a.resp.length >= 0) &&
            (a.code.None? ==> a.resp.data[0] == stored.code && a.resp.length == stored.length)
  {
  }

  /** The value a 2-byte GET answer reports, read little-endian. */
  function Reported(a: ControlAnswer): (v: nat)
    requires |a.resp.data| >= 2
  {
    LeValue(a.resp.data[..2])
  }

  /**
   * Starting from the zeroed response, the processing-unit GET answers
   * report a range 0 .. 255 with step 1, the default 127 inside it, and
   * GET_CUR reports the low 16 bits of brightness_val.
   */
  lemma ProcessingUnitAnswers(cs: byte, len: byte, stored: ErrorCode, brightness: nat)
    requires cs == PU_BRIGHTNESS_CONTROL || cs == PU_CONTRAST_CONTROL
    ensures var r := StallResponse();
            Reported(AnswerControl(GET_MIN, cs, ENTITY_PROCESSING_UNIT, len, stored, brightness, r)) == PU_BRIGHTNESS_MIN_VAL &&
            Reported(AnswerControl(GET_MAX, cs, ENTITY_PROCESSING_UNIT, len, stored, brightness, r)) == PU_BRIGHTNESS_MAX_VAL &&
            Reported(AnswerControl(GET_RES, cs, ENTITY_PROCESSING_UNIT, len, stored, brightness, r)) == PU_BRIGHTNESS_STEP_SIZE &&
            Reported(AnswerControl(GET_DEF, cs, ENTITY_PROCESSING_UNIT, len, stored, brightness, r)) == PU_BRIGHTNESS_DEFAULT_VAL &&
            PU_BRIGHTNESS_MIN_VAL <= PU_BRIGHTNESS_DEFAULT_VAL <= PU_BRIGHTNESS_MAX_VAL &&
            Reported(AnswerControl(GET_CUR, cs, ENTITY_PROCESSING_UNIT, len, stored, brightness, r)) == brightness % 65536
  {
    var r := StallResponse();
    FirstByteValue(PU_BRIGHTNESS_MIN_VAL);
    FirstByteValue(PU_BRIGHTNESS_MAX_VAL);
    FirstByteValue(PU_BRIGHTNESS_STEP_SIZE);
    FirstByteValue(PU_BRIGHTNESS_DEFAULT_VAL);
    var cur := AnswerControl(GET_CUR, cs, ENTITY_PROCESSING_UNIT, len, stored, brightness, r);
    var low := LeBytes(brightness, 4)[..2];
    assert cur.resp.data[..2] == low;
    assert low == LeBytes(brightness, 2) by {
      assert LeBytes(brightness, 4)[0] == brightness % 256;
      assert LeBytes(brightness, 2)[0] == brightness % 256;
      assert LeBytes(brightness, 4)[1] == (brightness / 256) % 256;
      assert LeBytes(brightness, 2)[1] == (brightness / 256) % 256;
    }
    LeValueOfBytes(brightness, 2);
    assert Pow256(2) == 65536;
  }

  /** A single byte written over the zeroed response reads back as itself. */
  lemma FirstByteValue(v: byte)
    ensures LeValue(StallResponse().data[0 := v][..2]) == v
  {
    var d := StallResponse().data[0 := v][..2];
    assert d == [v, 0];
    assert d[1..] == [0] && d[1..][1..] == [];
  }

  /** Replace the first 34 data bytes by a streaming control (memcpy of the structure). */
  function WriteControl(resp: Payload, c: StreamingControl): (r: Payload)
    requires WellFormed(resp)
    ensures WellFormed(r)
  {
    resp.(data := Memcpy(resp.data, Encode(c), CONTROL_SIZE))
  }

  /**
   * uvc_events_process_streaming(dev, req, cs, resp): selectors other than
   * probe and commit leave the response as it is; otherwise the length is
   * 34 unless GET_LEN or GET_INFO shorten it, GET_CUR copies the current
   * probe or commit, GET_MIN and GET_DEF the control for the first format
   * and frame, GET_MAX the one for the last.
   */
  function AnswerStreaming(req: byte, cs: byte, probe: StreamingControl, commit: StreamingControl,
                           bulk: bool, maxpkt: int, mult: int, burst: int, resp: Payload): (r: Payload)
    requires WellFormed(resp)
    ensures WellFormed(r)
  {
    if cs != VS_PROBE_CONTROL && cs != VS_COMMIT_CONTROL then resp
    else
      var sized := resp.(length := CONTROL_SIZE);
      if req == SET_CUR then sized
      else if req == GET_CUR then WriteControl(sized, if cs == VS_PROBE_CONTROL then probe else commit)
      else if req == GET_MIN || req == GET_MAX || req == GET_DEF then
        RangeAnswer(if req == GET_MAX then -1 else 0, bulk, maxpkt, mult, burst, sized)
      else if req == GET_LEN then AsWrittenGetLen(sized)
      else if req == GET_INFO then Payload(1, sized.data[0 := 0x03])
      else sized
  }

  /** The response to GET_MIN, GET_DEF (index 0) or GET_MAX (index -1): the table control for that format and frame. */
  function RangeAnswer(index: int, bulk: bool, maxpkt: int, mult: int, burst: int, sized: Payload): (r: Payload)
    requires WellFormed(sized)
    ensures WellFormed(r) && r.length == sized.length
    ensures FilledControl(index, index, bulk, maxpkt, mult, burst).Some? ==>
              Decode(r.data) == FilledControl(index, index, bulk, maxpkt, mult, burst).value
  {
    if FilledControl(index, index, bulk, maxpkt, mult, burst).Some? then
      FilledControlFits(index, index, bulk, maxpkt, mult, burst);
      WriteControlDecodes(sized, FilledControl(index, index, bulk, maxpkt, mult, burst).value);
      WriteControl(sized, FilledControl(index, index, bulk, maxpkt, mult, burst).value)
    else sized
  }

  /** The GET_LEN answer as written: data bytes 0x00 then 0x22, length 2. */
  function AsWrittenGetLen(resp: Payload): (r: Payload)
    requires WellFormed(resp)
    ensures WellFormed(r) && r.length == 2
  {
    Payload(2, resp.data[0 := 0x00][1 := 0x22])
  }

  /** The GET_LEN answer evidently intended: the structure size, 34, as a little-endian 16-bit value. */
  function IntendedGetLen(resp: Payload): (r: Payload)
    requires WellFormed(resp)
    ensures WellFormed(r) && r.length == 2
  {
    Payload(2, Memcpy(resp.data, LeBytes(CONTROL_SIZE, 2), 2))
  }

  /** The GET_LEN answer as written reads, little-endian as USB fields are, as 0x2200 = 8704, not 34. */
  lemma AsWrittenGetLenMisreads(resp: Payload)
    requires WellFormed(resp)
    ensures LeValue(AsWrittenGetLen(resp).data[..2]) == 0x2200
    ensures LeValue(AsWrittenGetLen(resp).data[..2]) != CONTROL_SIZE
  {
    var d := AsWrittenGetLen(resp).data[..2];
    assert d == [0x00, 0x22];
    assert d[1..] == [0x22] && d[1..][1..] == [];
  }

  /** The intended GET_LEN answer reads as the structure size. */
  lemma IntendedGetLenReadsSize(resp: Payload)
    requires WellFormed(resp)
    ensures LeValue(IntendedGetLen(resp).data[..2]) == CONTROL_SIZE
  {
    var d := IntendedGetLen(resp).data[..2];
    assert d == LeBytes(CONTROL_SIZE, 2);
    LeValueOfBytes(CONTROL_SIZE, 2);
  }

  /** A probe or commit GET_CUR returns the current control verbatim, 34 bytes long. */
  lemma StreamingGetCur(cs: byte, probe: StreamingControl, commit: StreamingControl,
                        bulk: bool, maxpkt: int, mult: int, burst: int)
    requires cs == VS_PROBE_CONTROL || cs == VS_COMMIT_CONTROL
    requires Fits(probe) && Fits(commit)
    ensures var r := AnswerStreaming(GET_CUR, cs, probe, commit, bulk, maxpkt, mult, burst, StallResponse());
            r.length == CONTROL_SIZE && Decode(r.data) == (if cs == VS_PROBE_CONTROL then probe else commit)
  {
    var r := AnswerStreaming(GET_CUR, cs, probe, commit, bulk, maxpkt, mult, burst, StallResponse());
    var c := if cs == VS_PROBE_CONTROL then probe else commit;
    assert r == WriteControl(StallResponse().(length := CONTROL_SIZE), c);
    WriteControlDecodes(StallResponse().(length := CONTROL_SIZE), c);
  }

  /**
   * GET_MIN and GET_DEF return the control for the first format and
   * frame, GET_MAX the one for the last, each 34 bytes long.
   */
  lemma StreamingGetRange(req: byte, cs: byte, probe: StreamingControl, commit: StreamingControl,
                          bulk: bool, maxpkt: int, mult: int, burst: int)
    requires cs == VS_PROBE_CONTROL || cs == VS_COMMIT_CONTROL
    requires req == GET_MIN || req == GET_DEF || req == GET_MAX
    ensures var index := if req == GET_MAX then -1 else 0;
            var r := AnswerStreaming(req, cs, probe, commit, bulk, maxpkt, mult, burst, StallResponse());
            FilledControl(index, index, bulk, maxpkt, mult, burst).Some? &&
            r.length == CONTROL_SIZE &&
            Decode(r.data) == FilledControl(index, index, bulk, maxpkt, mult, burst).value
  {
    var index := if req == GET_MAX then -1 else 0;
    FilledControlRange(index, bulk, maxpkt, mult, burst);
  }

  /** A probe or commit GET_RES or SET_CUR leaves 34 zero bytes. */
  lemma StreamingZeroAnswers(req: byte, cs: byte, probe: StreamingControl, commit: StreamingControl,
                             bulk: bool, maxpkt: int, mult: int, burst: int)
    requires cs == VS_PROBE_CONTROL || cs == VS_COMMIT_CONTROL
    requires req == GET_RES || req == SET_CUR
    ensures var r := AnswerStreaming(req, cs, probe, commit, bulk, maxpkt, mult, burst, StallResponse());
            r.length == CONTROL_SIZE && Decode(r.data) == ZERO_CONTROL
  {
    var r := AnswerStreaming(req, cs, probe, commit, bulk, maxpkt, mult, burst, StallResponse());
    DecodeZeros(r.data);
  }

  /** A probe or commit GET_INFO answers 3 in one byte, GET_LEN the two bytes 0x00, 0x22. */
  lemma StreamingInfoAnswers(req: byte, cs: byte, probe: StreamingControl, commit: StreamingControl,
                             bulk: bool, maxpkt: int, mult: int, burst: int)
    requires cs == VS_PROBE_CONTROL || cs == VS_COMMIT_CONTROL
    ensures var r := AnswerStreaming(req, cs, probe, commit, bulk, maxpkt, mult, burst, StallResponse());
            (req == GET_INFO ==> (r.length == 1 && r.data[0] == 0x03)) &&
            (req == GET_LEN ==> (r.length == 2 && r.data[..2] == [0x00, 0x22]))
  {
  }

  /** A control written into a response decodes back from it. */
  lemma WriteControlDecodes(resp: Payload, c: StreamingControl)
    requires WellFormed(resp) && Fits(c)
    ensures Decode(WriteControl(resp, c).data) == c
  {
    var d := WriteControl(resp, c).data;
    assert d[..CONTROL_SIZE] == Encode(c);
    DecodePrefix(d);
    DecodeEncode(c);
  }

  /** Decoding reads only the first 34 bytes. */
  lemma DecodePrefix(b: seq<byte>)
    requires |b| >= CONTROL_SIZE
    ensures Decode(b) == Decode(b[..CONTROL_SIZE])
  {
    EncodeDecode(b);
    EncodeDecode(b[..CONTROL_SIZE]);
    assert b[..CONTROL_SIZE][..CONTROL_SIZE] == b[..CONTROL_SIZE];
    DecodeEncode(Decode(b));
    DecodeEncode(Decode(b[..CONTROL_SIZE]));
  }

  /** A non-probe, non-commit selector leaves the response untouched. */
  lemma OtherStreamingSelectorsIgnored(req: byte, cs: byte, probe: StreamingControl, commit: StreamingControl,
                                      bulk: bool, maxpkt: int, mult: int, burst: int, resp: Payload)
    requires WellFormed(resp) && cs != VS_PROBE_CONTROL && cs != VS_COMMIT_CONTROL
    ensures AnswerStreaming(req, cs, probe, commit, bulk, maxpkt, mult, burst, resp) == resp
  {
  }

  /** The value the data phase checks: the first four data bytes read as an unsigned 32-bit integer. */
  function DataValue(data: Payload): (v: nat)
    requires WellFormed(data)
    ensures v < 0x1_0000_0000
  {
    assert Pow256(4) == 0x1_0000_0000;
    LeValue(data.data[..4])
  }

  /**
   * The bytes a memcpy of data->length bytes into a 4-byte variable copies:
   * a length beyond 4 would write past the variable and is cut to 4 here.
   */
  function CopyCount(length: int): (n: nat)
    ensures n <= 4
  {
    if length < 0 then 0 else if length > 4 then 4 else length
  }

  /**
   * The value of the local `val` after the same copy; its bytes beyond the
   * copied ones are uninitialised in the source and are zero here.
   */
  function CopiedValue(data: Payload): (v: nat)
    requires WellFormed(data)
    ensures v < 0x1_0000_0000
  {
    StoredBrightness(0, data)
  }

  /** brightness_val after the data phase copies the request's first bytes over its low bytes. */
  function StoredBrightness(previous: nat, data: Payload): (b: nat)
    requires WellFormed(data)
    ensures b < 0x1_0000_0000
  {
    assert Pow256(4) == 0x1_0000_0000;
    LeValue(Memcpy(LeBytes(previous, 4), data.data, CopyCount(data.length)))
  }

  /**
   * A brightness SET_CUR whose two data bytes carry the value and whose
   * data phase passes the check: the next GET_CUR reports exactly the
   * value set.
   */
  lemma BrightnessRoundTrip(previous: nat, data: Payload, stored: ErrorCode, len: byte)
    requires WellFormed(data) && data.length == 2
    requires DataValue(data) <= PU_BRIGHTNESS_MAX_VAL
    ensures var b := StoredBrightness(previous, data);
            Reported(AnswerControl(GET_CUR, PU_BRIGHTNESS_CONTROL, ENTITY_PROCESSING_UNIT, len, stored, b, StallResponse()))
              == DataValue(data)
  {
    var b := StoredBrightness(previous, data);
    var bytes := Memcpy(LeBytes(previous, 4), data.data, 2);
    ProcessingUnitAnswers(PU_BRIGHTNESS_CONTROL, len, stored, b);
    LeBytesOfValue(bytes);
    assert LeBytes(b, 4) == bytes;
    ValueBelow256(data.data[..4]);
    assert b % 65536 == bytes[0] as int + 256 * bytes[1] as int by {
      LeValueOfBytes(b, 2);
      assert LeBytes(b, 2) == bytes[..2] by {
        assert LeBytes(b, 2)[0] == LeBytes(b, 4)[0];
        assert LeBytes(b, 2)[1] == LeBytes(b, 4)[1];
      }
      LeValue2(bytes[..2]);
      assert Pow256(2) == 65536;
    }
    LeValue4(data.data[..4]);
  }

  lemma LeValue2(s: seq<byte>)
    requires |s| == 2
    ensures LeValue(s) == s[0] as int + 256 * s[1] as int
  {
    assert s[1..][1..] == [];
  }

  lemma LeValue4(s: seq<byte>)
    requires |s| == 4
    ensures LeValue(s) == s[0] as int + 256 * (s[1] as int + 256 * (s[2] as int + 256 * s[3] as int))
  {
    LeValue2(s[2..]);
    assert s[1..][1..] == s[2..];
    assert LeValue(s[1..]) == s[1] as int + 256 * LeValue(s[2..]);
  }

  /** A 4-byte value at most 255 has zero in every byte but the first. */
  lemma ValueBelow256(s: seq<byte>)
    requires |s| == 4 && LeValue(s) <= 255
    ensures s[1] == 0 && s[2] == 0 && s[3] == 0
  {
    LeValue4(s);
  }

  /** struct timeval for select(). */
  datatype Timeout = Timeout(sec: int, usec: int)

  /**
   * The timeout process_uvc_gadget_device gives select(): whole seconds
   * split off above one second, the microseconds as they are up to one
   * second, and two seconds for zero.
   */
  function TimeoutSplit(useconds: int): (tv: Timeout)
    ensures useconds != 0 ==> tv.sec * 1000000 + tv.usec == useconds
    ensures useconds == 0 ==> tv == Timeout(2, 0)
    ensures useconds > 1000000 ==> tv.sec >= 1 && 0 <= tv.usec < 1000000
    ensures useconds <= 1000000 && useconds != 0 ==> tv.sec == 0
  {
    if useconds != 0 then
      if useconds > 1000000 then
        var sec := useconds / 1000000;
        Timeout(sec, useconds - sec * 1000000)
      else Timeout(0, useconds)
    else Timeout(2, 0)
  }

  /** enum usb_device_speed. */
  datatype UsbSpeed = UnknownSpeed | LowSpeed | FullSpeed | HighSpeed | WirelessSpeed | SuperSpeed

  /** The largest packet the USB specifications allow for a bulk or isochronous endpoint at a speed. */
  function StandardMaxPacket(speed: UsbSpeed, bulk: bool): (n: nat)
    requires speed in {FullSpeed, HighSpeed, SuperSpeed}
  {
    match speed
    case FullSpeed => if bulk then 64 else 1023
    case HighSpeed => if bulk then 512 else 1024
    case SuperSpeed => 1024
  }

  /** The maxpkt init_uvc_gadget_device chooses for a speed and transfer type; every unlisted speed takes the super-speed value. */
  function MaxPacketSize(speed: UsbSpeed, bulk: bool): (n: nat)
    ensures speed in {FullSpeed, HighSpeed, SuperSpeed} ==> n == StandardMaxPacket(speed, bulk)
    ensures speed !in {FullSpeed, HighSpeed} ==> n == 1024
  {
    if speed == FullSpeed then (if bulk then 64 else 1023)
    else if speed == HighSpeed then (if bulk then 512 else 1024)
    else 1024
  }
}
