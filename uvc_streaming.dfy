/*
 * The Video Probe and Commit control of the USB Video Class 1.1
 * specification (section 4.3.1.1): the 34-byte uvc_streaming_control
 * structure, its little-endian wire layout, the gadget's format and frame
 * table, the control uvc_fill_streaming_control offers, and the
 * negotiation the data phase of a probe or commit performs.
 */
module UvcStreaming {
  import opened Bits
  import Video

  /** sizeof(struct uvc_streaming_control). */
  const CONTROL_SIZE := 34

  /** The byte width of each field of the structure, in wire order. */
  const FIELD_WIDTHS: seq<nat> := [2, 1, 1, 4, 2, 2, 2, 2, 2, 4, 4, 4, 1, 1, 1, 1]

  function Sum(ws: seq<nat>): (total: nat)
  {
    if ws == [] then 0 else ws[0] + Sum(ws[1..])
  }

  /** struct uvc_streaming_control, one field per member. */
  datatype StreamingControl = StreamingControl(
    bmHint: nat,
    bFormatIndex: nat,
    bFrameIndex: nat,
    dwFrameInterval: nat,
    wKeyFrameRate: nat,
    wPFrameRate: nat,
    wCompQuality: nat,
    wCompWindowSize: nat,
    wDelay: nat,
    dwMaxVideoFrameSize: nat,
    dwMaxPayloadTransferSize: nat,
    dwClockFrequency: nat,
    bmFramingInfo: nat,
    bPreferedVersion: nat,
    bMinVersion: nat,
    bMaxVersion: nat)

  /** The fields in wire order. */
  function Fields(c: StreamingControl): (s: seq<nat>)
    ensures |s| == |FIELD_WIDTHS|
  {
    [c.bmHint, c.bFormatIndex, c.bFrameIndex, c.dwFrameInterval,
     c.wKeyFrameRate, c.wPFrameRate, c.wCompQuality, c.wCompWindowSize,
     c.wDelay, c.dwMaxVideoFrameSize, c.dwMaxPayloadTransferSize, c.dwClockFrequency,
     c.bmFramingInfo, c.bPreferedVersion, c.bMinVersion, c.bMaxVersion]
  }

  /** The structure whose fields, in wire order, are s. */
  function FromFields(s: seq<nat>): (c: StreamingControl)
    requires |s| == |FIELD_WIDTHS|
    ensures Fields(c) == s
  {
    StreamingControl(s[0], s[1], s[2], s[3], s[4], s[5], s[6], s[7],
                     s[8], s[9], s[10], s[11], s[12], s[13], s[14], s[15])
  }

  /** Every field fits its width. */
  predicate Fits(c: StreamingControl)
  {
    forall i :: 0 <= i < |FIELD_WIDTHS| ==> Fields(c)[i] < Pow256(FIELD_WIDTHS[i])
  }

  /** Values laid out one after another, each little-endian in its width. */
  function Serialize(vals: seq<nat>, widths: seq<nat>): (b: seq<byte>)
    requires |vals| == |widths|
    ensures |b| == Sum(widths)
  {
    if vals == [] then [] else LeBytes(vals[0], widths[0]) + Serialize(vals[1..], widths[1..])
  }

  /** The values of consecutive little-endian fields of the given widths. */
  function Parse(b: seq<byte>, widths: seq<nat>): (vals: seq<nat>)
    requires |b| >= Sum(widths)
    ensures |vals| == |widths|
    ensures forall i :: 0 <= i < |widths| ==> vals[i] < Pow256(widths[i])
  {
    if widths == [] then []
    else
      var rest := Parse(b[widths[0]..], widths[1..]);
      assert forall i :: 1 <= i < |widths| ==> rest[i - 1] < Pow256(widths[i]);
      [LeValue(b[..widths[0]])] + rest
  }

  /** Parsing what was serialized gives back every value that fits its width. */
  lemma {:induction false} ParseSerialize(vals: seq<nat>, widths: seq<nat>)
    requires |vals| == |widths|
    requires forall i :: 0 <= i < |vals| ==> vals[i] < Pow256(widths[i])
    ensures Parse(Serialize(vals, widths), widths) == vals
  {
    if vals != [] {
      var w := widths[0];
      var head := LeBytes(vals[0], w);
      var tail := Serialize(vals[1..], widths[1..]);
      var b := head + tail;
      assert Serialize(vals, widths) == b;
      assert b[..w] == head;
      assert b[w..] == tail;
      LeValueOfBytes(vals[0], w);
      DivModUnique(vals[0], Pow256(w), 0, vals[0]);
      assert forall i :: 0 <= i < |vals| - 1 ==> vals[1..][i] < Pow256(widths[1..][i]) by {
        forall i | 0 <= i < |vals| - 1
          ensures vals[1..][i] < Pow256(widths[1..][i])
        {
          assert vals[1..][i] == vals[i + 1] && widths[1..][i] == widths[i + 1];
        }
      }
      ParseSerialize(vals[1..], widths[1..]);
      assert Parse(b, widths) == [LeValue(head)] + Parse(tail, widths[1..]);
      assert vals == [vals[0]] + vals[1..];
    }
  }

  /** Serializing what was parsed gives back the bytes the fields cover. */
  lemma {:induction false} SerializeParse(b: seq<byte>, widths: seq<nat>)
    requires |b| >= Sum(widths)
    ensures Serialize(Parse(b, widths), widths) == b[..Sum(widths)]
  {
    if widths != [] {
      var w := widths[0];
      var vals := Parse(b, widths);
      assert vals[1..] == Parse(b[w..], widths[1..]);
      LeBytesOfValue(b[..w]);
      SerializeParse(b[w..], widths[1..]);
      assert b[..Sum(widths)] == b[..w] + b[w..][..Sum(widths[1..])];
    }
  }

  /** The sum of a concatenation is the sum of its parts. */
  lemma {:induction false} SumAppend(xs: seq<nat>, ys: seq<nat>)
    ensures Sum(xs + ys) == Sum(xs) + Sum(ys)
  {
    if xs != [] {
      assert (xs + ys)[1..] == xs[1..] + ys;
      SumAppend(xs[1..], ys);
    } else {
      assert xs + ys == ys;
    }
  }

  /** The field widths add up to the 34 bytes of the structure. */
  lemma ControlSize()
    ensures Sum(FIELD_WIDTHS) == CONTROL_SIZE
  {
    var s0: seq<nat> := [2, 1, 1, 4];
    var s1: seq<nat> := [2, 2, 2, 2];
    var s2: seq<nat> := [2, 4, 4, 4];
    var s3: seq<nat> := [1, 1, 1, 1];
    assert FIELD_WIDTHS == (s0 + s1) + (s2 + s3);
    SumAppend(s0, s1);
    SumAppend(s2, s3);
    SumAppend(s0 + s1, s2 + s3);
  }

  /** The 34 bytes of the structure as they go on the wire. */
  function Encode(c: StreamingControl): (b: seq<byte>)
    ensures |b| == CONTROL_SIZE
  {
    ControlSize();
    Serialize(Fields(c), FIELD_WIDTHS)
  }

  /** The structure read from the first 34 bytes of a buffer. */
  function Decode(b: seq<byte>): (c: StreamingControl)
    requires |b| >= CONTROL_SIZE
    ensures Fits(c)
  {
    ControlSize();
    FromFields(Parse(b, FIELD_WIDTHS))
  }

  /** Decoding an encoded structure gives it back. */
  lemma DecodeEncode(c: StreamingControl)
    requires Fits(c)
    ensures Decode(Encode(c)) == c
  {
    ControlSize();
    ParseSerialize(Fields(c), FIELD_WIDTHS);
  }

  /** Encoding a decoded buffer gives back its first 34 bytes. */
  lemma EncodeDecode(b: seq<byte>)
    requires |b| >= CONTROL_SIZE
    ensures Encode(Decode(b)) == b[..CONTROL_SIZE]
  {
    ControlSize();
    SerializeParse(b, FIELD_WIDTHS);
  }

  /** The all-zero structure (memset of the structure to 0). */
  const ZERO_CONTROL := StreamingControl(0, 0, 0, 0, 0, 0, 0, 0, 0, 0, 0, 0, 0, 0, 0, 0)

  /** A buffer of zero bytes reads as the all-zero structure. */
  lemma DecodeZeros(b: seq<byte>)
    requires |b| >= CONTROL_SIZE && forall i :: 0 <= i < |b| ==> b[i] == 0
    ensures Decode(b) == ZERO_CONTROL
  {
    ControlSize();
    ParseZeros(b, FIELD_WIDTHS);
  }

  lemma {:induction false} LeValueZeros(s: seq<byte>)
    requires forall i :: 0 <= i < |s| ==> s[i] == 0
    ensures LeValue(s) == 0
  {
    if s != [] {
      assert forall i :: 0 <= i < |s| - 1 ==> s[1..][i] == s[i + 1];
      LeValueZeros(s[1..]);
    }
  }

  lemma {:induction false} ParseZeros(b: seq<byte>, widths: seq<nat>)
    requires |b| >= Sum(widths) && forall i :: 0 <= i < |b| ==> b[i] == 0
    ensures forall i :: 0 <= i < |widths| ==> Parse(b, widths)[i] == 0
  {
    if widths != [] {
      var w := widths[0];
      LeValueZeros(b[..w]);
      assert forall i :: 0 <= i < |b| - w ==> b[w..][i] == b[i + w];
      ParseZeros(b[w..], widths[1..]);
      var vals := Parse(b, widths);
      assert vals == [LeValue(b[..w])] + Parse(b[w..], widths[1..]);
    }
  }

  /** struct uvc_frame_info: a frame size and its zero-terminated interval list of 8 slots. */
  datatype FrameInfo = FrameInfo(width: nat, height: nat, intervals: seq<nat>)

  /** struct uvc_format_info: a pixel format and its frame list, ended by a zero-width entry. */
  datatype FormatInfo = FormatInfo(fcc: nat, frames: seq<FrameInfo>)

  const FRAMES_YUYV: seq<FrameInfo> := [
    FrameInfo(640, 550, [333333, 500000, 666666, 1000000, 2000000, 10000000, 0, 0]),
    FrameInfo(640, 480, [333333, 500000, 666666, 1000000, 2000000, 10000000, 0, 0]),
    FrameInfo(640, 360, [666666, 10000000, 50000000, 0, 0, 0, 0, 0]),
    FrameInfo(1280, 720, [50000000, 0, 0, 0, 0, 0, 0, 0]),
    FrameInfo(0, 0, [0, 0, 0, 0, 0, 0, 0, 0])
  ]

  /** uvc_formats: YUYV only. */
  const FORMATS: seq<FormatInfo> := [FormatInfo(Video.PIX_FMT_YUYV, FRAMES_YUYV)]

  /** A frame list ends with a zero-width entry. */
  predicate Terminated(frames: seq<FrameInfo>)
  {
    exists i :: 0 <= i < |frames| && frames[i].width == 0
  }

  /** The number of frames before the first zero-width entry. */
  function NFrames(frames: seq<FrameInfo>): (n: nat)
    requires Terminated(frames)
    ensures n < |frames| && frames[n].width == 0
    ensures forall j :: 0 <= j < n ==> frames[j].width != 0
  {
    if frames[0].width == 0 then 0
    else
      var i :| 0 <= i < |frames| && frames[i].width == 0;
      assert frames[1..][i - 1].width == 0;
      1 + NFrames(frames[1..])
  }

  /** An interval list whose last slot is zero, so the selection walk stops inside it. */
  predicate ZeroEnded(iv: seq<nat>)
  {
    |iv| >= 2 && iv[|iv| - 1] == 0
  }

  /** A table entry in the shape the table has: the terminated frame list, each frame with a zero-ended interval list. */
  predicate WellFormedFormat(f: FormatInfo)
  {
    Terminated(f.frames) &&
    (forall j :: 0 <= j < |f.frames| ==> ZeroEnded(f.frames[j].intervals)) &&
    (forall j :: 0 <= j < NFrames(f.frames) ==> f.frames[j].intervals[0] != 0)
  }

  /** The gadget's table: one format, YUYV, with four frames. */
  lemma FormatTable()
    ensures |FORMATS| == 1 && FORMATS[0].fcc == Video.PIX_FMT_YUYV
    ensures WellFormedFormat(FORMATS[0])
    ensures NFrames(FORMATS[0].frames) == 4
  {
    var frames := FORMATS[0].frames;
    assert frames[4].width == 0;
    assert NFrames(frames[4..]) == 0;
    assert frames[3..][1..] == frames[4..];
    assert frames[2..][1..] == frames[3..];
    assert frames[1..][1..] == frames[2..];
  }

  /**
   * The position the data phase's walk stops at: step forward while the
   * current interval is below the request and the next slot is non-zero.
   */
  function IntervalIndexFrom(iv: seq<nat>, requested: nat, i: nat): (k: nat)
    requires ZeroEnded(iv) && i < |iv| - 1
    ensures i <= k < |iv| - 1
    ensures iv[k] >= requested || iv[k + 1] == 0
    ensures forall j :: i <= j < k ==> iv[j] < requested
    ensures forall j :: i < j <= k ==> iv[j] != 0
    decreases |iv| - i
  {
    if iv[i] < requested && iv[i + 1] != 0 then IntervalIndexFrom(iv, requested, i + 1) else i
  }

  /** The listed intervals are iv[..m]: non-zero, followed by zero padding. */
  predicate Listed(iv: seq<nat>, m: nat)
  {
    1 <= m < |iv| &&
    (forall j :: 0 <= j < m ==> iv[j] != 0) &&
    (forall j :: m <= j < |iv| ==> iv[j] == 0)
  }

  /**
   * The chosen interval is the first listed interval at least the request,
   * or the last listed interval when every listed one is shorter.
   */
  lemma IntervalChoice(iv: seq<nat>, requested: nat, m: nat)
    requires ZeroEnded(iv) && Listed(iv, m)
    ensures var k := IntervalIndexFrom(iv, requested, 0);
            k < m &&
            (iv[k] >= requested ==> forall j :: 0 <= j < k ==> iv[j] < requested) &&
            (iv[k] < requested ==> k == m - 1 && forall j :: 0 <= j < m ==> iv[j] < requested)
  {
  }

  /** Listing the frame's interval slots from the table. */
  lemma TableIntervalsListed(j: nat)
    requires j < 4
    ensures Listed(FRAMES_YUYV[j].intervals, [6, 6, 3, 1][j])
  {
  }

  /** clamp(val, lo, hi) of the source. */
  function Clamp(v: int, lo: int, hi: int): (r: int)
    ensures lo <= hi ==> lo <= r <= hi
    ensures lo <= v <= hi ==> r == v
    ensures lo <= hi && v < lo ==> r == lo
    ensures lo <= hi && v > hi ==> r == hi
  {
    var w := if v < lo then lo else v;
    if w > hi then hi else w
  }

  /**
   * An index counted from the end when negative, as uvc_fill_streaming_control
   * adjusts it: exactly the indices in [-count, count) name an entry, and a
   * non-negative index names itself.
   */
  function FromEnd(index: int, count: nat): (r: int)
    ensures 0 <= index + count && index < count ==> 0 <= r < count
    ensures index >= count || index + count < 0 ==> r < 0 || r >= count
    ensures index >= 0 ==> r == index
  {
    if index < 0 then count + index else index
  }

  /** The payload size a streaming control advertises. */
  function PayloadSize(bulk: bool, frameSize: nat, maxpkt: int, mult: int, burst: int): (p: nat)
    ensures p < 0x1_0000_0000
  {
    if bulk then frameSize % 0x1_0000_0000
    else (maxpkt * (mult + 1) * (burst + 1)) % 0x1_0000_0000
  }

  /**
   * uvc_fill_streaming_control(dev, ctrl, iframe, iformat): None when an
   * index is out of range after counting negatives from the end (the
   * control is then left unchanged); otherwise the zeroed structure with
   * the hint, 1-based indices, first interval, frame size, payload size,
   * framing info and versions set.
   */
  function FilledControl(iformat: int, iframe: int, bulk: bool, maxpkt: int, mult: int, burst: int)
    : (r: Option<StreamingControl>)
    ensures r.Some? <==> 0 <= FromEnd(iformat, |FORMATS|) < |FORMATS| &&
                         0 <= FromEnd(iframe, NFrames(FORMATS[FromEnd(iformat, |FORMATS|)].frames))
                           < NFrames(FORMATS[FromEnd(iformat, |FORMATS|)].frames)
    ensures r.Some? ==>
              var f := FORMATS[FromEnd(iformat, |FORMATS|)];
              var frame := f.frames[FromEnd(iframe, NFrames(f.frames))];
              var c := r.value;
              c.bmHint == 1 &&
              c.bFormatIndex == FromEnd(iformat, |FORMATS|) + 1 &&
              c.bFrameIndex == FromEnd(iframe, NFrames(f.frames)) + 1 &&
              c.dwFrameInterval == frame.intervals[0] &&
              c.dwMaxVideoFrameSize == frame.width * frame.height * 2 &&
              c.dwMaxPayloadTransferSize == PayloadSize(bulk, c.dwMaxVideoFrameSize, maxpkt, mult, burst) &&
              c.bmFramingInfo == 3 && c.bPreferedVersion == 1 && c.bMaxVersion == 1 &&
              c.bMinVersion == 0 && c.wKeyFrameRate == 0 && c.wPFrameRate == 0 &&
              c.wCompQuality == 0 && c.wCompWindowSize == 0 && c.wDelay == 0 && c.dwClockFrequency == 0
  {
    FormatTable();
    var fi := FromEnd(iformat, |FORMATS|);
    if fi < 0 || fi >= |FORMATS| then None
    else
      var f := FORMATS[fi];
      var n := NFrames(f.frames);
      var fr := FromEnd(iframe, n);
      if fr < 0 || fr >= n then None
      else
        var frame := f.frames[fr];
        var size := frame.width * frame.height * 2;
        Some(ZERO_CONTROL.(bmHint := 1, bFormatIndex := fi + 1, bFrameIndex := fr + 1,
                           dwFrameInterval := frame.intervals[0], dwMaxVideoFrameSize := size,
                           dwMaxPayloadTransferSize := PayloadSize(bulk, size, maxpkt, mult, burst),
                           bmFramingInfo := 3, bPreferedVersion := 1, bMaxVersion := 1))
  }

  /** The first and the last entries of the table are always offered; -2 .. -4 and 1 .. 3 count the other frames. */
  lemma FilledControlRange(iframe: int, bulk: bool, maxpkt: int, mult: int, burst: int)
    ensures FilledControl(0, iframe, bulk, maxpkt, mult, burst).Some? <==> -4 <= iframe < 4
    ensures FilledControl(-1, iframe, bulk, maxpkt, mult, burst) == FilledControl(0, iframe, bulk, maxpkt, mult, burst)
    ensures FilledControl(0, -1, bulk, maxpkt, mult, burst) == FilledControl(0, 3, bulk, maxpkt, mult, burst)
  {
    FormatTable();
  }

  /** The offered control fits the 34-byte structure field by field. */
  lemma FilledControlFits(iformat: int, iframe: int, bulk: bool, maxpkt: int, mult: int, burst: int)
    requires FilledControl(iformat, iframe, bulk, maxpkt, mult, burst).Some?
    ensures Fits(FilledControl(iformat, iframe, bulk, maxpkt, mult, burst).value)
  {
    FormatTable();
    var c := FilledControl(iformat, iframe, bulk, maxpkt, mult, burst).value;
    var n := NFrames(FORMATS[0].frames);
    var fr := FromEnd(iframe, n);
    TableIntervalsListed(fr);
    assert c.dwFrameInterval <= 50000000;
    assert c.dwMaxVideoFrameSize <= 1280 * 720 * 2;
    assert Pow256(1) == 256 && Pow256(2) == 65536 && Pow256(4) == 0x1_0000_0000;
  }

  /**
   * The data phase of a probe or commit (uvc_events_process_data): the
   * format and frame indices the host sent are clamped into the table,
   * the interval is the one the walk stops at, the frame size follows the
   * chosen frame, and every other field of the target is kept.
   */
  function Negotiate(target: StreamingControl, request: StreamingControl): (r: StreamingControl)
    ensures 1 <= r.bFormatIndex <= |FORMATS|
    ensures 1 <= r.bFrameIndex <= NFrames(FORMATS[r.bFormatIndex - 1].frames)
    ensures r == target.(bFormatIndex := r.bFormatIndex, bFrameIndex := r.bFrameIndex,
                         dwMaxVideoFrameSize := r.dwMaxVideoFrameSize, dwFrameInterval := r.dwFrameInterval)
    ensures request.bFormatIndex == 1 ==> r.bFormatIndex == 1
    ensures 1 <= request.bFrameIndex <= NFrames(FORMATS[r.bFormatIndex - 1].frames) ==>
              r.bFrameIndex == request.bFrameIndex
    ensures request.bFormatIndex < 1 ==> r.bFormatIndex == 1
    ensures request.bFormatIndex > |FORMATS| ==> r.bFormatIndex == |FORMATS|
    ensures request.bFrameIndex < 1 ==> r.bFrameIndex == 1
    ensures request.bFrameIndex > NFrames(FORMATS[r.bFormatIndex - 1].frames) ==>
              r.bFrameIndex == NFrames(FORMATS[r.bFormatIndex - 1].frames)
  {
    FormatTable();
    var iformat := Clamp(request.bFormatIndex, 1, |FORMATS|);
    var f := FORMATS[iformat - 1];
    var iframe := Clamp(request.bFrameIndex, 1, NFrames(f.frames));
    var frame := f.frames[iframe - 1];
    var k := IntervalIndexFrom(frame.intervals, request.dwFrameInterval, 0);
    target.(bFormatIndex := iformat, bFrameIndex := iframe,
            dwMaxVideoFrameSize := frame.width * frame.height * 2,
            dwFrameInterval := frame.intervals[k])
  }

  /** Every entry of the frame table is at most 1280x720 with intervals at most 50000000. */
  lemma FrameTableBounds(j: nat)
    requires j < |FRAMES_YUYV|
    ensures FRAMES_YUYV[j].width * FRAMES_YUYV[j].height * 2 <= 1280 * 720 * 2
    ensures forall i :: 0 <= i < |FRAMES_YUYV[j].intervals| ==> FRAMES_YUYV[j].intervals[i] <= 50000000
  {
  }

  /** The four negotiated fields stay within the table's ranges. */
  lemma NegotiateBounds(target: StreamingControl, request: StreamingControl)
    ensures var r := Negotiate(target, request);
            r.bFormatIndex <= 1 && r.bFrameIndex <= 4 &&
            r.dwFrameInterval <= 50000000 && r.dwMaxVideoFrameSize <= 1280 * 720 * 2
  {
    FormatTable();
    var r := Negotiate(target, request);
    var frame := FRAMES_YUYV[r.bFrameIndex - 1];
    FrameTableBounds(r.bFrameIndex - 1);
    NegotiatedInterval(target, request);
    var k := IntervalIndexFrom(frame.intervals, request.dwFrameInterval, 0);
    assert r.dwFrameInterval == frame.intervals[k];
  }

  /** Negotiation keeps a control that fits the 34-byte structure fitting it. */
  lemma NegotiateFits(target: StreamingControl, request: StreamingControl)
    requires Fits(target)
    ensures Fits(Negotiate(target, request))
  {
    var r := Negotiate(target, request);
    NegotiateBounds(target, request);
    NegotiatedFieldsFit(target, r.bFormatIndex, r.bFrameIndex, r.dwFrameInterval, r.dwMaxVideoFrameSize);
  }

  /** Replacing the four negotiated fields by values within their widths keeps a control fitting. */
  lemma NegotiatedFieldsFit(target: StreamingControl, format: nat, frame: nat, interval: nat, size: nat)
    requires Fits(target)
    requires format < 256 && frame < 256 && interval < 0x1_0000_0000 && size < 0x1_0000_0000
    ensures Fits(target.(bFormatIndex := format, bFrameIndex := frame, dwFrameInterval := interval,
                         dwMaxVideoFrameSize := size))
  {
    var r := target.(bFormatIndex := format, bFrameIndex := frame, dwFrameInterval := interval,
                     dwMaxVideoFrameSize := size);
    assert Pow256(1) == 256 && Pow256(4) == 0x1_0000_0000;
    forall i | 0 <= i < |FIELD_WIDTHS|
      ensures Fields(r)[i] < Pow256(FIELD_WIDTHS[i])
    {
      if i != 1 && i != 2 && i != 3 && i != 9 {
        assert Fields(r)[i] == Fields(target)[i];
      }
    }
  }

  /** The frame a negotiated control names, and the interval chosen for it. */
  lemma NegotiatedInterval(target: StreamingControl, request: StreamingControl)
    ensures var r := Negotiate(target, request);
            var frame := FORMATS[r.bFormatIndex - 1].frames[r.bFrameIndex - 1];
            var k := IntervalIndexFrom(frame.intervals, request.dwFrameInterval, 0);
            r.dwFrameInterval == frame.intervals[k] &&
            r.dwMaxVideoFrameSize == frame.width * frame.height * 2 &&
            r.dwFrameInterval != 0 &&
            (r.dwFrameInterval >= request.dwFrameInterval ==>
               forall j :: 0 <= j < k ==> frame.intervals[j] < request.dwFrameInterval)
  {
    FormatTable();
    var r := Negotiate(target, request);
    var fr := r.bFrameIndex - 1;
    var frame := FORMATS[0].frames[fr];
    TableIntervalsListed(fr);
    IntervalChoice(frame.intervals, request.dwFrameInterval, [6, 6, 3, 1][fr]);
  }

  /**
   * A control the device offered (GET_MIN, GET_DEF or GET_MAX) and sent back
   * by the host is accepted as it is: negotiation keeps its format, frame,
   * interval and frame size.
   */
  lemma OfferedControlAccepted(target: StreamingControl, iformat: int, iframe: int,
                               bulk: bool, maxpkt: int, mult: int, burst: int)
    requires FilledControl(iformat, iframe, bulk, maxpkt, mult, burst).Some?
    ensures var offered := FilledControl(iformat, iframe, bulk, maxpkt, mult, burst).value;
            var r := Negotiate(target, offered);
            r.bFormatIndex == offered.bFormatIndex && r.bFrameIndex == offered.bFrameIndex &&
            r.dwFrameInterval == offered.dwFrameInterval && r.dwMaxVideoFrameSize == offered.dwMaxVideoFrameSize
  {
    FormatTable();
    var offered := FilledControl(iformat, iframe, bulk, maxpkt, mult, burst).value;
    var fr := offered.bFrameIndex - 1;
    TableIntervalsListed(fr);
    var iv := FORMATS[0].frames[fr].intervals;
    assert IntervalIndexFrom(iv, offered.dwFrameInterval, 0) == 0;
  }

  /** The data phase's frame-counting loop: walk the frame list to its zero-width entry. */
  method CountFrames(frames: seq<FrameInfo>) returns (n: nat)
    requires Terminated(frames)
    ensures n == NFrames(frames)
  {
    n := 0;
    while frames[n].width != 0
      invariant n <= NFrames(frames)
      invariant forall j :: 0 <= j < n ==> frames[j].width != 0
      decreases NFrames(frames) - n
    {
      n := n + 1;
    }
    assert frames[NFrames(frames)].width == 0;
  }

  /** The data phase's interval walk: the position of the interval it stops at. */
  method SelectInterval(iv: seq<nat>, requested: nat) returns (k: nat)
    requires ZeroEnded(iv)
    ensures k == IntervalIndexFrom(iv, requested, 0)
  {
    k := 0;
    while iv[k] < requested && iv[k + 1] != 0
      invariant k <= IntervalIndexFrom(iv, requested, 0)
      invariant IntervalIndexFrom(iv, requested, k) == IntervalIndexFrom(iv, requested, 0)
      decreases |iv| - k
    {
      k := k + 1;
    }
  }
}
