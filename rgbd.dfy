/*
 * TRGBDClass of RGBDClass.cpp: the RGB history written by the RGB capture
 * loop, the merge step (`runner`) that pairs each depth frame with the most
 * recent RGB frame and pushes the pair into the frame FIFO, and the fill
 * step (`fill_buf_func`) that hands the oldest pair's RGB bytes to the UVC
 * side. Each operation is modelled as one sequential step; the threads that
 * run them concurrently are not.
 */
module Rgbd {
  import opened Bits
  import opened Fifo

  /** Slots of the RGB history `rgb[32][]` / `rgb_stamps[32]`. */
  const HISTORY_SLOTS: nat := 32

  /** Error codes of Init (capis.h). */
  const ERROR_OPEN_RGB: int := -1000
  const ERROR_OPEN_DEPTH: int := -1001
  const ERROR_OPEN_UVC: int := -1002
  const ERROR_CREATE_RGB_THREAD: int := -1005
  const ERROR_CREATE_DEPTH_THREAD: int := -1006
  const ERROR_INIT_DEPTH: int := -1007

  /** RGB geometry Init fixes. */
  const RGB_WIDTH: nat := 640
  const RGB_HEIGHT: nat := 480

  /**
   * What `dequeue_and_capture` hands back for one frame: the buffer's
   * timestamp, its `bytesused`, and the driver buffer it copies from.
   */
  datatype Capture = Capture(timestamp: TimeVal, bytesused: nat, payload: seq<byte>)

  /** The copy of `bytesused` bytes stays inside both the driver buffer and a destination of `room` bytes. */
  predicate CopyFits(c: Capture, room: nat)
  {
    c.bytesused <= |c.payload| && c.bytesused <= room
  }

  /** Masking the two's complement pattern of i - 1 to five bits gives the slot before i. */
  lemma PreviousSlotPattern(i: int)
    requires 0 <= i < HISTORY_SLOTS
    ensures And((i - 1) % 0x1_0000_0000, 31) == (i + 31) % HISTORY_SLOTS
  {
    var pattern := (i - 1) % 0x1_0000_0000;
    AndLowMask(pattern, 5);
    if i == 0 {
      DivModUnique(pattern, 32, 0x800_0000 - 1, 31);
      DivModUnique(31, 32, 0, 31);
    } else {
      Fifo.ModOfSmall(i - 1, 0x1_0000_0000);
      Fifo.ModOfSmall(i - 1, 32);
      DivModUnique(i + 31, 32, 1, i - 1);
    }
  }

  /**
   * `(i - 1) & 31` on a 32-bit int: the bit pattern of i - 1 is i - 1
   * modulo 2^32 (two's complement), masked to five bits.
   */
  function PreviousSlot(i: int): (r: nat)
    requires 0 <= i < HISTORY_SLOTS
    ensures r < HISTORY_SLOTS && (r + 1) % HISTORY_SLOTS == i
  {
    PreviousSlotPattern(i);
    if i == 0 then And((i - 1) % 0x1_0000_0000, 31)
    else Fifo.ModOfSmall(i, 32); And((i - 1) % 0x1_0000_0000, 31)
  }

  /** `idx++; idx &= 31`: the history slot after i. */
  function NextSlot(i: int): (r: nat)
    requires 0 <= i < HISTORY_SLOTS
    ensures r < HISTORY_SLOTS && r == (i + 1) % HISTORY_SLOTS
  {
    AndLowMask(i + 1, 5);
    And(i + 1, 31)
  }

  /** Going forward one slot and back one slot returns to the same slot. */
  lemma PreviousOfNext(i: int)
    requires 0 <= i < HISTORY_SLOTS
    ensures PreviousSlot(NextSlot(i)) == i
  {
    var n := NextSlot(i);
    var p := PreviousSlot(n);
    if i < 31 {
      Fifo.ModOfSmall(i + 1, 32);
      Fifo.ModOfSmall(p + 1, 32);
    } else {
      DivModUnique(i + 1, 32, 1, 0);
      if p < 31 {
        Fifo.ModOfSmall(p + 1, 32);
      }
    }
  }

  /** The results of the calls Init makes, in order: 0 means success. */
  datatype InitOutcomes = InitOutcomes(
    openRgb: int, openDepth: int, openUvc: int,
    rgbThread: int, usbThread: int, initDepth: int)

  /** Init's return value: the error code of the first call that failed, or 0. */
  function InitCode(o: InitOutcomes): (code: int)
    ensures code == 0 <==>
      o.openRgb == 0 && o.openDepth == 0 && o.openUvc == 0 &&
      o.rgbThread == 0 && o.usbThread == 0 && o.initDepth == 0
    ensures code != 0 ==> code in {ERROR_OPEN_RGB, ERROR_OPEN_DEPTH, ERROR_OPEN_UVC,
                                    ERROR_CREATE_RGB_THREAD, ERROR_CREATE_DEPTH_THREAD, ERROR_INIT_DEPTH}
    ensures o.openRgb != 0 ==> code == ERROR_OPEN_RGB
  {
    if o.openRgb != 0 then ERROR_OPEN_RGB
    else if o.openDepth != 0 then ERROR_OPEN_DEPTH
    else if o.openUvc != 0 then ERROR_OPEN_UVC
    else if o.rgbThread != 0 then ERROR_CREATE_RGB_THREAD
    else if o.usbThread != 0 then ERROR_CREATE_DEPTH_THREAD
    else if o.initDepth != 0 then ERROR_INIT_DEPTH
    else 0
  }

  /** TRGBDClass with its `thread_data_t`. */
  class RgbdCamera {
    var numOfBuffer: int
    var videoDone: bool
    var depthDone: bool
    var uvcDone: bool
    var exitRequested: bool
    /** CB_Func != NULL. */
    var callbackSet: bool
    var rgbWidth: int
    var rgbHeight: int
    var rgbIndex: int
    var rgbSize: int
    /** rgb_stamps[32] and rgb[32][]: the RGB history. */
    const rgbStamps: array<TimeVal>
    const rgb: array<seq<byte>>
    /** thr_data.depth: the last depth frame dequeued. */
    var depth: seq<byte>
    /** rgbd_data_q over `__fifo_data`. */
    const fifo: FrameFifo
    /** The RGB bytes of each slot the callback was invoked on, in call order. */
    var callbackLog: seq<seq<byte>>
    /** Buffers handed back to the depth and RGB drivers by queue_capture. */
    var depthRequeued: nat
    var rgbRequeued: nat
    /** Which of Init's later steps ran. */
    var rgbThreadStarted: bool
    var usbThreadStarted: bool
    var depthCapturing: bool
    var rgbCapturing: bool

    ghost predicate Valid()
      reads this, rgbStamps, rgb, fifo, fifo.mem
    {
      rgbStamps.Length == HISTORY_SLOTS && rgb.Length == HISTORY_SLOTS &&
      (forall i :: 0 <= i < HISTORY_SLOTS ==> |rgb[i]| == RGB_DATA_SIZE) &&
      |depth| == DEPTH9_DATA_SIZE &&
      0 <= rgbIndex < HISTORY_SLOTS &&
      0 <= rgbSize <= RGB_DATA_SIZE &&
      fifo.Valid()
    }

    /** The slot runner fills from: the history slot before rgb_index. */
    function MergeSource(): (idx: nat)
      reads this
      requires 0 <= rgbIndex < HISTORY_SLOTS
      ensures idx < HISTORY_SLOTS && NextSlot(idx) == rgbIndex
    {
      PreviousSlot(rgbIndex)
    }

    /** The pair runner writes into the head slot for depth capture c. */
    ghost function Merged(c: Capture): (m: FifoMem)
      reads this, rgbStamps, rgb, fifo, fifo.mem
      requires Valid() && CopyFits(c, DEPTH9_DATA_SIZE)
      ensures WellSized(m)
    {
      var idx := MergeSource();
      var slot := fifo.mem[fifo.head];
      var newDepth := Memcpy(depth, c.payload, c.bytesused);
      FifoMem(rgbStamps[idx], c.timestamp,
              Memcpy(slot.rgb, rgb[idx], rgbSize),
              Memcpy(slot.depth, newDepth, c.bytesused))
    }

    /** TRGBDClass(num_buf): the done flags and the callback are cleared. */
    constructor (numBuf: int)
      ensures Valid() && fresh(fifo) && fresh(fifo.mem) && fresh(rgbStamps) && fresh(rgb)
      ensures numOfBuffer == numBuf
      ensures !videoDone && !depthDone && !uvcDone && !exitRequested && !callbackSet
      ensures callbackLog == [] && depthRequeued == 0 && rgbRequeued == 0
    {
      numOfBuffer := numBuf;
      videoDone, depthDone, uvcDone := false, false, false;
      exitRequested := false;
      callbackSet := false;
      rgbWidth, rgbHeight, rgbIndex, rgbSize := 0, 0, 0, 0;
      rgbStamps := new TimeVal[HISTORY_SLOTS](_ => TimeVal(0, 0));
      rgb := new seq<byte>[HISTORY_SLOTS](_ => seq(RGB_DATA_SIZE, _ => 0));
      depth := seq(DEPTH9_DATA_SIZE, _ => 0);
      fifo := new FrameFifo();
      callbackLog := [];
      depthRequeued, rgbRequeued := 0, 0;
      rgbThreadStarted, usbThreadStarted, depthCapturing, rgbCapturing := false, false, false, false;
    }

    /** RegisterCallback(func): `present` says whether func is non-NULL; always returns 0. */
    method RegisterCallback(present: bool) returns (r: int)
      modifies this`callbackSet
      ensures callbackSet == present && r == 0
    {
      callbackSet := present;
      r := 0;
    }

    /**
     * Init: fix the RGB geometry, initialise the FIFO with num_of_buffer
     * slots before opening anything, then open the devices, start the two
     * threads and the depth capture, stopping at the first failure.
     */
    method Init(o: InitOutcomes) returns (code: int)
      requires Valid() && 1 <= numOfBuffer <= STORE_SLOTS
      modifies this, fifo
      ensures Valid()
      ensures rgbWidth == RGB_WIDTH && rgbHeight == RGB_HEIGHT && rgbSize == RGB_WIDTH * RGB_HEIGHT * 2
      ensures fifo.head == 0 && fifo.tail == 0 && fifo.size == numOfBuffer && fifo.mask == numOfBuffer - 1
      ensures RingSize(numOfBuffer) ==> fifo.Ring() && fifo.Contents() == []
      ensures code == InitCode(o)
      ensures rgbThreadStarted == (old(rgbThreadStarted) ||
                                   (o.openRgb == 0 && o.openDepth == 0 && o.openUvc == 0 && o.rgbThread == 0))
      ensures usbThreadStarted == (old(usbThreadStarted) ||
                                   (o.openRgb == 0 && o.openDepth == 0 && o.openUvc == 0 && o.rgbThread == 0 && o.usbThread == 0))
      ensures depthCapturing == (old(depthCapturing) || code == 0)
      ensures code == 0 ==> rgbThreadStarted && usbThreadStarted && depthCapturing
      ensures videoDone == old(videoDone) && depthDone == old(depthDone) && uvcDone == old(uvcDone)
      ensures exitRequested == old(exitRequested) && rgbCapturing == old(rgbCapturing) && rgbRequeued == old(rgbRequeued)
      ensures numOfBuffer == old(numOfBuffer) && callbackSet == old(callbackSet)
      ensures rgbIndex == old(rgbIndex) && depth == old(depth)
      ensures callbackLog == old(callbackLog) && depthRequeued == old(depthRequeued)
    {
      rgbWidth := RGB_WIDTH;
      rgbHeight := RGB_HEIGHT;
      rgbSize := rgbWidth * rgbHeight * 2;
      fifo.Init(numOfBuffer);
      if o.openRgb != 0 { code := ERROR_OPEN_RGB; return; }
      if o.openDepth != 0 { code := ERROR_OPEN_DEPTH; return; }
      if o.openUvc != 0 { code := ERROR_OPEN_UVC; return; }
      if o.rgbThread != 0 { code := ERROR_CREATE_RGB_THREAD; return; }
      rgbThreadStarted := true;
      if o.usbThread != 0 { code := ERROR_CREATE_DEPTH_THREAD; return; }
      usbThreadStarted := true;
      if o.initDepth != 0 { code := ERROR_INIT_DEPTH; return; }
      depthCapturing := true;
      code := 0;
    }

    /** Uninit: stop both captures and raise every done flag. */
    method Uninit()
      modifies this`depthCapturing, this`rgbCapturing, this`videoDone, this`depthDone, this`uvcDone
      ensures videoDone && depthDone && uvcDone
      ensures !depthCapturing && !rgbCapturing
      ensures rgbIndex == old(rgbIndex) && depth == old(depth) && rgbSize == old(rgbSize)
      ensures callbackSet == old(callbackSet) && callbackLog == old(callbackLog)
    {
      depthCapturing, rgbCapturing := false, false;
      videoDone, depthDone, uvcDone := true, true, true;
    }

    /**
     * runner: dequeue a depth frame into thr_data.depth; if the FIFO is not
     * full, fill the head slot from the latest RGB history slot and the new
     * depth frame, call the callback on the slot, and only then publish the
     * slot; in every case hand the depth buffer back to the driver.
     */
    method Runner(c: Capture)
      requires Valid() && CopyFits(c, DEPTH9_DATA_SIZE)
      modifies this`depth, this`callbackLog, this`depthRequeued, fifo, fifo.mem
      ensures Valid()
      ensures depth == Memcpy(old(depth), c.payload, c.bytesused)
      ensures depthRequeued == old(depthRequeued) + 1
      ensures fifo.tail == old(fifo.tail) && fifo.size == old(fifo.size) && fifo.mask == old(fifo.mask)
      ensures old(fifo.Full()) ==>
                fifo.head == old(fifo.head) && fifo.mem[..] == old(fifo.mem[..]) &&
                callbackLog == old(callbackLog)
      ensures !old(fifo.Full()) ==>
                fifo.mem[..] == old(fifo.mem[..])[old(fifo.head) := old(Merged(c))] &&
                fifo.head == Advance(old(fifo.head), fifo.mask) &&
                callbackLog == old(callbackLog) + (if callbackSet then [old(Merged(c)).rgb] else [])
      ensures fifo.Ring() && !old(fifo.Full()) ==> fifo.Contents() == old(fifo.Contents()) + [old(Merged(c))]
      ensures rgbIndex == old(rgbIndex) && rgbSize == old(rgbSize) && callbackSet == old(callbackSet)
      ensures rgbRequeued == old(rgbRequeued)
    {
      ghost var merged := Merged(c);
      depth := Memcpy(depth, c.payload, c.bytesused);
      var idx := MergeSource();
      if !fifo.Full() {
        var h := fifo.HeadSlot();
        var slot := fifo.mem[h];
        var m := FifoMem(rgbStamps[idx], c.timestamp,
                         Memcpy(slot.rgb, rgb[idx], rgbSize),
                         Memcpy(slot.depth, depth, c.bytesused));
        assert m == merged;
        fifo.WriteHead(m);
        if callbackSet {
          callbackLog := callbackLog + [m.rgb];
        }
        fifo.QueHead();
      }
      depthRequeued := depthRequeued + 1;
    }

    /**
     * One pass of the rgb_capture_func loop: dequeue into the history slot
     * at rgb_index, stamp it, publish the next index, requeue the buffer.
     */
    method CaptureRgb(c: Capture)
      requires Valid() && CopyFits(c, RGB_DATA_SIZE)
      modifies this`rgbIndex, this`rgbRequeued, rgbStamps, rgb
      ensures Valid()
      ensures rgbIndex == (old(rgbIndex) + 1) % HISTORY_SLOTS
      ensures rgb[..] == old(rgb[..])[old(rgbIndex) := Memcpy(old(rgb[rgbIndex]), c.payload, c.bytesused)]
      ensures rgbStamps[..] == old(rgbStamps[..])[old(rgbIndex) := c.timestamp]
      ensures rgbRequeued == old(rgbRequeued) + 1
    {
      var idx := rgbIndex;
      rgb[idx] := Memcpy(rgb[idx], c.payload, c.bytesused);
      rgbStamps[idx] := c.timestamp;
      idx := NextSlot(idx);
      rgbIndex := idx;
      rgbRequeued := rgbRequeued + 1;
    }

    /** History slot j mod 32 holds the timestamp and the copied bytes of capture c. */
    ghost predicate HistoryHolds(j: nat, c: Capture)
      reads this, rgbStamps, rgb
      requires rgbStamps.Length == HISTORY_SLOTS && rgb.Length == HISTORY_SLOTS
    {
      rgbStamps[j % HISTORY_SLOTS] == c.timestamp &&
      c.bytesused <= |c.payload| && c.bytesused <= |rgb[j % HISTORY_SLOTS]| &&
      rgb[j % HISTORY_SLOTS][..c.bytesused] == c.payload[..c.bytesused]
    }

    /**
     * rgb_capture_func: if the RGB device initialises (initResult == 0),
     * start capturing from history slot 0 and run the loop once per frame
     * until the done flag stops it. Afterwards each of the last 32 frames
     * sits in slot (its position) mod 32, and rgb_index points just past the
     * newest one.
     */
    method RgbCaptureThread(initResult: int, frames: seq<Capture>)
      requires Valid()
      requires forall j :: 0 <= j < |frames| ==> CopyFits(frames[j], RGB_DATA_SIZE)
      modifies this`rgbIndex, this`rgbRequeued, this`rgbCapturing, rgbStamps, rgb
      ensures Valid()
      ensures initResult != 0 ==> rgbIndex == old(rgbIndex) && rgbStamps[..] == old(rgbStamps[..]) && rgb[..] == old(rgb[..])
      ensures initResult != 0 ==> rgbCapturing == old(rgbCapturing) && rgbRequeued == old(rgbRequeued)
      ensures initResult == 0 ==> rgbCapturing && rgbIndex == |frames| % HISTORY_SLOTS
      ensures initResult == 0 ==> rgbRequeued == old(rgbRequeued) + |frames|
      ensures initResult == 0 ==> forall i :: |frames| <= i < HISTORY_SLOTS ==>
                rgb[i] == old(rgb[i]) && rgbStamps[i] == old(rgbStamps[i])
      ensures initResult == 0 ==> forall j :: 0 <= j < |frames| && |frames| - HISTORY_SLOTS <= j ==>
                HistoryHolds(j, frames[j])
    {
      if initResult != 0 {
        return;
      }
      rgbCapturing := true;
      rgbIndex := 0;
      var k := 0;
      while k < |frames|
        invariant 0 <= k <= |frames|
        invariant Valid() && rgbCapturing
        invariant rgbIndex == k % HISTORY_SLOTS
        invariant rgbRequeued == old(rgbRequeued) + k
        invariant forall i :: k <= i < HISTORY_SLOTS ==> rgb[i] == old(rgb[i]) && rgbStamps[i] == old(rgbStamps[i])
        invariant forall j :: 0 <= j < k && k - HISTORY_SLOTS <= j ==> HistoryHolds(j, frames[j])
      {
        forall j | 0 <= j < k && k + 1 - HISTORY_SLOTS <= j
          ensures j % HISTORY_SLOTS != k % HISTORY_SLOTS
        {
          ModDistinct(j, 0, k - j, HISTORY_SLOTS);
        }
        CaptureRgb(frames[k]);
        ModAddMod(k, 1, HISTORY_SLOTS);
        assert HistoryHolds(k, frames[k]);
        k := k + 1;
      }
    }

    /**
     * fill_buf_func(thd, mode, data, len): if the FIFO holds a frame, copy
     * len bytes of the oldest slot's RGB into data and release the slot;
     * otherwise leave both data and the FIFO as they are.
     */
    method FillBuf(data: seq<byte>, len: nat) returns (out: seq<byte>)
      requires Valid() && len <= |data| && len <= RGB_DATA_SIZE
      modifies fifo`tail
      ensures Valid()
      ensures |out| == |data|
      ensures old(fifo.Empty()) ==> out == data && fifo.tail == old(fifo.tail)
      ensures !old(fifo.Empty()) ==>
                out == Memcpy(data, fifo.mem[old(fifo.tail)].rgb, len) &&
                fifo.tail == Advance(old(fifo.tail), fifo.mask)
      ensures fifo.Ring() && old(fifo.Contents()) != [] ==>
                out[..len] == old(fifo.Contents())[0].rgb[..len] &&
                fifo.Contents() == old(fifo.Contents())[1..]
    {
      out := data;
      if !fifo.Empty() {
        var t := fifo.TailSlot();
        out := Memcpy(data, fifo.mem[t].rgb, len);
        fifo.QueTail();
      }
    }
  }
}
