/*
 * The capture side of video_api.c: which device node each module opens,
 * the per-plane byte size of a frame, the control, buffer-mapping and
 * unmapping steps over the per-module globals, and the wait-dequeue-copy
 * step of dequeue_and_capture. Every kernel call (open, ioctl, mmap,
 * munmap, select) is a parameter standing for what the kernel answered.
 */
module Video {
  import opened Bits

  /** The camera modules of capis.h. */
  const MODULE_RGB := 0
  const MODULE_DEPTH := 1

  const EXIT_FAILURE := 1
  const EINTR := 4
  const EBADF := 9

  /** v4l2_fourcc: four characters packed into 32 bits, the first in the lowest byte. */
  function Fourcc(a: char, b: char, c: char, d: char): (code: nat)
    requires a < 256 as char && b < 256 as char && c < 256 as char && d < 256 as char
    ensures code == LeValue([a as int, b as int, c as int, d as int])
  {
    var s: seq<byte> := [a as int, b as int, c as int, d as int];
    assert LeValue(s[1..][1..][1..]) == d as int by {
      assert s[1..][1..][1..] == [d as int] && s[1..][1..][1..][1..] == [];
    }
    assert LeValue(s[1..][1..]) == c as int + 256 * (d as int);
    assert LeValue(s[1..]) == b as int + 256 * (c as int + 256 * (d as int));
    a as int + 256 * (b as int + 256 * (c as int + 256 * (d as int)))
  }

  const PIX_FMT_YUYV := 0x5659_5559
  const PIX_FMT_YUV420M := 0x3231_4D59
  const PIX_FMT_YUV422P := 0x5032_3234
  const PIX_FMT_YUV444 := 0x3434_3459

  /** The pixel format codes are the fourccs their names spell. */
  lemma PixelFormatCodes()
    ensures PIX_FMT_YUYV == Fourcc('Y', 'U', 'Y', 'V')
    ensures PIX_FMT_YUV420M == Fourcc('Y', 'M', '1', '2')
    ensures PIX_FMT_YUV422P == Fourcc('4', '2', '2', 'P')
    ensures PIX_FMT_YUV444 == Fourcc('Y', '4', '4', '4')
  {
  }

  /** The device node open_video_device opens for a module; none for an unknown module. */
  function DevicePath(camera: int): (path: Option<string>)
    ensures path.Some? <==> camera == MODULE_RGB || camera == MODULE_DEPTH
  {
    if camera == MODULE_RGB then Some("/dev/video0")
    else if camera == MODULE_DEPTH then Some("/dev/video1")
    else None
  }

  /** The two modules never share a device node. */
  lemma DevicePathsDistinct(m1: int, m2: int)
    requires DevicePath(m1).Some? && DevicePath(m2).Some?
    ensures DevicePath(m1) == DevicePath(m2) <==> m1 == m2
  {
    if m1 != m2 {
      assert DevicePath(m1).value[10] != DevicePath(m2).value[10];
    }
  }

  /**
   * get_size(fmt, num, ww, hh): the byte size of plane `num` of a frame.
   * The shifts of the source are divisions of a non-negative pixel count.
   */
  function GetSize(fmt: int, plane: int, width: nat, height: nat): (size: nat)
  {
    var pixels := width * height;
    if fmt == PIX_FMT_YUYV then (if plane > 0 then 0 else pixels * 2)
    else if fmt == PIX_FMT_YUV420M then (if plane == 0 then pixels else pixels / 4)
    else if fmt == PIX_FMT_YUV422P then (if plane == 0 then pixels else pixels / 2)
    else if fmt == PIX_FMT_YUV444 then pixels
    else pixels * 2
  }

  /** The number of planes a format is laid out in. */
  function PlaneCount(fmt: int): (n: nat)
  {
    if fmt == PIX_FMT_YUV420M || fmt == PIX_FMT_YUV422P then 3 else 1
  }

  /** Bits per pixel of the chroma subsampling each format names: 4:2:2 is 16, 4:2:0 is 12. */
  function BitsPerPixel(fmt: int): (bpp: nat)
  {
    if fmt == PIX_FMT_YUV420M then 12 else 16
  }

  /** The bytes of planes 0 .. n-1 together. */
  function FrameBytes(fmt: int, n: nat, width: nat, height: nat): (total: nat)
  {
    if n == 0 then 0 else FrameBytes(fmt, n - 1, width, height) + GetSize(fmt, n - 1, width, height)
  }

  /**
   * Summed over its planes, each YUV format takes exactly the bits per pixel
   * its subsampling names, when the pixel count divides evenly into the
   * chroma blocks.
   */
  lemma FrameBytesMatchSampling(fmt: int, width: nat, height: nat)
    requires fmt == PIX_FMT_YUYV || fmt == PIX_FMT_YUV420M || fmt == PIX_FMT_YUV422P
    requires (width * height) % 4 == 0
    ensures FrameBytes(fmt, PlaneCount(fmt), width, height) * 8 == BitsPerPixel(fmt) * (width * height)
  {
    var p := width * height;
    if fmt == PIX_FMT_YUV420M {
      assert FrameBytes(fmt, 1, width, height) == p;
      assert FrameBytes(fmt, 2, width, height) == p + p / 4;
      assert FrameBytes(fmt, 3, width, height) == p + p / 4 + p / 4;
    } else if fmt == PIX_FMT_YUV422P {
      assert FrameBytes(fmt, 1, width, height) == p;
      assert FrameBytes(fmt, 2, width, height) == p + p / 2;
      assert FrameBytes(fmt, 3, width, height) == p + p / 2 + p / 2;
    } else {
      assert FrameBytes(fmt, 1, width, height) == p * 2;
    }
  }

  /** A packed format has nothing in any plane after the first; a chroma plane is never larger than the luma plane. */
  lemma PlaneSizesBounded(fmt: int, plane: int, width: nat, height: nat)
    ensures fmt == PIX_FMT_YUYV && plane > 0 ==> GetSize(fmt, plane, width, height) == 0
    ensures fmt != PIX_FMT_YUYV ==> GetSize(fmt, plane, width, height) <= GetSize(fmt, 0, width, height)
    ensures GetSize(fmt, 0, width, height) <= 2 * width * height
  {
  }

  /** One mapped capture buffer (struct buffer). */
  datatype Buffer = Buffer(start: nat, offset: nat, length: nat)

  /**
   * enum io_method of capis.h. The zero-initialised g_io is the first
   * enumerator, so a device that was never opened is already in mmap mode.
   */
  datatype IoMethod = Mmap | UserPtr | Dmabuf

  /** A VIDIOC_S_CTRL request as issued to a device. */
  datatype CtrlCall = CtrlCall(fd: int, id: int, value: int)

  /** How a call ends: with a return value, or with exit(status). */
  datatype Outcome = Returned(value: int) | Exited(status: int)

  /** What one select() call answered: its result and errno. */
  datatype SelectResult = SelectResult(r: int, errno: int)

  /**
   * How dequeue_and_capture ends: it waits past every select result given
   * (Blocked), returns without a value (the bare `return;` of an unknown
   * camera), exits on a failed dequeue, or returns r with the destination
   * buffer after the copy.
   */
  datatype DequeueOutcome =
    | Blocked
    | NoValue
    | DequeueExited(status: int)
    | Dequeued(r: int, data: Option<seq<byte>>)

  /** n copies of x. */
  function Repeat(x: nat, n: nat): (s: seq<nat>)
    ensures |s| == n && forall i :: 0 <= i < n ==> s[i] == x
  {
    if n == 0 then [] else Repeat(x, n - 1) + [x]
  }

  /** The start address of each buffer, in order. */
  function Starts(buffers: seq<Buffer>): (s: seq<nat>)
    ensures |s| == |buffers| && forall i :: 0 <= i < |buffers| ==> s[i] == buffers[i].start
  {
    if buffers == [] then [] else Starts(buffers[..|buffers| - 1]) + [buffers[|buffers| - 1].start]
  }

  /**
   * The addresses the mmap branch of uninit_video_device passes to munmap,
   * as written: the first buffer's start, once per buffer.
   */
  function AsWrittenUnmaps(buffers: seq<Buffer>, n: int): (s: seq<nat>)
    requires n <= 0 || buffers != []
  {
    if n <= 0 then [] else Repeat(buffers[0].start, n)
  }

  /** The addresses it evidently means to unmap: every buffer's own start. */
  function IntendedUnmaps(buffers: seq<Buffer>): (s: seq<nat>)
  {
    Starts(buffers)
  }

  /** With two distinct buffers, the loop as written never unmaps the second and unmaps the first twice. */
  lemma AsWrittenUnmapLeaks()
    ensures var buffers := [Buffer(0x1000, 0, 0x1000), Buffer(0x2000, 0x1000, 0x1000)];
            AsWrittenUnmaps(buffers, 2) == [0x1000, 0x1000] && buffers[1].start !in AsWrittenUnmaps(buffers, 2)
  {
    var buffers := [Buffer(0x1000, 0, 0x1000), Buffer(0x2000, 0x1000, 0x1000)];
    assert AsWrittenUnmaps(buffers, 2) == Repeat(0x1000, 2);
  }

  /** The intended loop unmaps every buffer, and each exactly once when their starts are distinct. */
  lemma IntendedUnmapsEachOnce(buffers: seq<Buffer>, i: nat)
    requires i < |buffers|
    requires forall j, k :: 0 <= j < k < |buffers| ==> buffers[j].start != buffers[k].start
    ensures buffers[i].start in IntendedUnmaps(buffers)
    ensures multiset(IntendedUnmaps(buffers))[buffers[i].start] == 1
  {
    var s := IntendedUnmaps(buffers);
    assert s[i] == buffers[i].start;
    MultisetOfDistinct(s, i);
  }

  lemma {:induction false} MultisetOfDistinct(s: seq<nat>, i: nat)
    requires i < |s|
    requires forall j, k :: 0 <= j < k < |s| ==> s[j] != s[k]
    ensures multiset(s)[s[i]] == 1
  {
    var last := |s| - 1;
    var init := s[..last];
    assert s == init + [s[last]];
    if i == last {
      assert s[i] !in init;
      assert multiset(init)[s[i]] == 0;
    } else {
      assert init[i] == s[i];
      MultisetOfDistinct(init, i);
      assert s[last] != s[i];
    }
  }

  /**
   * select() keeps being retried, as written: the loop condition assigns
   * EINTR to errno instead of comparing, so every failed select retries.
   */
  predicate RetriesAsWritten(s: SelectResult)
  {
    s.r == 0 || s.r == -1
  }

  /** The evident intent: retry on a timeout, or on a failure interrupted by a signal. */
  predicate RetriesIntended(s: SelectResult)
  {
    s.r == 0 || (s.r == -1 && s.errno == EINTR)
  }

  /** The position of the first select result that ends the wait loop, if any. */
  function FirstStop(results: seq<SelectResult>, intended: bool): (k: Option<nat>)
    ensures k.Some? ==> k.value < |results|
    ensures k.Some? ==> !(if intended then RetriesIntended(results[k.value]) else RetriesAsWritten(results[k.value]))
    ensures forall j :: 0 <= j < |results| && (k.None? || j < k.value) ==>
              (if intended then RetriesIntended(results[j]) else RetriesAsWritten(results[j]))
  {
    if results == [] then None
    else if !(if intended then RetriesIntended(results[0]) else RetriesAsWritten(results[0])) then Some(0)
    else match FirstStop(results[1..], intended)
      case None => None
      case Some(k) => Some(k + 1)
  }

  /** As written, a failing select is never reported: the loop only ends on a ready descriptor. */
  lemma AsWrittenHidesSelectError(results: seq<SelectResult>)
    ensures FirstStop(results, false).Some? ==> results[FirstStop(results, false).value].r !in {0, -1}
    ensures var bad := [SelectResult(-1, EBADF), SelectResult(1, 0)];
            FirstStop(bad, false) == Some(1) && FirstStop(bad, true) == Some(0)
  {
    var bad := [SelectResult(-1, EBADF), SelectResult(1, 0)];
    assert FirstStop(bad[1..], false) == Some(0);
  }

  /** As intended, a select failure other than an interruption ends the wait at once. */
  lemma IntendedReportsSelectError(results: seq<SelectResult>)
    requires results != [] && results[0].r == -1 && results[0].errno != EINTR
    ensures FirstStop(results, true) == Some(0)
  {
  }

  /** Both loops agree whenever no select call fails. */
  lemma {:induction false} RetryRulesAgreeWithoutErrors(results: seq<SelectResult>)
    requires forall j :: 0 <= j < |results| ==> results[j].r != -1
    ensures FirstStop(results, false) == FirstStop(results, true)
  {
    if results != [] {
      RetryRulesAgreeWithoutErrors(results[1..]);
    }
  }

  /** The capture globals of video_api.c: device descriptors, mapped buffers and I/O method. */
  class CaptureDevices {
    var fdRgb: int
    var fdDepth: int
    var ioMethod: IoMethod
    var buffersRgb: seq<Buffer>
    var buffersDepth: seq<Buffer>
    var nBuffersRgb: int
    var nBuffersDepth: int
    /** The addresses calloc gave for each module's array of buffer records (0 is NULL). */
    var arrayRgb: nat
    var arrayDepth: nat
    /** The device nodes passed to open(), in order. */
    var openedPaths: seq<string>
    /** The VIDIOC_S_CTRL requests issued, in order. */
    var ctrlLog: seq<CtrlCall>
    /** The addresses passed to munmap(), in order. */
    var unmapLog: seq<nat>
    /** The addresses passed to free(), in order: buffer starts and buffer-record arrays. */
    var freeLog: seq<nat>

    /** The buffer count of each module is the length of its buffer records. */
    ghost predicate Valid()
      reads this
    {
      nBuffersRgb == |buffersRgb| && nBuffersDepth == |buffersDepth|
    }

    /** The zero-initialised globals before any call. */
    constructor ()
      ensures Valid()
      ensures fdRgb == 0 && fdDepth == 0 && ioMethod == Mmap
      ensures buffersRgb == [] && buffersDepth == [] && arrayRgb == 0 && arrayDepth == 0
      ensures openedPaths == [] && ctrlLog == [] && unmapLog == [] && freeLog == []
    {
      fdRgb, fdDepth := 0, 0;
      ioMethod := Mmap;
      buffersRgb, buffersDepth := [], [];
      arrayRgb, arrayDepth := 0, 0;
      nBuffersRgb, nBuffersDepth := 0, 0;
      openedPaths, ctrlLog, unmapLog, freeLog := [], [], [], [];
    }

    /** get_fd for one of the two modules. */
    function GetFd(camera: int): (fd: int)
      reads this
      requires camera == MODULE_RGB || camera == MODULE_DEPTH
      ensures camera == MODULE_RGB ==> fd == fdRgb
      ensures camera == MODULE_DEPTH ==> fd == fdDepth
    {
      if camera == MODULE_RGB then fdRgb else fdDepth
    }

    /**
     * open_video_device(module): an unknown module returns -1 and changes
     * nothing; a failed open exits; otherwise the module's descriptor is
     * the one open() gave and the I/O method becomes mmap.
     */
    method OpenVideoDevice(camera: int, openResult: int) returns (o: Outcome)
      requires Valid()
      modifies this`fdRgb, this`fdDepth, this`ioMethod, this`openedPaths
      ensures Valid()
      ensures DevicePath(camera).None? ==> o == Returned(-1) && unchanged(this)
      ensures DevicePath(camera).Some? ==> openedPaths == old(openedPaths) + [DevicePath(camera).value]
      ensures DevicePath(camera).Some? && openResult == -1 ==>
                o == Exited(EXIT_FAILURE) && fdRgb == old(fdRgb) && fdDepth == old(fdDepth) && ioMethod == old(ioMethod)
      ensures DevicePath(camera).Some? && openResult != -1 ==> o == Returned(0) && ioMethod == Mmap
      ensures DevicePath(camera).Some? && openResult != -1 && camera == MODULE_RGB ==>
                fdRgb == openResult && fdDepth == old(fdDepth)
      ensures DevicePath(camera).Some? && openResult != -1 && camera == MODULE_DEPTH ==>
                fdDepth == openResult && fdRgb == old(fdRgb)
    {
      var path := DevicePath(camera);
      if path.None? {
        return Returned(-1);
      }
      openedPaths := openedPaths + [path.value];
      if openResult == -1 {
        return Exited(EXIT_FAILURE);
      }
      if camera == MODULE_RGB {
        fdRgb := openResult;
      } else {
        fdDepth := openResult;
      }
      ioMethod := Mmap;
      return Returned(0);
    }

    /**
     * vidioc_set_ctrl(module, ctrl_id, value): -1 for an unknown module with
     * no control issued; otherwise one VIDIOC_S_CTRL on the module's
     * descriptor, whose result is returned.
     */
    method SetCtrl(camera: int, id: int, value: int, ioctlResult: int) returns (r: int)
      modifies this`ctrlLog
      ensures camera != MODULE_RGB && camera != MODULE_DEPTH ==> r == -1 && ctrlLog == old(ctrlLog)
      ensures camera == MODULE_RGB ==> r == ioctlResult && ctrlLog == old(ctrlLog) + [CtrlCall(fdRgb, id, value)]
      ensures camera == MODULE_DEPTH ==> r == ioctlResult && ctrlLog == old(ctrlLog) + [CtrlCall(fdDepth, id, value)]
    {
      var fd;
      if camera == MODULE_RGB {
        fd := fdRgb;
      } else if camera == MODULE_DEPTH {
        fd := fdDepth;
      } else {
        return -1;
      }
      ctrlLog := ctrlLog + [CtrlCall(fd, id, value)];
      r := ioctlResult;
    }

    /**
     * init_mmap(module, num_of_driverbuf). `granted` is the buffer count
     * VIDIOC_REQBUFS left in req.count (None when the request failed),
     * `records` is what calloc gave for the buffer records (0 when out of
     * memory) and `mapping(i)` is what VIDIOC_QUERYBUF and mmap gave for
     * buffer i. Fewer than two buffers or no memory is fatal; otherwise
     * buffers 0 .. granted-1 and the records are recorded for the module
     * whose descriptor was used.
     */
    method InitMmap(camera: int, granted: Option<nat>, records: nat, mapping: nat -> Buffer) returns (o: Outcome)
      requires Valid()
      modifies this`buffersRgb, this`buffersDepth, this`nBuffersRgb, this`nBuffersDepth, this`arrayRgb, this`arrayDepth
      ensures Valid()
      ensures granted.None? || granted.value < 2 || records == 0 ==> o == Exited(EXIT_FAILURE) && unchanged(this)
      ensures granted.Some? && granted.value >= 2 && records != 0 ==> o == Returned(0)
      ensures granted.Some? && granted.value >= 2 && records != 0 ==>
                var fd := if camera == MODULE_DEPTH then fdDepth else fdRgb;
                var mapped := seq(granted.value, (i: int) requires 0 <= i => mapping(i));
                if fd == fdDepth then
                  buffersDepth == mapped && arrayDepth == records && buffersRgb == old(buffersRgb) && arrayRgb == old(arrayRgb)
                else
                  buffersRgb == mapped && arrayRgb == records && buffersDepth == old(buffersDepth) && arrayDepth == old(arrayDepth)
    {
      var fd := if camera == MODULE_DEPTH then fdDepth else fdRgb;
      if granted.None? || granted.value < 2 || records == 0 {
        return Exited(EXIT_FAILURE);
      }
      var count := granted.value;
      var buffers: seq<Buffer> := [];
      var n := 0;
      while n < count
        invariant 0 <= n <= count
        invariant buffers == seq(n, (i: int) requires 0 <= i => mapping(i))
      {
        buffers := buffers + [mapping(n)];
        n := n + 1;
      }
      if fd == fdDepth {
        buffersDepth, arrayDepth := buffers, records;
        nBuffersDepth := n;
      } else {
        buffersRgb, arrayRgb := buffers, records;
        nBuffersRgb := n;
      }
      return Returned(0);
    }

    /**
     * uninit_video_device(module): -1 for an unknown module; with mmap
     * buffers, munmap once per buffer but always on the first buffer's
     * start (the as-written behaviour), then free the record array; with
     * user pointers, free each buffer's start, then the record array; with
     * DMA buffers, nothing. The descriptor globals and buffer records are kept.
     */
    method UninitVideoDevice(camera: int) returns (r: int)
      requires Valid()
      modifies this`unmapLog, this`freeLog
      ensures camera != MODULE_RGB && camera != MODULE_DEPTH ==> r == -1 && unchanged(this)
      ensures camera == MODULE_RGB || camera == MODULE_DEPTH ==> r == 0
      ensures camera == MODULE_RGB || camera == MODULE_DEPTH ==>
                var buffers := if camera == MODULE_RGB then buffersRgb else buffersDepth;
                var records := if camera == MODULE_RGB then arrayRgb else arrayDepth;
                (ioMethod == Mmap ==>
                   unmapLog == old(unmapLog) + AsWrittenUnmaps(buffers, |buffers|) && freeLog == old(freeLog) + [records]) &&
                (ioMethod == UserPtr ==>
                   freeLog == old(freeLog) + Starts(buffers) + [records] && unmapLog == old(unmapLog)) &&
                (ioMethod == Dmabuf ==> unchanged(this))
    {
      // the loops run to the module's buffer count, the length of its records
      var buffers, records;
      if camera == MODULE_RGB {
        buffers, records := buffersRgb, arrayRgb;
      } else if camera == MODULE_DEPTH {
        buffers, records := buffersDepth, arrayDepth;
      } else {
        return -1;
      }
      match ioMethod {
        case Mmap =>
          UnmapBuffers(buffers);
          freeLog := freeLog + [records];
        case UserPtr =>
          FreeBuffers(buffers);
          freeLog := freeLog + [records];
        case Dmabuf =>
      }
      return 0;
    }

    /** The munmap loop of uninit_video_device, as written. */
    method UnmapBuffers(buffers: seq<Buffer>)
      modifies this`unmapLog
      ensures unmapLog == old(unmapLog) + AsWrittenUnmaps(buffers, |buffers|)
    {
      var i := 0;
      while i < |buffers|
        invariant 0 <= i <= |buffers|
        invariant unmapLog == old(unmapLog) + AsWrittenUnmaps(buffers, i)
        modifies this`unmapLog
      {
        unmapLog := unmapLog + [buffers[0].start];
        i := i + 1;
      }
    }

    /** The free loop of uninit_video_device. */
    method FreeBuffers(buffers: seq<Buffer>)
      modifies this`freeLog
      ensures freeLog == old(freeLog) + Starts(buffers)
    {
      var i := 0;
      while i < |buffers|
        invariant 0 <= i <= |buffers|
        invariant freeLog == old(freeLog) + Starts(buffers[..i])
        modifies this`freeLog
      {
        assert buffers[..i + 1] == buffers[..i] + [buffers[i]];
        freeLog := freeLog + [buffers[i].start];
        i := i + 1;
      }
      assert buffers[..|buffers|] == buffers;
    }

    /**
     * The select-wait loop of dequeue_and_capture: call select until a
     * result ends the loop under the given retry rule; None when every
     * given result is retried.
     */
    method WaitReadable(results: seq<SelectResult>, intended: bool) returns (k: Option<nat>)
      ensures k == FirstStop(results, intended)
    {
      var i := 0;
      while i < |results|
        invariant 0 <= i <= |results|
        invariant FirstStop(results, intended) == (match FirstStop(results[i..], intended)
                                                     case None => None
                                                     case Some(j) => Some(j + i))
      {
        var retry := if intended then RetriesIntended(results[i]) else RetriesAsWritten(results[i]);
        if !retry {
          return Some(i);
        }
        assert results[i..][1..] == results[i + 1..];
        i := i + 1;
      }
      return None;
    }

    /**
     * dequeue_and_capture(camera, buf, data) as written: wait with the
     * as-written retry rule, dequeue (exit when that fails), and copy the
     * dequeued buffer's `bytesused` bytes (`frame` is that buffer's
     * contents) into the destination only when one is given.
     */
    method DequeueAndCapture(camera: int, results: seq<SelectResult>, dequeueOk: bool,
                             frame: seq<byte>, bytesused: nat, data: Option<seq<byte>>)
      returns (o: DequeueOutcome)
      requires bytesused <= |frame|
      requires data.Some? ==> bytesused <= |data.value|
      ensures camera != MODULE_RGB && camera != MODULE_DEPTH ==> o == NoValue
      ensures (camera == MODULE_RGB || camera == MODULE_DEPTH) && FirstStop(results, false).None? ==> o == Blocked
      ensures (camera == MODULE_RGB || camera == MODULE_DEPTH) && FirstStop(results, false).Some? ==>
                var s := results[FirstStop(results, false).value];
                (s.r == -1 ==> o == Dequeued(s.errno, data)) &&
                (s.r != -1 && !dequeueOk ==> o == DequeueExited(EXIT_FAILURE)) &&
                (s.r != -1 && dequeueOk && data.None? ==> o == Dequeued(s.r, None)) &&
                (s.r != -1 && dequeueOk && data.Some? ==> o == Dequeued(s.r, Some(Memcpy(data.value, frame, bytesused))))
    {
      if camera != MODULE_RGB && camera != MODULE_DEPTH {
        return NoValue;
      }
      var k := WaitReadable(results, false);
      if k.None? {
        return Blocked;
      }
      var s := results[k.value];
      if s.r == -1 {
        return Dequeued(s.errno, data);
      }
      if !dequeueOk {
        return DequeueExited(EXIT_FAILURE);
      }
      var out := data;
      if data.Some? {
        out := Some(Memcpy(data.value, frame, bytesused));
      }
      return Dequeued(s.r, out);
    }
  }
}
