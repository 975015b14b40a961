/*
 * The RGB+depth frame FIFO of RGBDClass.hpp: a ring of `fifo_mem_t` slots
 * with uint8 `head`, `tail`, `size` and `mask` indices. The producer writes
 * the slot at `head` and then advances `head`; the consumer reads the slot
 * at `tail` and then advances `tail`. One slot is always kept empty, so a
 * ring of size s holds at most s - 1 frames. The index arithmetic is a
 * uint8 increment followed by `& mask`, which wraps correctly only when the
 * size is a power of two. The backing store (`__fifo_data`) has room for
 * four slots.
 */
module Fifo {
  import opened Bits

  /** Bytes of one RGB frame slot (RGB_DATA_SIZE). */
  const RGB_DATA_SIZE: nat := 1280 * 960 * 2
  /** Bytes of one depth frame (DEPTH_DATA_SIZE). */
  const DEPTH_DATA_SIZE: nat := 224 * 173 * 2
  /** Bytes of the nine-frame depth buffer of a slot (DEPTH9_DATA_SIZE). */
  const DEPTH9_DATA_SIZE: nat := DEPTH_DATA_SIZE * 9
  /** Number of slots the backing store `__fifo_data` has room for. */
  const STORE_SLOTS: nat := 4

  /** struct timeval. */
  datatype TimeVal = TimeVal(sec: int, usec: int)

  /** struct fifo_mem_t: one merged RGB+depth frame. */
  datatype FifoMem = FifoMem(rgbStamp: TimeVal, depthStamp: TimeVal, rgb: seq<byte>, depth: seq<byte>)

  /** A slot whose buffers have the sizes the struct layout fixes. */
  predicate WellSized(m: FifoMem)
  {
    |m.rgb| == RGB_DATA_SIZE && |m.depth| == DEPTH9_DATA_SIZE
  }

  /** The state of a slot before anything has been written to it. */
  function BlankSlot(): (m: FifoMem)
    ensures WellSized(m)
  {
    FifoMem(TimeVal(0, 0), TimeVal(0, 0), seq(RGB_DATA_SIZE, _ => 0), seq(DEPTH9_DATA_SIZE, _ => 0))
  }

  /** The sizes for which `& (size - 1)` is reduction modulo size and the slots fit the store. */
  predicate RingSize(size: int)
  {
    size == 1 || size == 2 || size == 4
  }

  /** The exponent k with size == 2^k, for a ring size. */
  function Log2(size: int): (k: nat)
    requires RingSize(size)
    ensures Pow2(k) == size
  {
    if size == 1 then 0 else if size == 2 then 1 else 2
  }

  /** QUE_FIFO_HEAD / QUE_FIFO_TAIL on one index: the uint8 increment, then `& mask`. */
  function Advance(i: byte, mask: byte): (r: byte)
    ensures r <= mask
  {
    And((i + 1) % 256, mask)
  }

  /** FIFO_FULL: the index after head, masked, is the tail (the addition is done in int). */
  predicate IsFull(head: byte, tail: byte, mask: byte)
  {
    And(head + 1, mask) == tail
  }

  /** DATA_IN_FIFO: the number of frames between tail and head. */
  function DataIn(head: byte, tail: byte, size: byte): (n: int)
    requires head < size && tail < size
    ensures 0 <= n < size
    ensures n == (head - tail) % size
  {
    if head >= tail then ModOfSmall(head - tail, size); head - tail else
      DivModUnique(head - tail, size, -1, head + size - tail);
      head + size - tail
  }

  /** The n slots of a ring of the given size, starting at index `from`. */
  function RingWindow(slots: seq<FifoMem>, from: nat, n: nat, size: nat): (w: seq<FifoMem>)
    requires 0 < size <= |slots|
    ensures |w| == n
    ensures forall i :: 0 <= i < n ==> w[i] == slots[(from + i) % size]
  {
    seq(n, i requires 0 <= i < n => slots[(from + i) % size])
  }

  lemma ModOfSmall(x: int, n: int)
    requires 0 <= x < n
    ensures x % n == x
  {
    DivModUnique(x, n, 0, x);
  }

  /** Adding after a reduction modulo n is the same as adding before it. */
  lemma ModAddMod(a: nat, b: nat, n: nat)
    requires n > 0
    ensures (a % n + b) % n == (a + b) % n
  {
    var q, r := a / n, a % n;
    var q2, r2 := (r + b) / n, (r + b) % n;
    assert a + b == n * q + (r + b);
    assert r + b == n * q2 + r2;
    assert a + b == n * (q + q2) + r2 by {
      assert n * q + n * q2 == n * (q + q2);
    }
    DivModUnique(a + b, n, q + q2, r2);
  }

  /** In a power-of-two ring the masked increment is the increment modulo the size. */
  lemma {:induction false} AdvanceIsSuccessor(i: byte, size: int)
    requires RingSize(size) && i < size
    ensures Advance(i, size - 1) == (i + 1) % size
  {
    var k := Log2(size);
    ModOfSmall(i + 1, 256);
    AndLowMask(i + 1, k);
  }

  /** The frame after the last one sits exactly at head. */
  lemma RingEnd(head: byte, tail: byte, size: byte)
    requires head < size && tail < size
    ensures (tail + DataIn(head, tail, size)) % size == head
  {
    var n := DataIn(head, tail, size);
    if head >= tail {
      ModOfSmall(head, size);
    } else {
      assert tail + n == head + size;
      DivModUnique(head + size, size, 1, head);
    }
  }

  /** FIFO_FULL holds exactly when the ring holds size - 1 frames. */
  lemma {:induction false} FullIffSizeMinusOne(head: byte, tail: byte, size: byte)
    requires RingSize(size) && head < size && tail < size
    ensures IsFull(head, tail, size - 1) <==> DataIn(head, tail, size) == size - 1
  {
    AndLowMask(head + 1, Log2(size));
    if head + 1 < size {
      ModOfSmall(head + 1, size);
    } else {
      DivModUnique(head + 1, size, 1, 0);
    }
  }

  /** FIFO_EMPTY holds exactly when the ring holds no frame. */
  lemma EmptyIffNoData(head: byte, tail: byte, size: byte)
    requires head < size && tail < size
    ensures head == tail <==> DataIn(head, tail, size) == 0
  {
  }

  /** A push onto a ring that is not full adds one frame. */
  lemma PushAddsOne(head: byte, tail: byte, size: byte)
    requires RingSize(size) && head < size && tail < size
    requires !IsFull(head, tail, size - 1)
    ensures DataIn(Advance(head, size - 1), tail, size) == DataIn(head, tail, size) + 1
  {
    AdvanceIsSuccessor(head, size);
    FullIffSizeMinusOne(head, tail, size);
    if head + 1 < size {
      ModOfSmall(head + 1, size);
    } else {
      DivModUnique(head + 1, size, 1, 0);
    }
  }

  /** A pop from a ring that is not empty removes one frame. */
  lemma PopRemovesOne(head: byte, tail: byte, size: byte)
    requires RingSize(size) && head < size && tail < size
    requires head != tail
    ensures DataIn(head, Advance(tail, size - 1), size) == DataIn(head, tail, size) - 1
  {
    AdvanceIsSuccessor(tail, size);
    if tail + 1 < size {
      ModOfSmall(tail + 1, size);
    } else {
      DivModUnique(tail + 1, size, 1, 0);
    }
  }

  /** Two offsets less than the modulus apart land on different ring indices. */
  lemma ModDistinct(a: nat, i: nat, j: nat, n: nat)
    requires i < j < n
    ensures (a + i) % n != (a + j) % n
  {
    var q1, q2 := (a + i) / n, (a + j) / n;
    if (a + i) % n == (a + j) % n {
      assert j - i == n * q2 - n * q1;
      assert j - i == n * (q2 - q1);
      if q2 - q1 >= 1 {
        MulStep(n, q2 - q1);
      } else {
        MulNonneg(n, q1 - q2);
      }
      assert false;
    }
  }

  /** Filling the slot at head does not disturb the frames waiting in the ring. */
  lemma WriteAtHeadKeepsWindow(slots: seq<FifoMem>, head: nat, tail: nat, n: nat, size: nat, m: FifoMem)
    requires 0 < size <= |slots| && n < size && head < size
    requires (tail + n) % size == head
    ensures RingWindow(slots[head := m], tail, n, size) == RingWindow(slots, tail, n, size)
  {
    var w', w := RingWindow(slots[head := m], tail, n, size), RingWindow(slots, tail, n, size);
    forall i | 0 <= i < n
      ensures w'[i] == w[i]
    {
      ModDistinct(tail, i, n, size);
    }
  }

  /** A push appends the slot at head to the frames in the ring. */
  lemma WindowPush(slots: seq<FifoMem>, head: byte, tail: byte, size: byte)
    requires RingSize(size) && size <= |slots| && head < size && tail < size
    requires !IsFull(head, tail, size - 1)
    ensures var head' := Advance(head, size - 1);
            RingWindow(slots, tail, (head' - tail) % size, size) ==
            RingWindow(slots, tail, (head - tail) % size, size) + [slots[head]]
  {
    AdvanceIsSuccessor(head, size);
    PushAddsOne(head, tail, size);
    RingEnd(head, tail, size);
  }

  /** A pop drops the oldest frame from the ring. */
  lemma WindowPop(slots: seq<FifoMem>, head: byte, tail: byte, size: byte)
    requires RingSize(size) && size <= |slots| && head < size && tail < size
    requires head != tail
    ensures var tail' := Advance(tail, size - 1);
            RingWindow(slots, tail', (head - tail') % size, size) ==
            RingWindow(slots, tail, (head - tail) % size, size)[1..]
  {
    AdvanceIsSuccessor(tail, size);
    PopRemovesOne(head, tail, size);
    var c := RingWindow(slots, Advance(tail, size - 1), (head - Advance(tail, size - 1)) % size, size);
    var oc := RingWindow(slots, tail, (head - tail) % size, size);
    forall i | 0 <= i < |c|
      ensures c[i] == oc[i + 1]
    {
      ModAddMod(tail + 1, i, size);
    }
  }

  /**
   * With size 4, starting from an empty ring, three pushes are accepted and
   * the fourth is refused.
   */
  lemma FourthPushRefused()
    ensures !IsFull(0, 0, 3)
    ensures !IsFull(Advance(0, 3), 0, 3)
    ensures !IsFull(Advance(Advance(0, 3), 3), 0, 3)
    ensures IsFull(Advance(Advance(Advance(0, 3), 3), 3), 0, 3)
  {
    AdvanceIsSuccessor(0, 4);
    assert Advance(0, 3) == 1;
    AdvanceIsSuccessor(1, 4);
    assert Advance(1, 3) == 2;
    AdvanceIsSuccessor(2, 4);
    assert Advance(2, 3) == 3;
    FullIffSizeMinusOne(0, 0, 4);
    FullIffSizeMinusOne(1, 0, 4);
    FullIffSizeMinusOne(2, 0, 4);
    FullIffSizeMinusOne(3, 0, 4);
    assert DataIn(3, 0, 4) == 3;
  }

  /**
   * With size 3 (not a power of two) the mask is 2: the head never leaves
   * slot 0, and the freshly initialised ring (head == tail == 0, so empty)
   * already counts as full.
   */
  lemma SizeThreeRingIsStuck()
    ensures Advance(0, 2) == 0
    ensures IsFull(0, 0, 2)
  {
    AndUnfold(1, 2);
    assert (0 + 1) % 256 == 1;
  }

  /** struct fifo_t together with the slots of its backing store. */
  class FrameFifo {
    var head: byte
    var tail: byte
    var size: byte
    var mask: byte
    /** fifo_mem[]: the slots laid out after the header in `__fifo_data`. */
    const mem: array<FifoMem>

    /** Every index stays within the mask and every slot within the store. */
    ghost predicate Valid()
      reads this, mem
    {
      mem.Length == STORE_SLOTS &&
      mask < STORE_SLOTS && head <= mask && tail <= mask &&
      forall i :: 0 <= i < mem.Length ==> WellSized(mem[i])
    }

    /** INIT_FIFO was given a power-of-two size. */
    predicate Ring()
      reads this
    {
      RingSize(size) && mask == size - 1
    }

    /** The frames waiting in the ring, oldest first. */
    ghost function Contents(): (c: seq<FifoMem>)
      reads this, mem
      requires Valid() && Ring()
      ensures |c| == (head - tail) % size
    {
      RingWindow(mem[..], tail, (head - tail) % size, size)
    }

    /** The storage before INIT_FIFO: all indices zero, blank slots. */
    constructor ()
      ensures Valid() && fresh(mem)
      ensures head == 0 && tail == 0 && size == 0 && mask == 0
    {
      head, tail, size, mask := 0, 0, 0, 0;
      mem := new FifoMem[STORE_SLOTS](_ => BlankSlot());
    }

    /** INIT_FIFO(t, s). */
    method Init(s: int)
      requires Valid() && 1 <= s <= STORE_SLOTS
      modifies this
      ensures Valid()
      ensures head == 0 && tail == 0 && size == s && mask == s - 1
      ensures RingSize(s) ==> Ring() && Contents() == []
    {
      head, tail := 0, 0;
      size, mask := s, s - 1;
    }

    /** FIFO_EMPTY. */
    function Empty(): (b: bool)
      reads this, mem
      requires Valid()
      ensures Ring() ==> (b <==> Contents() == [])
    {
      if Ring() then EmptyIffNoData(head, tail, size); head == tail
      else head == tail
    }

    /** FIFO_FULL. */
    function Full(): (b: bool)
      reads this, mem
      requires Valid()
      ensures Ring() ==> (b <==> |Contents()| == size - 1)
    {
      if Ring() then FullIffSizeMinusOne(head, tail, size); IsFull(head, tail, mask)
      else IsFull(head, tail, mask)
    }

    /** DATA_IN_FIFO. */
    function Count(): (n: int)
      reads this, mem
      requires Valid() && Ring()
      ensures n == |Contents()| && n < size
    {
      DataIn(head, tail, size)
    }

    /** DQUE_FIFO_HEAD: the slot the producer fills next. */
    function HeadSlot(): (i: nat)
      reads this, mem
      requires Valid()
      ensures i < mem.Length && i == head
    {
      head
    }

    /** DQUE_FIFO_TAIL: the slot the consumer reads next. */
    function TailSlot(): (i: nat)
      reads this, mem
      requires Valid()
      ensures i < mem.Length && i == tail
      ensures Ring() && Contents() != [] ==> mem[i] == Contents()[0]
    {
      if Ring() && head != tail then ModOfSmall(tail, size); tail else tail
    }

    /**
     * Writing a frame through the pointer DQUE_FIFO_HEAD returns: only the
     * head slot changes, and the frames waiting in the ring stay as they are.
     */
    method WriteHead(m: FifoMem)
      requires Valid() && WellSized(m)
      modifies mem
      ensures Valid()
      ensures mem[..] == old(mem[..])[head := m]
      ensures Ring() ==> Contents() == old(Contents())
    {
      mem[head] := m;
      if Ring() {
        RingEnd(head, tail, size);
        WriteAtHeadKeepsWindow(old(mem[..]), head, tail, (head - tail) % size, size, m);
      }
    }

    /** QUE_FIFO_HEAD: publish the slot at head. */
    method QueHead()
      requires Valid()
      modifies this`head
      ensures Valid()
      ensures head == Advance(old(head), mask)
      ensures Ring() ==> head == (old(head) + 1) % size
      ensures Ring() && !IsFull(old(head), tail, mask) ==>
                Contents() == old(Contents()) + [mem[old(head)]]
    {
      head := Advance(head, mask);
      if Ring() {
        AdvanceIsSuccessor(old(head), size);
        if !IsFull(old(head), tail, mask) {
          WindowPush(mem[..], old(head), tail, size);
        }
      }
    }

    /** QUE_FIFO_TAIL: release the slot at tail. */
    method QueTail()
      requires Valid()
      modifies this`tail
      ensures Valid()
      ensures tail == Advance(old(tail), mask)
      ensures Ring() ==> tail == (old(tail) + 1) % size
      ensures Ring() && old(head) != old(tail) ==> Contents() == old(Contents())[1..]
    {
      tail := Advance(tail, mask);
      if Ring() {
        AdvanceIsSuccessor(old(tail), size);
        if head != old(tail) {
          WindowPop(mem[..], head, old(tail), size);
        }
      }
    }
  }
}
