/*
 * TVector of private_vector.cpp: a growable array of object handles with
 * an explicit capacity (`length`), a used prefix of `elementCount` slots,
 * and a growth rule driven by `capacityIncrement`. Inserting and removing
 * shift the used slots in place; growing reallocates the backing array and
 * copies the used prefix.
 */
module Vector {

  /**
   * The `Object` handle stored in each slot: a pointer to a TObject, or
   * null (the value a default-constructed handle and `= 0` give).
   * Handles compare equal exactly when they point to the same object.
   */
  datatype Object = Null | Ref(addr: nat)

  /** The capacity ensureCapacityHelper chooses. */
  function GrownCapacity(oldCapacity: int, increment: int, minCapacity: int): (c: int)
  {
    var grown := if increment > 0 then oldCapacity + increment else oldCapacity * 2;
    if grown < minCapacity then minCapacity else grown
  }

  /** The growth rule never gives less than asked for, nor less than the step it takes. */
  lemma GrownCapacityBounds(oldCapacity: int, increment: int, minCapacity: int)
    ensures GrownCapacity(oldCapacity, increment, minCapacity) >= minCapacity
    ensures increment > 0 ==> GrownCapacity(oldCapacity, increment, minCapacity) >= oldCapacity + increment
    ensures increment <= 0 ==> GrownCapacity(oldCapacity, increment, minCapacity) >= 2 * oldCapacity
    ensures GrownCapacity(oldCapacity, increment, minCapacity) == minCapacity ||
            GrownCapacity(oldCapacity, increment, minCapacity) == (if increment > 0 then oldCapacity + increment else 2 * oldCapacity)
  {
  }

  /** s with x inserted at position i. */
  function InsertAt(s: seq<Object>, i: nat, x: Object): (r: seq<Object>)
    requires i <= |s|
    ensures |r| == |s| + 1 && r[i] == x
    ensures forall j :: 0 <= j < i ==> r[j] == s[j]
    ensures forall j :: i < j < |r| ==> r[j] == s[j - 1]
  {
    s[..i] + [x] + s[i..]
  }

  /** s with position i removed. */
  function RemoveAt(s: seq<Object>, i: nat): (r: seq<Object>)
    requires i < |s|
    ensures |r| == |s| - 1
    ensures forall j :: 0 <= j < i ==> r[j] == s[j]
    ensures forall j :: i <= j < |r| ==> r[j] == s[j + 1]
  {
    s[..i] + s[i + 1..]
  }

  /** Removing what was just inserted gives back the original sequence. */
  lemma RemoveInsert(s: seq<Object>, i: nat, x: Object)
    requires i <= |s|
    ensures RemoveAt(InsertAt(s, i, x), i) == s
  {
    var r := RemoveAt(InsertAt(s, i, x), i);
    assert forall j :: 0 <= j < |s| ==> r[j] == s[j];
  }

  /** Inserting back what was removed gives back the original sequence. */
  lemma InsertRemove(s: seq<Object>, i: nat)
    requires i < |s|
    ensures InsertAt(RemoveAt(s, i), i, s[i]) == s
  {
    var r := InsertAt(RemoveAt(s, i), i, s[i]);
    assert forall j :: 0 <= j < |s| ==> r[j] == s[j];
  }

  /** Insertion adds exactly one occurrence of x; removal takes exactly one occurrence away. */
  lemma InsertRemoveMultiset(s: seq<Object>, i: nat, x: Object)
    requires i <= |s|
    ensures multiset(InsertAt(s, i, x)) == multiset(s) + multiset{x}
    ensures i < |s| ==> multiset(RemoveAt(s, i)) == multiset(s) - multiset{s[i]}
  {
    assert s == s[..i] + s[i..];
    if i < |s| {
      assert s[i..] == [s[i]] + s[i + 1..];
      assert s == s[..i] + [s[i]] + s[i + 1..];
    }
  }

  class TVector {
    var elementData: array<Object>
    var elementCount: int
    /** The capacity: the length of elementData. */
    var length: int
    var capacityIncrement: int

    ghost predicate Valid()
      reads this
    {
      elementData.Length == length && 0 <= elementCount <= length
    }

    /** The elements in use, in order. */
    ghost function Elements(): (s: seq<Object>)
      reads this, elementData
      requires Valid()
      ensures |s| == elementCount
    {
      elementData[..elementCount]
    }

    /**
     * TVector(initialCapacity, capacityIncrement): empty, with that capacity.
     * The C++ defaults (10 and 0) are passed explicitly here.
     */
    constructor (initialCapacity: int, increment: int)
      requires initialCapacity >= 0
      ensures Valid() && fresh(elementData)
      ensures Elements() == [] && length == initialCapacity && capacityIncrement == increment
    {
      elementData := new Object[initialCapacity](_ => Null);
      length := initialCapacity;
      capacityIncrement := increment;
      elementCount := 0;
    }

    /** capacity(). */
    function Capacity(): (c: int)
      reads this
      requires Valid()
      ensures c == elementData.Length && c >= elementCount
    {
      length
    }

    /** size(). */
    function Size(): (n: int)
      reads this, elementData
      requires Valid()
      ensures n == |Elements()|
    {
      elementCount
    }

    /**
     * ensureCapacityHelper(minCapacity): reallocate to the grown capacity
     * and copy the used prefix across.
     */
    method EnsureCapacityHelper(minCapacity: int)
      requires Valid() && minCapacity >= 0
      modifies this
      ensures Valid() && fresh(elementData)
      ensures length == GrownCapacity(old(length), capacityIncrement, minCapacity)
      ensures length >= minCapacity
      ensures Elements() == old(Elements())
      ensures forall i :: elementCount <= i < length ==> elementData[i] == Null
      ensures capacityIncrement == old(capacityIncrement)
    {
      var oldCapacity := length;
      var oldData := elementData;
      var newCapacity := if capacityIncrement > 0 then oldCapacity + capacityIncrement else oldCapacity * 2;
      if newCapacity < minCapacity {
        newCapacity := minCapacity;
      }
      var newData := new Object[newCapacity](_ => Null);
      var i := 0;
      while i < elementCount
        invariant 0 <= i <= elementCount
        invariant forall j :: 0 <= j < i ==> newData[j] == oldData[j]
        invariant forall j :: elementCount <= j < newCapacity ==> newData[j] == Null
        modifies newData
      {
        newData[i] := oldData[i];
        i := i + 1;
      }
      elementData := newData;
      length := newCapacity;
    }

    /** ensureCapacity(minCapacity): grow only when the capacity is too small. */
    method EnsureCapacity(minCapacity: int)
      requires Valid()
      modifies this
      ensures Valid() && length >= minCapacity && length >= old(length)
      ensures minCapacity <= old(length) ==> elementData == old(elementData) && length == old(length)
      ensures minCapacity > old(length) ==> length == GrownCapacity(old(length), capacityIncrement, minCapacity)
      ensures Elements() == old(Elements())
      ensures capacityIncrement == old(capacityIncrement)
    {
      if minCapacity > length {
        GrownCapacityBounds(length, capacityIncrement, minCapacity);
        EnsureCapacityHelper(minCapacity);
      }
    }

    /** trimToSize(): shrink the capacity to the count, keeping the elements. */
    method TrimToSize()
      requires Valid()
      modifies this
      ensures Valid() && length == elementCount
      ensures Elements() == old(Elements())
      ensures capacityIncrement == old(capacityIncrement)
    {
      if elementCount < length {
        var oldData := elementData;
        var newData := new Object[elementCount](_ => Null);
        var i := 0;
        while i < elementCount
          invariant 0 <= i <= elementCount
          invariant forall j :: 0 <= j < i ==> newData[j] == oldData[j]
          modifies newData
        {
          newData[i] := oldData[i];
          i := i + 1;
        }
        elementData := newData;
        length := elementCount;
      }
    }

    /**
     * setSize(newSize): grow the capacity only when newSize exceeds both the
     * count and the capacity; otherwise clear the slots from newSize up to
     * the old count. The count becomes newSize either way, so after growth
     * the new elements are null handles and otherwise they are whatever the
     * slots past the old count held.
     */
    method SetSize(newSize: int)
      requires Valid() && newSize >= 0
      modifies this, elementData
      ensures Valid() && elementCount == newSize
      ensures newSize > old(elementCount) && newSize > old(length) ==>
                length == GrownCapacity(old(length), capacityIncrement, newSize)
      ensures !(newSize > old(elementCount) && newSize > old(length)) ==>
                length == old(length) && elementData == old(elementData)
      ensures forall i :: 0 <= i < newSize && i < old(elementCount) ==> elementData[i] == old(elementData[i])
      ensures forall i :: newSize <= i < old(elementCount) ==> elementData[i] == Null
      ensures newSize > old(elementCount) && newSize > old(length) ==>
                forall i :: old(elementCount) <= i < length ==> elementData[i] == Null
      ensures !(newSize > old(elementCount) && newSize > old(length)) ==>
                forall i :: old(elementCount) <= i < length ==> elementData[i] == old(elementData[i])
      ensures capacityIncrement == old(capacityIncrement)
    {
      if newSize > elementCount && newSize > length {
        EnsureCapacityHelper(newSize);
      } else {
        var i := newSize;
        while i < elementCount
          invariant newSize <= i
          invariant i <= elementCount || i == newSize
          invariant forall j :: 0 <= j < newSize && j < elementCount ==> elementData[j] == old(elementData[j])
          invariant forall j :: newSize <= j < i && j < elementCount ==> elementData[j] == Null
          invariant forall j :: i <= j < length ==> elementData[j] == old(elementData[j])
          invariant forall j :: elementCount <= j < length ==> elementData[j] == old(elementData[j])
          modifies elementData
        {
          elementData[i] := Null;
          i := i + 1;
        }
      }
      elementCount := newSize;
    }

    /**
     * indexOf(elem, index): the first position at or after index holding
     * elem, or -1. The C++ default index 0 is passed explicitly (Contains).
     */
    method IndexOf(elem: Object, index: int) returns (r: int)
      requires Valid() && index >= 0
      ensures r == -1 || (index <= r < elementCount && elementData[r] == elem)
      ensures forall j :: index <= j < elementCount && (r == -1 || j < r) ==> elementData[j] != elem
    {
      var i := index;
      while i < elementCount
        invariant index <= i
        invariant forall j :: index <= j < i && j < elementCount ==> elementData[j] != elem
      {
        if elem == elementData[i] {
          return i;
        }
        i := i + 1;
      }
      return -1;
    }

    /** contains(elem). */
    method Contains(elem: Object) returns (b: bool)
      requires Valid()
      ensures b <==> elem in Elements()
    {
      var i := IndexOf(elem, 0);
      b := i >= 0;
    }

    /** lastIndexOf(elem, index): the last position at or before index holding elem, or -1. */
    method LastIndexOf(elem: Object, index: int) returns (r: int)
      requires Valid() && index < length
      ensures r == -1 || (0 <= r <= index && elementData[r] == elem)
      ensures forall j :: 0 <= j <= index && r < j ==> elementData[j] != elem
    {
      var i := index;
      while i >= 0
        invariant i <= index && (i >= -1 || i == index)
        invariant forall j :: i < j <= index ==> elementData[j] != elem
      {
        if elem == elementData[i] {
          return i;
        }
        i := i - 1;
      }
      return -1;
    }

    /** lastIndexOf(elem): the search from the last element in use. */
    method LastIndexOfAll(elem: Object) returns (r: int)
      requires Valid()
      ensures r == -1 || (0 <= r < elementCount && Elements()[r] == elem)
      ensures forall j :: r < j < elementCount ==> Elements()[j] != elem
    {
      r := LastIndexOf(elem, elementCount - 1);
    }

    /**
     * removeElementAt(index): shift the elements after index one slot left,
     * drop the count and clear the vacated last slot. An index at or past
     * the last element shifts nothing, so the last element is dropped.
     */
    method RemoveElementAt(index: int)
      requires Valid() && 0 <= index && elementCount >= 1
      modifies this`elementCount, elementData
      ensures Valid()
      ensures index < old(elementCount) ==> Elements() == RemoveAt(old(Elements()), index)
      ensures index >= old(elementCount) ==> Elements() == RemoveAt(old(Elements()), old(elementCount) - 1)
      ensures elementData[elementCount] == Null
      ensures forall j :: old(elementCount) < j < length ==> elementData[j] == old(elementData[j])
    {
      var j := elementCount - index - 1;
      if j > 0 {
        var i := index;
        while i < index + j
          invariant index <= i <= index + j
          invariant forall k :: 0 <= k < index ==> elementData[k] == old(elementData[k])
          invariant forall k :: index <= k < i ==> elementData[k] == old(elementData[k + 1])
          invariant forall k :: i <= k < length ==> elementData[k] == old(elementData[k])
          modifies elementData
        {
          elementData[i] := elementData[i + 1];
          i := i + 1;
        }
      }
      elementCount := elementCount - 1;
      elementData[elementCount] := Null;
    }

    /**
     * insertElementAt(obj, index): grow if full, shift the elements from
     * index one slot right, put obj at index and bump the count. An index
     * past the count shifts nothing: obj lands beyond the elements, and the
     * slot at the old count (a null handle after growth) becomes the last
     * element.
     */
    method InsertElementAt(obj: Object, index: int)
      requires Valid() && 0 <= index
      requires index < (if elementCount + 1 > length then GrownCapacity(length, capacityIncrement, elementCount + 1) else length)
      modifies this, elementData
      ensures Valid()
      ensures index <= old(elementCount) ==> Elements() == InsertAt(old(Elements()), index, obj)
      ensures index < length
      ensures index > old(elementCount) ==>
                elementData[index] == obj &&
                Elements() == old(Elements()) + [if old(elementCount) + 1 > old(length) then Null else old(elementData[elementCount])]
      ensures old(elementCount) + 1 > old(length) ==> length == GrownCapacity(old(length), capacityIncrement, old(elementCount) + 1)
      ensures old(elementCount) + 1 <= old(length) ==> length == old(length) && elementData == old(elementData)
      ensures capacityIncrement == old(capacityIncrement)
    {
      ghost var before := Elements();
      var newcount := elementCount + 1;
      if newcount > length {
        EnsureCapacityHelper(newcount);
      }
      assert Elements() == before;
      ghost var last := elementData[elementCount];
      if index <= elementCount {
        // past the count, the shift loop runs no iteration
        ShiftRight(index);
      }
      elementData[index] := obj;
      elementCount := elementCount + 1;
      if index < elementCount {
        assert forall k :: 0 <= k < elementCount ==> Elements()[k] == InsertAt(before, index, obj)[k];
      } else {
        assert Elements() == before + [last];
      }
    }

    /** The loop of insertElementAt: the slots from index up to the count move one slot right. */
    method ShiftRight(index: int)
      requires Valid() && 0 <= index <= elementCount < length
      modifies elementData
      ensures forall k :: 0 <= k < index ==> elementData[k] == old(elementData[k])
      ensures forall k :: index < k <= elementCount ==> elementData[k] == old(elementData[k - 1])
    {
      var i := elementCount - 1;
      while i >= index
        invariant index - 1 <= i <= elementCount - 1
        invariant forall k :: 0 <= k <= i ==> elementData[k] == old(elementData[k])
        invariant forall k :: i + 1 < k <= elementCount ==> elementData[k] == old(elementData[k - 1])
        modifies elementData
      {
        elementData[i + 1] := elementData[i];
        i := i - 1;
      }
    }

    /** addElement(obj): grow if full, then store obj after the last element. */
    method AddElement(obj: Object)
      requires Valid()
      modifies this, elementData
      ensures Valid()
      ensures Elements() == old(Elements()) + [obj]
      ensures old(elementCount) + 1 > old(length) ==> length == GrownCapacity(old(length), capacityIncrement, old(elementCount) + 1)
      ensures old(elementCount) + 1 <= old(length) ==> length == old(length) && elementData == old(elementData)
      ensures capacityIncrement == old(capacityIncrement)
    {
      var newcount := elementCount + 1;
      if newcount > length {
        EnsureCapacityHelper(newcount);
      }
      elementData[elementCount] := obj;
      elementCount := elementCount + 1;
    }

    /** removeElement(obj): remove the first occurrence, reporting whether there was one. */
    method RemoveElement(obj: Object) returns (found: bool)
      requires Valid()
      modifies this`elementCount, elementData
      ensures Valid()
      ensures found <==> obj in old(Elements())
      ensures !found ==> Elements() == old(Elements())
      ensures found ==> exists i :: 0 <= i < |old(Elements())| && old(Elements())[i] == obj &&
                          obj !in old(Elements())[..i] && Elements() == RemoveAt(old(Elements()), i)
    {
      var i := IndexOf(obj, 0);
      if i >= 0 {
        assert obj !in Elements()[..i];
        RemoveElementAt(i);
        return true;
      }
      return false;
    }

    /** removeAllElements(): clear every used slot and empty the vector. */
    method RemoveAllElements()
      requires Valid()
      modifies this`elementCount, elementData
      ensures Valid() && Elements() == []
      ensures forall i :: 0 <= i < old(elementCount) ==> elementData[i] == Null
      ensures length == old(length) && elementData == old(elementData)
    {
      var i := 0;
      while i < elementCount
        invariant 0 <= i <= elementCount
        invariant forall j :: 0 <= j < i ==> elementData[j] == Null
        modifies elementData
      {
        elementData[i] := Null;
        i := i + 1;
      }
      elementCount := 0;
    }
  }
}
