/**
 * `BufferQueue<T>`: the older circular queue over a buffer rented from the
 * shared memory pool. It keeps the same ring layout as `MemoryQueue<T>` but
 * copies through a clamping `BlockCopy`, branches differently when it writes
 * or reads across the end of the buffer, and may start with an empty buffer.
 */
module BufferQueues {
  import opened Wrappers
  import opened Rings
  import Bits
  import opened Spans

  const DefaultInitialCapacity: nat := 2048

  /**
   * The element count `BlockCopy` moves: `count` capped by the room left in
   * the source after `sourceOffset` and in the destination after
   * `destinationOffset`, and zero when that is not positive.
   */
  function BlockCopyCount(sourceLength: nat, sourceOffset: nat, destinationLength: nat,
                          destinationOffset: nat, count: int): nat
  {
    var maxCount := Min(sourceLength - sourceOffset, destinationLength - destinationOffset);
    var n := if count > maxCount then maxCount else count;
    if n > 0 then n else 0
  }

  /**
   * What `BlockCopy` promises about its count: it never leaves either
   * window, never exceeds the request, is the request itself when that fits,
   * is otherwise the room that ran out, and is zero exactly when the request
   * is not positive or one window is empty.
   */
  lemma BlockCopyCountBounds(sourceLength: nat, sourceOffset: nat, destinationLength: nat,
                             destinationOffset: nat, count: int)
    ensures var r := BlockCopyCount(sourceLength, sourceOffset, destinationLength, destinationOffset, count);
      && (r > 0 ==> sourceOffset + r <= sourceLength && destinationOffset + r <= destinationLength)
      && (r > 0 ==> r <= count)
      && (r == 0 <==> count <= 0 || sourceLength <= sourceOffset || destinationLength <= destinationOffset)
      && (0 <= count && sourceOffset + count <= sourceLength && destinationOffset + count <= destinationLength ==>
            r == count)
      && (r > 0 ==> r == count || r == sourceLength - sourceOffset || r == destinationLength - destinationOffset)
  {
  }

  /**
   * `BlockCopy(source, sourceOffset, destination, destinationOffset, count)`:
   * copy `BlockCopyCount(...)` elements and report how many. The copy itself
   * cannot fail, because both windows have the same length.
   */
  method BlockCopy<T>(source: seq<T>, sourceOffset: nat, destination: array<T>,
                      destinationOffset: nat, count: int) returns (copied: nat)
    modifies destination
    ensures copied == BlockCopyCount(|source|, sourceOffset, destination.Length, destinationOffset, count)
    ensures 0 < count && sourceOffset + count <= |source| && destinationOffset + count <= destination.Length ==>
      copied == count &&
      destination[..] == Overwrite(old(destination[..]), destinationOffset, source[sourceOffset..sourceOffset + count])
    ensures copied > 0 ==>
      destination[..] == Overwrite(old(destination[..]), destinationOffset, source[sourceOffset..sourceOffset + copied])
    ensures copied == 0 ==> destination[..] == old(destination[..])
  {
    var maxSourceCount := |source| - sourceOffset;
    var maxDestinationCount := destination.Length - destinationOffset;
    var maxCount := Min(maxSourceCount, maxDestinationCount);
    var n := count;
    if n > maxCount {
      n := maxCount;
    }
    if n > 0 {
      CopyInto(source[sourceOffset..sourceOffset + n], destination, destinationOffset);
      return n;
    }
    return 0;
  }

  /**
   * `BlockCopy` as every call inside the queue makes it: the source window
   * `source` (already cut out of the span it comes from) fits the
   * destination after `destinationOffset`, so all of it is copied.
   */
  method BlockCopyExact<T>(source: seq<T>, destination: array<T>, destinationOffset: nat)
    requires destinationOffset + |source| <= destination.Length
    modifies destination
    ensures destination[..] == Overwrite(old(destination[..]), destinationOffset, source)
  {
    var copied := BlockCopy(source, 0, destination, destinationOffset, |source|);
    assert source[0..0 + |source|] == source;
    if |source| == 0 {
      assert destination[..] == Overwrite(old(destination[..]), destinationOffset, []);
    }
  }

  /** The pool never hands out a buffer shorter than the request. */
  ghost predicate RentIsEnough(rent: nat -> nat)
  {
    forall m: nat :: rent(m) >= m
  }

  class BufferQueue<T(0)> {
    const InitialCapacity: nat
    const CapacityGrowth: nat
    /**
     * `MemoryPool<T>.Shared.Rent`: the length of the buffer the pool hands
     * out for a request, which is never shorter than the request.
     */
    const Rent: nat -> nat
    var buffer: array<T>
    var readHead: nat
    var writeTail: nat
    var count: nat
    /** `m_IsDisposed` */
    var disposed: bool

    ghost var Contents: seq<T>
    ghost var Repr: set<object>

    ghost predicate Valid()
      reads this, Repr
      ensures Valid() ==> this in Repr
    {
      && Repr == {this, buffer}
      && InitialCapacity > 0 && CapacityGrowth == InitialCapacity - 1
      && RentIsEnough(Rent)
      && |Contents| == count
      && RingState(Contents, buffer[..], readHead, writeTail)
    }

    /** `IsDisposed` */
    function IsDisposed(): bool
      reads this
    {
      disposed
    }

    /** `Capacity`: the length of the rented buffer. */
    function Capacity(): nat
      reads this
    {
      buffer.Length
    }

    /** `Count` */
    function Count(): nat
      reads this
    {
      count
    }

    /**
     * `new BufferQueue<T>(initialCapacity)`: a capacity that is not positive
     * falls back to 2048 for the growth step, while the buffer is still rented
     * at the size asked for (an empty one for 0).
     */
    constructor (initialCapacity: nat, rent: nat -> nat)
      requires forall m: nat :: rent(m) >= m
      ensures Valid() && fresh(Repr)
      ensures Contents == [] && !disposed && Rent == rent
      ensures InitialCapacity == (if initialCapacity > 0 then initialCapacity else DefaultInitialCapacity)
      ensures buffer.Length == rent(initialCapacity)
    {
      InitialCapacity := if initialCapacity > 0 then initialCapacity else DefaultInitialCapacity;
      CapacityGrowth := (if initialCapacity > 0 then initialCapacity else DefaultInitialCapacity) - 1;
      Rent := rent;
      var b := new T[rent(initialCapacity)];
      buffer := b;
      readHead, writeTail, count := 0, 0, 0;
      disposed := false;
      Contents := [];
      Repr := {this, b};
    }

    /** `Clear()`: forget every element. */
    method Clear()
      requires Valid()
      modifies this
      ensures Valid() && Repr == old(Repr) && buffer == old(buffer) && disposed == old(disposed)
      ensures Contents == [] && readHead == 0 && writeTail == 0
    {
      readHead := 0;
      writeTail := 0;
      count := 0;
      Contents := [];
    }

    /**
     * `Clear(elementCount)`: discard the first `elementCount` elements (all of
     * them if there are fewer); a non-positive count changes nothing.
     */
    method ClearFirst(elementCount: int)
      requires Valid() && !disposed
      modifies this
      ensures Valid() && Repr == old(Repr) && buffer == old(buffer) && !disposed
      ensures Contents == old(Contents)[ClearedCount(elementCount, old(count))..]
      ensures ClearedCount(elementCount, old(count)) == 0 ==>
        readHead == old(readHead) && writeTail == old(writeTail)
    {
      var n := elementCount;
      if n > count {
        n := count;
      }
      if n <= 0 {
        return;
      }
      DiscardHead(n);
    }

    /**
     * The cursor step shared by `Clear(elementCount)` and the dequeuing path
     * of `PeekOrDequeue`: move the read head `n` slots on, and put both
     * cursors back at slot 0 once the queue is empty.
     */
    method DiscardHead(n: nat)
      requires Valid() && 0 < n <= count
      modifies this
      ensures Valid() && Repr == old(Repr) && buffer == old(buffer) && disposed == old(disposed)
      ensures Contents == old(Contents)[n..]
      ensures readHead == (if count == 0 then 0 else (old(readHead) + n) % buffer.Length)
    {
      StateAdvance(Contents, buffer[..], readHead, writeTail, n);
      readHead := (readHead + n) % buffer.Length;
      count := count - n;
      Contents := Contents[n..];
      if count == 0 {
        readHead := 0;
        writeTail := 0;
      }
    }

    /**
     * `Enqueue(elements)`: append `elements` in order, growing the buffer to
     * at least `(Count + n + g) & ~g` (with `g` the initial capacity minus
     * one) when they do not fit.
     */
    method Enqueue(elements: seq<T>)
      requires Valid() && !disposed
      modifies Repr
      ensures Valid() && fresh(Repr - old(Repr)) && !disposed
      ensures Contents == old(Contents) + elements
      ensures elements == [] ==> unchanged(this)
      ensures old(count) + |elements| <= old(buffer.Length) ==> buffer == old(buffer)
      ensures old(count) + |elements| > old(buffer.Length) ==>
        fresh(buffer) && buffer.Length == Rent(GrowthTarget(old(count), |elements|, CapacityGrowth))
    {
      var inputCount := |elements|;
      if inputCount <= 0 {
        return;
      }
      if count + inputCount > buffer.Length {
        var newCapacity := Bits.AndNot(count + inputCount + CapacityGrowth, CapacityGrowth);
        GrowthTargetFits(count, inputCount, CapacityGrowth);
        Reallocate(newCapacity);
      }
      CopyToTail(elements);
      writeTail := (writeTail + inputCount) % buffer.Length;
      count := count + inputCount;
      Contents := Contents + elements;
    }

    /** `Enqueue(elements, startIndex)`: enqueue `elements[startIndex..]`; a bad index throws. */
    method EnqueueFrom(elements: seq<T>, startIndex: int) returns (r: Outcome)
      requires Valid() && !disposed
      modifies Repr
      ensures Valid() && fresh(Repr - old(Repr)) && !disposed
      ensures r.Fail? <==> !(0 <= startIndex <= |elements|)
      ensures r.Fail? ==> r.error == ArgumentOutOfRange && unchanged(this)
      ensures r.Pass? ==> Contents == old(Contents) + elements[startIndex..]
    {
      if !(0 <= startIndex <= |elements|) {
        return Fail(ArgumentOutOfRange);
      }
      Enqueue(elements[startIndex..]);
      r := Pass;
    }

    /** `Enqueue(elements, startIndex, count)`: enqueue the slice; a bad slice throws. */
    method EnqueueSlice(elements: seq<T>, startIndex: int, elementCount: int) returns (r: Outcome)
      requires Valid() && !disposed
      modifies Repr
      ensures Valid() && fresh(Repr - old(Repr)) && !disposed
      ensures r.Fail? <==> !(0 <= startIndex && 0 <= elementCount && startIndex + elementCount <= |elements|)
      ensures r.Fail? ==> r.error == ArgumentOutOfRange && unchanged(this)
      ensures r.Pass? ==> Contents == old(Contents) + elements[startIndex..startIndex + elementCount]
    {
      if !(0 <= startIndex && 0 <= elementCount && startIndex + elementCount <= |elements|) {
        return Fail(ArgumentOutOfRange);
      }
      Enqueue(elements[startIndex..startIndex + elementCount]);
      r := Pass;
    }

    /**
     * The writing half of `Enqueue`, once the elements fit: with the read head
     * before the write tail the elements go in one piece when the tail of the
     * buffer has room and in two pieces otherwise; in every other state they
     * go in one piece at the write tail.
     */
    method CopyToTail(elements: seq<T>)
      requires Valid() && 0 < |elements| && count + |elements| <= buffer.Length
      modifies buffer
      ensures RingState(Contents + elements, buffer[..], readHead, (writeTail + |elements|) % buffer.Length)
    {
      var inputCount := |elements|;
      if readHead < writeTail {
        var rightLength := buffer.Length - writeTail;
        if rightLength >= inputCount {
          CopyAtTail(elements);
        } else {
          CopyAroundEnd(elements);
        }
      } else {
        CopyAtTail(elements);
      }
    }

    /** One `BlockCopy` of all of `elements` to the free slots at the write tail. */
    method CopyAtTail(elements: seq<T>)
      requires Valid() && 0 < |elements| && count + |elements| <= buffer.Length
      requires writeTail + |elements| <= buffer.Length
      modifies buffer
      ensures RingState(Contents + elements, buffer[..], readHead, (writeTail + |elements|) % buffer.Length)
    {
      StateAppendContiguous(Contents, buffer[..], readHead, writeTail, elements);
      BlockCopyExact(elements, buffer, writeTail);
    }

    /**
     * Two `BlockCopy` calls: the first `rightLength` elements fill the buffer
     * after the write tail, the rest go to its start.
     */
    method CopyAroundEnd(elements: seq<T>)
      requires Valid() && count + |elements| <= buffer.Length
      requires readHead < writeTail && buffer.Length < writeTail + |elements|
      modifies buffer
      ensures RingState(Contents + elements, buffer[..], readHead, (writeTail + |elements|) % buffer.Length)
    {
      var rightLength := buffer.Length - writeTail;
      StateAppendSplit(Contents, buffer[..], readHead, writeTail, elements);
      BlockCopyExact(elements[..rightLength], buffer, writeTail);
      BlockCopyExact(elements[rightLength..], buffer, 0);
    }

    /**
     * `Reallocate(newCapacity)`: rent a buffer of at least `newCapacity`
     * slots and move the contents, oldest first, to its start; nothing
     * happens unless `newCapacity` exceeds the current capacity.
     */
    method Reallocate(newCapacity: nat)
      requires Valid()
      modifies this
      ensures Valid() && fresh(Repr - old(Repr)) && disposed == old(disposed)
      ensures Contents == old(Contents)
      ensures newCapacity <= old(buffer.Length) ==> unchanged(this)
      ensures newCapacity > old(buffer.Length) ==>
        fresh(buffer) && buffer.Length == Rent(newCapacity) && readHead == 0 && writeTail == count
    {
      if newCapacity <= buffer.Length {
        return;
      }
      var newBuffer := new T[Rent(newCapacity)];
      ghost var fresh0 := newBuffer[..];
      if count > 0 {
        CopyContents(newBuffer);
      }
      assert newBuffer[..] == Overwrite(fresh0, 0, Contents);
      StateAtStart(Contents, fresh0);
      readHead := 0;
      writeTail := count;
      buffer := newBuffer;
      Repr := {this, newBuffer};
    }

    /**
     * The copying half of `Reallocate`: all elements, oldest first, go to the
     * start of `target`, in one piece when the read head is before the write
     * tail and in two pieces otherwise.
     */
    method CopyContents(target: array<T>)
      requires Valid() && target !in Repr && 0 < count <= target.Length
      modifies target
      ensures target[..] == Overwrite(old(target[..]), 0, Contents)
    {
      ghost var t0 := target[..];
      assert Contents[..count] == Contents;
      var len := buffer.Length;
      if readHead < writeTail {
        ReadContiguous(Contents, buffer[..], readHead, count);
        BlockCopyExact(buffer[readHead..readHead + count], target, 0);
      } else {
        var rightLength := len - readHead;
        ReadSplit(Contents, buffer[..], readHead, count);
        OverwriteTwice(t0, 0, buffer[readHead..len], buffer[..writeTail]);
        BlockCopyExact(buffer[readHead..len], target, 0);
        BlockCopyExact(buffer[..writeTail], target, rightLength);
      }
    }

    /**
     * The copying half of `PeekOrDequeue`: the first `targetCount` elements go
     * to `destination` from index `start` on, in one piece when the read head
     * is before the write tail or the buffer's tail holds them all, and in two
     * pieces otherwise.
     */
    method CopyHead(destination: array<T>, start: nat, targetCount: nat)
      requires Valid() && destination !in Repr
      requires 0 < targetCount <= count && start + targetCount <= destination.Length
      modifies destination
      ensures destination[..] == Overwrite(old(destination[..]), start, Contents[..targetCount])
    {
      var rightLength := buffer.Length - readHead;
      // The source tests `readHead < writeTail` and then `rightLength >=
      // targetCount` in two nested branches that copy alike.
      if readHead < writeTail || rightLength >= targetCount {
        CopyHeadInOnePiece(destination, start, targetCount);
      } else {
        CopyHeadInTwoPieces(destination, start, targetCount);
      }
    }

    /** One `BlockCopy` of the first `targetCount` slots from the read head on. */
    method CopyHeadInOnePiece(destination: array<T>, start: nat, targetCount: nat)
      requires Valid() && destination !in Repr
      requires 0 < targetCount <= count && start + targetCount <= destination.Length
      requires readHead + targetCount <= buffer.Length
      modifies destination
      ensures destination[..] == Overwrite(old(destination[..]), start, Contents[..targetCount])
    {
      assert Ring(Contents, buffer[..], readHead);
      ReadContiguous(Contents, buffer[..], readHead, targetCount);
      BlockCopyExact(buffer[readHead..readHead + targetCount], destination, start);
    }

    /** Two `BlockCopy` calls: the slots after the read head, then the rest from slot 0. */
    method CopyHeadInTwoPieces(destination: array<T>, start: nat, targetCount: nat)
      requires Valid() && destination !in Repr
      requires 0 < targetCount <= count && start + targetCount <= destination.Length
      requires buffer.Length < readHead + targetCount
      modifies destination
      ensures destination[..] == Overwrite(old(destination[..]), start, Contents[..targetCount])
    {
      ghost var d0 := destination[..];
      var len := buffer.Length;
      var rightLength := len - readHead;
      var leftLength := targetCount - rightLength;
      assert Ring(Contents, buffer[..], readHead);
      ReadSplit(Contents, buffer[..], readHead, targetCount);
      OverwriteTwice(d0, start, buffer[readHead..len], buffer[..leftLength]);
      BlockCopyExact(buffer[readHead..len], destination, start);
      BlockCopyExact(buffer[..leftLength], destination, start + rightLength);
    }

    /**
     * `PeekOrDequeue(destination, doDequeue)` on the span
     * `destination[start..start + length]`: copy the first `min(length, Count)`
     * elements, oldest first, to the start of that span, and remove them when
     * `doDequeue` holds.
     */
    method PeekOrDequeueInto(destination: array<T>, start: nat, length: nat, doDequeue: bool)
      returns (copied: nat)
      requires Valid() && !disposed && destination !in Repr && start + length <= destination.Length
      modifies destination, if doDequeue then {this} else {}
      ensures Valid() && Repr == old(Repr) && buffer == old(buffer) && !disposed
      ensures copied == Min(length, old(count))
      ensures destination[..] == Overwrite(old(destination[..]), start, old(Contents)[..copied])
      ensures doDequeue ==> Contents == old(Contents)[copied..]
      ensures !doDequeue || copied == 0 ==>
        Contents == old(Contents) && readHead == old(readHead) && writeTail == old(writeTail) && count == old(count)
    {
      var targetCount := length;
      if targetCount > count {
        targetCount := count;
      }
      if targetCount <= 0 {
        assert destination[..] == Overwrite(destination[..], start, Contents[..0]);
        return 0;
      }
      CopyHead(destination, start, targetCount);
      if doDequeue {
        DiscardHead(targetCount);
      }
      copied := targetCount;
    }

    /** `Dequeue(Span<T> destination)` */
    method DequeueInto(destination: array<T>) returns (copied: nat)
      requires Valid() && !disposed && destination !in Repr
      modifies this, destination
      ensures Valid() && Repr == old(Repr) && !disposed
      ensures copied == Min(destination.Length, old(count))
      ensures destination[..] == Overwrite(old(destination[..]), 0, old(Contents)[..copied])
      ensures Contents == old(Contents)[copied..]
    {
      copied := PeekOrDequeueInto(destination, 0, destination.Length, true);
    }

    /** `Dequeue(destination, startIndex)`: dequeue into `destination[startIndex..]`; a bad index throws. */
    method DequeueIntoFrom(destination: array<T>, startIndex: int) returns (r: Result<nat>)
      requires Valid() && !disposed && destination !in Repr
      modifies this, destination
      ensures Valid() && Repr == old(Repr) && !disposed
      ensures r.Err? <==> !(0 <= startIndex <= destination.Length)
      ensures r.Err? ==> r.error == ArgumentOutOfRange && unchanged(this) && unchanged(destination)
      ensures r.Ok? ==> r.value == Min(destination.Length - startIndex, old(count))
      ensures r.Ok? ==> destination[..] == Overwrite(old(destination[..]), startIndex, old(Contents)[..r.value])
      ensures r.Ok? ==> Contents == old(Contents)[r.value..]
    {
      if !(0 <= startIndex <= destination.Length) {
        return Err(ArgumentOutOfRange);
      }
      var copied := PeekOrDequeueInto(destination, startIndex, destination.Length - startIndex, true);
      r := Ok(copied);
    }

    /** `Dequeue(destination, startIndex, count)`: dequeue into that slice; a bad slice throws. */
    method DequeueIntoSlice(destination: array<T>, startIndex: int, elementCount: int) returns (r: Result<nat>)
      requires Valid() && !disposed && destination !in Repr
      modifies this, destination
      ensures Valid() && Repr == old(Repr) && !disposed
      ensures r.Err? <==> !(0 <= startIndex && 0 <= elementCount && startIndex + elementCount <= destination.Length)
      ensures r.Err? ==> r.error == ArgumentOutOfRange && unchanged(this) && unchanged(destination)
      ensures r.Ok? ==> r.value == Min(elementCount, old(count))
      ensures r.Ok? ==> destination[..] == Overwrite(old(destination[..]), startIndex, old(Contents)[..r.value])
      ensures r.Ok? ==> Contents == old(Contents)[r.value..]
    {
      if !(0 <= startIndex && 0 <= elementCount && startIndex + elementCount <= destination.Length) {
        return Err(ArgumentOutOfRange);
      }
      var copied := PeekOrDequeueInto(destination, startIndex, elementCount, true);
      r := Ok(copied);
    }

    /** `Peek(Span<T> destination)` */
    method PeekInto(destination: array<T>) returns (copied: nat)
      requires Valid() && !disposed && destination !in Repr
      modifies destination
      ensures copied == Min(destination.Length, count)
      ensures destination[..] == Overwrite(old(destination[..]), 0, Contents[..copied])
    {
      copied := PeekOrDequeueInto(destination, 0, destination.Length, false);
    }

    /** `PeekOrDequeue(elementCount, doDequeue)`: the array-returning form. */
    method PeekOrDequeue(elementCount: int, doDequeue: bool) returns (elements: seq<T>)
      requires Valid() && !disposed
      modifies if doDequeue then {this} else {}
      ensures Valid() && Repr == old(Repr) && !disposed
      ensures elements == old(Contents)[..RequestedCount(elementCount, old(count))]
      ensures doDequeue ==> Contents == old(Contents)[|elements|..]
      ensures !doDequeue ==> Contents == old(Contents)
    {
      var n := elementCount;
      if n < 0 {
        n := count;
      }
      n := Min(n, count);
      var output := new T[n];
      var k := PeekOrDequeueInto(output, 0, n, doDequeue);
      elements := output[..k];
    }

    /** `Dequeue(elementCount)`: remove and return up to `elementCount` head elements; negative means all. */
    method Dequeue(elementCount: int) returns (elements: seq<T>)
      requires Valid() && !disposed
      modifies this
      ensures Valid() && Repr == old(Repr) && !disposed
      ensures elements == old(Contents)[..RequestedCount(elementCount, old(count))]
      ensures Contents == old(Contents)[|elements|..]
    {
      elements := PeekOrDequeue(elementCount, true);
    }

    /** `Dequeue()`: drain the queue, via `Dequeue(Timeout.Infinite)`, that is -1. */
    method DequeueAll() returns (elements: seq<T>)
      requires Valid() && !disposed
      modifies this
      ensures Valid() && Repr == old(Repr) && !disposed
      ensures elements == old(Contents) && Contents == [] && readHead == 0 && writeTail == 0
    {
      elements := Dequeue(-1);
    }

    /** `Peek(elementCount)`: the first `elementCount` elements (all when negative), left in place. */
    method Peek(elementCount: int) returns (elements: seq<T>)
      requires Valid() && !disposed
      ensures elements == Contents[..RequestedCount(elementCount, count)]
    {
      elements := PeekOrDequeue(elementCount, false);
    }

    /** `TryPeek(offsetIndex, out element)`: the element `offsetIndex` places after the head. */
    method TryPeekAt(offsetIndex: int) returns (found: bool, element: T)
      requires Valid() && !disposed
      ensures found <==> (if offsetIndex < 0 then 0 else offsetIndex) < count
      ensures found ==> element == Contents[if offsetIndex < 0 then 0 else offsetIndex]
    {
      element := *;
      var offset := offsetIndex;
      if offset < 0 {
        offset := 0;
      }
      var elements := Peek(offset + 1);
      if offset < |elements| {
        element := elements[offset];
        return true, element;
      }
      return false, element;
    }

    /** `TryPeek(out element)`: the head element. */
    method TryPeek() returns (found: bool, element: T)
      requires Valid() && !disposed
      ensures found <==> count > 0
      ensures found ==> element == Contents[0]
    {
      found, element := TryPeekAt(0);
    }

    /** `Dispose()`: return the buffer to the pool once; later calls do nothing. */
    method Dispose()
      requires Valid()
      modifies this
      ensures Valid() && Repr == old(Repr) && buffer == old(buffer)
      ensures disposed && Contents == old(Contents)
      ensures old(disposed) ==> unchanged(this)
    {
      if disposed {
        return;
      }
      disposed := true;
    }
  }
}
