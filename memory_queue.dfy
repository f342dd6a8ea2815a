/**
 * `MemoryQueue<T>`: the growable circular queue that hands bytes between the
 * network side and the serial side. The backing store is a plain array; the
 * logical contents are the `count` slots starting at `readIndex`, wrapping at
 * the end of the array.
 */
module MemoryQueues {
  import opened Wrappers
  import opened Rings
  import Bits
  import opened Spans

  const DefaultInitialCapacity: nat := 1024

  class MemoryQueue<T(0)> {
    const InitialCapacity: nat
    const CapacityGrowth: nat
    var buffer: array<T>
    var readIndex: nat
    var writeIndex: nat
    var count: nat
    /** `Buffer.IsDisposed` */
    var disposed: bool

    ghost var Contents: seq<T>
    ghost var Repr: set<object>

    ghost predicate Valid()
      reads this, Repr
      ensures Valid() ==> this in Repr
    {
      && Repr == {this, buffer}
      && InitialCapacity > 0 && CapacityGrowth == InitialCapacity - 1
      && 0 < buffer.Length
      && |Contents| == count
      && RingState(Contents, buffer[..], readIndex, writeIndex)
    }

    /** `Capacity`: the length of the backing block, which reads 0 once disposed. */
    function Capacity(): nat
      reads this, buffer
    {
      if disposed then 0 else buffer.Length
    }

    /** `Count` */
    function Count(): nat
      reads this
    {
      count
    }

    /**
     * `new MemoryQueue<T>(initialCapacity)` for a positive capacity; the
     * rejection of other capacities is modelled by `New`.
     */
    constructor (initialCapacity: int)
      requires initialCapacity > 0
      ensures Valid() && fresh(Repr)
      ensures Contents == [] && !disposed
      ensures InitialCapacity == initialCapacity && buffer.Length == initialCapacity
      ensures readIndex == 0 && writeIndex == 0
    {
      InitialCapacity := initialCapacity;
      CapacityGrowth := initialCapacity - 1;
      var b := new T[initialCapacity];
      buffer := b;
      readIndex, writeIndex, count := 0, 0, 0;
      disposed := false;
      Contents := [];
      Repr := {this, b};
    }

    /** `Clear()`: forget every element. */
    method Clear()
      requires Valid()
      modifies this
      ensures Valid() && Repr == old(Repr) && buffer == old(buffer) && disposed == old(disposed)
      ensures Contents == [] && readIndex == 0 && writeIndex == 0
    {
      readIndex := 0;
      writeIndex := 0;
      count := 0;
      Contents := [];
    }

    /**
     * `Clear(elementCount)`: discard the first `elementCount` elements (all of
     * them if there are fewer); a non-positive count changes nothing.
     */
    method ClearFirst(elementCount: int)
      requires Valid() && !disposed
      modifies this
      ensures Valid() && Repr == old(Repr) && buffer == old(buffer) && !disposed
      ensures Contents == old(Contents)[ClearedCount(elementCount, old(count))..]
      ensures ClearedCount(elementCount, old(count)) == 0 ==>
        readIndex == old(readIndex) && writeIndex == old(writeIndex)
      ensures ClearedCount(elementCount, old(count)) > 0 ==>
        readIndex == (if count == 0 then 0 else (old(readIndex) + ClearedCount(elementCount, old(count))) % buffer.Length)
    {
      var n := elementCount;
      if n > count {
        n := count;
      }
      if n <= 0 {
        return;
      }
      DiscardHead(n);
    }

    /**
     * The cursor step shared by `Clear(elementCount)` and the dequeuing path
     * of `PeekOrDequeue`: move the read cursor `n` slots on, and put both
     * cursors back at slot 0 once the queue is empty.
     */
    method DiscardHead(n: nat)
      requires Valid() && 0 < n <= count
      modifies this
      ensures Valid() && Repr == old(Repr) && buffer == old(buffer) && disposed == old(disposed)
      ensures Contents == old(Contents)[n..]
      ensures readIndex == (if count == 0 then 0 else (old(readIndex) + n) % buffer.Length)
    {
      StateAdvance(Contents, buffer[..], readIndex, writeIndex, n);
      readIndex := (readIndex + n) % buffer.Length;
      count := count - n;
      Contents := Contents[n..];
      if count == 0 {
        readIndex := 0;
        writeIndex := 0;
      }
    }

    /**
     * `Enqueue(elements)`: append `elements` in order, growing the buffer to
     * `(Count + n + g) & ~g` (with `g` the initial capacity minus one) when
     * they do not fit.
     */
    method Enqueue(elements: seq<T>)
      requires Valid() && !disposed
      modifies Repr
      ensures Valid() && fresh(Repr - old(Repr)) && !disposed
      ensures Contents == old(Contents) + elements
      ensures elements == [] ==> unchanged(this)
      ensures old(count) + |elements| <= old(buffer.Length) ==> buffer == old(buffer)
      ensures old(count) + |elements| > old(buffer.Length) ==>
        fresh(buffer) && buffer.Length == GrowthTarget(old(count), |elements|, CapacityGrowth)
      ensures buffer.Length >= old(buffer.Length) && buffer.Length >= count
    {
      var elementCount := |elements|;
      if elementCount <= 0 {
        return;
      }
      if count + elementCount > buffer.Length {
        var newCapacity := Bits.AndNot(count + elementCount + CapacityGrowth, CapacityGrowth);
        GrowthTargetFits(count, elementCount, CapacityGrowth);
        Reallocate(newCapacity);
      }
      CopyToTail(elements);
      writeIndex := (writeIndex + elementCount) % buffer.Length;
      count := count + elementCount;
      Contents := Contents + elements;
    }

    /**
     * The writing half of `Enqueue`, once the elements fit: copy them at the
     * write cursor, in one piece or wrapping to slot 0.
     */
    method CopyToTail(elements: seq<T>)
      requires Valid() && 0 < |elements| && count + |elements| <= buffer.Length
      modifies buffer
      ensures RingState(Contents + elements, buffer[..], readIndex, (writeIndex + |elements|) % buffer.Length)
    {
      var rightSlotCount := buffer.Length - writeIndex;
      if readIndex >= writeIndex || rightSlotCount >= |elements| {
        CopyAtTail(elements);
      } else {
        CopyAroundEnd(elements);
      }
    }

    /** All of `elements` in one piece at the write cursor. */
    method CopyAtTail(elements: seq<T>)
      requires Valid() && 0 < |elements| && count + |elements| <= buffer.Length
      requires writeIndex + |elements| <= buffer.Length
      modifies buffer
      ensures RingState(Contents + elements, buffer[..], readIndex, (writeIndex + |elements|) % buffer.Length)
    {
      StateAppendContiguous(Contents, buffer[..], readIndex, writeIndex, elements);
      CopyInto(elements, buffer, writeIndex);
    }

    /** The right slots after the write cursor first, the rest from slot 0. */
    method CopyAroundEnd(elements: seq<T>)
      requires Valid() && count + |elements| <= buffer.Length
      requires readIndex < writeIndex && buffer.Length < writeIndex + |elements|
      modifies buffer
      ensures RingState(Contents + elements, buffer[..], readIndex, (writeIndex + |elements|) % buffer.Length)
    {
      var rightSlotCount := buffer.Length - writeIndex;
      StateAppendSplit(Contents, buffer[..], readIndex, writeIndex, elements);
      CopyInto(elements[..rightSlotCount], buffer, writeIndex);
      CopyInto(elements[rightSlotCount..], buffer, 0);
    }

    /**
     * `Reallocate(newCapacity)`: move the contents, oldest first, to the start
     * of a new buffer of `newCapacity` slots; nothing happens unless that is
     * larger than the current buffer.
     */
    method Reallocate(newCapacity: nat)
      requires Valid()
      modifies this
      ensures Valid() && fresh(Repr - old(Repr)) && disposed == old(disposed)
      ensures Contents == old(Contents)
      ensures newCapacity <= old(buffer.Length) ==> unchanged(this)
      ensures newCapacity > old(buffer.Length) ==>
        fresh(buffer) && buffer.Length == newCapacity && readIndex == 0 && writeIndex == count
    {
      if newCapacity <= buffer.Length {
        return;
      }
      var newBuffer := new T[newCapacity];
      ghost var fresh0 := newBuffer[..];
      if count > 0 {
        CopyContents(newBuffer);
      }
      assert newBuffer[..] == Overwrite(fresh0, 0, Contents);
      StateAtStart(Contents, fresh0);
      readIndex := 0;
      writeIndex := count;
      buffer := newBuffer;
      Repr := {this, newBuffer};
    }

    /**
     * The copying half of `Reallocate`: all elements, oldest first, go to the
     * start of `target`, read in one piece when the read cursor is before the
     * write cursor and in two pieces otherwise.
     */
    method CopyContents(target: array<T>)
      requires Valid() && target !in Repr && 0 < count <= target.Length
      modifies target
      ensures target[..] == Overwrite(old(target[..]), 0, Contents)
    {
      ghost var t0 := target[..];
      assert Contents[..count] == Contents;
      var len := buffer.Length;
      if readIndex < writeIndex {
        ReadContiguous(Contents, buffer[..], readIndex, count);
        CopyInto(buffer[readIndex..readIndex + count], target, 0);
      } else {
        var rightSlotCount := len - readIndex;
        ReadSplit(Contents, buffer[..], readIndex, count);
        OverwriteTwice(t0, 0, buffer[readIndex..len], buffer[..writeIndex]);
        CopyInto(buffer[readIndex..len], target, 0);
        CopyInto(buffer[..writeIndex], target, rightSlotCount);
      }
    }

    /**
     * `PeekOrDequeue(destination, doDequeue)`: copy the first
     * `min(destination.Length, Count)` elements, oldest first, to the start of
     * `destination`, and remove them when `doDequeue` holds.
     */
    method PeekOrDequeueInto(destination: array<T>, doDequeue: bool) returns (copied: nat)
      requires Valid() && !disposed && destination !in Repr
      modifies destination, if doDequeue then {this} else {}
      ensures Valid() && Repr == old(Repr) && buffer == old(buffer) && !disposed
      ensures copied == Min(destination.Length, old(count))
      ensures destination[..copied] == old(Contents)[..copied]
      ensures destination[copied..] == old(destination[copied..])
      ensures doDequeue ==> Contents == old(Contents)[copied..]
      ensures doDequeue && copied > 0 ==>
        readIndex == (if count == 0 then 0 else (old(readIndex) + copied) % buffer.Length)
      ensures !doDequeue || copied == 0 ==>
        Contents == old(Contents) && readIndex == old(readIndex) && writeIndex == old(writeIndex) && count == old(count)
    {
      var targetCount := destination.Length;
      if targetCount > count {
        targetCount := count;
      }
      if targetCount <= 0 {
        return 0;
      }
      CopyHead(destination, targetCount);
      if doDequeue {
        DiscardHead(targetCount);
      }
      copied := targetCount;
    }

    /**
     * The copying half of `PeekOrDequeue`: the first `targetCount` elements
     * go to the start of `destination`, read in one piece or wrapping to slot 0.
     */
    method CopyHead(destination: array<T>, targetCount: nat)
      requires Valid() && destination !in Repr
      requires 0 < targetCount <= count && targetCount <= destination.Length
      modifies destination
      ensures destination[..] == Overwrite(old(destination[..]), 0, Contents[..targetCount])
    {
      var rightSlotCount := buffer.Length - readIndex;
      if readIndex < writeIndex || rightSlotCount >= targetCount {
        CopyHeadInOnePiece(destination, targetCount);
      } else {
        CopyHeadInTwoPieces(destination, targetCount);
      }
    }

    /** The first `targetCount` slots from the read cursor on, in one piece. */
    method CopyHeadInOnePiece(destination: array<T>, targetCount: nat)
      requires Valid() && destination !in Repr
      requires 0 < targetCount <= count && targetCount <= destination.Length
      requires readIndex + targetCount <= buffer.Length
      modifies destination
      ensures destination[..] == Overwrite(old(destination[..]), 0, Contents[..targetCount])
    {
      assert Ring(Contents, buffer[..], readIndex);
      ReadContiguous(Contents, buffer[..], readIndex, targetCount);
      CopyInto(buffer[readIndex..readIndex + targetCount], destination, 0);
    }

    /** The slots after the read cursor first, then the rest from slot 0. */
    method CopyHeadInTwoPieces(destination: array<T>, targetCount: nat)
      requires Valid() && destination !in Repr
      requires 0 < targetCount <= count && targetCount <= destination.Length
      requires buffer.Length < readIndex + targetCount
      modifies destination
      ensures destination[..] == Overwrite(old(destination[..]), 0, Contents[..targetCount])
    {
      ghost var d0 := destination[..];
      var len := buffer.Length;
      var rightSlotCount := len - readIndex;
      var leftSlotCount := targetCount - rightSlotCount;
      assert Ring(Contents, buffer[..], readIndex);
      ReadSplit(Contents, buffer[..], readIndex, targetCount);
      OverwriteTwice(d0, 0, buffer[readIndex..len], buffer[..leftSlotCount]);
      CopyInto(buffer[readIndex..len], destination, 0);
      CopyInto(buffer[..leftSlotCount], destination, rightSlotCount);
    }

    /** `Dequeue(Span<T> destination)` */
    method DequeueInto(destination: array<T>) returns (copied: nat)
      requires Valid() && !disposed && destination !in Repr
      modifies this, destination
      ensures Valid() && Repr == old(Repr) && !disposed
      ensures copied == Min(destination.Length, old(count))
      ensures destination[..copied] == old(Contents)[..copied]
      ensures destination[copied..] == old(destination[copied..])
      ensures Contents == old(Contents)[copied..]
    {
      copied := PeekOrDequeueInto(destination, true);
    }

    /** `Peek(Span<T> destination)` */
    method PeekInto(destination: array<T>) returns (copied: nat)
      requires Valid() && !disposed && destination !in Repr
      modifies destination
      ensures copied == Min(destination.Length, count)
      ensures destination[..copied] == Contents[..copied]
      ensures destination[copied..] == old(destination[copied..])
    {
      copied := PeekOrDequeueInto(destination, false);
    }

    /** `PeekOrDequeue(elementCount, doDequeue)`: the array-returning form. */
    method PeekOrDequeue(elementCount: int, doDequeue: bool) returns (elements: seq<T>)
      requires Valid() && !disposed
      modifies if doDequeue then {this} else {}
      ensures Valid() && Repr == old(Repr) && !disposed
      ensures elements == old(Contents)[..RequestedCount(elementCount, old(count))]
      ensures doDequeue ==> Contents == old(Contents)[|elements|..]
      ensures !doDequeue ==> Contents == old(Contents)
    {
      var n := elementCount;
      if n < 0 {
        n := count;
      }
      n := Min(n, count);
      var output := new T[n];
      var k := PeekOrDequeueInto(output, doDequeue);
      elements := output[..k];
    }

    /** `Dequeue(elementCount)`: remove and return up to `elementCount` head elements; negative means all. */
    method Dequeue(elementCount: int) returns (elements: seq<T>)
      requires Valid() && !disposed
      modifies this
      ensures Valid() && Repr == old(Repr) && !disposed
      ensures elements == old(Contents)[..RequestedCount(elementCount, old(count))]
      ensures Contents == old(Contents)[|elements|..]
    {
      elements := PeekOrDequeue(elementCount, true);
    }

    /** `DequeueAll()`: drain the queue. */
    method DequeueAll() returns (elements: seq<T>)
      requires Valid() && !disposed
      modifies this
      ensures Valid() && Repr == old(Repr) && !disposed
      ensures elements == old(Contents) && Contents == [] && readIndex == 0 && writeIndex == 0
    {
      elements := PeekOrDequeue(-1, true);
    }

    /** `Peek(elementCount)`: the first `elementCount` elements (all when negative), left in place. */
    method Peek(elementCount: int) returns (elements: seq<T>)
      requires Valid() && !disposed
      ensures elements == Contents[..RequestedCount(elementCount, count)]
    {
      elements := PeekOrDequeue(elementCount, false);
    }

    /** `TryPeek(offsetIndex, out element)`: the element `offsetIndex` places after the head. */
    method TryPeekAt(offsetIndex: int) returns (found: bool, element: T)
      requires Valid() && !disposed
      ensures found <==> (if offsetIndex < 0 then 0 else offsetIndex) < count
      ensures found ==> element == Contents[if offsetIndex < 0 then 0 else offsetIndex]
    {
      var offset := offsetIndex;
      if offset < 0 {
        offset := 0;
      }
      var elements := PeekOrDequeue(offset + 1, false);
      found := offset < |elements|;
      element := *;
      if found {
        element := elements[offset];
      }
    }

    /** `TryPeek(out element)`: the head element. */
    method TryPeek() returns (found: bool, element: T)
      requires Valid() && !disposed
      ensures found <==> count > 0
      ensures found ==> element == Contents[0]
    {
      found, element := TryPeekAt(0);
    }

    /** `Dispose()`: release the block once; later calls do nothing. */
    method Dispose()
      requires Valid()
      modifies this
      ensures Valid() && Repr == old(Repr) && buffer == old(buffer)
      ensures disposed && Contents == old(Contents)
      ensures count == old(count) && readIndex == old(readIndex) && writeIndex == old(writeIndex)
    {
      if disposed {
        return;
      }
      disposed := true;
    }
  }

  /**
   * `new MemoryQueue<T>(initialCapacity)` including its failure: the block
   * constructor throws `ArgumentOutOfRangeException` for a capacity that is not
   * positive.
   */
  method New<T(0)>(initialCapacity: int) returns (r: Result<MemoryQueue<T>>)
    ensures r.Err? <==> initialCapacity <= 0
    ensures r.Err? ==> r.error == ArgumentOutOfRange
    ensures r.Ok? ==> fresh(r.value.Repr) && r.value.Valid() && r.value.Contents == [] && !r.value.disposed
    ensures r.Ok? ==> r.value.buffer.Length == initialCapacity && r.value.CapacityGrowth == initialCapacity - 1
  {
    if initialCapacity <= 0 {
      return Err(ArgumentOutOfRange);
    }
    var q := new MemoryQueue<T>(initialCapacity);
    r := Ok(q);
  }
}
