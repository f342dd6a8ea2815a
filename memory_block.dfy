/**
 * `MemoryBlock<T>`: a fixed-length, zero-filled region of native memory
 * viewed as a span of `T`. The native allocation is an array here; the byte
 * pointer, its address and the raw-pointer copy are not modelled.
 */
module MemoryBlocks {
  import opened Wrappers
  import opened Spans

  /** The length the parameterless constructor asks for. */
  const DefaultLength: nat := 1024

  /**
   * What the block-to-block `CopyTo` returns: 0 when there is nothing to do
   * (no elements asked for, the start offset past the source, the target
   * offset past the target), an `ArgumentOutOfRangeException` from `Slice`
   * for a negative offset, and otherwise the clamped count.
   */
  function BlockCopyResult(count: int, startOffset: int, sourceLength: nat,
                           targetOffset: int, targetLength: nat): (r: Result<nat>)
  {
    if count == 0 || startOffset >= sourceLength || targetOffset >= targetLength then Ok(0)
    else if startOffset < 0 || targetOffset < 0 then Err(ArgumentOutOfRange)
    else Ok(RequestedCount(count, Min(sourceLength - startOffset, targetLength - targetOffset)))
  }

  /**
   * What the block-to-span `CopyTo` returns, for a target span of
   * `spanLength` elements: the same clamping against the span's length.
   */
  function SpanCopyResult(count: int, startOffset: int, sourceLength: nat, spanLength: nat): (r: Result<nat>)
  {
    if count == 0 || startOffset >= sourceLength || spanLength == 0 then Ok(0)
    else if startOffset < 0 then Err(ArgumentOutOfRange)
    else Ok(RequestedCount(count, Min(sourceLength - startOffset, spanLength)))
  }

  /**
   * The copied count is never more than either window holds, is 0 exactly in
   * the cases the early return names, and is the requested count whenever
   * that fits both windows.
   */
  lemma BlockCopyResultBounds(count: int, startOffset: int, sourceLength: nat,
                              targetOffset: int, targetLength: nat)
    ensures var r := BlockCopyResult(count, startOffset, sourceLength, targetOffset, targetLength);
      var nothing := count == 0 || startOffset >= sourceLength || targetOffset >= targetLength;
      && (r.Err? <==> !nothing && (startOffset < 0 || targetOffset < 0))
      && (r.Ok? ==> (r.value == 0 <==> nothing))
      && (r.Ok? && r.value > 0 ==>
            && 0 <= startOffset && startOffset + r.value <= sourceLength
            && 0 <= targetOffset && targetOffset + r.value <= targetLength
            && (count > 0 ==> r.value <= count))
      && (&& 0 <= startOffset && 0 <= targetOffset && 0 < count
          && startOffset + count <= sourceLength && targetOffset + count <= targetLength
          ==> r == Ok(count))
      && (!nothing && 0 <= startOffset && 0 <= targetOffset && count < 0 ==>
            r == Ok(Min(sourceLength - startOffset, targetLength - targetOffset)))
  {
    if !(count == 0 || startOffset >= sourceLength || targetOffset >= targetLength)
       && startOffset >= 0 && targetOffset >= 0 {
      var room := Min(sourceLength - startOffset, targetLength - targetOffset);
      assert 0 < room;
      assert BlockCopyResult(count, startOffset, sourceLength, targetOffset, targetLength).value
        == RequestedCount(count, room);
    }
  }

  /**
   * `CopyTo(startOffset, Span target, targetOffset, count)` passes the span
   * `target[targetOffset..]` to the span overload; on a block that span is
   * `target.Slice(targetOffset)`, so copying to it is the block-to-block
   * copy at `targetOffset`.
   */
  lemma SpanCopyIsBlockCopy(count: int, startOffset: int, sourceLength: nat,
                            targetOffset: nat, targetLength: nat)
    requires targetOffset <= targetLength
    ensures SpanCopyResult(count, startOffset, sourceLength, targetLength - targetOffset)
         == BlockCopyResult(count, startOffset, sourceLength, targetOffset, targetLength)
  {
  }

  class MemoryBlock<T(0)> {
    /** The all-zero value of `T`, written by `AllocZeroed` and `Clear`. */
    const Zero: T
    /** The native allocation. */
    var data: array<T>
    /** `Length`, which `Dispose` sets to 0. */
    var length: nat
    /** `IsDisposed` */
    var disposed: bool

    ghost var Repr: set<object>

    ghost predicate Valid()
      reads this, Repr
      ensures Valid() ==> this in Repr
    {
      && Repr == {this, data}
      && (if disposed then length == 0 else length == data.Length)
    }

    /** `Length` */
    function Length(): nat
      reads this
    {
      length
    }

    /** `IsDisposed` */
    function IsDisposed(): bool
      reads this
    {
      disposed
    }

    /** `Span`: the `Length` elements the block currently holds. */
    function Elements(): seq<T>
      requires Valid()
      reads Repr
    {
      data[..length]
    }

    /**
     * `new MemoryBlock<T>(length)` for a positive length: every element
     * starts at zero. The rejection of other lengths is modelled by `New`.
     */
    constructor (len: int, zero: T)
      requires len > 0
      ensures Valid() && fresh(Repr) && !disposed
      ensures Zero == zero && Length() == len
      ensures Elements() == seq(len, _ => zero)
    {
      Zero := zero;
      data := new T[len](_ => zero);
      length := len;
      disposed := false;
      Repr := {this, data};
    }

    /**
     * `CopyTo(startOffset, MemoryBlock target, targetOffset, count)`: copy
     * the clamped count of elements from `startOffset` on to
     * `target[targetOffset..]` and return that count. The source window is read
     * before anything is written, as `Span<T>.CopyTo` does for overlapping
     * spans, so the target may be this block itself.
     */
    method CopyToBlock(startOffset: int, target: MemoryBlock?<T>, targetOffset: int, count: int)
      returns (r: Result<nat>)
      requires Valid() && (target != null ==> target.Valid())
      modifies if target != null then {target.data} else {}
      ensures target == null ==> r == Ok(0)
      ensures target != null ==>
        r == BlockCopyResult(count, startOffset, length, targetOffset, target.length)
      ensures target != null && r.Ok? && r.value > 0 ==>
        0 <= startOffset && startOffset + r.value <= length && 0 <= targetOffset &&
        targetOffset + r.value <= target.length &&
        target.data[..] == Overwrite(old(target.data[..]), targetOffset, old(data[startOffset..startOffset + r.value]))
      ensures target != null && (r.Err? || r.value == 0) ==> target.data[..] == old(target.data[..])
      ensures target != null ==> target.Valid()
    {
      if count == 0 || target == null || startOffset >= length || targetOffset >= target.length {
        return Ok(0);
      }
      var maxSourceCount := length - startOffset;
      var maxTargetCount := target.length - targetOffset;
      var maxCount := Min(maxSourceCount, maxTargetCount);
      if startOffset < 0 || targetOffset < 0 {
        return Err(ArgumentOutOfRange);
      }
      var elementCount := RequestedCount(count, maxCount);
      CopyInto(data[startOffset..startOffset + elementCount], target.data, targetOffset);
      r := Ok(elementCount);
    }

    /**
     * `CopyTo(startOffset, Span target, count)` on the span
     * `target[spanStart..]`: copy the count clamped to the span's length to
     * the start of the span and return it.
     */
    method CopyToSpan(startOffset: int, target: array<T>, spanStart: nat, count: int)
      returns (r: Result<nat>)
      requires Valid() && spanStart <= target.Length
      modifies target
      ensures r == SpanCopyResult(count, startOffset, length, target.Length - spanStart)
      ensures r.Ok? && r.value > 0 ==>
        0 <= startOffset && startOffset + r.value <= length && spanStart + r.value <= target.Length &&
        target[..] == Overwrite(old(target[..]), spanStart, old(data[startOffset..startOffset + r.value]))
      ensures r.Err? || r.value == 0 ==> target[..] == old(target[..])
    {
      if count == 0 || startOffset >= length || target.Length - spanStart <= 0 {
        return Ok(0);
      }
      var maxSourceCount := length - startOffset;
      var maxTargetCount := target.Length - spanStart;
      var maxCount := Min(maxSourceCount, maxTargetCount);
      if startOffset < 0 {
        return Err(ArgumentOutOfRange);
      }
      var elementCount := RequestedCount(count, maxCount);
      CopyInto(data[startOffset..startOffset + elementCount], target, spanStart);
      r := Ok(elementCount);
    }

    /**
     * `CopyTo(startOffset, Span target, targetOffset, count)`: the span
     * overload on `target[targetOffset..]`, whose range throws when
     * `targetOffset` lies outside the span.
     */
    method CopyToSpanAt(startOffset: int, target: array<T>, targetOffset: int, count: int)
      returns (r: Result<nat>)
      requires Valid()
      modifies target
      ensures !(0 <= targetOffset <= target.Length) ==> r == Err(ArgumentOutOfRange)
      ensures 0 <= targetOffset <= target.Length ==>
        r == BlockCopyResult(count, startOffset, length, targetOffset, target.Length)
      ensures r.Ok? && r.value > 0 ==>
        0 <= startOffset && startOffset + r.value <= length &&
        0 <= targetOffset && targetOffset + r.value <= target.Length &&
        target[..] == Overwrite(old(target[..]), targetOffset, old(data[startOffset..startOffset + r.value]))
      ensures r.Err? || r.value == 0 ==> target[..] == old(target[..])
    {
      if !(0 <= targetOffset <= target.Length) {
        return Err(ArgumentOutOfRange);
      }
      r := CopyToSpan(startOffset, target, targetOffset, count);
      SpanCopyIsBlockCopy(count, startOffset, length, targetOffset, target.Length);
    }

    /** `Clear`: every element becomes zero; a disposed block has none. */
    method Clear()
      requires Valid()
      modifies data
      ensures Valid()
      ensures Elements() == seq(length, _ => Zero)
      ensures disposed ==> data[..] == old(data[..])
    {
      forall i | 0 <= i < length {
        data[i] := Zero;
      }
    }

    /**
     * `Pin(elementIndex)`: a handle to the element at `elementIndex`, which
     * must lie inside the block.
     */
    function Pin(elementIndex: int): (r: Result<nat>)
      reads this
      ensures r.Ok? <==> 0 <= elementIndex < length
      ensures r.Ok? ==> r.value == elementIndex
      ensures r.Err? ==> r.error == ArgumentOutOfRange
    {
      if elementIndex < 0 || elementIndex >= length then Err(ArgumentOutOfRange)
      else Ok(elementIndex)
    }

    /**
     * `Dispose`: release the memory once; the block then reports itself
     * disposed with length 0, and a second call changes nothing.
     */
    method Dispose()
      requires Valid()
      modifies this
      ensures Valid() && Repr == old(Repr) && data == old(data)
      ensures disposed && length == 0
      ensures old(disposed) ==> unchanged(this)
    {
      if disposed {
        return;
      }
      disposed := true;
      length := 0;
    }
  }

  /**
   * The length check of `new MemoryBlock<T>(length)`: a length that is not
   * positive throws `ArgumentOutOfRangeException`.
   */
  method New<T(0)>(len: int, zero: T) returns (r: Result<MemoryBlock<T>>)
    ensures r.Err? <==> len <= 0
    ensures r.Err? ==> r.error == ArgumentOutOfRange
    ensures r.Ok? ==>
      && fresh(r.value.Repr) && r.value.Valid() && !r.value.disposed
      && r.value.Length() == len && r.value.Elements() == seq(len, _ => zero)
  {
    if len <= 0 {
      return Err(ArgumentOutOfRange);
    }
    var block := new MemoryBlock(len, zero);
    r := Ok(block);
  }

  /** `new MemoryBlock<T>()`: a block of `DefaultLength` zero elements. */
  method NewDefault<T(0)>(zero: T) returns (block: MemoryBlock<T>)
    ensures fresh(block.Repr) && block.Valid() && !block.disposed
    ensures block.Length() == DefaultLength && block.Elements() == seq(DefaultLength, _ => zero)
  {
    block := new MemoryBlock(DefaultLength, zero);
  }
}
