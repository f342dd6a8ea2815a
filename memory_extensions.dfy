/**
 * The span-to-block `CopyTo` extension methods: write a read-only span into
 * a `MemoryBlock` at a target offset, with the element count clamped to the
 * room the block has there.
 */
module MemoryExtensions {
  import opened Wrappers
  import opened Spans
  import opened MemoryBlocks

  /**
   * What `source.CopyTo(target, targetOffset, count)` returns for a source
   * of `sourceLength` elements and a target block of `targetLength`: 0 when
   * there is nothing to do, `ArgumentOutOfRangeException` from `Slice` for a
   * negative offset, `ArgumentException` when the clamped target window is
   * shorter than the source (the whole source is always copied), and the
   * clamped count otherwise.
   */
  function SpanToBlockResult(sourceLength: nat, targetOffset: int, targetLength: nat, count: int): (r: Result<nat>)
  {
    if count == 0 || targetOffset >= targetLength || sourceLength == 0 then Ok(0)
    else if targetOffset < 0 then Err(ArgumentOutOfRange)
    else
      var elementCount := RequestedCount(count, Min(sourceLength, targetLength - targetOffset));
      if sourceLength > elementCount then Err(DestinationTooShort) else Ok(elementCount)
  }

  /**
   * Once past the early return, the copy succeeds exactly when the whole
   * source fits after `targetOffset` and the count does not cut it short;
   * a successful copy then reports the source length.
   */
  lemma SpanToBlockSucceeds(sourceLength: nat, targetOffset: int, targetLength: nat, count: int)
    requires !(count == 0 || targetOffset >= targetLength || sourceLength == 0)
    ensures var r := SpanToBlockResult(sourceLength, targetOffset, targetLength, count);
      && (r.Ok? <==> 0 <= targetOffset && targetOffset + sourceLength <= targetLength
                     && (count < 0 || count >= sourceLength))
      && (r.Ok? ==> r.value == sourceLength)
      && (r.Err? && 0 <= targetOffset ==> r.error == DestinationTooShort)
  {
    if 0 <= targetOffset {
      var room := targetLength - targetOffset;
      var elementCount := RequestedCount(count, Min(sourceLength, room));
      if count < 0 || count >= Min(sourceLength, room) {
        assert elementCount == Min(sourceLength, room);
      } else {
        assert elementCount == count;
      }
    }
  }

  /**
   * `CopyTo(this ReadOnlySpan source, MemoryBlock target, targetOffset, count)`:
   * on success the whole source lands at `target[targetOffset..]` and
   * nothing else changes.
   */
  method CopyTo<T(0)>(source: seq<T>, target: MemoryBlock?<T>, targetOffset: int, count: int)
    returns (r: Result<nat>)
    requires target != null ==> target.Valid()
    modifies if target != null then {target.data} else {}
    ensures target == null ==> r == Ok(0)
    ensures target != null ==> r == SpanToBlockResult(|source|, targetOffset, target.length, count)
    ensures target != null && r.Ok? && r.value > 0 ==>
      r.value == |source| && 0 <= targetOffset && targetOffset + |source| <= target.length &&
      target.data[..] == Overwrite(old(target.data[..]), targetOffset, source)
    ensures target != null && (r.Err? || r.value == 0) ==> target.data[..] == old(target.data[..])
    ensures target != null ==> target.Valid()
  {
    if count == 0 || target == null || targetOffset >= target.length || |source| <= 0 {
      return Ok(0);
    }
    var maxSourceCount := |source|;
    var maxTargetCount := target.length - targetOffset;
    var maxCount := Min(maxSourceCount, maxTargetCount);
    if targetOffset < 0 {
      return Err(ArgumentOutOfRange);
    }
    var elementCount := RequestedCount(count, maxCount);
    if |source| > elementCount {
      return Err(DestinationTooShort);
    }
    CopyInto(source, target.data, targetOffset);
    r := Ok(elementCount);
  }

  /**
   * `CopyTo(this ReadOnlySpan source, sourceOffset, target, targetOffset,
   * count)`: the overload above on `source[sourceOffset..]`, whose range
   * throws when `sourceOffset` lies outside the source.
   */
  method CopyToFromOffset<T(0)>(source: seq<T>, sourceOffset: int, target: MemoryBlock?<T>,
                                targetOffset: int, count: int)
    returns (r: Result<nat>)
    requires target != null ==> target.Valid()
    modifies if target != null then {target.data} else {}
    ensures !(0 <= sourceOffset <= |source|) ==> r == Err(ArgumentOutOfRange)
    ensures 0 <= sourceOffset <= |source| && target == null ==> r == Ok(0)
    ensures 0 <= sourceOffset <= |source| && target != null ==>
      r == SpanToBlockResult(|source| - sourceOffset, targetOffset, target.length, count)
    ensures target != null && r.Ok? && r.value > 0 ==>
      0 <= sourceOffset <= |source| && 0 <= targetOffset && targetOffset + r.value <= target.length &&
      target.data[..] == Overwrite(old(target.data[..]), targetOffset, source[sourceOffset..])
    ensures target != null && (r.Err? || r.value == 0) ==> target.data[..] == old(target.data[..])
    ensures target != null ==> target.Valid()
  {
    if !(0 <= sourceOffset <= |source|) {
      return Err(ArgumentOutOfRange);
    }
    r := CopyTo(source[sourceOffset..], target, targetOffset, count);
    if target != null && r.Ok? && r.value > 0 {
      SpanToBlockSucceeds(|source| - sourceOffset, targetOffset, target.length, count);
    }
  }
}
