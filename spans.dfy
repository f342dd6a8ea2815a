/** `Span<T>.CopyTo` of .NET, writing a sequence into an array window. */
module Spans {

  /** `s` with the window starting at `offset` replaced by `source`. */
  function Overwrite<T>(s: seq<T>, offset: nat, source: seq<T>): (r: seq<T>)
    requires offset + |source| <= |s|
    ensures |r| == |s|
  {
    s[..offset] + source + s[offset + |source|..]
  }

  /** Every slot of an overwritten sequence: from `source` inside the window, from `s` outside. */
  lemma OverwriteAt<T>(s: seq<T>, offset: nat, source: seq<T>)
    requires offset + |source| <= |s|
    ensures forall i :: 0 <= i < |s| ==>
      Overwrite(s, offset, source)[i] == if offset <= i < offset + |source| then source[i - offset] else s[i]
  {
  }

  /**
   * `source.CopyTo(target[offset..])`: the elements of `source` land at
   * `target[offset..offset + |source|]` and nothing else changes. .NET throws
   * when the target window is too short; the callers in the model always
   * prove it long enough.
   */
  method CopyInto<T>(source: seq<T>, target: array<T>, offset: nat)
    requires offset + |source| <= target.Length
    modifies target
    ensures target[..] == Overwrite(old(target[..]), offset, source)
  {
    forall i | 0 <= i < |source| {
      target[offset + i] := source[i];
    }
    OverwriteAt(old(target[..]), offset, source);
  }

  /** Two adjacent writes are one write of their concatenation. */
  lemma OverwriteTwice<T>(s: seq<T>, offset: nat, a: seq<T>, b: seq<T>)
    requires offset + |a| + |b| <= |s|
    ensures Overwrite(Overwrite(s, offset, a), offset + |a|, b) == Overwrite(s, offset, a + b)
  {
    var lhs := Overwrite(Overwrite(s, offset, a), offset + |a|, b);
    var rhs := Overwrite(s, offset, a + b);
    OverwriteAt(s, offset, a);
    OverwriteAt(Overwrite(s, offset, a), offset + |a|, b);
    OverwriteAt(s, offset, a + b);
    forall i | 0 <= i < |s|
      ensures lhs[i] == rhs[i]
    {
      if offset + |a| <= i < offset + |a| + |b| {
        assert (a + b)[i - offset] == b[i - offset - |a|];
      }
    }
  }
}
