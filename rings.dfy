/**
 * Arithmetic shared by the two ring buffers (MemoryQueue and BufferQueue):
 * where a logical offset lives in the backing array, and the capacity the
 * buffers grow to.
 */
module Rings {
  import opened Bits
  import opened Spans

  /**
   * Physical index of logical offset `i` in a ring of length `len` whose head
   * is at `read`; it is `(read + i) % len` written without the modulus.
   */
  function Slot(read: nat, i: nat, len: nat): nat
  {
    if read + i < len then read + i else read + i - len
  }

  /** The source's `(x) % Capacity` on cursors equals `Slot` while `x < 2 * len`. */
  lemma ModIsSlot(read: nat, i: nat, len: nat)
    requires 0 < len && read + i < 2 * len
    ensures (read + i) % len == Slot(read, i, len)
  {
    if read + i >= len {
      ModUnique(read + i, len, 1, read + i - len);
    } else {
      ModUnique(read + i, len, 0, read + i);
    }
  }

  /**
   * The capacity both queues grow to when `n` more elements do not fit beside
   * `count`: `(count + n + growth) & ~growth`, where `growth` is the initial
   * capacity minus one.
   */
  function GrowthTarget(count: nat, n: nat, growth: nat): nat
  {
    AndNot(count + n + growth, growth)
  }

  /** The growth target always holds the elements that triggered it. */
  lemma GrowthTargetFits(count: nat, n: nat, growth: nat)
    ensures GrowthTarget(count, n, growth) >= count + n
  {
    AndPlusAndNot(count + n + growth, growth);
    AndAtMostRight(count + n + growth, growth);
  }

  /**
   * When the initial capacity is a power of two, the growth target is the
   * smallest multiple of the initial capacity that holds `count + n`.
   */
  lemma GrowthTargetRoundsUp(count: nat, n: nat, k: nat)
    ensures GrowthTarget(count, n, Pow2(k) - 1) % Pow2(k) == 0
    ensures count + n <= GrowthTarget(count, n, Pow2(k) - 1) < count + n + Pow2(k)
  {
    var p, g := Pow2(k), Pow2(k) - 1;
    var y := count + n + g;
    var t := GrowthTarget(count, n, g);
    AndPlusAndNot(y, g);
    AndLowMask(y, k);
    var q, r := y / p, y % p;
    assert t == y - r;
    DivMod(y, p);
    assert t == p * q;
    ModUnique(t, p, q, 0);
  }

  lemma DivMod(y: nat, p: nat)
    requires p > 0
    ensures y == p * (y / p) + y % p && 0 <= y % p < p
  {
  }

  /**
   * For an initial capacity that is not a power of two the target need not be
   * a multiple of it: with initial capacity 3 (growth 2), needing 4 slots
   * yields 4.
   */
  lemma GrowthTargetUnalignedExample()
    ensures GrowthTarget(4, 0, 2) == 4 && GrowthTarget(4, 0, 2) % 3 != 0
  {
    assert AndNot(0, 0) == 0;
    assert AndNot(1, 0) == 1;
    assert AndNot(3, 1) == 2;
    assert AndNot(6, 2) == 4;
  }

  /**
   * The growth scenario of an 8-slot buffer holding 7 elements that receives 5
   * more: it grows to 16.
   */
  lemma GrowthTargetEightToSixteen()
    ensures GrowthTarget(7, 5, 7) == 16
  {
    GrowthTargetRoundsUp(7, 5, 3);
    assert Pow2(3) == 8;
  }

  /**
   * How many elements `Clear(n)` discards: `n` capped at what is available,
   * and none when `n` is not positive.
   */
  function ClearedCount(elementCount: int, available: nat): (r: nat)
    ensures r <= available
    ensures elementCount <= 0 ==> r == 0
    ensures elementCount >= available ==> r == available
    ensures 0 <= elementCount <= available ==> r == elementCount
  {
    if elementCount > available then available
    else if elementCount <= 0 then 0 else elementCount
  }

  /**
   * The ring layout: `contents[i]` sits in slot `Slot(read, i, |buf|)` of the
   * backing store `buf`.
   */
  ghost predicate Ring<T>(contents: seq<T>, buf: seq<T>, read: nat)
  {
    && 0 < |buf| && read < |buf| && |contents| <= |buf|
    && forall i :: 0 <= i < |contents| ==> contents[i] == buf[Slot(read, i, |buf|)]
  }

  /** Appending in one piece at the write cursor keeps the layout. */
  lemma AppendContiguous<T>(c: seq<T>, buf: seq<T>, read: nat, e: seq<T>)
    requires Ring(c, buf, read) && |c| + |e| <= |buf|
    requires Slot(read, |c|, |buf|) + |e| <= |buf|
    ensures Ring(c + e, Overwrite(buf, Slot(read, |c|, |buf|), e), read)
  {
    var len, w := |buf|, Slot(read, |c|, |buf|);
    var post := Overwrite(buf, w, e);
    OverwriteAt(buf, w, e);
    forall i | 0 <= i < |c| + |e|
      ensures (c + e)[i] == post[Slot(read, i, len)]
    {
      if i >= |c| {
        assert Slot(read, i, len) == w + (i - |c|);
      }
    }
  }

  /**
   * Appending in two pieces, the tail of the array first and then its start,
   * keeps the layout when the write cursor is past the read cursor.
   */
  lemma AppendSplit<T>(c: seq<T>, buf: seq<T>, read: nat, e: seq<T>)
    requires Ring(c, buf, read) && |c| + |e| <= |buf|
    requires read < Slot(read, |c|, |buf|) < |buf| < Slot(read, |c|, |buf|) + |e|
    ensures var w := Slot(read, |c|, |buf|);
      Ring(c + e, Overwrite(Overwrite(buf, w, e[..|buf| - w]), 0, e[|buf| - w..]), read)
  {
    var len, w := |buf|, Slot(read, |c|, |buf|);
    var right := len - w;
    var mid := Overwrite(buf, w, e[..right]);
    var post := Overwrite(mid, 0, e[right..]);
    OverwriteAt(buf, w, e[..right]);
    OverwriteAt(mid, 0, e[right..]);
    forall i | 0 <= i < |c| + |e|
      ensures (c + e)[i] == post[Slot(read, i, len)]
    {
      var j := i - |c|;
      if i < |c| {
        assert read + i < w;
      } else if j < right {
        assert Slot(read, i, len) == w + j;
        assert e[..right][j] == e[j];
      } else {
        assert Slot(read, i, len) == j - right;
        assert e[right..][j - right] == e[j];
      }
    }
  }

  /** The first `t` elements read in one piece from the read cursor. */
  lemma ReadContiguous<T>(c: seq<T>, buf: seq<T>, read: nat, t: nat)
    requires Ring(c, buf, read) && t <= |c| && read + t <= |buf|
    ensures buf[read..read + t] == c[..t]
  {
    forall i | 0 <= i < t
      ensures buf[read..read + t][i] == c[i]
    {
      assert Slot(read, i, |buf|) == read + i;
    }
  }

  /** The first `t` elements read in two pieces, the array's tail then its start. */
  lemma ReadSplit<T>(c: seq<T>, buf: seq<T>, read: nat, t: nat)
    requires Ring(c, buf, read) && t <= |c| && read + t >= |buf|
    ensures buf[read..|buf|] + buf[..t - (|buf| - read)] == c[..t]
  {
    var right := |buf| - read;
    forall i | 0 <= i < t
      ensures (buf[read..|buf|] + buf[..t - right])[i] == c[i]
    {
      if i >= right {
        assert Slot(read, i, |buf|) == i - right;
      }
    }
  }

  /** Dropping the first `t` elements is moving the read cursor `t` slots on. */
  lemma Advance<T>(c: seq<T>, buf: seq<T>, read: nat, t: nat)
    requires Ring(c, buf, read) && t <= |c|
    ensures t < |buf| ==> Ring(c[t..], buf, Slot(read, t, |buf|))
    ensures Slot(read, |c|, |buf|) == Slot(Slot(read, t, |buf|), |c| - t, |buf|)
  {
    if t < |buf| {
      forall i | 0 <= i < |c| - t
        ensures c[t..][i] == buf[Slot(Slot(read, t, |buf|), i, |buf|)]
      {
        assert Slot(Slot(read, t, |buf|), i, |buf|) == Slot(read, t + i, |buf|);
      }
    }
  }

  /** Contents written from slot 0 of a store are laid out from read cursor 0. */
  lemma RingAtStart<T>(c: seq<T>, s: seq<T>)
    requires 0 < |s| && |c| <= |s|
    ensures Ring(c, Overwrite(s, 0, c), 0)
  {
    forall i | 0 <= i < |c|
      ensures c[i] == Overwrite(s, 0, c)[Slot(0, i, |s|)]
    {
      OverwriteAt(s, 0, c);
    }
  }

  /**
   * The whole cursor state of a ring: the contents fit the store, an empty
   * ring has both cursors at slot 0, and a non-empty store holds the
   * contents from the read cursor on with the write cursor just past them.
   */
  ghost predicate RingState<T>(contents: seq<T>, buf: seq<T>, read: nat, write: nat)
  {
    && |contents| <= |buf|
    && (|contents| == 0 ==> read == 0 && write == 0)
    && (0 < |buf| ==>
          && read < |buf| && write < |buf|
          && write == Slot(read, |contents|, |buf|)
          && Ring(contents, buf, read))
  }

  /** Writing `e` in one piece at the write cursor, then moving it on, keeps the state. */
  lemma StateAppendContiguous<T>(c: seq<T>, buf: seq<T>, read: nat, write: nat, e: seq<T>)
    requires RingState(c, buf, read, write) && 0 < |e| && |c| + |e| <= |buf| && write + |e| <= |buf|
    ensures RingState(c + e, Overwrite(buf, write, e), read, (write + |e|) % |buf|)
  {
    AppendContiguous(c, buf, read, e);
    ModIsSlot(write, |e|, |buf|);
  }

  /** Writing `e` in two pieces, the store's tail then its start, keeps the state. */
  lemma StateAppendSplit<T>(c: seq<T>, buf: seq<T>, read: nat, write: nat, e: seq<T>)
    requires RingState(c, buf, read, write) && |c| + |e| <= |buf|
    requires read < write && |buf| < write + |e|
    ensures RingState(c + e, Overwrite(Overwrite(buf, write, e[..|buf| - write]), 0, e[|buf| - write..]),
                      read, (write + |e|) % |buf|)
  {
    AppendSplit(c, buf, read, e);
    ModIsSlot(write, |e|, |buf|);
  }

  /**
   * Dropping the first `n` elements moves the read cursor `n` slots on, or
   * puts both cursors back at slot 0 when nothing is left.
   */
  lemma StateAdvance<T>(c: seq<T>, buf: seq<T>, read: nat, write: nat, n: nat)
    requires RingState(c, buf, read, write) && 0 < n <= |c|
    ensures RingState(c[n..], buf,
                      if |c| == n then 0 else (read + n) % |buf|,
                      if |c| == n then 0 else write)
  {
    Advance(c, buf, read, n);
    ModIsSlot(read, n, |buf|);
  }

  /** Contents written from slot 0 of a store with room to spare form a ring from cursor 0. */
  lemma StateAtStart<T>(c: seq<T>, s: seq<T>)
    requires |c| < |s|
    ensures RingState(c, Overwrite(s, 0, c), 0, |c|)
  {
    RingAtStart(c, s);
  }
}
