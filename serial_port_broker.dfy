/**
 * `SerialPortBroker`: keeps one serial port open and moves bytes between it
 * and the data bridge. Each pass of its loop (a tick) drains the queue
 * toward the port, then either waits out a failed connection, connects, or
 * reads from and writes to the open port, dropping the port on any fault.
 *
 * The serial port is an oracle: the port names the system reports, whether
 * opening a name succeeds, and what each read and write on the port does
 * are inputs of the tick.
 */
module SerialPortBrokers {
  import opened Wrappers
  import opened MemoryQueues
  import opened DataBridges

  /** The length of the broker's read and write `MemoryBlock<byte>` buffers. */
  const BlockSize: nat := 4096

  /** What `char.IsWhiteSpace` accepts: the Unicode space separators, the line and paragraph separators and the control whitespace. */
  const WhiteSpace: set<char> := {
    '\U{0009}', '\U{000A}', '\U{000B}', '\U{000C}', '\U{000D}', ' ', '\U{0085}', '\U{00A0}', '\U{1680}',
    '\U{2000}', '\U{2001}', '\U{2002}', '\U{2003}', '\U{2004}', '\U{2005}', '\U{2006}', '\U{2007}',
    '\U{2008}', '\U{2009}', '\U{200A}', '\U{2028}', '\U{2029}', '\U{202F}', '\U{205F}', '\U{3000}'
  }

  /** `char.IsWhiteSpace` */
  predicate IsWhiteSpace(c: char)
  {
    c in WhiteSpace
  }

  /** `string.IsNullOrWhiteSpace`, a missing setting being the empty string. */
  predicate IsBlank(s: string)
  {
    forall i :: 0 <= i < |s| ==> IsWhiteSpace(s[i])
  }

  /** How many whitespace characters `s` starts with. */
  function LeadingSpace(s: string): (n: nat)
    ensures n <= |s|
    ensures forall i :: 0 <= i < n ==> IsWhiteSpace(s[i])
    ensures n < |s| ==> !IsWhiteSpace(s[n])
  {
    if |s| > 0 && IsWhiteSpace(s[0]) then
      var n := LeadingSpace(s[1..]);
      assert forall i :: 1 <= i < n + 1 ==> s[i] == s[1..][i - 1];
      n + 1
    else 0
  }

  /** How many whitespace characters `s` ends with. */
  function TrailingSpace(s: string): (n: nat)
    ensures n <= |s|
    ensures forall i :: |s| - n <= i < |s| ==> IsWhiteSpace(s[i])
    ensures n < |s| ==> !IsWhiteSpace(s[|s| - n - 1])
  {
    if |s| > 0 && IsWhiteSpace(s[|s| - 1]) then
      var n := TrailingSpace(s[..|s| - 1]);
      assert forall i :: |s| - 1 - n <= i < |s| - 1 ==> s[i] == s[..|s| - 1][i];
      n + 1
    else 0
  }

  /** `TrimStart` */
  function TrimStart(s: string): string
  {
    s[LeadingSpace(s)..]
  }

  /** `TrimEnd` */
  function TrimEnd(s: string): string
  {
    s[..|s| - TrailingSpace(s)]
  }

  /** `Trim` */
  function Trim(s: string): string
  {
    TrimEnd(TrimStart(s))
  }

  /** The trimmed setting is the piece of the setting after its leading whitespace. */
  lemma TrimIsSlice(s: string)
    ensures var i := LeadingSpace(s); var r := Trim(s);
      i + |r| <= |s| && r == s[i..i + |r|]
  {
    var i := LeadingSpace(s);
    var t := s[i..];
    var r := t[..|t| - TrailingSpace(t)];
    assert r == Trim(s);
    assert forall k :: 0 <= k < |r| ==> r[k] == s[i + k];
    assert r == s[i..i + |r|];
  }

  /** Everything trimming drops from the setting is whitespace. */
  lemma TrimDropsSpace(s: string)
    ensures var i := LeadingSpace(s); var j := i + |Trim(s)|;
      j <= |s| && forall k :: 0 <= k < i || j <= k < |s| ==> IsWhiteSpace(s[k])
  {
    var i := LeadingSpace(s);
    var t := s[i..];
    var n := TrailingSpace(t);
    forall k | i + |t| - n <= k < |s|
      ensures IsWhiteSpace(s[k])
    {
      assert s[k] == t[k - i];
    }
  }

  /** A trimmed setting has no whitespace at either end. */
  lemma TrimEnds(s: string)
    ensures var r := Trim(s);
      |r| > 0 ==> !IsWhiteSpace(r[0]) && !IsWhiteSpace(r[|r| - 1])
  {
    var i := LeadingSpace(s);
    var t := s[i..];
    var n := TrailingSpace(t);
    var r := t[..|t| - n];
    if n < |t| {
      assert r[0] == t[0] == s[i];
      assert r[|r| - 1] == t[|t| - n - 1];
    }
  }

  /** The trimmed setting is empty exactly for a blank setting. */
  lemma TrimBlank(s: string)
    ensures Trim(s) == [] <==> IsBlank(s)
  {
    var i := LeadingSpace(s);
    if i < |s| {
      var t := s[i..];
      assert t[0] == s[i];
      assert TrailingSpace(t) < |t|;
    }
  }

  /** ASCII upper-casing, the part of `ToUpperInvariant` this model keeps. */
  function ToUpper(c: char): char
  {
    if 'a' <= c <= 'z' then (c as int - 'a' as int + 'A' as int) as char else c
  }

  /** `Equals(…, StringComparison.OrdinalIgnoreCase)` */
  predicate EqualsIgnoreCase(a: string, b: string)
  {
    |a| == |b| && forall i :: 0 <= i < |a| ==> ToUpper(a[i]) == ToUpper(b[i])
  }

  /** The first name equal to `wanted` ignoring case, if any, as a list of at most one. */
  function FirstMatching(names: seq<string>, wanted: string): seq<string>
  {
    if |names| == 0 then []
    else if EqualsIgnoreCase(names[0], wanted) then [names[0]]
    else FirstMatching(names[1..], wanted)
  }

  /** The names `TryConnectSerialPort` tries, in order. */
  function Candidates(setting: string, names: seq<string>): seq<string>
  {
    if IsBlank(setting) then names else FirstMatching(names, Trim(setting))
  }

  /**
   * A blank setting makes every reported name a candidate, in order; any
   * other setting makes at most one, the first name that equals the trimmed
   * setting ignoring case.
   */
  lemma {:induction false} FirstMatchingSpec(names: seq<string>, wanted: string)
    ensures var r := FirstMatching(names, wanted);
      && |r| <= 1
      && (r == [] <==> forall i :: 0 <= i < |names| ==> !EqualsIgnoreCase(names[i], wanted))
      && (r != [] ==>
            exists i :: (0 <= i < |names| && names[i] == r[0] && EqualsIgnoreCase(names[i], wanted)
                         && forall j :: 0 <= j < i ==> !EqualsIgnoreCase(names[j], wanted)))
  {
    if |names| > 0 && !EqualsIgnoreCase(names[0], wanted) {
      var tail := names[1..];
      FirstMatchingSpec(tail, wanted);
      var r := FirstMatching(tail, wanted);
      if r != [] {
        var i :| 0 <= i < |tail| && tail[i] == r[0] && EqualsIgnoreCase(tail[i], wanted)
                 && forall j :: 0 <= j < i ==> !EqualsIgnoreCase(tail[j], wanted);
        assert names[i + 1] == tail[i];
        forall j | 0 <= j < i + 1
          ensures !EqualsIgnoreCase(names[j], wanted)
        {
          if j > 0 {
            assert names[j] == tail[j - 1];
          }
        }
      } else {
        forall i | 0 <= i < |names|
          ensures !EqualsIgnoreCase(names[i], wanted)
        {
          if i > 0 {
            assert names[i] == tail[i - 1];
          }
        }
      }
    }
  }

  /** The first name in `cs` that opens, if any. */
  function FirstOpenable(cs: seq<string>, canOpen: string -> bool): Option<string>
  {
    if |cs| == 0 then None
    else if canOpen(cs[0]) then Some(cs[0])
    else FirstOpenable(cs[1..], canOpen)
  }

  /**
   * The port opened is a candidate that opens, and every candidate before it
   * failed; no port is opened exactly when every candidate fails.
   */
  lemma {:induction false} FirstOpenableSpec(cs: seq<string>, canOpen: string -> bool)
    ensures var r := FirstOpenable(cs, canOpen);
      && (r.None? <==> forall i :: 0 <= i < |cs| ==> !canOpen(cs[i]))
      && (r.Some? ==>
            exists i :: (0 <= i < |cs| && cs[i] == r.value && canOpen(cs[i])
                         && forall j :: 0 <= j < i ==> !canOpen(cs[j])))
  {
    if |cs| > 0 && !canOpen(cs[0]) {
      var tail := cs[1..];
      FirstOpenableSpec(tail, canOpen);
      var r := FirstOpenable(tail, canOpen);
      if r.Some? {
        var i :| 0 <= i < |tail| && tail[i] == r.value && canOpen(tail[i])
                 && forall j :: 0 <= j < i ==> !canOpen(tail[j]);
        assert cs[i + 1] == tail[i];
        forall j | 0 <= j < i + 1
          ensures !canOpen(cs[j])
        {
          if j > 0 {
            assert cs[j] == tail[j - 1];
          }
        }
      } else {
        forall i | 0 <= i < |cs|
          ensures !canOpen(cs[i])
        {
          if i > 0 {
            assert cs[i] == tail[i - 1];
          }
        }
      }
    }
  }

  /** What `TryConnectSerialPort` ends up with. */
  function ConnectResult(setting: string, names: seq<string>, canOpen: string -> bool): Option<string>
  {
    FirstOpenable(Candidates(setting, names), canOpen)
  }

  /** With no port reported, or none matching the setting, nothing is opened. */
  lemma NoCandidateNoPort(setting: string, names: seq<string>, canOpen: string -> bool)
    requires names == [] || (!IsBlank(setting) && forall i :: 0 <= i < |names| ==> !EqualsIgnoreCase(names[i], Trim(setting)))
    ensures ConnectResult(setting, names, canOpen) == None
  {
    FirstMatchingSpec(names, Trim(setting));
  }

  /**
   * `GetWantedPortNames`: all names for a blank setting; otherwise a scan
   * that stops at the first name equal to the trimmed setting.
   */
  method GetWantedPortNames(setting: string, names: seq<string>) returns (wanted: seq<string>)
    ensures wanted == Candidates(setting, names)
  {
    if IsBlank(setting) {
      return names;
    }
    wanted := [];
    var wantedPortName := Trim(setting);
    var i := 0;
    while i < |names|
      invariant 0 <= i <= |names|
      invariant wanted == []
      invariant FirstMatching(names, wantedPortName) == FirstMatching(names[i..], wantedPortName)
    {
      assert names[i..][1..] == names[i + 1..];
      if EqualsIgnoreCase(names[i], wantedPortName) {
        wanted := wanted + [names[i]];
        break;
      }
      i := i + 1;
    }
  }

  /**
   * `TryConnectSerialPort`: no port when none is reported or none is
   * wanted; otherwise try the candidates in order and keep the first that
   * opens.
   */
  method TryConnectSerialPort(setting: string, names: seq<string>, canOpen: string -> bool)
    returns (serialPort: Option<string>)
    ensures serialPort == ConnectResult(setting, names, canOpen)
  {
    serialPort := None;
    if |names| <= 0 {
      return None;
    }
    var wantedPortNames := GetWantedPortNames(setting, names);
    if |wantedPortNames| <= 0 {
      return None;
    }
    var i := 0;
    while i < |wantedPortNames|
      invariant 0 <= i <= |wantedPortNames|
      invariant serialPort == None
      invariant FirstOpenable(wantedPortNames, canOpen) == FirstOpenable(wantedPortNames[i..], canOpen)
    {
      assert wantedPortNames[i..][1..] == wantedPortNames[i + 1..];
      if canOpen(wantedPortNames[i]) {
        serialPort := Some(wantedPortNames[i]);
        break;
      }
      i := i + 1;
    }
  }

  /**
   * What the serial port does during one tick: the names it reports and
   * which of them open (used only when connecting), whether reading faults,
   * `BytesToRead` before the read, what the read delivers, whether writing
   * faults, and `BytesToRead` after the write.
   */
  datatype PortIo = PortIo(
    portNames: seq<string>, canOpen: string -> bool,
    readFault: bool, bytesToRead: int, received: seq<byte>,
    writeFault: bool, bytesToReadAfter: int)

  /** A read delivers at most the 4096 bytes of `readBuffer`. */
  predicate WellFormed(io: PortIo)
  {
    |io.received| <= BlockSize
  }

  /** How a tick ended. */
  datatype Step =
    | Waited                                 // the 500 ms pause after a failed connection
    | ConnectFailed                          // no port could be opened; a pause is due
    | Served(written: seq<byte>, pause: bool) // bytes written to the port; the 1 ms idle pause
    | Dropped                                // a read or write fault closed the port

  /**
   * What a tick ending in `step` enqueues toward the network: nothing on a
   * waiting or failed-connection tick or a read fault, otherwise what the
   * read delivered when `BytesToRead` was positive.
   */
  function Inbound(io: PortIo, step: Step): seq<byte>
  {
    if step.Waited? || step.ConnectFailed? || io.readFault || io.bytesToRead <= 0 then [] else io.received
  }

  /** What a run of ticks enqueues toward the network, tick by tick. */
  function InboundAll(ios: seq<PortIo>, steps: seq<Step>): seq<byte>
    requires |ios| == |steps|
    decreases |ios|
  {
    if |ios| == 0 then []
    else InboundAll(ios[..|ios| - 1], steps[..|steps| - 1]) + Inbound(ios[|ios| - 1], steps[|steps| - 1])
  }

  /**
   * A pause is due before tick `k` of `steps`: tick `k - 1` failed to
   * connect, or, before the first tick, one already was.
   */
  predicate DueBefore(steps: seq<Step>, k: nat, delayed0: bool)
    requires k <= |steps|
  {
    if k == 0 then delayed0 else steps[k - 1] == ConnectFailed
  }

  /** A pause is due after all of `steps`. */
  predicate DelayDue(steps: seq<Step>, delayed0: bool)
  {
    DueBefore(steps, |steps|, delayed0)
  }

  /** A tick only waits, and always waits, right after a failed connection. */
  predicate WaitsFollowFailures(steps: seq<Step>, delayed0: bool)
  {
    forall k :: 0 <= k < |steps| ==> (steps[k] == Waited <==> DueBefore(steps, k, delayed0))
  }

  /** A connection fails only on a tick whose ports include none that opens. */
  predicate FailuresUnconnectable(portName: string, ios: seq<PortIo>, steps: seq<Step>)
  {
    forall k :: 0 <= k < |steps| && k < |ios| && steps[k] == ConnectFailed ==>
      ConnectResult(portName, ios[k].portNames, ios[k].canOpen).None?
  }

  /** A served tick `k` writes block `k` of the bytes queued toward the port. */
  predicate ServedChunks(steps: seq<Step>, queued: seq<byte>)
  {
    forall k :: 0 <= k < |steps| && steps[k].Served? ==> steps[k].written == Chunk(queued, k)
  }

  /** A tick that waits exactly when a pause was due keeps the wait pattern. */
  lemma WaitsStep(steps: seq<Step>, step: Step, delayed0: bool, delayed: bool)
    requires WaitsFollowFailures(steps, delayed0) && (delayed <==> DelayDue(steps, delayed0))
    requires step == Waited <==> delayed
    ensures WaitsFollowFailures(steps + [step], delayed0)
    ensures DelayDue(steps + [step], delayed0) <==> step == ConnectFailed
  {
    var s := steps + [step];
    forall k | 0 <= k < |s|
      ensures s[k] == Waited <==> DueBefore(s, k, delayed0)
    {
      if k < |steps| {
        assert s[k] == steps[k];
        assert DueBefore(s, k, delayed0) == DueBefore(steps, k, delayed0);
      }
    }
  }

  /** A failed connection on the new tick had no port to open. */
  lemma FailuresStep(portName: string, ios: seq<PortIo>, steps: seq<Step>, step: Step)
    requires |steps| < |ios|
    requires FailuresUnconnectable(portName, ios[..|steps|], steps)
    requires step == ConnectFailed ==> ConnectResult(portName, ios[|steps|].portNames, ios[|steps|].canOpen).None?
    ensures FailuresUnconnectable(portName, ios[..|steps| + 1], steps + [step])
  {
  }

  /** A new served tick that writes its own block keeps every served tick on its block. */
  lemma ChunksStep(steps: seq<Step>, step: Step, queued: seq<byte>)
    requires ServedChunks(steps, queued)
    requires step.Served? ==> step.written == Chunk(queued, |steps|)
    ensures ServedChunks(steps + [step], queued)
  {
  }

  /** The inbound bytes of one more tick come after those of the earlier ticks. */
  lemma InboundStep(ios: seq<PortIo>, steps: seq<Step>, step: Step)
    requires |steps| < |ios|
    ensures InboundAll(ios[..|steps| + 1], steps + [step]) == InboundAll(ios[..|steps|], steps) + Inbound(ios[|steps|], step)
  {
    var n := |steps|;
    assert (steps + [step])[..n] == steps;
    assert ios[..n + 1][..n] == ios[..n];
  }

  /** Concatenation regroups freely. */
  lemma ConcatAssociative(a: seq<byte>, b: seq<byte>, c: seq<byte>)
    ensures (a + b) + c == a + (b + c)
  {
  }

  /** The `k`-th block of up to 4096 bytes of `q`: what tick `k` drains from it. */
  function Chunk(q: seq<byte>, k: nat): seq<byte>
  {
    q[Min(|q|, k * BlockSize)..Min(|q|, (k + 1) * BlockSize)]
  }

  /**
   * Draining a block from what is left of `q` after `i` blocks gives block
   * `i` and leaves what is left after `i + 1` blocks.
   */
  lemma DrainStep(q: seq<byte>, i: nat)
    ensures var m := Min(|q|, i * BlockSize);
      var d := Min(BlockSize, |q[m..]|);
      && q[m..][..d] == Chunk(q, i)
      && q[m..][d..] == q[Min(|q|, (i + 1) * BlockSize)..]
  {
    var m := Min(|q|, i * BlockSize);
    var d := Min(BlockSize, |q[m..]|);
    assert m + d == Min(|q|, (i + 1) * BlockSize);
  }

  class SerialPortBroker {
    const Bridge: DataBridge
    /** `Settings.PortName` */
    const PortName: string
    /** `writeBuffer`: what the tick drained from `ToPortBuffer`. */
    const WriteBuffer: array<byte>
    /** `serialPort`, by name; `None` is no open port. */
    var serialPort: Option<string>
    var performDelay: bool

    ghost var Repr: set<object>

    ghost predicate Valid()
      reads this, Repr
      ensures Valid() ==> this in Repr
    {
      && this in Repr && WriteBuffer in Repr && Bridge in Repr
      && Bridge.Repr <= Repr && this !in Bridge.Repr && WriteBuffer !in Bridge.Repr
      && Repr == {this, WriteBuffer} + Bridge.Repr
      && Bridge.Valid() && !Bridge.ToPortBuffer.disposed && !Bridge.ToNetBuffer.disposed
      && WriteBuffer.Length == BlockSize
    }

    /** The state `ExecuteAsync` starts its loop in: no port, no pause due. */
    constructor (bridge: DataBridge, portName: string)
      requires bridge.Valid() && !bridge.ToPortBuffer.disposed && !bridge.ToNetBuffer.disposed
      ensures Valid() && fresh(Repr - bridge.Repr)
      ensures Bridge == bridge && PortName == portName
      ensures serialPort == None && !performDelay
    {
      Bridge := bridge;
      PortName := portName;
      WriteBuffer := new byte[BlockSize];
      serialPort := None;
      performDelay := false;
      new;
      Repr := {this, WriteBuffer} + bridge.Repr;
    }

    /**
     * The first step of every tick, whatever the connection: dequeue up to
     * a block of bytes from `ToPortBuffer` into the write buffer.
     */
    method Drain() returns (pendingWriteCount: nat)
      requires Valid()
      modifies Bridge.ToPortBuffer, WriteBuffer
      ensures Valid() && Repr == old(Repr)
      ensures pendingWriteCount == Min(BlockSize, |old(Bridge.ToPortBuffer.Contents)|)
      ensures WriteBuffer[..pendingWriteCount] == old(Bridge.ToPortBuffer.Contents)[..pendingWriteCount]
      ensures Bridge.ToPortBuffer.Contents == old(Bridge.ToPortBuffer.Contents)[pendingWriteCount..]
      ensures Bridge.ToNetBuffer.Contents == old(Bridge.ToNetBuffer.Contents)
    {
      pendingWriteCount := Bridge.ToPortBuffer.DequeueInto(WriteBuffer);
    }

    /**
     * The `try` block on an open port: enqueue what a read delivers toward
     * the network, write the drained bytes, and report whether the port and
     * the queue are idle; a fault in either phase closes the port.
     */
    method Serve(pendingWriteCount: nat, io: PortIo) returns (step: Step)
      requires Valid() && serialPort.Some? && pendingWriteCount <= BlockSize && WellFormed(io)
      modifies this, Bridge.Repr
      ensures Valid() && fresh(Repr - old(Repr)) && performDelay == old(performDelay)
      ensures Bridge.ToPortBuffer.Contents == old(Bridge.ToPortBuffer.Contents)
      ensures io.readFault ==>
        step == Dropped && serialPort == None && Bridge.ToNetBuffer.Contents == old(Bridge.ToNetBuffer.Contents)
      ensures !io.readFault ==>
        Bridge.ToNetBuffer.Contents ==
          old(Bridge.ToNetBuffer.Contents) + (if io.bytesToRead > 0 then io.received else [])
      ensures !io.readFault && pendingWriteCount > 0 && io.writeFault ==> step == Dropped && serialPort == None
      ensures !io.readFault && !(pendingWriteCount > 0 && io.writeFault) ==>
        && serialPort == old(serialPort)
        && step == Served(if pendingWriteCount > 0 then old(WriteBuffer[..pendingWriteCount]) else [],
                          io.bytesToReadAfter <= 0 && |Bridge.ToPortBuffer.Contents| == 0)
      ensures WriteBuffer[..] == old(WriteBuffer[..])
    {
      if io.readFault {
        serialPort := None;
        return Dropped;
      }
      if io.bytesToRead > 0 {
        if |io.received| > 0 {
          Bridge.EnqueueToNet(io.received);
          Repr := {this, WriteBuffer} + Bridge.Repr;
        }
      }
      var written: seq<byte> := [];
      if pendingWriteCount > 0 {
        if io.writeFault {
          serialPort := None;
          return Dropped;
        }
        written := WriteBuffer[..pendingWriteCount];
      }
      step := Served(written, io.bytesToReadAfter <= 0 && Bridge.ToPortBuffer.Count() <= 0);
    }

    /**
     * One pass of the `ExecuteAsync` loop. The drained bytes reach the port
     * only on a tick that gets to the write; any other tick discards them.
     */
    method Tick(io: PortIo) returns (step: Step)
      requires Valid() && WellFormed(io)
      modifies this, WriteBuffer, Bridge.Repr
      ensures Valid() && fresh(Repr - old(Repr))
      ensures step == Waited <==> old(performDelay)
      ensures performDelay <==> step == ConnectFailed
      ensures step == ConnectFailed ==> serialPort == None && ConnectResult(PortName, io.portNames, io.canOpen).None?
      ensures Bridge.ToNetBuffer.Contents == old(Bridge.ToNetBuffer.Contents) + Inbound(io, step)
      ensures step.Served? ==>
        step.written == old(Bridge.ToPortBuffer.Contents)[..Min(BlockSize, |old(Bridge.ToPortBuffer.Contents)|)]
      ensures var drained := Min(BlockSize, |old(Bridge.ToPortBuffer.Contents)|);
        Bridge.ToPortBuffer.Contents == old(Bridge.ToPortBuffer.Contents)[drained..]
      ensures old(performDelay) ==>
        && step == Waited && !performDelay && serialPort == old(serialPort)
        && Bridge.ToNetBuffer.Contents == old(Bridge.ToNetBuffer.Contents)
      ensures !old(performDelay) && old(serialPort).None? && ConnectResult(PortName, io.portNames, io.canOpen).None? ==>
        && step == ConnectFailed && performDelay && serialPort == None
        && Bridge.ToNetBuffer.Contents == old(Bridge.ToNetBuffer.Contents)
      ensures var port := if old(serialPort).Some? then old(serialPort) else ConnectResult(PortName, io.portNames, io.canOpen);
        var drained := Min(BlockSize, |old(Bridge.ToPortBuffer.Contents)|);
        !old(performDelay) && port.Some? ==>
          && !performDelay
          && (io.readFault || (drained > 0 && io.writeFault) <==> step == Dropped)
          && (step == Dropped ==> serialPort == None)
          && (!io.readFault ==>
                Bridge.ToNetBuffer.Contents ==
                  old(Bridge.ToNetBuffer.Contents) + (if io.bytesToRead > 0 then io.received else []))
          && (step != Dropped ==>
                && serialPort == port
                && step.Served?
                && step.written == old(Bridge.ToPortBuffer.Contents)[..drained])
    {
      ghost var queued := Bridge.ToPortBuffer.Contents;
      var pendingWriteCount := Drain();
      if performDelay {
        performDelay := false;
        return Waited;
      }
      if serialPort.None? {
        serialPort := TryConnectSerialPort(PortName, io.portNames, io.canOpen);
        performDelay := serialPort.None?;
        if performDelay {
          return ConnectFailed;
        }
      }
      assert WriteBuffer[..pendingWriteCount] == queued[..pendingWriteCount];
      step := Serve(pendingWriteCount, io);
    }

    /** Tick `|steps|` of a run, with the run facts carried over to it. */
    method TickAt(ios: seq<PortIo>, steps: seq<Step>, ghost queued: seq<byte>, ghost delayed0: bool,
                  ghost inbound0: seq<byte>)
      returns (step: Step)
      requires Valid() && |steps| < |ios| && WellFormed(ios[|steps|])
      requires WaitsFollowFailures(steps, delayed0) && (performDelay <==> DelayDue(steps, delayed0))
      requires FailuresUnconnectable(PortName, ios[..|steps|], steps)
      requires ServedChunks(steps, queued)
      requires Bridge.ToPortBuffer.Contents == queued[Min(|queued|, |steps| * BlockSize)..]
      requires Bridge.ToNetBuffer.Contents == inbound0 + InboundAll(ios[..|steps|], steps)
      modifies this, WriteBuffer, Bridge.Repr
      ensures Valid() && fresh(Repr - old(Repr))
      ensures WaitsFollowFailures(steps + [step], delayed0) && (performDelay <==> DelayDue(steps + [step], delayed0))
      ensures FailuresUnconnectable(PortName, ios[..|steps| + 1], steps + [step])
      ensures ServedChunks(steps + [step], queued)
      ensures Bridge.ToPortBuffer.Contents == queued[Min(|queued|, (|steps| + 1) * BlockSize)..]
      ensures Bridge.ToNetBuffer.Contents == inbound0 + InboundAll(ios[..|steps| + 1], steps + [step])
    {
      DrainStep(queued, |steps|);
      ghost var delayed := performDelay;
      ghost var acc := InboundAll(ios[..|steps|], steps);
      step := Tick(ios[|steps|]);
      WaitsStep(steps, step, delayed0, delayed);
      FailuresStep(PortName, ios, steps, step);
      ChunksStep(steps, step, queued);
      ghost var x := Inbound(ios[|steps|], step);
      assert Bridge.ToNetBuffer.Contents == (inbound0 + acc) + x;
      ConcatAssociative(inbound0, acc, x);
      InboundStep(ios, steps, step);
    }

    /**
     * The `ExecuteAsync` loop over the ticks before cancellation, one port
     * behaviour per tick; afterwards the port is disposed. Tick `k` drains
     * block `k` of the bytes queued toward the port and, when it is served,
     * writes exactly that block. A tick waits exactly when the tick before it
     * failed to connect, and what reaches the network queue is what the
     * ticks read, in order.
     */
    method Run(ios: seq<PortIo>) returns (steps: seq<Step>)
      requires Valid() && forall i :: 0 <= i < |ios| ==> WellFormed(ios[i])
      modifies Repr
      ensures Valid() && fresh(Repr - old(Repr)) && |steps| == |ios|
      ensures serialPort == None
      ensures WaitsFollowFailures(steps, old(performDelay))
      ensures performDelay <==> DelayDue(steps, old(performDelay))
      ensures FailuresUnconnectable(PortName, ios, steps)
      ensures ServedChunks(steps, old(Bridge.ToPortBuffer.Contents))
      ensures Bridge.ToPortBuffer.Contents ==
        old(Bridge.ToPortBuffer.Contents)[Min(|old(Bridge.ToPortBuffer.Contents)|, |ios| * BlockSize)..]
      ensures Bridge.ToNetBuffer.Contents == old(Bridge.ToNetBuffer.Contents) + InboundAll(ios, steps)
    {
      ghost var queued := Bridge.ToPortBuffer.Contents;
      ghost var delayed0 := performDelay;
      steps := [];
      var i := 0;
      while i < |ios|
        invariant 0 <= i <= |ios| && |steps| == i
        invariant Valid() && fresh(Repr - old(Repr))
        invariant WaitsFollowFailures(steps, delayed0)
        invariant performDelay <==> DelayDue(steps, delayed0)
        invariant FailuresUnconnectable(PortName, ios[..i], steps)
        invariant ServedChunks(steps, queued)
        invariant Bridge.ToPortBuffer.Contents == queued[Min(|queued|, i * BlockSize)..]
        invariant Bridge.ToNetBuffer.Contents == old(Bridge.ToNetBuffer.Contents) + InboundAll(ios[..i], steps)
      {
        var step := TickAt(ios, steps, queued, delayed0, old(Bridge.ToNetBuffer.Contents));
        steps := steps + [step];
        i := i + 1;
      }
      assert ios[..i] == ios;
      serialPort := None;
    }
  }
}
