/**
 The Start/Stop handshake of the module scanner. Any number of Start calls run as goroutines;
 each captures the stop channel of the moment under the mutex, may fail while it constructs
 the scanner, and then loops until its channel is closed or its context ends.
 */
module ScannerHandshake {

  /** Channels are numbered in the order they are made. */
  type Channel = nat

  datatype Caller = Preparing(channel: Channel) | Looping(channel: Channel) | Gone

  datatype State = State(started: bool, current: Channel, callers: seq<Caller>)

  const FRESH := State(false, 0, [])

  /**
   Begin: a Start call that passes the configuration checks and takes the mutex.
   Fail: a caller takes one of the failure branches and clears the flag.
   Enter: a caller reaches the ticker loop. LeaveStopped: it sees its channel closed.
   LeaveDone: it sees its context end and clears the flag. Stop: a Stop call.
   */
  datatype Step =
    | Begin
    | Fail(caller: nat)
    | Enter(caller: nat)
    | LeaveStopped(caller: nat)
    | LeaveDone(caller: nat)
    | Stop

  /** A channel is closed once a later one has replaced it. */
  predicate Closed(s: State, c: Channel) {
    c < s.current
  }

  predicate Enabled(s: State, step: Step) {
    match step
    case Begin => true
    case Stop => true
    case Fail(i) => i < |s.callers| && s.callers[i].Preparing?
    case Enter(i) => i < |s.callers| && s.callers[i].Preparing?
    case LeaveStopped(i) => i < |s.callers| && s.callers[i].Looping? && Closed(s, s.callers[i].channel)
    case LeaveDone(i) => i < |s.callers| && s.callers[i].Looping?
  }

  function Next(s: State, step: Step): State {
    if !Enabled(s, step) then s
    else match step
      case Begin =>
        if s.started then s
        else s.(started := true, callers := s.callers + [Preparing(s.current)])
      case Fail(i) => s.(started := false, callers := s.callers[i := Gone])
      case Enter(i) => s.(callers := s.callers[i := Looping(s.callers[i].channel)])
      case LeaveStopped(i) => s.(callers := s.callers[i := Gone])
      case LeaveDone(i) => s.(started := false, callers := s.callers[i := Gone])
      case Stop =>
        if s.started then s.(started := false, current := s.current + 1) else s
  }

  function Run(s: State, steps: seq<Step>): State
    decreases steps
  {
    if steps == [] then s else Run(Next(s, steps[0]), steps[1..])
  }

  /** The fields the mutex protects, and its critical sections. */
  class ModuleScannerJob {
    var started: bool
    var current: Channel
    var callers: seq<Caller>

    ghost function Now(): State
      reads this
    {
      State(started, current, callers)
    }

    constructor ()
      ensures Now() == FRESH
    {
      started, current, callers := false, 0, [];
    }

    method Begin()
      modifies this
      ensures Now() == Next(old(Now()), Step.Begin)
    {
      if started {
        return;
      }
      started := true;
      callers := callers + [Preparing(current)];
    }

    method ClearAfterFailure(i: nat)
      requires i < |callers| && callers[i].Preparing?
      modifies this
      ensures Now() == Next(old(Now()), Fail(i))
    {
      started := false;
      callers := callers[i := Gone];
    }

    method ClearOnDone(i: nat)
      requires i < |callers| && callers[i].Looping?
      modifies this
      ensures Now() == Next(old(Now()), LeaveDone(i))
    {
      started := false;
      callers := callers[i := Gone];
    }

    method Stop()
      modifies this
      ensures Now() == Next(old(Now()), Step.Stop)
    {
      if started {
        current := current + 1;
        started := false;
      }
    }
  }

  /** A caller that no Stop has signalled yet. */
  predicate Unsignalled(s: State, i: nat) {
    i < |s.callers| && !s.callers[i].Gone? && !Closed(s, s.callers[i].channel)
  }

  /** The handshake works: the flag says exactly whether a loop is live, and there is at most one. */
  ghost predicate Sound(s: State) {
    && (forall i :: 0 <= i < |s.callers| && !s.callers[i].Gone? ==> s.callers[i].channel <= s.current)
    && (forall i, j :: Unsignalled(s, i) && Unsignalled(s, j) ==> i == j)
    && (s.started <==> exists i :: Unsignalled(s, i))
  }

  /**
   A caller whose channel was already closed clears the flag while another caller holds it:
   the failure and context branches do not look at which Start they belong to.
   */
  predicate LateClear(s: State, step: Step) {
    && (step.Fail? || step.LeaveDone?)
    && Enabled(s, step)
    && Closed(s, s.callers[step.caller].channel)
    && s.started
  }

  lemma SoundBegin(s: State)
    requires Sound(s)
    ensures Sound(Next(s, Begin))
  {
    if !s.started {
      var t := Next(s, Begin);
      assert Unsignalled(t, |s.callers|);
      assert forall i: nat :: i < |s.callers| ==> (Unsignalled(t, i) <==> Unsignalled(s, i));
    }
  }

  lemma SoundStop(s: State)
    requires Sound(s)
    ensures Sound(Next(s, Stop))
    ensures forall i :: !Unsignalled(Next(s, Stop), i)
  {
    var t := Next(s, Stop);
    assert forall i :: Unsignalled(t, i) ==> Unsignalled(s, i);
  }

  lemma SoundEnter(s: State, i: nat)
    requires Sound(s)
    ensures Sound(Next(s, Enter(i)))
  {
    var t := Next(s, Enter(i));
    assert forall j :: Unsignalled(t, j) <==> Unsignalled(s, j);
  }

  /** Leaving keeps the handshake sound exactly when it does not clear the flag late. */
  lemma SoundLeave(s: State, step: Step)
    requires Sound(s) && (step.Fail? || step.LeaveStopped? || step.LeaveDone?)
    ensures Sound(Next(s, step)) <==> !LateClear(s, step)
  {
    if Enabled(s, step) {
      var t, i := Next(s, step), step.caller;
      assert forall j :: Unsignalled(t, j) <==> Unsignalled(s, j) && j != i;
      if LateClear(s, step) {
        var j :| Unsignalled(s, j);
        assert Unsignalled(t, j);
      } else if step.LeaveStopped? {
        assert forall j :: Unsignalled(t, j) <==> Unsignalled(s, j);
      } else {
        assert !Closed(s, s.callers[i].channel) ==> Unsignalled(s, i);
      }
    }
  }

  lemma SoundStep(s: State, step: Step)
    requires Sound(s)
    ensures Sound(Next(s, step)) <==> !LateClear(s, step)
  {
    match step
    case Begin => SoundBegin(s);
    case Stop => SoundStop(s);
    case Enter(i) => SoundEnter(s, i);
    case Fail(i) => SoundLeave(s, step);
    case LeaveStopped(i) => SoundLeave(s, step);
    case LeaveDone(i) => SoundLeave(s, step);
  }

  ghost predicate AlwaysSound(s: State, steps: seq<Step>) {
    forall n :: 0 <= n <= |steps| ==> Sound(Run(s, steps[..n]))
  }

  ghost predicate NeverLate(s: State, steps: seq<Step>) {
    forall n :: 0 <= n < |steps| ==> !LateClear(Run(s, steps[..n]), steps[n])
  }

  lemma {:induction false} RunSnoc(s: State, steps: seq<Step>, n: nat)
    requires n < |steps|
    ensures Run(s, steps[..n + 1]) == Next(Run(s, steps[..n]), steps[n])
    decreases n
  {
    if n == 0 {
      assert steps[..1][1..] == [];
    } else {
      RunSnoc(Next(s, steps[0]), steps[1..], n - 1);
      assert steps[..n + 1][1..] == steps[1..][..n];
      assert steps[..n][1..] == steps[1..][..n - 1];
    }
  }

  lemma {:induction false} SoundPrefix(s: State, steps: seq<Step>, n: nat)
    requires Sound(s) && NeverLate(s, steps) && n <= |steps|
    ensures Sound(Run(s, steps[..n]))
  {
    if n > 0 {
      SoundPrefix(s, steps, n - 1);
      RunSnoc(s, steps, n - 1);
      SoundStep(Run(s, steps[..n - 1]), steps[n - 1]);
    }
  }

  /**
   Over every run: in all its states at most one loop is unsignalled, the flag is set exactly
   when there is one, if and only if no caller already stopped ever clears the flag of another.
   */
  lemma HandshakeSoundIff(s: State, steps: seq<Step>)
    requires Sound(s)
    ensures AlwaysSound(s, steps) <==> NeverLate(s, steps)
  {
    if NeverLate(s, steps) {
      forall n | 0 <= n <= |steps| ensures Sound(Run(s, steps[..n])) {
        SoundPrefix(s, steps, n);
      }
    } else if AlwaysSound(s, steps) {
      forall n | 0 <= n < |steps| ensures !LateClear(Run(s, steps[..n]), steps[n]) {
        RunSnoc(s, steps, n);
        SoundStep(Run(s, steps[..n]), steps[n]);
      }
    }
  }

  /** In a sound state Stop signals every loop there is. */
  lemma StopSignalsAll(s: State)
    requires Sound(s)
    ensures forall i :: 0 <= i < |s.callers| && !s.callers[i].Gone? ==> Closed(Next(s, Stop), s.callers[i].channel)
  {
    SoundStop(s);
    forall i | 0 <= i < |s.callers| && !s.callers[i].Gone?
      ensures Closed(Next(s, Stop), s.callers[i].channel)
    {
      assert !Unsignalled(Next(s, Stop), i);
    }
  }

  lemma {:induction false} RunAppend(s: State, first: seq<Step>, second: seq<Step>)
    ensures Run(s, first + second) == Run(Run(s, first), second)
    decreases first
  {
    if first == [] {
      assert first + second == second;
    } else {
      assert (first + second)[1..] == first[1..] + second;
      RunAppend(Next(s, first[0]), first[1..], second);
    }
  }

  /**
   Start, Stop, Start, a late failure of the first, Start: from any sound state without a loop,
   two loops then run on one channel.
   */
  lemma LateFailureGivesTwoLoops(s: State) returns (steps: seq<Step>)
    requires Sound(s) && !s.started
    ensures var t, n := Run(s, steps), |s.callers|;
            && |t.callers| == n + 3
            && t.callers[n + 1].Looping? && t.callers[n + 2].Looping? && Unsignalled(t, n + 1) && Unsignalled(t, n + 2)
            && t.callers[n + 1].channel == t.callers[n + 2].channel
  {
    var n := |s.callers|;
    var first, second := [Begin, Stop, Begin, Fail(n)], [Begin, Enter(n + 1), Enter(n + 2)];
    var a := Next(s, Begin);
    var b := Next(a, Stop);
    var c := Next(b, Begin);
    var d := Next(c, Fail(n));
    assert d.callers[n + 1] == Preparing(d.current) && !d.started && |d.callers| == n + 2;
    assert first[1..] == [Stop, Begin, Fail(n)] && first[1..][1..] == [Begin, Fail(n)];
    assert Run(c, [Fail(n)]) == Run(d, []);
    assert Run(b, [Begin, Fail(n)]) == Run(c, [Fail(n)]);
    assert Run(a, [Stop, Begin, Fail(n)]) == Run(b, [Begin, Fail(n)]);
    var e := Next(d, Begin);
    var f := Next(e, Enter(n + 1));
    var g := Next(f, Enter(n + 2));
    assert second[1..] == [Enter(n + 1), Enter(n + 2)];
    assert Run(f, [Enter(n + 2)]) == Run(g, []);
    assert Run(e, [Enter(n + 1), Enter(n + 2)]) == Run(f, [Enter(n + 2)]);
    RunAppend(s, first, second);
    steps := first + second;
  }

  /** A loop can leave by its channel exactly when that was closed, and then it alone is gone and the flag stays. */
  lemma StoppedLoopsLeave(s: State, i: nat)
    requires i < |s.callers| && s.callers[i].Looping?
    ensures Next(s, LeaveStopped(i)) ==
              if s.callers[i].channel < s.current then s.(callers := s.callers[i := Gone]) else s
  {
  }

  /** A Start is turned away exactly while the flag is set; otherwise it waits on the channel of the moment. */
  lemma StartsIff(s: State)
    ensures Next(s, Begin) == if s.started then s else State(true, s.current, s.callers + [Preparing(s.current)])
  {
  }

  /** Stop without a started loop does nothing; otherwise it closes the channel of the moment and clears the flag. */
  lemma StopsIff(s: State)
    ensures Next(s, Stop) == if s.started then State(false, s.current + 1, s.callers) else s
  {
  }
}
