/**
 Rotation of the JWT signing secret by a file watch: each effective change makes the outgoing
 secret the previous one and starts a timer that clears whatever is then the previous one.
 Timers fire on time: the clock does not pass a deadline that has not fired.
 */
module SecretRotation {
  import opened Basics

  type Secret = seq<bv8>

  predicate Blank(b: bv8) {
    b == 10 || b == 13 || b == 32 || b == 9
  }

  /** What is left of a secret file without its trailing blanks. */
  function Trim(data: Secret): Secret {
    if data != [] && Blank(data[|data| - 1]) then Trim(data[..|data| - 1]) else data
  }

  /** What follows is line feeds, returns, spaces and tabs, and what is kept ends in none of them. */
  predicate IsTrimmed(r: Secret, data: Secret) {
    && r <= data
    && (forall i :: |r| <= i < |data| ==> data[i] in {10, 13, 32, 9})
    && (r == [] || r[|r| - 1] !in {10, 13, 32, 9})
  }

  /** Trimming removes all trailing blanks and nothing else, and no other result does. */
  lemma {:induction false} TrimExact(data: Secret, r: Secret)
    ensures IsTrimmed(r, data) <==> r == Trim(data)
  {
    if data != [] && Blank(data[|data| - 1]) {
      TrimExact(data[..|data| - 1], r);
      assert IsTrimmed(r, data) <==> IsTrimmed(r, data[..|data| - 1]);
    } else if IsTrimmed(r, data) {
      assert r == data[..|r|];
    }
  }

  method TrimSecretBytes(data: Secret) returns (result: Secret)
    ensures IsTrimmed(result, data) && result == Trim(data)
  {
    var end := |data|;
    assert data[..end] == data;
    while end > 0 && Blank(data[end - 1])
      invariant 0 <= end <= |data|
      invariant Trim(data[..end]) == Trim(data)
    {
      assert data[..end][..end - 1] == data[..end - 1];
      end := end - 1;
    }
    result := data[..end];
    TrimExact(data, result);
  }

  /** The secret that was current until `replacedAt`. */
  datatype Outgoing = Outgoing(secret: Secret, replacedAt: int)

  /**
   The token manager's current and previous secrets, the package-level copy of the current
   one, the instants at which the pending timers were started, and those of all effective
   rotations so far.
   */
  datatype State = State(
    now: int, current: Secret, previous: Option<Outgoing>, stored: Secret,
    timers: multiset<int>, rotations: seq<int>)

  /** The overlap in nanoseconds; five minutes unless a positive one is given. */
  function Overlap(configured: int): int {
    if configured <= 0 then 300_000_000_000 else configured
  }

  /** Starting the watch: the file replaces the environment secret, which stays valid for no one. */
  function Launch(now: int, data: Secret): State {
    State(now, Trim(data), None, Trim(data), multiset{}, [])
  }

  datatype Step =
    | FileEvent(read: Option<Secret>)
    | Elapse(duration: nat)
    | Fire(started: int)

  predicate Enabled(overlap: int, s: State, step: Step) {
    match step
    case FileEvent(_) => true
    case Elapse(d) => forall r :: r in s.timers ==> s.now + d <= r + overlap
    case Fire(r) => r in s.timers && r + overlap == s.now
  }

  /** The event carries a readable, non-empty secret different from the stored one. */
  predicate Effective(s: State, step: Step) {
    && step.FileEvent? && step.read.Some?
    && Trim(step.read.value) != [] && Trim(step.read.value) != s.stored
  }

  function Next(overlap: int, s: State, step: Step): State {
    if !Enabled(overlap, s, step) then s
    else match step
      case FileEvent(read) =>
        if !Effective(s, step) then s
        else
          var secret := Trim(read.value);
          s.(current := secret, previous := Some(Outgoing(s.current, s.now)), stored := secret,
             timers := s.timers + multiset{s.now}, rotations := s.rotations + [s.now])
      case Elapse(d) => s.(now := s.now + d)
      case Fire(r) => s.(previous := None, timers := s.timers - multiset{r})
  }

  function Run(overlap: int, s: State, steps: seq<Step>): State
    decreases steps
  {
    if steps == [] then s else Run(overlap, Next(overlap, s, steps[0]), steps[1..])
  }

  /** The secrets a token may be signed with. */
  predicate Accepts(s: State, secret: Secret) {
    secret == s.current || (s.previous.Some? && secret == s.previous.value.secret)
  }

  class SecretWatch {
    const overlap: int
    var now: int
    var current: Secret
    var previous: Option<Outgoing>
    var stored: Secret
    var timers: multiset<int>
    var rotations: seq<int>

    ghost function Here(): State
      reads this
    {
      State(now, current, previous, stored, timers, rotations)
    }

    constructor (configured: int, now: int, data: Secret)
      ensures overlap == Overlap(configured) && Here() == Launch(now, data)
    {
      overlap := Overlap(configured);
      this.now := now;
      var secret := TrimSecretBytes(data);
      current, previous, stored := secret, None, secret;
      timers, rotations := multiset{}, [];
    }

    method OnFileEvent(read: Option<Secret>)
      modifies this
      ensures Here() == Next(overlap, old(Here()), FileEvent(read))
    {
      if read == None {
        return;
      }
      var secret := TrimSecretBytes(read.value);
      if |secret| == 0 || secret == stored {
        return;
      }
      previous := Some(Outgoing(current, now));
      current := secret;
      stored := secret;
      timers := timers + multiset{now};
      rotations := rotations + [now];
    }

    method OnTimer(started: int)
      requires started in timers && started + overlap == now
      modifies this
      ensures Here() == Next(overlap, old(Here()), Fire(started))
    {
      timers := timers - multiset{started};
      previous := None;
    }
  }

  ghost predicate Inv(overlap: int, s: State) {
    && overlap > 0
    && s.stored == s.current
    && (forall r :: r in s.timers ==> s.now <= r + overlap && r in s.rotations)
    && (forall r :: r in s.rotations ==> r <= s.now && (s.now < r + overlap ==> r in s.timers))
    && (s.previous.Some? ==> s.previous.value.replacedAt in s.timers)
  }

  lemma InvStep(overlap: int, s: State, step: Step)
    requires Inv(overlap, s)
    ensures Inv(overlap, Next(overlap, s, step))
  {
    if Effective(s, step) {
      var t := Next(overlap, s, step);
      assert t.rotations[|s.rotations|] == s.now;
      assert forall r :: r in t.rotations <==> r in s.rotations || r == s.now;
    }
  }

  lemma {:induction false} InvRun(overlap: int, s: State, steps: seq<Step>)
    requires Inv(overlap, s)
    ensures Inv(overlap, Run(overlap, s, steps))
    decreases steps
  {
    if steps != [] {
      InvStep(overlap, s, steps[0]);
      InvRun(overlap, Next(overlap, s, steps[0]), steps[1..]);
    }
  }

  /** In every run, an accepted secret other than the current one was replaced at most the overlap ago. */
  lemma StaleSecretsAreRecent(overlap: int, now: int, data: Secret, steps: seq<Step>, secret: Secret)
    requires overlap > 0
    ensures var s := Run(overlap, Launch(now, data), steps);
            Accepts(s, secret) && secret != s.current ==>
              && s.previous.Some? && s.previous.value.secret == secret
              && s.previous.value.replacedAt in s.rotations
              && s.now - overlap <= s.previous.value.replacedAt <= s.now
  {
    InvRun(overlap, Launch(now, data), steps);
  }

  /** The current secret is accepted, and besides it only the one it replaced. */
  lemma CurrentAccepted(s: State, secret: Secret)
    ensures Accepts(s, s.current)
    ensures s.previous == None && Accepts(s, secret) ==> secret == s.current
  {
  }

  /**
   A file event takes effect exactly when the file can be read and holds, but for trailing blanks,
   a secret that is neither empty nor the current one; then that is the current one.
   */
  lemma EventTakesEffect(overlap: int, s: State, read: Option<Secret>)
    requires Inv(overlap, s)
    ensures var t := Next(overlap, s, FileEvent(read));
            if read.Some? && Trim(read.value) != [] && Trim(read.value) != s.current
            then t.current == Trim(read.value) && t.previous == Some(Outgoing(s.current, s.now))
            else t == s
  {
  }

  /** The overlap is five minutes unless a positive one is configured. */
  lemma OverlapDefault(configured: int)
    ensures configured <= 0 ==> Overlap(configured) == 5 * 60 * 1_000_000_000
    ensures configured > 0 ==> Overlap(configured) == configured
  {
  }

  // ---- how long an outgoing secret lasts ----

  ghost predicate Quiet(overlap: int, s: State, steps: seq<Step>)
    decreases steps
  {
    steps != [] ==> !Effective(s, steps[0]) && Quiet(overlap, Next(overlap, s, steps[0]), steps[1..])
  }

  /** Until the earliest pending timer the previous secret stands, and after it there is none. */
  lemma {:induction false} PreviousLastsToEarliestTimer(overlap: int, s: State, steps: seq<Step>, first: int)
    requires Inv(overlap, s) && Quiet(overlap, s, steps)
    requires forall r :: r in s.timers ==> first <= r
    requires first in s.timers
    ensures var t := Run(overlap, s, steps);
            && (t.now < first + overlap ==> t.previous == s.previous)
            && (t.now > first + overlap ==> t.previous == None)
    decreases steps
  {
    if steps != [] {
      var t := Next(overlap, s, steps[0]);
      InvStep(overlap, s, steps[0]);
      if steps[0].Fire? && Enabled(overlap, s, steps[0]) {
        ClearedStays(overlap, t, steps[1..]);
        NowGrows(overlap, t, steps[1..]);
      } else {
        PreviousLastsToEarliestTimer(overlap, t, steps[1..], first);
      }
    }
  }

  lemma {:induction false} ClearedStays(overlap: int, s: State, steps: seq<Step>)
    requires s.previous == None && Quiet(overlap, s, steps)
    ensures Run(overlap, s, steps).previous == None
    decreases steps
  {
    if steps != [] {
      ClearedStays(overlap, Next(overlap, s, steps[0]), steps[1..]);
    }
  }

  lemma {:induction false} NowGrows(overlap: int, s: State, steps: seq<Step>)
    ensures s.now <= Run(overlap, s, steps).now
    decreases steps
  {
    if steps != [] {
      NowGrows(overlap, Next(overlap, s, steps[0]), steps[1..]);
    }
  }

  /** No timer of an earlier rotation is pending. */
  ghost predicate Rested(s: State) {
    forall r :: r in s.timers ==> r == s.now
  }

  /**
   After a rotation and until the next one, the outgoing secret is accepted up to the
   deadline of the earliest pending timer and not beyond: for its whole overlap exactly when
   no timer of an earlier rotation is pending.
   */
  lemma OverlapIsWholeIffRested(overlap: int, s: State, step: Step, steps: seq<Step>, first: int)
    requires Inv(overlap, s) && Effective(s, step)
    requires Quiet(overlap, Next(overlap, s, step), steps)
    requires first in Next(overlap, s, step).timers
    requires forall r :: r in Next(overlap, s, step).timers ==> first <= r
    ensures first == s.now <==> Rested(s)
    ensures var t := Run(overlap, Next(overlap, s, step), steps);
            && (t.now < first + overlap ==> t.previous == Some(Outgoing(s.current, s.now)) && Accepts(t, s.current))
            && (t.now > first + overlap ==> t.previous == None)
  {
    var after := Next(overlap, s, step);
    InvStep(overlap, s, step);
    assert forall r :: r in after.timers <==> r in s.timers || r == s.now;
    PreviousLastsToEarliestTimer(overlap, after, steps, first);
  }

  /** Rested is what rotations more than the overlap apart give, and it means at least that far apart. */
  lemma RestedMeansSpaced(overlap: int, s: State)
    requires Inv(overlap, s)
    ensures (forall r :: r in s.rotations && r < s.now ==> s.now - r > overlap) ==> Rested(s)
    ensures Rested(s) ==> forall r :: r in s.rotations && r < s.now ==> s.now - r >= overlap
  {
  }

  /** Any two rotations are more than the overlap apart. */
  ghost predicate Spaced(overlap: int, rotations: seq<int>) {
    forall i, j :: 0 <= i < j < |rotations| ==> rotations[j] - rotations[i] > overlap
  }

  lemma SpacedPrefix(overlap: int, a: seq<int>, b: seq<int>)
    requires a <= b && Spaced(overlap, b)
    ensures Spaced(overlap, a)
  {
  }

  lemma {:induction false} RotationsGrow(overlap: int, s: State, steps: seq<Step>)
    ensures s.rotations <= Run(overlap, s, steps).rotations
    decreases steps
  {
    if steps != [] {
      RotationsGrow(overlap, Next(overlap, s, steps[0]), steps[1..]);
    }
  }

  lemma TooEarly(overlap: int, s: State, step: Step)
    requires Effective(s, step) && s.rotations != [] && s.now <= s.rotations[|s.rotations| - 1] + overlap
    ensures !Spaced(overlap, Next(overlap, s, step).rotations)
  {
    var t, last := Next(overlap, s, step), |s.rotations| - 1;
    assert t.rotations[last] == s.rotations[last] && t.rotations[last + 1] == s.now;
  }

  lemma FiresLater(overlap: int, s: State, started: int)
    requires Inv(overlap, s) && Spaced(overlap, s.rotations) && s.rotations != [] && Enabled(overlap, s, Fire(started))
    ensures s.rotations[|s.rotations| - 1] + overlap <= s.now
  {
    var last := |s.rotations| - 1;
    var k :| 0 <= k < |s.rotations| && s.rotations[k] == started;
    assert s.rotations[last] in s.rotations;
  }

  /** The outgoing secret of the latest rotation is the previous one. */
  ghost predicate Standing(overlap: int, s: State, o: Outgoing) {
    && Inv(overlap, s) && s.previous == Some(o)
    && s.rotations != [] && s.rotations[|s.rotations| - 1] == o.replacedAt
  }

  /** Before the overlap ends, a step keeps the outgoing secret, unless it is a rotation too early. */
  lemma SpacedStep(overlap: int, s: State, step: Step, o: Outgoing)
    requires Standing(overlap, s, o) && Spaced(overlap, s.rotations)
    requires var t := Next(overlap, s, step); Spaced(overlap, t.rotations) && t.now < o.replacedAt + overlap
    ensures Standing(overlap, Next(overlap, s, step), o)
  {
    InvStep(overlap, s, step);
    if Effective(s, step) {
      TooEarly(overlap, s, step);
    } else if step.Fire? && Enabled(overlap, s, step) {
      FiresLater(overlap, s, step.started);
    }
  }

  lemma SpacedFirst(overlap: int, s: State, steps: seq<Step>, o: Outgoing)
    requires steps != [] && Standing(overlap, s, o)
    requires var t := Run(overlap, s, steps); Spaced(overlap, t.rotations) && t.now < o.replacedAt + overlap
    ensures Standing(overlap, Next(overlap, s, steps[0]), o)
  {
    var t, last := Next(overlap, s, steps[0]), Run(overlap, s, steps);
    RotationsGrow(overlap, s, steps);
    RotationsGrow(overlap, t, steps[1..]);
    SpacedPrefix(overlap, s.rotations, last.rotations);
    SpacedPrefix(overlap, t.rotations, last.rotations);
    NowGrows(overlap, t, steps[1..]);
    SpacedStep(overlap, s, steps[0], o);
  }

  lemma {:induction false} SpacedRun(overlap: int, s: State, steps: seq<Step>, o: Outgoing)
    requires Standing(overlap, s, o)
    requires var t := Run(overlap, s, steps); Spaced(overlap, t.rotations) && t.now < o.replacedAt + overlap
    ensures Standing(overlap, Run(overlap, s, steps), o)
    decreases steps
  {
    if steps != [] {
      SpacedFirst(overlap, s, steps, o);
      SpacedRun(overlap, Next(overlap, s, steps[0]), steps[1..], o);
    }
  }

  lemma {:induction false} RunAppend(overlap: int, s: State, first: seq<Step>, second: seq<Step>)
    ensures Run(overlap, s, first + second) == Run(overlap, Run(overlap, s, first), second)
    decreases first
  {
    if first == [] {
      assert first + second == second;
    } else {
      assert (first + second)[1..] == first[1..] + second;
      RunAppend(overlap, Next(overlap, s, first[0]), first[1..], second);
    }
  }

  /**
   In every run from the start whose rotations are more than the overlap apart, the secret that
   any of them replaces is accepted at every moment of the overlap that follows.
   */
  lemma SpacedRotationsKeepTheOverlap(overlap: int, now: int, data: Secret, first: seq<Step>, step: Step,
                                      rest: seq<Step>)
    requires overlap > 0
    requires Effective(Run(overlap, Launch(now, data), first), step)
    requires var t := Run(overlap, Launch(now, data), first + [step] + rest);
             Spaced(overlap, t.rotations) && t.now < Run(overlap, Launch(now, data), first).now + overlap
    ensures var s, t := Run(overlap, Launch(now, data), first), Run(overlap, Launch(now, data), first + [step] + rest);
            t.previous == Some(Outgoing(s.current, s.now)) && Accepts(t, s.current)
  {
    var s := Run(overlap, Launch(now, data), first);
    InvRun(overlap, Launch(now, data), first);
    InvStep(overlap, s, step);
    RunAppend(overlap, Launch(now, data), first, [step] + rest);
    assert first + [step] + rest == first + ([step] + rest) && ([step] + rest)[1..] == rest;
    SpacedRun(overlap, Next(overlap, s, step), rest, Outgoing(s.current, s.now));
  }

  /** The timer of a rotation less than the overlap ago clears the secret that the next one replaces. */
  lemma EarlierTimerClears(overlap: int, s: State, step: Step, gap: nat) returns (t: State)
    requires Inv(overlap, s) && Effective(s, step)
    requires 0 < gap < overlap && s.timers == multiset{s.now - gap}
    ensures t == Next(overlap, Next(overlap, Next(overlap, s, step), Elapse(overlap - gap)), Fire(s.now - gap))
    ensures t.now < s.now + overlap && !Accepts(t, s.current)
  {
    var a := Next(overlap, s, step);
    var b := Next(overlap, a, Elapse(overlap - gap));
    assert forall r :: r in a.timers ==> r == s.now - gap || r == s.now;
    assert s.now - gap in b.timers;
    t := Next(overlap, b, Fire(s.now - gap));
  }

  lemma RunTwo(overlap: int, s: State, x: Step, y: Step)
    ensures Run(overlap, s, [x, y]) == Next(overlap, Next(overlap, s, x), y)
  {
    assert [x, y][1..] == [y] && [y][1..] == [];
    assert Run(overlap, Next(overlap, s, x), [y]) == Run(overlap, Next(overlap, Next(overlap, s, x), y), []);
  }

  lemma RunThree(overlap: int, s: State, x: Step, y: Step, z: Step)
    ensures Run(overlap, s, [x, y, z]) == Next(overlap, Next(overlap, Next(overlap, s, x), y), z)
  {
    assert [x, y, z][1..] == [y, z];
    RunTwo(overlap, Next(overlap, s, x), y, z);
  }

  lemma FirstRotation(overlap: int, now: int, data: Secret, one: Secret, gap: nat)
    requires gap <= overlap && Trim(one) != [] && Trim(one) != Trim(data)
    ensures Run(overlap, Launch(now, data), [FileEvent(Some(one)), Elapse(gap)])
         == State(now + gap, Trim(one), Some(Outgoing(Trim(data), now)), Trim(one), multiset{now}, [now])
  {
    RunTwo(overlap, Launch(now, data), FileEvent(Some(one)), Elapse(gap));
  }

  lemma SecondRotation(overlap: int, s: State, two: Secret, gap: nat)
    requires Inv(overlap, s) && Effective(s, FileEvent(Some(two)))
    requires 0 < gap < overlap && s.timers == multiset{s.now - gap}
    ensures var t := Run(overlap, s, [FileEvent(Some(two)), Elapse(overlap - gap), Fire(s.now - gap)]);
            t.rotations == s.rotations + [s.now] && t.now < s.now + overlap && !Accepts(t, s.current)
  {
    var t := EarlierTimerClears(overlap, s, FileEvent(Some(two)), gap);
    RunThree(overlap, s, FileEvent(Some(two)), Elapse(overlap - gap), Fire(s.now - gap));
  }

  /**
   From the start: of any two rotations closer than the overlap, the first one's timer ends the
   overlap of the second one early.
   */
  lemma CloseRotationsCutTheOverlap(overlap: int, now: int, data: Secret, one: Secret, two: Secret, gap: nat)
    returns (steps: seq<Step>)
    requires 0 < gap < overlap
    requires Trim(one) != [] && Trim(one) != Trim(data) && Trim(two) != [] && Trim(two) != Trim(one)
    ensures var t := Run(overlap, Launch(now, data), steps);
            t.rotations == [now, now + gap] && t.now < now + gap + overlap && !Accepts(t, Trim(one))
  {
    var head, tail := [FileEvent(Some(one)), Elapse(gap)], [FileEvent(Some(two)), Elapse(overlap - gap), Fire(now)];
    InvRun(overlap, Launch(now, data), head);
    FirstRotation(overlap, now, data, one, gap);
    SecondRotation(overlap, Run(overlap, Launch(now, data), head), two, gap);
    RunAppend(overlap, Launch(now, data), head, tail);
    steps := head + tail;
  }

  // ---- the empty secret ----

  lemma {:induction false} NonEmptyKept(overlap: int, s: State, steps: seq<Step>)
    requires s.current != []
    ensures Run(overlap, s, steps).current != []
    decreases steps
  {
    if steps != [] {
      NonEmptyKept(overlap, Next(overlap, s, steps[0]), steps[1..]);
    }
  }

  /**
   An update that empties the file is ignored, but the first read is not checked: the current
   secret is never empty, over all runs, exactly when the file was not blank at the start.
   */
  lemma NeverEmptyIff(overlap: int, now: int, data: Secret)
    ensures (forall steps :: Run(overlap, Launch(now, data), steps).current != []) <==> Trim(data) != []
  {
    if Trim(data) != [] {
      forall steps ensures Run(overlap, Launch(now, data), steps).current != [] {
        NonEmptyKept(overlap, Launch(now, data), steps);
      }
    } else {
      assert Run(overlap, Launch(now, data), []).current == [];
    }
  }
}
