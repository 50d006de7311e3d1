/**
 The lock-free recorder of the load test: any number of goroutines record requests on shared
 atomic counters, a compare-and-swap maximum, and a map whose increments are not atomic.
 */
module Recorder {
  import opened Basics

  /** One recordRequest call: its latency in microseconds and its error message, if any. */
  datatype Call = Call(latency: int, error: Option<string>)

  /** Error messages are cut to one hundred bytes before they are counted. */
  function Cut(msg: string): string {
    if |msg| > 100 then msg[..100] else msg
  }

  /**
   Where a call stands, one constructor per shared access it is about to make; Swapping
   carries the maximum it loaded and how many swaps had happened by then.
   */
  datatype At =
    | Arrived | Totalled | Reading | Swapping(current: int, seen: nat)
    | Maxed | Failed | Storing(value: int) | Returned

  datatype Thread = Thread(call: Call, at: At, retries: nat, swapped: bool)

  /** The shared results; `swaps` counts the successful compare-and-swaps. */
  datatype Results = Results(
    total: int, sum: int, max: int, success: int, failure: int, errors: map<string, int>, swaps: nat)

  datatype State = State(shared: Results, threads: seq<Thread>)

  function Start(calls: seq<Call>): State {
    State(Results(0, 0, 0, 0, 0, map[], 0),
          seq(|calls|, i requires 0 <= i < |calls| => Thread(calls[i], Arrived, 0, false)))
  }

  datatype Moved = Moved(shared: Results, thread: Thread)

  /** The next shared access of one thread. */
  function Access(r: Results, t: Thread): Moved {
    match t.at
    case Arrived => Moved(r.(total := r.total + 1), t.(at := Totalled))
    case Totalled => Moved(r.(sum := r.sum + t.call.latency), t.(at := Reading))
    case Reading => Moved(r, t.(at := Swapping(r.max, r.swaps)))
    case Swapping(current, _) =>
      if t.call.latency <= current then Moved(r, t.(at := Maxed))
      else if r.max == current then
        Moved(r.(max := t.call.latency, swaps := r.swaps + 1), t.(at := Maxed, swapped := true))
      else Moved(r, t.(at := Reading, retries := t.retries + 1))
    case Maxed =>
      if t.call.error.Some? then Moved(r.(failure := r.failure + 1), t.(at := Failed))
      else Moved(r.(success := r.success + 1), t.(at := Returned))
    case Failed =>
      if t.call.error == None then Moved(r, t)
      else
        var key := Cut(t.call.error.value);
        if key in r.errors then Moved(r, t.(at := Storing(r.errors[key])))
        else Moved(r.(errors := r.errors[key := 1]), t.(at := Returned))
    case Storing(value) =>
      if t.call.error == None then Moved(r, t)
      else Moved(r.(errors := r.errors[Cut(t.call.error.value) := value + 1]), t.(at := Returned))
    case Returned => Moved(r, t)
  }

  function Next(s: State, i: nat): State {
    if i >= |s.threads| then s
    else
      var m := Access(s.shared, s.threads[i]);
      State(m.shared, s.threads[i := m.thread])
  }

  /** A schedule names the thread that moves at each step. */
  function Run(s: State, schedule: seq<nat>): State
    decreases schedule
  {
    if schedule == [] then s else Run(Next(s, schedule[0]), schedule[1..])
  }

  ghost predicate Quiescent(s: State) {
    forall i :: 0 <= i < |s.threads| ==> s.threads[i].at.Returned?
  }

  predicate HasKey(t: Thread, key: string) {
    t.call.error.Some? && Cut(t.call.error.value) == key
  }

  // ---- what is counted ----

  predicate Began(t: Thread) {
    !t.at.Arrived?
  }

  function Added(t: Thread): int {
    if t.at.Arrived? || t.at.Totalled? then 0 else t.call.latency
  }

  predicate Succeeded(t: Thread) {
    t.at.Returned? && t.call.error == None
  }

  predicate CountedFailure(t: Thread) {
    (t.at.Failed? || t.at.Storing? || t.at.Returned?) && t.call.error.Some?
  }

  predicate Swapped(t: Thread) {
    t.swapped
  }

  /** Threads that recorded a failure under `key`, and those that finished writing its count. */
  function FailedUnder(key: string): Thread -> bool {
    (t: Thread) => CountedFailure(t) && HasKey(t, key)
  }

  function WroteUnder(key: string): Thread -> bool {
    (t: Thread) => t.at.Returned? && HasKey(t, key)
  }

  ghost predicate CountersInv(s: State) {
    && s.shared.total == CountIf(s.threads, Began)
    && s.shared.sum == SumOf(s.threads, Added)
    && s.shared.success == CountIf(s.threads, Succeeded)
    && s.shared.failure == CountIf(s.threads, CountedFailure)
    && s.shared.swaps == CountIf(s.threads, Swapped)
  }

  /** Which branch a thread is on agrees with its call and its swap. */
  predicate Shaped(t: Thread) {
    && (t.at.Failed? || t.at.Storing? ==> t.call.error.Some?)
    && (t.swapped ==> PastMax(t))
  }

  /** One access moves each counter as it moves the thread between the counted classes. */
  lemma AccessCounts(r: Results, t: Thread)
    requires Shaped(t)
    ensures var m := Access(r, t);
            && Shaped(m.thread) && m.thread.call == t.call
            && m.shared.total - r.total == Bit(Began(m.thread)) - Bit(Began(t))
            && m.shared.sum - r.sum == Added(m.thread) - Added(t)
            && m.shared.success - r.success == Bit(Succeeded(m.thread)) - Bit(Succeeded(t))
            && m.shared.failure - r.failure == Bit(CountedFailure(m.thread)) - Bit(CountedFailure(t))
            && m.shared.swaps - r.swaps == Bit(Swapped(m.thread)) - Bit(Swapped(t))
  {
  }

  lemma CountersStep(s: State, i: nat)
    requires CountersInv(s) && i < |s.threads| && Shaped(s.threads[i])
    ensures CountersInv(Next(s, i))
  {
    var x := Access(s.shared, s.threads[i]).thread;
    AccessCounts(s.shared, s.threads[i]);
    CountIfUpdate(s.threads, i, x, Began);
    SumOfUpdate(s.threads, i, x, Added);
    CountIfUpdate(s.threads, i, x, Succeeded);
    CountIfUpdate(s.threads, i, x, CountedFailure);
    CountIfUpdate(s.threads, i, x, Swapped);
  }

  // ---- the maximum ----

  predicate PastMax(t: Thread) {
    t.at.Maxed? || t.at.Failed? || t.at.Storing? || t.at.Returned?
  }

  /**
   The maximum covers a call past its loop; a loaded value is out of date exactly when a swap
   has happened since; and a call has not retried more often than others have swapped.
   */
  predicate Covered(max: int, swaps: nat, t: Thread) {
    && (PastMax(t) ==> t.call.latency <= max)
    && (t.at.Swapping? ==>
          && t.retries <= t.at.seen <= swaps && t.at.current <= max
          && (t.at.seen == swaps <==> t.at.current == max))
    && t.retries + Bit(t.swapped) <= swaps
  }

  ghost predicate MaxInv(s: State) {
    && 0 <= s.shared.max
    && (s.shared.max == 0 || exists i :: 0 <= i < |s.threads| && s.threads[i].call.latency == s.shared.max)
    && (forall i :: 0 <= i < |s.threads| ==> Covered(s.shared.max, s.shared.swaps, s.threads[i]))
  }

  lemma AccessCovers(r: Results, t: Thread, other: Thread)
    requires 0 <= r.max && Shaped(t) && Covered(r.max, r.swaps, t) && Covered(r.max, r.swaps, other)
    ensures var m := Access(r, t);
            && Covered(m.shared.max, m.shared.swaps, m.thread)
            && Covered(m.shared.max, m.shared.swaps, other)
            && r.max <= m.shared.max
            && (m.shared.max != r.max ==> m.shared.max == t.call.latency)
  {
  }

  lemma MaxStep(s: State, i: nat)
    requires MaxInv(s) && i < |s.threads| && Shaped(s.threads[i])
    ensures MaxInv(Next(s, i))
  {
    var u, t := Next(s, i), s.threads[i];
    forall j | 0 <= j < |s.threads| ensures Covered(u.shared.max, u.shared.swaps, u.threads[j]) {
      AccessCovers(s.shared, t, s.threads[j]);
    }
    AccessCovers(s.shared, t, t);
    AccessCounts(s.shared, t);
    if u.shared.max != s.shared.max {
      assert u.threads[i].call.latency == u.shared.max;
    } else if s.shared.max != 0 {
      var j :| 0 <= j < |s.threads| && s.threads[j].call.latency == s.shared.max;
      assert u.threads[j].call.latency == s.shared.max;
    }
  }

  // ---- the error counts ----

  /** A thread about to store under `key` adds one to a value no larger than the finished writes. */
  predicate Trails(writes: int, key: string, t: Thread) {
    t.at.Storing? && HasKey(t, key) ==> 1 <= t.at.value <= writes
  }

  predicate Tallied(r: Results, writes: int, key: string) {
    if key in r.errors then 1 <= r.errors[key] <= writes else writes == 0
  }

  ghost predicate ErrorsInv(s: State, key: string) {
    var writes := CountIf(s.threads, WroteUnder(key));
    && Tallied(s.shared, writes, key)
    && forall i :: 0 <= i < |s.threads| ==> Trails(writes, key, s.threads[i])
  }

  lemma AccessTallies(r: Results, t: Thread, writes: nat, key: string)
    requires Shaped(t) && Tallied(r, writes, key) && Trails(writes, key, t)
    ensures var m := Access(r, t);
            var after := writes + Bit(WroteUnder(key)(m.thread)) - Bit(WroteUnder(key)(t));
            writes <= after && Tallied(m.shared, after, key) && Trails(after, key, m.thread)
  {
  }

  lemma ErrorsStep(s: State, i: nat, key: string)
    requires ErrorsInv(s, key) && i < |s.threads| && Shaped(s.threads[i])
    ensures ErrorsInv(Next(s, i), key)
  {
    var x := Access(s.shared, s.threads[i]).thread;
    CountIfUpdate(s.threads, i, x, WroteUnder(key));
    AccessTallies(s.shared, s.threads[i], CountIf(s.threads, WroteUnder(key)), key);
  }

  // ---- over every schedule ----

  ghost predicate Inv(s: State) {
    && (forall i :: 0 <= i < |s.threads| ==> Shaped(s.threads[i]))
    && CountersInv(s) && MaxInv(s)
    && forall key :: ErrorsInv(s, key)
  }

  lemma InvStep(s: State, i: nat)
    requires Inv(s)
    ensures Inv(Next(s, i))
  {
    if i < |s.threads| {
      AccessCounts(s.shared, s.threads[i]);
      CountersStep(s, i);
      MaxStep(s, i);
      forall key ensures ErrorsInv(Next(s, i), key) {
        ErrorsStep(s, i, key);
      }
    }
  }

  lemma {:induction false} SumNone(threads: seq<Thread>, f: Thread -> int)
    requires forall t :: t in threads ==> f(t) == 0
    ensures SumOf(threads, f) == 0
  {
    if threads != [] {
      SumNone(threads[1..], f);
    }
  }

  lemma StartInv(calls: seq<Call>)
    ensures Inv(Start(calls))
  {
    var s := Start(calls);
    assert forall t :: t in s.threads ==> t.at.Arrived? && !t.swapped;
    CountIfZero(s.threads, Began);
    CountIfZero(s.threads, Succeeded);
    CountIfZero(s.threads, CountedFailure);
    CountIfZero(s.threads, Swapped);
    SumNone(s.threads, Added);
    forall key ensures ErrorsInv(s, key) {
      CountIfZero(s.threads, WroteUnder(key));
    }
  }

  lemma {:induction false} InvRun(s: State, schedule: seq<nat>)
    requires Inv(s)
    ensures Inv(Run(s, schedule))
    decreases schedule
  {
    if schedule != [] {
      InvStep(s, schedule[0]);
      InvRun(Next(s, schedule[0]), schedule[1..]);
    }
  }

  lemma {:induction false} RunKeepsCalls(s: State, schedule: seq<nat>)
    ensures |Run(s, schedule).threads| == |s.threads|
    ensures forall i :: 0 <= i < |s.threads| ==> Run(s, schedule).threads[i].call == s.threads[i].call
    decreases schedule
  {
    if schedule != [] {
      RunKeepsCalls(Next(s, schedule[0]), schedule[1..]);
      assert forall t :: Access(s.shared, t).thread.call == t.call;
    }
  }

  lemma Reached(calls: seq<Call>, schedule: seq<nat>)
    ensures var s := Run(Start(calls), schedule);
            Inv(s) && |s.threads| == |calls| && forall i :: 0 <= i < |calls| ==> s.threads[i].call == calls[i]
  {
    StartInv(calls);
    InvRun(Start(calls), schedule);
    RunKeepsCalls(Start(calls), schedule);
  }

  /** However many calls interleave, once all have returned the maximum is that of zero and every latency. */
  lemma MaximumAtQuiescence(calls: seq<Call>, schedule: seq<nat>)
    requires Quiescent(Run(Start(calls), schedule))
    ensures var max := Run(Start(calls), schedule).shared.max;
            && 0 <= max
            && (forall i :: 0 <= i < |calls| ==> calls[i].latency <= max)
            && (max == 0 || exists i :: 0 <= i < |calls| && calls[i].latency == max)
  {
    var s := Run(Start(calls), schedule);
    Reached(calls, schedule);
    forall i | 0 <= i < |calls| ensures calls[i].latency <= s.shared.max {
      assert Covered(s.shared.max, s.shared.swaps, s.threads[i]);
    }
  }

  /** In every state, a call has retried at most as often as other calls have swapped. */
  lemma RetriesBounded(calls: seq<Call>, schedule: seq<nat>, i: nat)
    requires i < |calls|
    ensures var s := Run(Start(calls), schedule);
            && i < |s.threads|
            && s.threads[i].retries <= CountIf(s.threads, Swapped) - Bit(s.threads[i].swapped)
  {
    Reached(calls, schedule);
  }

  function Latency(c: Call): int {
    c.latency
  }

  predicate Succeeds(c: Call) {
    c.error == None
  }

  predicate Fails(c: Call) {
    c.error.Some?
  }

  lemma {:induction false} AllReturned(threads: seq<Thread>, calls: seq<Call>)
    requires |threads| == |calls|
    requires forall i :: 0 <= i < |calls| ==> threads[i].at.Returned? && threads[i].call == calls[i]
    ensures CountIf(threads, Began) == |threads|
    ensures CountIf(threads, Succeeded) + CountIf(threads, CountedFailure) == |threads|
    ensures SumOf(threads, Added) == SumOf(calls, Latency)
    ensures CountIf(threads, Succeeded) == CountIf(calls, Succeeds)
    ensures CountIf(threads, CountedFailure) == CountIf(calls, Fails)
  {
    if threads != [] {
      AllReturned(threads[1..], calls[1..]);
    }
  }

  /**
   Once all calls have returned, each is counted once, those without an error as successes and
   those with one as failures, and every latency is summed.
   */
  lemma TotalsAtQuiescence(calls: seq<Call>, schedule: seq<nat>)
    requires Quiescent(Run(Start(calls), schedule))
    ensures var r := Run(Start(calls), schedule).shared;
            && r.total == r.success + r.failure == |calls| && r.sum == SumOf(calls, Latency)
            && r.success == CountIf(calls, Succeeds) && r.failure == CountIf(calls, Fails)
  {
    Reached(calls, schedule);
    AllReturned(Run(Start(calls), schedule).threads, calls);
  }

  /** In every state a message's count is at most the failures recorded under it, lost updates or not. */
  lemma ErrorCountsBounded(calls: seq<Call>, schedule: seq<nat>, key: string)
    ensures var s := Run(Start(calls), schedule);
            key in s.shared.errors ==> 1 <= s.shared.errors[key] <= CountIf(s.threads, FailedUnder(key))
  {
    var s := Run(Start(calls), schedule);
    Reached(calls, schedule);
    assert ErrorsInv(s, key);
    CountIfImplies(s.threads, WroteUnder(key), FailedUnder(key));
  }

  // ---- when a count is exact ----

  function CountOf(r: Results, key: string): int {
    if key in r.errors then r.errors[key] else 0
  }

  /** The message's count is the number of writes finished under it. */
  ghost predicate Exact(s: State, key: string) {
    CountOf(s.shared, key) == CountIf(s.threads, WroteUnder(key))
  }

  /** The thread about to store under `key` loaded a value that is no longer the one in the map. */
  predicate StaleAccess(r: Results, t: Thread, key: string) {
    t.at.Storing? && HasKey(t, key) && CountOf(r, key) != t.at.value
  }

  predicate StaleStore(s: State, i: nat, key: string) {
    i < |s.threads| && StaleAccess(s.shared, s.threads[i], key)
  }

  /** Once a count has fallen behind, so has every value loaded for it. */
  predicate Lags(r: Results, writes: int, key: string, t: Thread) {
    t.at.Storing? && HasKey(t, key) && CountOf(r, key) != writes ==> t.at.value < writes
  }

  ghost predicate LagInv(s: State, key: string) {
    var writes := CountIf(s.threads, WroteUnder(key));
    forall i :: 0 <= i < |s.threads| ==> Lags(s.shared, writes, key, s.threads[i])
  }

  lemma AccessExactIff(r: Results, t: Thread, other: Thread, writes: nat, key: string)
    requires Shaped(t) && Tallied(r, writes, key) && Trails(writes, key, t) && Trails(writes, key, other)
    requires Lags(r, writes, key, t) && Lags(r, writes, key, other)
    ensures var m := Access(r, t);
            var after := writes + Bit(WroteUnder(key)(m.thread)) - Bit(WroteUnder(key)(t));
            && (CountOf(m.shared, key) == after <==> CountOf(r, key) == writes && !StaleAccess(r, t, key))
            && Lags(m.shared, after, key, m.thread) && Lags(m.shared, after, key, other)
  {
  }

  /** A step keeps the count exact if and only if it was exact and the step is no stale store. */
  lemma ExactStep(s: State, i: nat, key: string)
    requires Inv(s) && LagInv(s, key)
    ensures Exact(Next(s, i), key) <==> Exact(s, key) && !StaleStore(s, i, key)
    ensures LagInv(Next(s, i), key)
  {
    if i < |s.threads| {
      var t, u, writes := s.threads[i], Next(s, i), CountIf(s.threads, WroteUnder(key));
      assert ErrorsInv(s, key);
      CountIfUpdate(s.threads, i, Access(s.shared, t).thread, WroteUnder(key));
      AccessExactIff(s.shared, t, t, writes, key);
      forall j | 0 <= j < |u.threads|
        ensures Lags(u.shared, CountIf(u.threads, WroteUnder(key)), key, u.threads[j])
      {
        AccessExactIff(s.shared, t, s.threads[j], writes, key);
      }
    }
  }

  ghost predicate NeverStale(s: State, schedule: seq<nat>, key: string) {
    forall n :: 0 <= n < |schedule| ==> !StaleStore(Run(s, schedule[..n]), schedule[n], key)
  }

  lemma NeverStaleTail(s: State, schedule: seq<nat>, key: string)
    requires schedule != []
    ensures NeverStale(s, schedule, key) <==>
              !StaleStore(s, schedule[0], key) && NeverStale(Next(s, schedule[0]), schedule[1..], key)
  {
    var t, rest := Next(s, schedule[0]), schedule[1..];
    assert schedule[..0] == [];
    assert forall n :: 0 < n <= |schedule| ==> schedule[..n][1..] == rest[..n - 1];
    assert forall n :: 0 < n < |schedule| ==> Run(s, schedule[..n]) == Run(t, rest[..n - 1]);
    if NeverStale(s, schedule, key) {
      assert !StaleStore(Run(s, schedule[..0]), schedule[0], key);
      forall n | 0 <= n < |rest| ensures !StaleStore(Run(t, rest[..n]), rest[n], key) {
        assert !StaleStore(Run(s, schedule[..n + 1]), schedule[n + 1], key);
      }
    }
  }

  lemma {:induction false} ExactRun(s: State, schedule: seq<nat>, key: string)
    requires Inv(s) && LagInv(s, key)
    ensures Exact(Run(s, schedule), key) <==> Exact(s, key) && NeverStale(s, schedule, key)
    decreases schedule
  {
    if schedule != [] {
      ExactStep(s, schedule[0], key);
      InvStep(s, schedule[0]);
      NeverStaleTail(s, schedule, key);
      ExactRun(Next(s, schedule[0]), schedule[1..], key);
    }
  }

  /** The calls that fail with a message. */
  function FailsWith(key: string): Call -> bool {
    (c: Call) => c.error.Some? && Cut(c.error.value) == key
  }

  lemma {:induction false} AllWrote(threads: seq<Thread>, calls: seq<Call>, key: string)
    requires |threads| == |calls|
    requires forall i :: 0 <= i < |calls| ==> threads[i].at.Returned? && threads[i].call == calls[i]
    ensures CountIf(threads, WroteUnder(key)) == CountIf(calls, FailsWith(key))
  {
    if threads != [] {
      AllWrote(threads[1..], calls[1..], key);
    }
  }

  /**
   Over every schedule a message's count equals the writes finished under it if and only if no
   store so far overwrote a value other than the one it had loaded; and once all calls have
   returned, that is the number of calls that failed with the message.
   */
  lemma ErrorCountExactIff(calls: seq<Call>, schedule: seq<nat>, key: string)
    ensures var s := Run(Start(calls), schedule);
            && (Exact(s, key) <==> NeverStale(Start(calls), schedule, key))
            && (Quiescent(s) ==>
                  (CountOf(s.shared, key) == CountIf(calls, FailsWith(key)) <==>
                    NeverStale(Start(calls), schedule, key)))
  {
    var s := Run(Start(calls), schedule);
    StartInv(calls);
    assert ErrorsInv(Start(calls), key);
    ExactRun(Start(calls), schedule, key);
    Reached(calls, schedule);
    if Quiescent(s) {
      AllWrote(s.threads, calls, key);
    }
  }

  lemma {:induction false} RunAppend(s: State, first: seq<nat>, second: seq<nat>)
    ensures Run(s, first + second) == Run(Run(s, first), second)
    decreases first
  {
    if first == [] {
      assert first + second == second;
    } else {
      assert (first + second)[1..] == first[1..] + second;
      RunAppend(Next(s, first[0]), first[1..], second);
    }
  }

  /** A call that runs alone up to the map: its swap cannot fail, and the others stay where they are. */
  lemma AloneToTheMap(s: State, i: nat) returns (steps: seq<nat>)
    requires i < |s.threads| && s.threads[i].at.Arrived? && s.threads[i].call.error.Some?
    ensures var t := Run(s, steps);
            && t.shared.errors == s.shared.errors && |t.threads| == |s.threads|
            && t.threads[i].at.Failed? && t.threads[i].call == s.threads[i].call
            && forall j :: 0 <= j < |s.threads| && j != i ==> t.threads[j] == s.threads[j]
  {
    var a := Next(s, i);
    var b := Next(a, i);
    var c := Next(b, i);
    var d := Next(c, i);
    var e := Next(d, i);
    assert Run(d, [i]) == Run(e, []);
    assert Run(c, [i, i]) == Run(d, [i]);
    assert Run(b, [i, i, i]) == Run(c, [i, i]);
    assert Run(a, [i, i, i, i]) == Run(b, [i, i, i]);
    steps := [i, i, i, i, i];
  }

  /** Of three calls at an empty map the first stores, and the other two load before either stores. */
  lemma StoresCollide(s: State, a: nat, b: nat, c: nat, key: string) returns (steps: seq<nat>)
    requires a < |s.threads| && b < |s.threads| && c < |s.threads| && a != b && a != c && b != c
    requires s.threads[a].at.Failed? && s.threads[b].at.Failed? && s.threads[c].at.Failed?
    requires HasKey(s.threads[a], key) && HasKey(s.threads[b], key) && HasKey(s.threads[c], key)
    requires key !in s.shared.errors
    ensures StaleStore(Run(s, steps), c, key)
  {
    var first := Next(s, a);
    var second := Next(first, b);
    var third := Next(second, c);
    var fourth := Next(third, b);
    assert second.threads[b].at == Storing(1) && third.threads[c].at == Storing(1);
    assert fourth.shared.errors[key] == 2;
    assert Run(third, [b]) == Run(fourth, []);
    assert Run(second, [c, b]) == Run(third, [b]);
    assert Run(first, [b, c, b]) == Run(second, [c, b]);
    steps := [a, b, c, b];
  }

  /** Any three calls that fail with one message can lose an increment of its count. */
  lemma UpdatesCanBeLost(calls: seq<Call>, a: nat, b: nat, c: nat, key: string) returns (schedule: seq<nat>)
    requires a < b < c < |calls|
    requires FailsWith(key)(calls[a]) && FailsWith(key)(calls[b]) && FailsWith(key)(calls[c])
    ensures !Exact(Run(Start(calls), schedule), key)
  {
    var s := Start(calls);
    var one := AloneToTheMap(s, a);
    var two := AloneToTheMap(Run(s, one), b);
    var three := AloneToTheMap(Run(Run(s, one), two), c);
    var ready := Run(Run(Run(s, one), two), three);
    var steps := StoresCollide(ready, a, b, c, key);
    RunAppend(s, one, two);
    RunAppend(s, one + two, three);
    RunAppend(s, one + two + three, steps);
    var before := one + two + three + steps;
    schedule := before + [c];
    assert schedule[..|before|] == before;
    ErrorCountExactIff(calls, schedule, key);
    assert StaleStore(Run(s, schedule[..|before|]), schedule[|before|], key);
  }

  lemma {:induction false} FirstOf<T>(s: seq<T>, p: T -> bool) returns (i: nat)
    requires CountIf(s, p) >= 1
    ensures i < |s| && p(s[i]) && CountIf(s[i + 1..], p) == CountIf(s, p) - 1
  {
    if p(s[0]) {
      i := 0;
    } else {
      var j := FirstOf(s[1..], p);
      i := j + 1;
      assert s[1..][j + 1..] == s[i + 1..];
    }
  }

  lemma {:induction false} SameKeys(threads: seq<Thread>, calls: seq<Call>, key: string)
    requires |threads| == |calls| && forall i :: 0 <= i < |calls| ==> threads[i].call == calls[i]
    ensures CountIf(threads, (t: Thread) => HasKey(t, key)) == CountIf(calls, FailsWith(key))
  {
    if threads != [] {
      SameKeys(threads[1..], calls[1..], key);
    }
  }

  /** With at most two such calls a loaded value is never overwritten by another call. */
  lemma TwoNeverCollide(calls: seq<Call>, schedule: seq<nat>, i: nat, key: string)
    requires CountIf(calls, FailsWith(key)) <= 2
    ensures !StaleStore(Run(Start(calls), schedule), i, key)
  {
    var s := Run(Start(calls), schedule);
    Reached(calls, schedule);
    if i < |s.threads| && s.threads[i].at.Storing? && HasKey(s.threads[i], key) {
      var keyed := (t: Thread) => HasKey(t, key);
      var done := s.threads[i].(at := Returned);
      SameKeys(s.threads, calls, key);
      CountIfUpdate(s.threads, i, done, WroteUnder(key));
      CountIfUpdate(s.threads, i, done, keyed);
      CountIfImplies(s.threads[i := done], WroteUnder(key), keyed);
      assert ErrorsInv(s, key);
    }
  }

  /** A message's count is exact under every schedule if and only if at most two calls fail with it. */
  lemma AlwaysExactIff(calls: seq<Call>, key: string)
    ensures (forall schedule :: Exact(Run(Start(calls), schedule), key)) <==> CountIf(calls, FailsWith(key)) <= 2
  {
    if CountIf(calls, FailsWith(key)) <= 2 {
      forall schedule ensures Exact(Run(Start(calls), schedule), key) {
        forall n | 0 <= n < |schedule| ensures !StaleStore(Run(Start(calls), schedule[..n]), schedule[n], key) {
          TwoNeverCollide(calls, schedule[..n], schedule[n], key);
        }
        ErrorCountExactIff(calls, schedule, key);
      }
    } else {
      var a := FirstOf(calls, FailsWith(key));
      var b := FirstOf(calls[a + 1..], FailsWith(key));
      var c := FirstOf(calls[a + 1..][b + 1..], FailsWith(key));
      var schedule := UpdatesCanBeLost(calls, a, a + 1 + b, a + 1 + b + 1 + c, key);
    }
  }

  /** A message is counted under its first hundred characters. */
  lemma CutExact(msg: string)
    ensures Cut(msg) <= msg && |Cut(msg)| == Min(100, |msg|)
  {
  }

  // ---- every call can return ----

  /** How many accesses a call that runs alone still makes at most. */
  function Left(r: Results, t: Thread): nat {
    match t.at
    case Arrived => 9
    case Totalled => 8
    case Reading => 6
    case Swapping(current, _) => if t.call.latency <= current || r.max == current then 5 else 7
    case Maxed => 4
    case Failed => 3
    case Storing(_) => 2
    case Returned => 0
  }

  lemma AccessAdvances(r: Results, t: Thread)
    requires Shaped(t) && !t.at.Returned?
    ensures var m := Access(r, t); Left(m.shared, m.thread) < Left(r, t) && Shaped(m.thread)
  {
  }

  lemma {:induction false} ReturnsAlone(s: State, i: nat) returns (steps: seq<nat>)
    requires Inv(s) && i < |s.threads|
    ensures var t := Run(s, steps);
            && Inv(t) && |t.threads| == |s.threads| && t.threads[i].at.Returned?
            && forall j :: 0 <= j < |s.threads| && j != i ==> t.threads[j] == s.threads[j]
    decreases Left(s.shared, s.threads[i])
  {
    steps := [];
    if !s.threads[i].at.Returned? {
      AccessAdvances(s.shared, s.threads[i]);
      InvStep(s, i);
      var rest := ReturnsAlone(Next(s, i), i);
      steps := [i] + rest;
      assert steps[1..] == rest;
    }
  }

  /** From every state that can be reached, all calls can still return. */
  lemma {:induction false} QuiescenceReachable(s: State, n: nat) returns (steps: seq<nat>)
    requires Inv(s) && n <= |s.threads| && forall j :: n <= j < |s.threads| ==> s.threads[j].at.Returned?
    ensures Quiescent(Run(s, steps))
    decreases n
  {
    if n == 0 {
      steps := [];
    } else {
      var first := ReturnsAlone(s, n - 1);
      var rest := QuiescenceReachable(Run(s, first), n - 1);
      RunAppend(s, first, rest);
      steps := first + rest;
    }
  }
}
