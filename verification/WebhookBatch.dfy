/**
 The batching webhook shipper: callers offer entries to a bounded channel, one processor
 goroutine moves them into a batch, and the batch is flushed when full, on a tick and on close.
 */
module WebhookBatch {
  import opened Basics

  /** An audit entry, by identity. */
  type Entry = nat

  const CAPACITY: int := 1000

  /** Ten seconds, in nanoseconds: what the client gets when no timeout is configured. */
  const DEFAULT: int := 10_000_000_000

  /** `timeout` is the configured one, in nanoseconds. */
  datatype Config = Config(batchSize: int, timeout: int)

  /** How the endpoint would answer one request: after how long, and whether with success. */
  datatype Reply = Reply(takes: nat, ok: bool)

  /** The client's own limit, which only a positive timeout sets. */
  function ClientLimit(cfg: Config): int {
    if cfg.timeout == 0 then DEFAULT else cfg.timeout
  }

  predicate ClientWaits(cfg: Config, r: Reply) {
    ClientLimit(cfg) <= 0 || r.takes < ClientLimit(cfg)
  }

  /** A request begun at `now` under a context that ends at `deadline`. */
  predicate Answered(cfg: Config, r: Reply, now: int, deadline: int) {
    r.ok && now + r.takes < deadline && ClientWaits(cfg, r)
  }

  /**
   The clock, the channel, the batch, whether close was signalled and whether the processor
   still runs; then what has been accepted into the channel, flushed with which replies,
   delivered, sent one by one, and of that what arrived.
   */
  datatype State = State(
    now: int, channel: seq<Entry>, batch: seq<Entry>, closed: bool, running: bool,
    accepted: seq<Entry>, flushed: seq<seq<Entry>>, replies: seq<Reply>, delivered: seq<seq<Entry>>,
    direct: seq<Entry>, arrived: seq<Entry>)

  function Initial(cfg: Config, now: int): State {
    State(now, [], [], false, cfg.batchSize > 0, [], [], [], [], [], [])
  }

  /** The atomic steps, with the reply that a request made in the step would get. */
  datatype Step =
    | Elapse(duration: nat)
    | Ship(entry: Entry, reply: Reply)
    | Receive(reply: Reply)
    | Tick(reply: Reply)
    | Close
    | Quit(reply: Reply)

  /** The flush gives its request the configured timeout from now on. */
  function Flush(cfg: Config, s: State, r: Reply): State {
    if s.batch == [] then s
    else s.(batch := [], flushed := s.flushed + [s.batch], replies := s.replies + [r],
            delivered := if Answered(cfg, r, s.now, s.now + cfg.timeout) then s.delivered + [s.batch] else s.delivered)
  }

  predicate Enabled(cfg: Config, s: State, step: Step) {
    match step
    case Elapse(_) => true
    case Ship(_, _) => true
    case Receive(_) => s.running && s.channel != []
    case Tick(_) => s.running
    case Close => true
    case Quit(_) => s.running && s.closed
  }

  /** A step that is not enabled leaves the state alone, so every step sequence is a run. */
  function Next(cfg: Config, s: State, step: Step): State {
    if !Enabled(cfg, s, step) then s
    else match step
      case Elapse(d) => s.(now := s.now + d)
      case Ship(e, r) =>
        if cfg.batchSize > 0 && |s.channel| < CAPACITY
        then s.(channel := s.channel + [e], accepted := s.accepted + [e])
        else s.(direct := s.direct + [e],
                arrived := if r.ok && ClientWaits(cfg, r) then s.arrived + [e] else s.arrived)
      case Receive(r) =>
        var t := s.(channel := s.channel[1..], batch := s.batch + [s.channel[0]]);
        if |t.batch| >= cfg.batchSize then Flush(cfg, t, r) else t
      case Tick(r) => Flush(cfg, s, r)
      case Close => s.(closed := true)
      case Quit(r) => Flush(cfg, s, r).(running := false)
  }

  function Run(cfg: Config, s: State, steps: seq<Step>): State
    decreases steps
  {
    if steps == [] then s else Run(cfg, Next(cfg, s, steps[0]), steps[1..])
  }

  class WebhookShipper {
    const cfg: Config
    var now: int
    var channel: seq<Entry>
    var batch: seq<Entry>
    var closed: bool
    var running: bool
    var accepted: seq<Entry>
    var flushed: seq<seq<Entry>>
    var replies: seq<Reply>
    var delivered: seq<seq<Entry>>
    var direct: seq<Entry>
    var arrived: seq<Entry>

    ghost function Now(): State
      reads this
    {
      State(now, channel, batch, closed, running, accepted, flushed, replies, delivered, direct, arrived)
    }

    constructor (cfg: Config, now: int)
      ensures this.cfg == cfg && Now() == Initial(cfg, now)
    {
      this.cfg, this.now := cfg, now;
      channel, batch, accepted, direct, arrived := [], [], [], [], [];
      flushed, replies, delivered := [], [], [];
      closed, running := false, cfg.batchSize > 0;
    }

    method Ship(entry: Entry, reply: Reply)
      modifies this
      ensures Now() == Next(cfg, old(Now()), Step.Ship(entry, reply))
    {
      if cfg.batchSize > 0 && |channel| < CAPACITY {
        channel := channel + [entry];
        accepted := accepted + [entry];
        return;
      }
      direct := direct + [entry];
      if reply.ok && ClientWaits(cfg, reply) {
        arrived := arrived + [entry];
      }
    }

    method FlushBatch(reply: Reply)
      modifies this
      ensures Now() == Flush(cfg, old(Now()), reply)
    {
      if |batch| == 0 {
        return;
      }
      var deadline := now + cfg.timeout;
      flushed, replies := flushed + [batch], replies + [reply];
      if Answered(cfg, reply, now, deadline) {
        delivered := delivered + [batch];
      }
      batch := [];
    }

    /** The three arms of the processor's select. */
    method OnEntry(reply: Reply)
      requires running && channel != []
      modifies this
      ensures Now() == Next(cfg, old(Now()), Receive(reply))
    {
      batch := batch + [channel[0]];
      channel := channel[1..];
      if |batch| >= cfg.batchSize {
        FlushBatch(reply);
      }
    }

    method OnTick(reply: Reply)
      requires running
      modifies this
      ensures Now() == Next(cfg, old(Now()), Tick(reply))
    {
      FlushBatch(reply);
    }

    method OnClosed(reply: Reply)
      requires running && closed
      modifies this
      ensures Now() == Next(cfg, old(Now()), Quit(reply))
    {
      FlushBatch(reply);
      running := false;
    }

    method Close()
      modifies this
      ensures Now() == Next(cfg, old(Now()), Step.Close)
    {
      closed := true;
    }
  }

  /** What was accepted is what was flushed, then the batch, then the channel. */
  ghost predicate Conserved(s: State) {
    s.accepted == Flatten(s.flushed) + s.batch + s.channel
  }

  ghost predicate Shaped(cfg: Config, s: State) {
    && |s.channel| <= CAPACITY
    && (forall i :: 0 <= i < |s.flushed| ==> 1 <= |s.flushed[i]| <= cfg.batchSize)
    && (s.batch != [] ==> |s.batch| < cfg.batchSize)
    && (cfg.batchSize <= 0 ==> !s.running && s.accepted == [])
    && (!s.running ==> s.batch == [])
  }

  /** The bookkeeping every reachable state keeps. */
  ghost predicate Inv(cfg: Config, s: State) {
    Conserved(s) && Shaped(cfg, s)
  }

  lemma FlushKeeps(cfg: Config, s: State, reply: Reply)
    requires Conserved(s)
    ensures Conserved(Flush(cfg, s, reply))
  {
    FlattenAppend(s.flushed, [s.batch]);
    assert Flatten([s.batch]) == s.batch + Flatten([s.batch][1..]) == s.batch;
    assert Flatten(s.flushed) + s.batch + [] + s.channel == Flatten(s.flushed) + s.batch + s.channel;
  }

  lemma ShipKeeps<T>(sent: seq<T>, batch: seq<T>, channel: seq<T>, e: T)
    ensures sent + batch + channel + [e] == sent + batch + (channel + [e])
  {
  }

  lemma ReceiveKeeps<T>(sent: seq<T>, batch: seq<T>, channel: seq<T>)
    requires channel != []
    ensures sent + batch + channel == sent + (batch + [channel[0]]) + channel[1..]
  {
    assert channel == [channel[0]] + channel[1..];
  }

  lemma ConservedStep(cfg: Config, s: State, step: Step)
    requires Conserved(s)
    ensures Conserved(Next(cfg, s, step))
  {
    if Enabled(cfg, s, step) {
      match step
      case Elapse(_) =>
      case Ship(e, _) => ShipKeeps(Flatten(s.flushed), s.batch, s.channel, e);
      case Close =>
      case Tick(reply) => FlushKeeps(cfg, s, reply);
      case Quit(reply) => FlushKeeps(cfg, s, reply);
      case Receive(reply) =>
        var t := s.(channel := s.channel[1..], batch := s.batch + [s.channel[0]]);
        ReceiveKeeps(Flatten(s.flushed), s.batch, s.channel);
        FlushKeeps(cfg, t, reply);
    }
  }

  lemma ShapedStep(cfg: Config, s: State, step: Step)
    requires Shaped(cfg, s)
    ensures Shaped(cfg, Next(cfg, s, step))
  {
  }

  /**
   In every run: accepted entries are the flushed ones, then the batch, then the channel, in
   order; every flush holds between one entry and a full batch; and once the processor has
   quit, the accepted entries never flushed are exactly those in the channel.
   */
  lemma {:induction false} BatchingConserves(cfg: Config, s: State, steps: seq<Step>)
    requires Inv(cfg, s)
    ensures Inv(cfg, Run(cfg, s, steps))
    ensures var t := Run(cfg, s, steps); !t.running ==> t.accepted == Flatten(t.flushed) + t.channel
    decreases steps
  {
    if steps == [] {
      assert !s.running ==> Flatten(s.flushed) + [] + s.channel == Flatten(s.flushed) + s.channel;
    } else {
      ConservedStep(cfg, s, steps[0]);
      ShapedStep(cfg, s, steps[0]);
      BatchingConserves(cfg, Next(cfg, s, steps[0]), steps[1..]);
    }
  }

  lemma TickEmpties(cfg: Config, s: State, reply: Reply)
    requires Conserved(s) && s.running
    ensures var t := Next(cfg, s, Tick(reply));
            t.accepted == Flatten(t.flushed) + t.channel && t.channel == s.channel && t.accepted == s.accepted
  {
    var t := Next(cfg, s, Tick(reply));
    FlushKeeps(cfg, s, reply);
    assert t == Flush(cfg, s, reply) && t.batch == [];
    assert Flatten(t.flushed) + [] == Flatten(t.flushed);
  }

  /** Right after a tick only the channel is still to be flushed. */
  lemma TickFlushesAll(cfg: Config, now: int, steps: seq<Step>, reply: Reply)
    requires Run(cfg, Initial(cfg, now), steps).running
    ensures var s := Run(cfg, Initial(cfg, now), steps);
            var t := Next(cfg, s, Tick(reply));
            t.accepted == Flatten(t.flushed) + t.channel && t.channel == s.channel && t.accepted == s.accepted
  {
    BatchingConserves(cfg, Initial(cfg, now), steps);
    TickEmpties(cfg, Run(cfg, Initial(cfg, now), steps), reply);
  }

  predicate Distinct(s: seq<Entry>) {
    forall i, j :: 0 <= i < j < |s| ==> s[i] != s[j]
  }

  lemma {:induction false} BlockInFlatten(ss: seq<seq<Entry>>, i: nat, e: Entry)
    requires i < |ss| && e in ss[i]
    ensures e in Flatten(ss)
  {
    if i > 0 {
      BlockInFlatten(ss[1..], i - 1, e);
    }
  }

  lemma {:induction false} DistinctBlocks(ss: seq<seq<Entry>>, i: nat, j: nat, e: Entry)
    requires i < j < |ss| && Distinct(Flatten(ss))
    ensures !(e in ss[i] && e in ss[j])
  {
    var rest := Flatten(ss[1..]);
    assert Flatten(ss) == ss[0] + rest;
    if i == 0 {
      if e in ss[j] {
        BlockInFlatten(ss[1..], j - 1, e);
        var k :| 0 <= k < |rest| && rest[k] == e;
        assert Flatten(ss)[|ss[0]| + k] == e;
        assert forall l :: 0 <= l < |ss[0]| ==> Flatten(ss)[l] == ss[0][l];
      }
    } else {
      assert forall k :: 0 <= k < |rest| ==> rest[k] == Flatten(ss)[|ss[0]| + k];
      DistinctBlocks(ss[1..], i - 1, j - 1, e);
    }
  }

  lemma DistinctParts(a: seq<Entry>, b: seq<Entry>, e: Entry)
    requires Distinct(a + b)
    ensures Distinct(a) && !(e in a && e in b)
  {
    assert forall k :: 0 <= k < |a| ==> a[k] == (a + b)[k];
    assert forall k :: 0 <= k < |b| ==> b[k] == (a + b)[|a| + k];
  }

  lemma ConservedOnce(t: State, i: nat, j: nat, e: Entry)
    requires Conserved(t) && Distinct(t.accepted) && i < |t.flushed|
    ensures i < j < |t.flushed| ==> !(e in t.flushed[i] && e in t.flushed[j])
    ensures !(e in t.flushed[i] && e in t.batch + t.channel)
  {
    var sent, rest := Flatten(t.flushed), t.batch + t.channel;
    assert t.accepted == sent + rest;
    DistinctParts(sent, rest, e);
    if i < j < |t.flushed| {
      DistinctBlocks(t.flushed, i, j, e);
    }
    if e in t.flushed[i] {
      BlockInFlatten(t.flushed, i, e);
    }
  }

  /** When entries are distinct, none is ever in two flushes, nor both flushed and still queued. */
  lemma FlushedOnce(cfg: Config, now: int, steps: seq<Step>, i: nat, j: nat, e: Entry)
    requires var t := Run(cfg, Initial(cfg, now), steps); Distinct(t.accepted) && i < |t.flushed|
    ensures var t := Run(cfg, Initial(cfg, now), steps);
            && (i < j < |t.flushed| ==> !(e in t.flushed[i] && e in t.flushed[j]))
            && !(e in t.flushed[i] && e in t.batch + t.channel)
  {
    BatchingConserves(cfg, Initial(cfg, now), steps);
    ConservedOnce(Run(cfg, Initial(cfg, now), steps), i, j, e);
  }

  /** After the processor has quit nothing is flushed any more, though Ship still accepts into the channel. */
  lemma {:induction false} NothingFlushedAfterQuit(cfg: Config, s: State, steps: seq<Step>)
    requires !s.running
    ensures var t := Run(cfg, s, steps); !t.running && t.flushed == s.flushed && s.channel <= t.channel
    decreases steps
  {
    if steps != [] {
      NothingFlushedAfterQuit(cfg, Next(cfg, s, steps[0]), steps[1..]);
    }
  }

  /** The entries offered over a run. */
  function Offered(steps: seq<Step>): seq<Entry> {
    if steps == [] then []
    else if steps[0].Ship? then [steps[0].entry] + Offered(steps[1..])
    else Offered(steps[1..])
  }

  function OfferedBy(step: Step): multiset<Entry> {
    if step.Ship? then multiset{step.entry} else multiset{}
  }

  /** What the shipper has taken in, by either way. */
  function TakenIn(s: State): multiset<Entry> {
    multiset(s.accepted) + multiset(s.direct)
  }

  lemma ShipTaken(cfg: Config, s: State, step: Step)
    ensures TakenIn(Next(cfg, s, step)) == TakenIn(s) + OfferedBy(step)
  {
    var t := Next(cfg, s, step);
    if step.Ship? {
      assert multiset(s.accepted + [step.entry]) == multiset(s.accepted) + multiset{step.entry};
      assert multiset(s.direct + [step.entry]) == multiset(s.direct) + multiset{step.entry};
    } else {
      assert t.accepted == s.accepted && t.direct == s.direct;
    }
  }

  /**
   Every shipped entry, as often as it was shipped, is either accepted into the channel or sent
   directly, never both.
   */
  lemma {:induction false} EveryShipCounted(cfg: Config, s: State, steps: seq<Step>)
    ensures var t := Run(cfg, s, steps);
            multiset(t.accepted) + multiset(t.direct)
              == multiset(s.accepted) + multiset(s.direct) + multiset(Offered(steps))
    decreases steps
  {
    if steps != [] {
      ShipTaken(cfg, s, steps[0]);
      assert multiset(Offered(steps)) == OfferedBy(steps[0]) + multiset(Offered(steps[1..]));
      EveryShipCounted(cfg, Next(cfg, s, steps[0]), steps[1..]);
    }
  }

  /** An entry is queued exactly when batching is on and fewer than a thousand are waiting. */
  lemma QueuedIff(cfg: Config, s: State, e: Entry, r: Reply)
    ensures var t := Next(cfg, s, Step.Ship(e, r));
            if cfg.batchSize > 0 && |s.channel| < 1000
            then t == s.(channel := s.channel + [e], accepted := s.accepted + [e])
            else t.direct == s.direct + [e] && t.channel == s.channel && t.accepted == s.accepted
  {
  }

  /** In every run a received entry sets off a flush exactly when it fills the batch. */
  lemma FlushedWhenFull(cfg: Config, now: int, steps: seq<Step>, r: Reply)
    requires var s := Run(cfg, Initial(cfg, now), steps); s.running && s.channel != []
    ensures var s := Run(cfg, Initial(cfg, now), steps);
            var t := Next(cfg, s, Receive(r));
            if |s.batch| + 1 == cfg.batchSize
            then t.batch == [] && t.flushed == s.flushed + [s.batch + [s.channel[0]]]
            else t.batch == s.batch + [s.channel[0]] && t.flushed == s.flushed
  {
    BatchingConserves(cfg, Initial(cfg, now), steps);
  }

  /** The processor of a batching shipper quits only once close was signalled. */
  lemma {:induction false} QuitsOnlyWhenClosed(cfg: Config, s: State, steps: seq<Step>)
    requires cfg.batchSize > 0 && (!s.running ==> s.closed)
    ensures var t := Run(cfg, s, steps); !t.running ==> t.closed
    decreases steps
  {
    if steps != [] {
      QuitsOnlyWhenClosed(cfg, Next(cfg, s, steps[0]), steps[1..]);
    }
  }

  /** A direct send arrives exactly when it is answered with success within the client's limit. */
  lemma DirectArrivesIff(cfg: Config, s: State, e: Entry, r: Reply)
    requires cfg.batchSize <= 0 || |s.channel| >= 1000
    ensures var limit := if cfg.timeout == 0 then 10_000_000_000 else cfg.timeout;
            Next(cfg, s, Step.Ship(e, r)).arrived ==
              if r.ok && (limit < 0 || r.takes < limit) then s.arrived + [e] else s.arrived
  {
  }

  /** Close and the processor's next turn end it, the batch flushed and the channel as it was. */
  lemma CloseEnds(cfg: Config, s: State, r: Reply)
    requires s.running
    ensures var t := Next(cfg, Next(cfg, s, Close), Quit(r));
            && !t.running && t.closed && t.batch == [] && t.channel == s.channel
            && t.flushed == if s.batch == [] then s.flushed else s.flushed + [s.batch]
  {
  }

  /** Time passes without anything else happening. */
  lemma TimePasses(cfg: Config, s: State, d: nat)
    ensures Next(cfg, s, Elapse(d)) == s.(now := s.now + d)
  {
  }

  // ---- what is delivered ----

  /** The answer is a success and comes within the configured timeout. */
  predicate Prompt(cfg: Config, r: Reply) {
    r.ok && r.takes < cfg.timeout
  }

  function Answerable(cfg: Config, batches: seq<seq<Entry>>, replies: seq<Reply>): seq<seq<Entry>>
    requires |batches| == |replies|
  {
    if batches == [] then []
    else
      var n := |batches| - 1;
      var front := Answerable(cfg, batches[..n], replies[..n]);
      if Prompt(cfg, replies[n]) then front + [batches[n]] else front
  }

  ghost predicate Accounted(cfg: Config, s: State) {
    |s.replies| == |s.flushed| && s.delivered == Answerable(cfg, s.flushed, s.replies)
  }

  /** Of the two limits on a flush the configured timeout decides: the client's default never does. */
  lemma FlushAccounted(cfg: Config, s: State, r: Reply)
    requires Accounted(cfg, s)
    ensures Accounted(cfg, Flush(cfg, s, r))
  {
    var t := Flush(cfg, s, r);
    if s.batch != [] {
      assert t.flushed[..|s.flushed|] == s.flushed && t.replies[..|s.flushed|] == s.replies;
    }
  }

  lemma AccountedStep(cfg: Config, s: State, step: Step)
    requires Accounted(cfg, s)
    ensures Accounted(cfg, Next(cfg, s, step))
  {
    if Enabled(cfg, s, step) {
      match step
      case Elapse(_) =>
      case Ship(_, _) =>
      case Close =>
      case Tick(r) => FlushAccounted(cfg, s, r);
      case Quit(r) => FlushAccounted(cfg, s, r);
      case Receive(r) =>
        FlushAccounted(cfg, s.(channel := s.channel[1..], batch := s.batch + [s.channel[0]]), r);
    }
  }

  /** In every run the delivered batches are exactly the flushed ones whose reply came within the configured timeout. */
  lemma {:induction false} DeliveredExactly(cfg: Config, s: State, steps: seq<Step>)
    requires Accounted(cfg, s)
    ensures Accounted(cfg, Run(cfg, s, steps))
    decreases steps
  {
    if steps != [] {
      AccountedStep(cfg, s, steps[0]);
      DeliveredExactly(cfg, Next(cfg, s, steps[0]), steps[1..]);
    }
  }

  lemma {:induction false} NoneAnswerable(cfg: Config, batches: seq<seq<Entry>>, replies: seq<Reply>)
    requires |batches| == |replies| && cfg.timeout <= 0
    ensures Answerable(cfg, batches, replies) == []
  {
    if batches != [] {
      NoneAnswerable(cfg, batches[..|batches| - 1], replies[..|batches| - 1]);
    }
  }

  /** With no timeout configured every flush is lost, however quick the endpoint. */
  lemma NoTimeoutDeliversNothing(cfg: Config, now: int, steps: seq<Step>)
    requires cfg.timeout <= 0
    ensures Run(cfg, Initial(cfg, now), steps).delivered == []
  {
    var t := Run(cfg, Initial(cfg, now), steps);
    DeliveredExactly(cfg, Initial(cfg, now), steps);
    NoneAnswerable(cfg, t.flushed, t.replies);
  }

  /** One entry shipped, received and ticked out is delivered at once. */
  lemma OneDelivered(cfg: Config, now: int, e: Entry) returns (steps: seq<Step>)
    requires cfg.timeout > 0 && cfg.batchSize > 0
    ensures Run(cfg, Initial(cfg, now), steps).delivered == [[e]]
  {
    var quick := Reply(0, true);
    var a := Next(cfg, Initial(cfg, now), Step.Ship(e, quick));
    var b := Next(cfg, a, Receive(quick));
    var c := Next(cfg, b, Tick(quick));
    assert a.channel == [e] && c.delivered == [[e]];
    assert Run(cfg, b, [Tick(quick)]) == Run(cfg, c, []);
    assert [Receive(quick), Tick(quick)][1..] == [Tick(quick)];
    assert Run(cfg, a, [Receive(quick), Tick(quick)]) == Run(cfg, b, [Tick(quick)]);
    steps := [Step.Ship(e, quick), Receive(quick), Tick(quick)];
    assert steps[1..] == [Receive(quick), Tick(quick)];
    assert Run(cfg, Initial(cfg, now), steps) == Run(cfg, a, steps[1..]);
  }

  /** A batching shipper can deliver anything at all if and only if a positive timeout is configured. */
  lemma DeliversIffTimeout(cfg: Config, now: int)
    requires cfg.batchSize > 0
    ensures (exists steps :: Run(cfg, Initial(cfg, now), steps).delivered != []) <==> cfg.timeout > 0
  {
    if cfg.timeout > 0 {
      var steps := OneDelivered(cfg, now, 0);
      assert Run(cfg, Initial(cfg, now), steps).delivered != [];
    } else {
      forall steps ensures Run(cfg, Initial(cfg, now), steps).delivered == [] {
        NoTimeoutDeliversNothing(cfg, now, steps);
      }
    }
  }

  ghost predicate AllPrompt(cfg: Config, replies: seq<Reply>) {
    forall i :: 0 <= i < |replies| ==> Prompt(cfg, replies[i])
  }

  lemma {:induction false} AllAnswerable(cfg: Config, batches: seq<seq<Entry>>, replies: seq<Reply>)
    requires |batches| == |replies| && AllPrompt(cfg, replies)
    ensures Answerable(cfg, batches, replies) == batches
  {
    if batches != [] {
      AllAnswerable(cfg, batches[..|batches| - 1], replies[..|batches| - 1]);
    }
  }

  /** If every flush is answered in time, every flushed batch is delivered. */
  lemma TimeoutDeliversAll(cfg: Config, now: int, steps: seq<Step>)
    requires AllPrompt(cfg, Run(cfg, Initial(cfg, now), steps).replies)
    ensures var t := Run(cfg, Initial(cfg, now), steps); t.delivered == t.flushed
  {
    var t := Run(cfg, Initial(cfg, now), steps);
    DeliveredExactly(cfg, Initial(cfg, now), steps);
    AllAnswerable(cfg, t.flushed, t.replies);
  }

  /** Direct sends do get the default: with no timeout configured, those answered within ten seconds arrive. */
  lemma {:induction false} DirectSendsArrive(cfg: Config, s: State, steps: seq<Step>)
    requires cfg.timeout == 0 && s.arrived == s.direct
    requires forall i :: 0 <= i < |steps| && steps[i].Ship? ==>
               steps[i].reply.ok && steps[i].reply.takes < 10_000_000_000
    ensures Run(cfg, s, steps).arrived == Run(cfg, s, steps).direct
    decreases steps
  {
    if steps != [] {
      DirectSendsArrive(cfg, Next(cfg, s, steps[0]), steps[1..]);
    }
  }
}
