/**
 Scan workers draining one shared queue: each process claims a batch of pending rows in one
 statement that skips rows locked by another, runs a bounded number of scans at once, waits for
 the whole batch, and claims again until it gets nothing. A restarting process returns stale
 rows to pending.
 */
module ScanClaims {
  import opened Basics

  type ScanId = nat

  /** `since` is the row's last update. */
  datatype Status = Pending | Scanning(since: int) | Finished

  /**
   Claiming has locked rows in a statement not yet committed; Cycle has the claimed scans not
   started yet and those in a live scanOne call.
   */
  datatype Worker =
    | Idle
    | Cycle(queued: set<ScanId>, live: set<ScanId>)
    | Claiming(ids: set<ScanId>)
    | Drained
    | Aborted

  /**
   `touched` are the pending rows that some statement other than a claim has locked;
   `overstayed` records the scans that a stale reset took while some worker still held them.
   */
  datatype State = State(
    now: int, rows: map<ScanId, Status>, workers: seq<Worker>, touched: set<ScanId>, overstayed: set<ScanId>)

  const STALE: int := 30 * 60

  datatype Config = Config(configured: int)

  function WorkerCount(cfg: Config): int {
    if cfg.configured <= 0 then 2 else cfg.configured
  }

  function PendingIds(rows: map<ScanId, Status>): set<ScanId> {
    set id | id in rows && rows[id].Pending?
  }

  predicate Locks(w: Worker, id: ScanId) {
    w.Claiming? && id in w.ids
  }

  /** Some claim in flight, or another statement, has the row locked. */
  predicate Locked(s: State, id: ScanId) {
    id in s.touched || exists w :: 0 <= w < |s.workers| && Locks(s.workers[w], id)
  }

  /** The pending rows a claim can take. */
  function Free(s: State): set<ScanId> {
    set id | id in PendingIds(s.rows) && !Locked(s, id)
  }

  function StaleIds(s: State): set<ScanId> {
    set id | id in s.rows && s.rows[id].Scanning? && s.rows[id].since < s.now - STALE
  }

  predicate Holds(w: Worker, id: ScanId) {
    w.Cycle? && (id in w.queued || id in w.live)
  }

  predicate Held(s: State, id: ScanId) {
    exists w :: 0 <= w < |s.workers| && Holds(s.workers[w], id)
  }

  /**
   Claim locks `ids`, as many unlocked pending rows as the limit and the queue allow; an empty
   claim ends the cycle. Commit makes the claim. Launch starts one claimed scan when a
   semaphore slot is free. Settle ends one, its row update succeeding or not; the update of a
   locked row waits. Abort is a claim error, which rolls back, or a cancelled context; Crash
   loses the process. Enqueue is a publish or a rescan request. Touch and Release bracket any
   other statement that locks a pending row: a rescan request does, although it then leaves the
   row alone, and so does the late update of a row that a stale reset took.
   */
  datatype Step =
    | Wait(seconds: nat)
    | Enqueue(id: ScanId)
    | Touch(id: ScanId)
    | Release(id: ScanId)
    | Begin(worker: nat)
    | Claim(worker: nat, ids: set<ScanId>)
    | Commit(worker: nat)
    | Launch(worker: nat, id: ScanId)
    | Settle(worker: nat, id: ScanId, stored: bool)
    | Abort(worker: nat)
    | Crash(worker: nat)
    | ResetStale

  predicate Enabled(cfg: Config, s: State, step: Step) {
    match step
    case Wait(_) => true
    case Enqueue(_) => true
    case Touch(id) => id in Free(s)
    case Release(id) => id in s.touched
    case ResetStale => true
    case Begin(w) => w < |s.workers| && !s.workers[w].Cycle? && !s.workers[w].Claiming?
    case Claim(w, ids) =>
      && w < |s.workers| && s.workers[w] == Cycle({}, {})
      && ids <= Free(s)
      && |ids| == Min(2 * WorkerCount(cfg), |Free(s)|)
    case Commit(w) => w < |s.workers| && s.workers[w].Claiming?
    case Launch(w, id) =>
      && w < |s.workers| && s.workers[w].Cycle?
      && id in s.workers[w].queued && |s.workers[w].live| < WorkerCount(cfg)
    case Settle(w, id, stored) =>
      w < |s.workers| && s.workers[w].Cycle? && id in s.workers[w].live && (stored ==> !Locked(s, id))
    case Abort(w) => w < |s.workers| && (s.workers[w] == Cycle({}, {}) || s.workers[w].Claiming?)
    case Crash(w) => w < |s.workers|
  }

  function Next(cfg: Config, s: State, step: Step): State {
    if !Enabled(cfg, s, step) then s
    else match step
      case Wait(d) => s.(now := s.now + d)
      case Enqueue(id) =>
        if id in s.rows && !s.rows[id].Finished? then s else s.(rows := s.rows[id := Pending])
      case Touch(id) => s.(touched := s.touched + {id})
      case Release(id) => s.(touched := s.touched - {id})
      case Begin(w) => s.(workers := s.workers[w := Cycle({}, {})])
      case Claim(w, ids) =>
        s.(workers := s.workers[w := if ids == {} then Drained else Claiming(ids)])
      case Commit(w) =>
        var ids := s.workers[w].ids;
        s.(rows := map id | id in s.rows :: if id in ids then Scanning(s.now) else s.rows[id],
           workers := s.workers[w := Cycle(ids, {})])
      case Launch(w, id) =>
        var c := s.workers[w];
        s.(workers := s.workers[w := Cycle(c.queued - {id}, c.live + {id})])
      case Settle(w, id, stored) =>
        var c := s.workers[w];
        s.(workers := s.workers[w := Cycle(c.queued, c.live - {id})],
           rows := if stored && id in s.rows then s.rows[id := Finished] else s.rows)
      case Abort(w) => s.(workers := s.workers[w := Aborted])
      case Crash(w) => s.(workers := s.workers[w := Idle])
      case ResetStale =>
        var stale := StaleIds(s);
        s.(rows := map id | id in s.rows :: if id in stale then Pending else s.rows[id],
           overstayed := s.overstayed + set id | id in stale && Held(s, id))
  }

  function Run(cfg: Config, s: State, steps: seq<Step>): State
    decreases steps
  {
    if steps == [] then s else Run(cfg, Next(cfg, s, steps[0]), steps[1..])
  }

  /** Two different workers hold the scan at once. */
  predicate Shared(s: State, id: ScanId) {
    exists v, w :: 0 <= v < w < |s.workers| && Holds(s.workers[v], id) && Holds(s.workers[w], id)
  }

  /** Claims in flight are not empty, lock pending rows, and share none, nor do other statements. */
  ghost predicate LocksInv(s: State) {
    && s.touched <= PendingIds(s.rows)
    && (forall w, id :: 0 <= w < |s.workers| && Locks(s.workers[w], id) ==> id !in s.touched)
    && (forall w :: 0 <= w < |s.workers| && s.workers[w].Claiming? ==> s.workers[w].ids != {})
    && (forall w, id :: 0 <= w < |s.workers| && Locks(s.workers[w], id) ==> id in s.rows && s.rows[id].Pending?)
    && (forall v, w, id :: 0 <= v < w < |s.workers| ==> !(Locks(s.workers[v], id) && Locks(s.workers[w], id)))
  }

  ghost predicate HoldsInv(cfg: Config, s: State) {
    && (forall w :: 0 <= w < |s.workers| && s.workers[w].Cycle? ==>
          s.workers[w].queued !! s.workers[w].live && |s.workers[w].live| <= WorkerCount(cfg))
    && (forall w, id :: 0 <= w < |s.workers| && Holds(s.workers[w], id) && id !in s.overstayed ==>
          id in s.rows && s.rows[id].Scanning?)
    && (forall v, w, id :: 0 <= v < w < |s.workers| && Holds(s.workers[v], id) && Holds(s.workers[w], id) ==>
          id in s.overstayed)
  }

  ghost predicate Inv(cfg: Config, s: State) {
    HoldsInv(cfg, s) && LocksInv(s)
  }

  /** Giving a worker less to hold, and changing no row that any other worker holds, keeps the invariant. */
  lemma HoldsRelease(cfg: Config, s: State, t: State, w: nat)
    requires HoldsInv(cfg, s) && w < |s.workers|
    requires |t.workers| == |s.workers| && t.workers == s.workers[w := t.workers[w]]
    requires t.workers[w].Cycle? ==>
               t.workers[w].queued !! t.workers[w].live && |t.workers[w].live| <= WorkerCount(cfg)
    requires forall id :: Holds(t.workers[w], id) ==> Holds(s.workers[w], id)
    requires t.overstayed == s.overstayed
    requires forall id :: id in s.rows && t.rows != s.rows && (id !in t.rows || t.rows[id] != s.rows[id]) ==>
               Holds(s.workers[w], id) && !Holds(t.workers[w], id)
    ensures HoldsInv(cfg, t)
  {
    forall v, id | 0 <= v < |t.workers| && Holds(t.workers[v], id) && id !in t.overstayed
      ensures id in t.rows && t.rows[id].Scanning?
    {
      assert Holds(s.workers[v], id);
      assert v == w || !Holds(s.workers[w], id);
    }
  }

  /** Locking no more, and changing no locked row, keeps the locks sound. */
  lemma LocksRelease(s: State, t: State, w: nat)
    requires LocksInv(s) && w < |s.workers|
    requires |t.workers| == |s.workers| && t.workers == s.workers[w := t.workers[w]] && !t.workers[w].Claiming?
    requires t.touched == s.touched && forall id :: Locked(s, id) ==> id in t.rows && t.rows[id] == s.rows[id]
    ensures LocksInv(t)
  {
    forall v, id | 0 <= v < |t.workers| && Locks(t.workers[v], id)
      ensures id in t.rows && t.rows[id].Pending? && id !in t.touched
    {
      assert Locks(s.workers[v], id);
      assert Locked(s, id);
    }
    assert forall id :: id in s.touched ==> Locked(s, id);
  }

  lemma ClaimLocks(cfg: Config, s: State, w: nat, ids: set<ScanId>)
    requires LocksInv(s) && Enabled(cfg, s, Claim(w, ids)) && ids != {}
    ensures LocksInv(Next(cfg, s, Claim(w, ids)))
  {
    var t := Next(cfg, s, Claim(w, ids));
    forall v, id | 0 <= v < |t.workers| && v != w && Locks(t.workers[v], id) ensures id !in ids {
      assert Locks(s.workers[v], id);
      assert Locked(s, id);
    }
    assert forall id :: Locks(t.workers[w], id) <==> id in ids;
    assert forall id :: id in ids ==> id in Free(s) && !Locked(s, id);
  }

  lemma InvClaim(cfg: Config, s: State, w: nat, ids: set<ScanId>)
    requires Inv(cfg, s) && Enabled(cfg, s, Claim(w, ids)) && ids != {}
    ensures Inv(cfg, Next(cfg, s, Claim(w, ids)))
  {
    HoldsRelease(cfg, s, Next(cfg, s, Claim(w, ids)), w);
    ClaimLocks(cfg, s, w, ids);
  }

  lemma CommitHolds(cfg: Config, s: State, w: nat)
    requires Inv(cfg, s) && Enabled(cfg, s, Commit(w))
    ensures HoldsInv(cfg, Next(cfg, s, Commit(w)))
  {
    var t, ids := Next(cfg, s, Commit(w)), s.workers[w].ids;
    assert forall id :: id in ids ==> Locks(s.workers[w], id);
    forall v, id | 0 <= v < |t.workers| && v != w && Holds(t.workers[v], id) && id !in t.overstayed
      ensures id !in ids && id in t.rows && t.rows[id].Scanning?
    {
      assert Holds(s.workers[v], id);
    }
    assert forall id :: Holds(t.workers[w], id) <==> id in ids;
  }

  lemma CommitLocks(cfg: Config, s: State, w: nat)
    requires Inv(cfg, s) && Enabled(cfg, s, Commit(w))
    ensures LocksInv(Next(cfg, s, Commit(w)))
  {
    var t, ids := Next(cfg, s, Commit(w)), s.workers[w].ids;
    forall v, id | 0 <= v < |t.workers| && Locks(t.workers[v], id) ensures id in t.rows && t.rows[id].Pending? {
      assert Locks(s.workers[v], id);
      assert id in ids ==> Locks(s.workers[w], id);
    }
    assert forall v, id :: 0 <= v < |t.workers| && Locks(t.workers[v], id) ==> Locks(s.workers[v], id);
  }

  lemma ResetHolds(cfg: Config, s: State)
    requires HoldsInv(cfg, s)
    ensures HoldsInv(cfg, Next(cfg, s, ResetStale))
  {
    var t := Next(cfg, s, ResetStale);
    forall w, id | 0 <= w < |t.workers| && Holds(t.workers[w], id) && id !in t.overstayed
      ensures id in t.rows && t.rows[id].Scanning?
    {
      assert Holds(s.workers[w], id) && Held(s, id);
    }
  }

  lemma ResetLocks(cfg: Config, s: State)
    requires LocksInv(s)
    ensures LocksInv(Next(cfg, s, ResetStale))
  {
  }

  lemma InvLaunch(cfg: Config, s: State, w: nat, id: ScanId)
    requires Inv(cfg, s) && Enabled(cfg, s, Launch(w, id))
    ensures Inv(cfg, Next(cfg, s, Launch(w, id)))
  {
    HoldsRelease(cfg, s, Next(cfg, s, Launch(w, id)), w);
    LocksRelease(s, Next(cfg, s, Launch(w, id)), w);
  }

  lemma InvSettle(cfg: Config, s: State, w: nat, id: ScanId, stored: bool)
    requires Inv(cfg, s) && Enabled(cfg, s, Settle(w, id, stored))
    ensures Inv(cfg, Next(cfg, s, Settle(w, id, stored)))
  {
    HoldsRelease(cfg, s, Next(cfg, s, Settle(w, id, stored)), w);
    LocksRelease(s, Next(cfg, s, Settle(w, id, stored)), w);
  }

  /** A worker that comes to hold and lock nothing. */
  lemma InvEmptied(cfg: Config, s: State, w: nat, worker: Worker)
    requires Inv(cfg, s) && w < |s.workers| && !worker.Claiming?
    requires worker.Cycle? ==> worker == Cycle({}, {})
    ensures Inv(cfg, s.(workers := s.workers[w := worker]))
  {
    HoldsRelease(cfg, s, s.(workers := s.workers[w := worker]), w);
    LocksRelease(s, s.(workers := s.workers[w := worker]), w);
  }

  lemma TouchLocks(s: State, id: ScanId)
    requires LocksInv(s)
    ensures id in Free(s) ==> LocksInv(s.(touched := s.touched + {id}))
    ensures LocksInv(s.(touched := s.touched - {id}))
  {
    assert forall w :: 0 <= w < |s.workers| && Locks(s.workers[w], id) ==> Locked(s, id);
  }

  /** Locks of other statements leave what workers hold as it is. */
  lemma TouchHolds(cfg: Config, s: State, touched: set<ScanId>)
    requires HoldsInv(cfg, s)
    ensures HoldsInv(cfg, s.(touched := touched))
  {
  }

  lemma InvEnqueue(cfg: Config, s: State, id: ScanId)
    requires Inv(cfg, s)
    ensures Inv(cfg, Next(cfg, s, Enqueue(id)))
  {
  }

  lemma InvStep(cfg: Config, s: State, step: Step)
    requires Inv(cfg, s)
    ensures Inv(cfg, Next(cfg, s, step))
  {
    if Enabled(cfg, s, step) {
      match step
      case Wait(_) =>
      case Enqueue(id) => InvEnqueue(cfg, s, id);
      case Touch(id) =>
        TouchHolds(cfg, s, s.touched + {id});
        TouchLocks(s, id);
      case Release(id) =>
        TouchHolds(cfg, s, s.touched - {id});
        TouchLocks(s, id);
      case ResetStale =>
        ResetHolds(cfg, s);
        ResetLocks(cfg, s);
      case Begin(w) => InvEmptied(cfg, s, w, Cycle({}, {}));
      case Claim(w, ids) =>
        if ids == {} {
          InvEmptied(cfg, s, w, Drained);
        } else {
          InvClaim(cfg, s, w, ids);
        }
      case Commit(w) =>
        CommitHolds(cfg, s, w);
        CommitLocks(cfg, s, w);
      case Launch(w, id) => InvLaunch(cfg, s, w, id);
      case Settle(w, id, stored) => InvSettle(cfg, s, w, id, stored);
      case Abort(w) => InvEmptied(cfg, s, w, Aborted);
      case Crash(w) => InvEmptied(cfg, s, w, Idle);
    }
  }

  lemma {:induction false} InvRun(cfg: Config, s: State, steps: seq<Step>)
    requires Inv(cfg, s)
    ensures Inv(cfg, Run(cfg, s, steps))
    decreases steps
  {
    if steps != [] {
      InvStep(cfg, s, steps[0]);
      InvRun(cfg, Next(cfg, s, steps[0]), steps[1..]);
    }
  }

  ghost predicate Initial(s: State) {
    s.touched == {} && s.overstayed == {} && forall w :: 0 <= w < |s.workers| ==> s.workers[w].Idle?
  }

  /**
   For any number of workers and any interleaving: two workers hold the same scan only if a
   stale reset took it from a worker that still held it; and no worker ever runs more scans
   at once than its limit.
   */
  lemma ScansExclusive(cfg: Config, s: State, steps: seq<Step>)
    requires Initial(s)
    ensures var t := Run(cfg, s, steps);
            && (forall id :: Shared(t, id) ==> id in t.overstayed)
            && (forall w :: 0 <= w < |t.workers| && t.workers[w].Cycle? ==>
                  |t.workers[w].live| <= if cfg.configured > 0 then cfg.configured else 2)
  {
    InvRun(cfg, s, steps);
  }

  /** The stale reset never takes a row that was updated within the last thirty minutes. */
  lemma {:induction false} OverstayedWereStale(cfg: Config, s: State, steps: seq<Step>, id: ScanId)
    requires id !in s.overstayed && id in Run(cfg, s, steps).overstayed
    ensures exists n :: 0 <= n < |steps| && steps[n] == ResetStale && TakenAt(cfg, s, steps, n, id)
    decreases steps
  {
    var t := Next(cfg, s, steps[0]);
    if id in t.overstayed {
      assert steps[..0] == [];
      assert TakenAt(cfg, s, steps, 0, id);
    } else {
      OverstayedWereStale(cfg, t, steps[1..], id);
      var n :| 0 <= n < |steps| - 1 && steps[1..][n] == ResetStale && TakenAt(cfg, t, steps[1..], n, id);
      assert steps[..n + 1][1..] == steps[1..][..n];
      assert TakenAt(cfg, s, steps, n + 1, id);
    }
  }

  /** At the `n`-th step of the run the row has been scanning for over thirty minutes and is still held. */
  ghost predicate TakenAt(cfg: Config, s: State, steps: seq<Step>, n: nat, id: ScanId)
    requires n <= |steps|
  {
    var u := Run(cfg, s, steps[..n]);
    Held(u, id) && id in u.rows && u.rows[id].Scanning? && u.rows[id].since < u.now - 1800
  }

  /** At the `n`-th step the worker's claim came back empty. */
  ghost predicate EmptyClaimAt(cfg: Config, s: State, steps: seq<Step>, n: nat, w: nat)
    requires n < |steps|
  {
    steps[n] == Claim(w, {}) && Enabled(cfg, Run(cfg, s, steps[..n]), steps[n])
  }

  lemma {:induction false} RunSnoc(cfg: Config, s: State, steps: seq<Step>, n: nat)
    requires n < |steps|
    ensures Run(cfg, s, steps[..n + 1]) == Next(cfg, Run(cfg, s, steps[..n]), steps[n])
    decreases n
  {
    if n == 0 {
      assert steps[..1][1..] == [];
    } else {
      RunSnoc(cfg, Next(cfg, s, steps[0]), steps[1..], n - 1);
      assert steps[..n + 1][1..] == steps[1..][..n];
      assert steps[..n][1..] == steps[1..][..n - 1];
    }
  }

  ghost predicate DrainedAt(cfg: Config, s: State, steps: seq<Step>, n: nat, w: nat)
    requires n <= |steps|
  {
    var t := Run(cfg, s, steps[..n]);
    w < |t.workers| && t.workers[w].Drained?
  }

  lemma DrainedStep(cfg: Config, s: State, step: Step, w: nat)
    requires var t := Next(cfg, s, step); w < |t.workers| && t.workers[w].Drained?
    requires w < |s.workers| ==> !s.workers[w].Drained?
    ensures step == Claim(w, {}) && Enabled(cfg, s, step)
  {
  }

  /** The claim that ended the cycle which is over after `n` steps: the worker is drained ever since. */
  lemma {:induction false} LastEmptyClaim(cfg: Config, s: State, steps: seq<Step>, w: nat, n: nat) returns (k: nat)
    requires n <= |steps| && !DrainedAt(cfg, s, steps, 0, w) && DrainedAt(cfg, s, steps, n, w)
    ensures k < n && EmptyClaimAt(cfg, s, steps, k, w)
    ensures forall j :: k < j <= n ==> DrainedAt(cfg, s, steps, j, w)
  {
    RunSnoc(cfg, s, steps, n - 1);
    if DrainedAt(cfg, s, steps, n - 1, w) {
      k := LastEmptyClaim(cfg, s, steps, w, n - 1);
    } else {
      k := n - 1;
      DrainedStep(cfg, Run(cfg, s, steps[..k]), steps[k], w);
    }
  }

  ghost predicate NoneInFlight(s: State) {
    forall w :: 0 <= w < |s.workers| ==> !s.workers[w].Claiming?
  }

  /** At an empty claim every pending row is locked, and there is none exactly when nothing is locked. */
  lemma EmptyClaim(cfg: Config, s: State, w: nat)
    requires Inv(cfg, s) && Enabled(cfg, s, Claim(w, {}))
    ensures forall id :: id in PendingIds(s.rows) ==> Locked(s, id)
    ensures PendingIds(s.rows) == {} <==> NoneInFlight(s) && s.touched == {}
  {
    assert |Free(s)| == 0;
    assert forall id :: id in PendingIds(s.rows) && !Locked(s, id) ==> id in Free(s);
    if !NoneInFlight(s) {
      var v :| 0 <= v < |s.workers| && s.workers[v].Claiming?;
      var id :| id in s.workers[v].ids;
      assert Locks(s.workers[v], id);
      assert id in PendingIds(s.rows);
    }
  }

  lemma ReachedEmptyClaim(cfg: Config, s: State, steps: seq<Step>, w: nat)
    requires Initial(s) && Enabled(cfg, Run(cfg, s, steps), Claim(w, {}))
    ensures var u := Run(cfg, s, steps);
            && (forall id :: id in PendingIds(u.rows) ==> Locked(u, id))
            && (PendingIds(u.rows) == {} <==> NoneInFlight(u) && u.touched == {})
  {
    InvRun(cfg, s, steps);
    EmptyClaim(cfg, Run(cfg, s, steps), w);
  }

  /**
   In every run, a cycle that ended without error or cancellation had at its last claim, since
   which the worker has stayed drained, found every pending row locked by someone else; the queue
   it saw was empty exactly when no other claim was in flight and no other statement had locked
   a pending row.
   */
  lemma DrainedSawEmptyQueue(cfg: Config, s: State, steps: seq<Step>, w: nat) returns (n: nat)
    requires Initial(s) && DrainedAt(cfg, s, steps, |steps|, w)
    ensures n < |steps| && steps[n] == Claim(w, {})
    ensures forall k :: n < k <= |steps| ==> DrainedAt(cfg, s, steps, k, w)
    ensures var u := Run(cfg, s, steps[..n]);
            && (forall id :: id in PendingIds(u.rows) ==> Locked(u, id))
            && (PendingIds(u.rows) == {} <==> NoneInFlight(u) && u.touched == {})
  {
    assert steps[..0] == [];
    n := LastEmptyClaim(cfg, s, steps, w, |steps|);
    ReachedEmptyClaim(cfg, s, steps[..n], w);
  }

  lemma {:induction false} RunAppend(cfg: Config, s: State, first: seq<Step>, second: seq<Step>)
    ensures Run(cfg, s, first + second) == Run(cfg, Run(cfg, s, first), second)
    decreases first
  {
    if first == [] {
      assert first + second == second;
    } else {
      assert (first + second)[1..] == first[1..] + second;
      RunAppend(cfg, Next(cfg, s, first[0]), first[1..], second);
    }
  }

  lemma RunTwo(cfg: Config, s: State, x: Step, y: Step)
    ensures Run(cfg, s, [x, y]) == Next(cfg, Next(cfg, s, x), y)
  {
    assert [x, y][1..] == [y] && [y][1..] == [];
    assert Run(cfg, Next(cfg, s, x), [y]) == Run(cfg, Next(cfg, Next(cfg, s, x), y), []);
  }

  lemma RunThree(cfg: Config, s: State, x: Step, y: Step, z: Step)
    ensures Run(cfg, s, [x, y, z]) == Next(cfg, Next(cfg, Next(cfg, s, x), y), z)
  {
    assert [x, y, z][1..] == [y, z];
    RunTwo(cfg, Next(cfg, s, x), y, z);
  }

  /** The whole queue claimed by one worker, an empty claim of another, and the first claim rolled back. */
  lemma ClaimBesideClaim(cfg: Config, s: State, v: nat, w: nat, ids: set<ScanId>) returns (t: State)
    requires v < |s.workers| && w < |s.workers| && v != w && s.workers[v] == s.workers[w] == Cycle({}, {})
    requires Free(s) == ids != {} && |ids| <= 2 * WorkerCount(cfg)
    ensures t == Next(cfg, Next(cfg, Next(cfg, s, Claim(v, ids)), Claim(w, {})), Abort(v))
    ensures t.workers[w].Drained? && t.workers[v].Aborted? && t.rows == s.rows
  {
    var a := Next(cfg, s, Claim(v, ids));
    assert forall id :: id in ids ==> Locks(a.workers[v], id);
    assert forall u, k :: 0 <= u < |s.workers| && Locks(s.workers[u], k) ==> Locks(a.workers[u], k);
    assert forall k :: k in Free(a) ==> k in Free(s);
    assert Free(a) == {};
    t := Next(cfg, Next(cfg, a, Claim(w, {})), Abort(v));
  }

  lemma NothingLocked(s: State)
    requires s.touched == {} && NoneInFlight(s)
    ensures Free(s) == PendingIds(s.rows)
  {
    assert forall id :: !Locked(s, id);
  }

  /**
   From the start: beside a claim that then fails, a cycle ends although the rows stay pending
   with no one to scan them.
   */
  lemma DrainedBesideFailedClaim(cfg: Config, s: State, v: nat, w: nat) returns (steps: seq<Step>)
    requires Initial(s) && v < |s.workers| && w < |s.workers| && v != w
    requires 0 < |PendingIds(s.rows)| <= 2 * WorkerCount(cfg)
    ensures var t := Run(cfg, s, steps);
            t.rows == s.rows && |t.workers| == |s.workers| && t.workers[w].Drained? && t.workers[v].Aborted?
  {
    var ids := PendingIds(s.rows);
    var head, tail := [Begin(v), Begin(w)], [Claim(v, ids), Claim(w, {}), Abort(v)];
    RunTwo(cfg, s, Begin(v), Begin(w));
    var u := Run(cfg, s, head);
    NothingLocked(u);
    var t := ClaimBesideClaim(cfg, u, v, w, ids);
    RunThree(cfg, u, Claim(v, ids), Claim(w, {}), Abort(v));
    RunAppend(cfg, s, head, tail);
    steps := head + tail;
  }

  /** From the start: so it does beside a rescan request that locks the only pending row and leaves it alone. */
  lemma DrainedBesideRescan(cfg: Config, s: State, w: nat, id: ScanId) returns (steps: seq<Step>)
    requires Initial(s) && w < |s.workers| && PendingIds(s.rows) == {id}
    ensures var t := Run(cfg, s, steps);
            && t.rows == s.rows && |t.workers| == |s.workers| && t.workers[w].Drained?
            && NoneInFlight(t) && t.touched == {}
  {
    var head, tail := [Begin(w), Touch(id)], [Claim(w, {}), Release(id)];
    var begun := Next(cfg, s, Begin(w));
    NothingLocked(begun);
    RunTwo(cfg, s, Begin(w), Touch(id));
    var u := Run(cfg, s, head);
    assert Free(u) == {};
    RunTwo(cfg, u, Claim(w, {}), Release(id));
    RunAppend(cfg, s, head, tail);
    steps := head + tail;
  }

  /** The worker crashes or settles the scan. */
  predicate LetsGo(step: Step, w: nat, id: ScanId) {
    step == Crash(w) || (step.Settle? && step.worker == w && step.id == id)
  }

  /** A worker that has not crashed holds a claimed scan until it settles it. */
  lemma {:induction false} HeldUntilSettled(cfg: Config, s: State, steps: seq<Step>, w: nat, id: ScanId)
    requires w < |s.workers| && Holds(s.workers[w], id)
    requires forall n :: 0 <= n < |steps| ==> !LetsGo(steps[n], w, id)
    ensures w < |Run(cfg, s, steps).workers| && Holds(Run(cfg, s, steps).workers[w], id)
    decreases steps
  {
    if steps != [] {
      var t := Next(cfg, s, steps[0]);
      assert !LetsGo(steps[0], w, id);
      assert Holds(t.workers[w], id);
      HeldUntilSettled(cfg, t, steps[1..], w, id);
    }
  }

  /** Between two claims of one process, every scan of the first batch settled, unless the process crashed. */
  lemma BatchSettlesBeforeNextClaim(cfg: Config, s: State, steps: seq<Step>, w: nat, id: ScanId, ids: set<ScanId>)
    requires w < |s.workers| && Holds(s.workers[w], id)
    requires Enabled(cfg, Run(cfg, s, steps), Claim(w, ids))
    ensures exists n :: 0 <= n < |steps| && LetsGo(steps[n], w, id)
  {
    if forall n :: 0 <= n < |steps| ==> !LetsGo(steps[n], w, id) {
      HeldUntilSettled(cfg, s, steps, w, id);
    }
  }

  // ---- what happens to a row ----

  /** The step of some worker that turns this row from pending to scanning. */
  predicate Claims(s: State, step: Step, id: ScanId) {
    step.Commit? && step.worker < |s.workers| && Locks(s.workers[step.worker], id)
  }

  /** The step of a worker that has this row in a live scan, stores its result, and need not wait for a lock. */
  predicate Completes(s: State, step: Step, id: ScanId) {
    && step.Settle? && step.id == id && step.stored && step.worker < |s.workers|
    && s.workers[step.worker].Cycle? && id in s.workers[step.worker].live && !Locked(s, id)
  }

  /**
   The life of a row: it becomes pending when it is enqueued while absent or finished, scanning
   when a claim on it commits, finished when a live scan stores its result, pending again when
   it is found scanning for more than thirty minutes; nothing else changes it.
   */
  lemma RowChanges(cfg: Config, s: State, step: Step, id: ScanId)
    ensures id !in s.rows ==> (id in Next(cfg, s, step).rows <==> step == Enqueue(id))
    ensures id !in s.rows && step == Enqueue(id) ==> Next(cfg, s, step).rows[id].Pending?
    ensures id in s.rows ==>
              id in Next(cfg, s, step).rows && Next(cfg, s, step).rows[id] ==
                if step == Enqueue(id) && s.rows[id].Finished? then Pending
                else if Claims(s, step, id) then Scanning(s.now)
                else if Completes(s, step, id) then Finished
                else if step.ResetStale? && s.rows[id].Scanning? && s.rows[id].since < s.now - 30 * 60 then Pending
                else s.rows[id]
  {
  }

  /** A settled scan is no longer held by its worker, and the others stay. */
  lemma SettleLetsGo(cfg: Config, s: State, w: nat, id: ScanId, stored: bool, other: ScanId)
    requires Enabled(cfg, s, Settle(w, id, stored)) && id !in s.workers[w].queued
    ensures var t := Next(cfg, s, Settle(w, id, stored));
            Holds(t.workers[w], other) <==> Holds(s.workers[w], other) && other != id
  {
  }

  /** A claim takes as many free rows as there are, up to twice the worker count. */
  lemma ClaimTakes(cfg: Config, s: State, w: nat, ids: set<ScanId>)
    requires Enabled(cfg, s, Claim(w, ids))
    ensures var limit := 2 * if cfg.configured > 0 then cfg.configured else 2;
            |ids| <= limit && (|ids| < limit ==> ids == Free(s))
            && forall id :: id in ids ==> id in s.rows && s.rows[id].Pending? && !Locked(s, id)
  {
    SubsetOfSize(ids, Free(s));
  }

  lemma {:induction false} SubsetOfSize(a: set<ScanId>, b: set<ScanId>)
    requires a <= b
    ensures |a| <= |b| && (|a| == |b| ==> a == b)
  {
    if a != {} {
      var x :| x in a;
      SubsetOfSize(a - {x}, b - {x});
    }
  }

  /** A claimed batch can always be brought to its end: every row of it finished, and the worker free to claim again. */
  lemma {:induction false} BatchCanFinish(cfg: Config, s: State, w: nat, ids: set<ScanId>) returns (steps: seq<Step>)
    requires w < |s.workers| && s.workers[w] == Cycle(ids, {})
    requires forall id :: id in ids ==> id in s.rows && !Locked(s, id)
    ensures var t := Run(cfg, s, steps);
            && t.workers == s.workers[w := Cycle({}, {})] && t.touched == s.touched && t.rows.Keys == s.rows.Keys
            && (forall id :: id in ids ==> t.rows[id].Finished?)
            && (forall id :: id in s.rows && id !in ids ==> t.rows[id] == s.rows[id])
    decreases |ids|
  {
    if ids == {} {
      steps := [];
      assert s.workers[w := Cycle({}, {})] == s.workers;
    } else {
      var id :| id in ids;
      var t := FinishOne(cfg, s, w, ids, id);
      var head := [Launch(w, id), Settle(w, id, true)];
      RunTwo(cfg, s, Launch(w, id), Settle(w, id, true));
      forall k | k in ids - {id} ensures k in t.rows && !Locked(t, k) {
        assert forall u :: 0 <= u < |t.workers| && Locks(t.workers[u], k) ==> Locks(s.workers[u], k);
      }
      var tail := BatchCanFinish(cfg, t, w, ids - {id});
      RunAppend(cfg, s, head, tail);
      steps := head + tail;
      assert t.workers[w := Cycle({}, {})] == s.workers[w := Cycle({}, {})];
    }
  }

  lemma FinishOne(cfg: Config, s: State, w: nat, ids: set<ScanId>, id: ScanId) returns (t: State)
    requires w < |s.workers| && s.workers[w] == Cycle(ids, {}) && id in ids && id in s.rows && !Locked(s, id)
    ensures t == Next(cfg, Next(cfg, s, Launch(w, id)), Settle(w, id, true))
    ensures t.workers == s.workers[w := Cycle(ids - {id}, {})] && t.touched == s.touched
    ensures t.rows == s.rows[id := Finished]
  {
    var a := Next(cfg, s, Launch(w, id));
    assert WorkerCount(cfg) >= 1 && a.workers == s.workers[w := Cycle(ids - {id}, {id})];
    assert forall u :: 0 <= u < |a.workers| && Locks(a.workers[u], id) ==> Locks(s.workers[u], id);
    t := Next(cfg, a, Settle(w, id, true));
    assert {id} - {id} == {};
  }

  /** The scan of a crashed worker is given back to the queue once it has been scanning for over thirty minutes. */
  lemma CrashedScanReturns(cfg: Config, s: State, w: nat, id: ScanId, d: nat)
    requires w < |s.workers| && Holds(s.workers[w], id) && id in s.rows && s.rows[id].Scanning?
    requires s.now + d - s.rows[id].since > 30 * 60
    ensures var t := Run(cfg, s, [Crash(w), Wait(d), ResetStale]);
            t.now == s.now + d && w < |t.workers| && !Holds(t.workers[w], id) && id in PendingIds(t.rows)
  {
    RunThree(cfg, s, Crash(w), Wait(d), ResetStale);
  }
}
