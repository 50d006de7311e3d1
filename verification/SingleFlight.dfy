/**
 The single-flight protocol of the mirror sync job: a set of active mirrors under a mutex,
 marked by the scheduler's ticks and by manual triggers, handed to a sync goroutine, and
 unmarked by whoever ends up responsible.
 */
module SingleFlight {
  import opened Basics

  type MirrorId = nat

  /**
   One goroutine at its next critical section or hand-over. Ticking still has mirrors to
   look at; Handing has marked one and is about to spawn its sync; Asking is a manual trigger
   before its check; Looking has marked and is fetching the configuration; Cleaning unmarks
   after a failed or empty lookup; Launching is about to spawn; Syncing runs the sync, whose
   deferred call unmarks however it ends.
   */
  datatype Actor =
    | Ticking(todo: seq<MirrorId>)
    | Handing(id: MirrorId, todo: seq<MirrorId>)
    | Asking(id: MirrorId)
    | Looking(id: MirrorId)
    | Cleaning(id: MirrorId)
    | Launching(id: MirrorId)
    | Syncing(id: MirrorId)
    | Done

  datatype State = State(active: set<MirrorId>, actors: seq<Actor>)

  const FRESH := State({}, [])

  datatype Lookup = LookupFailed | NotFound | Found

  /** A tick and a trigger arrive; an actor makes its next move, with the answer its lookup would get. */
  datatype Step = Tick(ids: seq<MirrorId>) | Trigger(id: MirrorId) | Move(actor: nat, lookup: Lookup)

  /** What a move does to the set and to its actor, and the goroutine it spawns. */
  datatype Effect = Effect(active: set<MirrorId>, actor: Actor, spawned: Option<Actor>)

  function Act(active: set<MirrorId>, a: Actor, lookup: Lookup): Effect {
    match a
    case Ticking(todo) =>
      if todo == [] then Effect(active, Done, None)
      else if todo[0] in active then Effect(active, Ticking(todo[1..]), None)
      else Effect(active + {todo[0]}, Handing(todo[0], todo[1..]), None)
    case Handing(id, todo) => Effect(active, Ticking(todo), Some(Syncing(id)))
    case Asking(id) =>
      if id in active then Effect(active, Done, None) else Effect(active + {id}, Looking(id), None)
    case Looking(id) =>
      if lookup.Found? then Effect(active, Launching(id), None) else Effect(active, Cleaning(id), None)
    case Cleaning(id) => Effect(active - {id}, Done, None)
    case Launching(id) => Effect(active, Done, Some(Syncing(id)))
    case Syncing(id) => Effect(active - {id}, Done, None)
    case Done => Effect(active, Done, None)
  }

  function Next(s: State, step: Step): State {
    match step
    case Tick(ids) => s.(actors := s.actors + [Ticking(ids)])
    case Trigger(id) => s.(actors := s.actors + [Asking(id)])
    case Move(i, lookup) =>
      if i >= |s.actors| then s
      else
        var e := Act(s.active, s.actors[i], lookup);
        var moved := s.actors[i := e.actor];
        State(e.active, if e.spawned.Some? then moved + [e.spawned.value] else moved)
  }

  function Run(s: State, steps: seq<Step>): State
    decreases steps
  {
    if steps == [] then s else Run(Next(s, steps[0]), steps[1..])
  }

  /** The critical sections on the set itself. */
  class ActiveSyncs {
    var active: set<MirrorId>

    constructor ()
      ensures active == {}
    {
      active := {};
    }

    /** Check and mark in one critical section; false means a sync is already under way. */
    method TryMark(id: MirrorId) returns (marked: bool)
      modifies this
      ensures marked <==> Act(old(active), Asking(id), Found).actor == Looking(id)
      ensures active == Act(old(active), Asking(id), Found).active
    {
      if id in active {
        return false;
      }
      active := active + {id};
      return true;
    }

    method Unmark(id: MirrorId)
      modifies this
      ensures active == Act(old(active), Syncing(id), Found).active
    {
      active := active - {id};
    }
  }

  /** The actor answers for the mirror: it is between marking it and unmarking or handing it over. */
  predicate Owns(a: Actor, id: MirrorId) {
    (a.Handing? || a.Looking? || a.Cleaning? || a.Launching? || a.Syncing?) && a.id == id
  }

  function Owner(id: MirrorId): Actor -> bool {
    (a: Actor) => Owns(a, id)
  }

  ghost predicate Inv(s: State) {
    forall id :: CountIf(s.actors, Owner(id)) == Bit(id in s.active)
  }

  /** A move changes who owns a mirror exactly as it changes the set. */
  lemma ActBalances(active: set<MirrorId>, a: Actor, lookup: Lookup, id: MirrorId)
    requires Owns(a, id) ==> id in active
    ensures var e := Act(active, a, lookup);
            Bit(id in e.active) - Bit(id in active)
              == Bit(Owns(e.actor, id)) - Bit(Owns(a, id)) + Bit(e.spawned.Some? && Owns(e.spawned.value, id))
  {
  }

  lemma InvStep(s: State, step: Step)
    requires Inv(s)
    ensures Inv(Next(s, step))
  {
    var t := Next(s, step);
    forall id ensures CountIf(t.actors, Owner(id)) == Bit(id in t.active) {
      match step
      case Tick(ids) => CountIfAppend(s.actors, Ticking(ids), Owner(id));
      case Trigger(k) => CountIfAppend(s.actors, Asking(k), Owner(id));
      case Move(i, lookup) =>
        if i < |s.actors| {
          var e := Act(s.active, s.actors[i], lookup);
          if Owns(s.actors[i], id) {
            CountIfTwo(s.actors, i, i, Owner(id));
          }
          ActBalances(s.active, s.actors[i], lookup, id);
          CountIfUpdate(s.actors, i, e.actor, Owner(id));
          if e.spawned.Some? {
            CountIfAppend(s.actors[i := e.actor], e.spawned.value, Owner(id));
          }
        }
    }
  }

  lemma {:induction false} InvRun(s: State, steps: seq<Step>)
    requires Inv(s)
    ensures Inv(Run(s, steps))
    decreases steps
  {
    if steps != [] {
      InvStep(s, steps[0]);
      InvRun(Next(s, steps[0]), steps[1..]);
    }
  }

  /**
   In every interleaving of ticks, triggers, failed lookups and ending syncs: a mirror is
   marked exactly when one goroutine answers for it, never two; so no two syncs of a mirror
   overlap, and when no goroutine answers for it its mark is gone.
   */
  lemma SyncsNeverOverlap(steps: seq<Step>, id: MirrorId)
    ensures var s := Run(FRESH, steps);
            && (id in s.active <==> exists i :: 0 <= i < |s.actors| && Owns(s.actors[i], id))
            && (forall i, j :: 0 <= i < j < |s.actors| ==> !(Owns(s.actors[i], id) && Owns(s.actors[j], id)))
  {
    var s := Run(FRESH, steps);
    InvRun(FRESH, steps);
    forall i, j | 0 <= i < |s.actors| && 0 <= j < |s.actors| && Owns(s.actors[i], id) && Owns(s.actors[j], id)
      ensures i == j && id in s.active
    {
      CountIfTwo(s.actors, i, j, Owner(id));
    }
    if forall i :: 0 <= i < |s.actors| ==> !Owns(s.actors[i], id) {
      CountIfZero(s.actors, Owner(id));
    }
  }

  /** What is left to do before every goroutine is done. */
  function Work(a: Actor): int {
    match a
    case Ticking(todo) => 1 + 4 * |todo|
    case Handing(_, todo) => 3 + 4 * |todo|
    case Asking(_) => 5
    case Looking(_) => 4
    case Cleaning(_) => 1
    case Launching(_) => 3
    case Syncing(_) => 1
    case Done => 0
  }

  lemma {:induction false} SumOfAppend<T>(s: seq<T>, x: T, f: T -> int)
    ensures SumOf(s + [x], f) == SumOf(s, f) + f(x)
  {
    if s == [] {
      assert s + [x] == [x];
    } else {
      assert (s + [x])[1..] == s[1..] + [x];
      SumOfAppend(s[1..], x, f);
    }
  }

  /** Every move of an unfinished goroutine brings the whole nearer to rest, whatever its lookup answers. */
  lemma MovesMakeProgress(s: State, i: nat, lookup: Lookup)
    requires i < |s.actors| && !s.actors[i].Done?
    ensures SumOf(Next(s, Move(i, lookup)).actors, Work) < SumOf(s.actors, Work)
  {
    var e := Act(s.active, s.actors[i], lookup);
    SumOfUpdate(s.actors, i, e.actor, Work);
    if e.spawned.Some? {
      SumOfAppend(s.actors[i := e.actor], e.spawned.value, Work);
    }
  }

  /** And at rest no mark has leaked. */
  lemma NoMarkLeaks(steps: seq<Step>)
    requires var s := Run(FRESH, steps); forall i :: 0 <= i < |s.actors| ==> s.actors[i].Done?
    ensures Run(FRESH, steps).active == {}
  {
    var s := Run(FRESH, steps);
    forall id ensures id !in s.active {
      SyncsNeverOverlap(steps, id);
    }
  }

  // ---- what a tick and a trigger start ----

  lemma {:induction false} RunAppend(s: State, first: seq<Step>, second: seq<Step>)
    ensures Run(s, first + second) == Run(Run(s, first), second)
    decreases first
  {
    if first == [] {
      assert first + second == second;
    } else {
      assert (first + second)[1..] == first[1..] + second;
      RunAppend(Next(s, first[0]), first[1..], second);
    }
  }

  lemma RunTwo(s: State, x: Step, y: Step)
    ensures Run(s, [x, y]) == Next(Next(s, x), y)
  {
    assert [x, y][1..] == [y] && [y][1..] == [];
    assert Run(Next(s, x), [y]) == Run(Next(Next(s, x), y), []);
  }

  lemma RunThree(s: State, x: Step, y: Step, z: Step)
    ensures Run(s, [x, y, z]) == Next(Next(Next(s, x), y), z)
  {
    assert [x, y, z][1..] == [y, z];
    RunTwo(Next(s, x), y, z);
  }

  /** A tick passes over a mirror that is marked, and marks a free one and starts its sync. */
  lemma TickStarts(s: State, i: nat, id: MirrorId, rest: seq<MirrorId>, lookup: Lookup)
    requires i < |s.actors| && s.actors[i] == Ticking([id] + rest)
    ensures id in s.active ==> Next(s, Move(i, lookup)) == s.(actors := s.actors[i := Ticking(rest)])
    ensures id !in s.active ==>
              Run(s, [Move(i, lookup), Move(i, lookup)])
                == State(s.active + {id}, s.actors[i := Ticking(rest)] + [Syncing(id)])
  {
    assert ([id] + rest)[1..] == rest;
    RunTwo(s, Move(i, lookup), Move(i, lookup));
    assert s.actors[i := Handing(id, rest)][i := Ticking(rest)] == s.actors[i := Ticking(rest)];
  }

  /** Left to itself, a tick marks every mirror it was given and is done. */
  lemma {:induction false} TickMarksAll(s: State, i: nat, todo: seq<MirrorId>) returns (steps: seq<Step>)
    requires i < |s.actors| && s.actors[i] == Ticking(todo)
    ensures var t := Run(s, steps);
            i < |t.actors| && t.actors[i].Done? && t.active == s.active + set id | id in todo
    decreases |todo|
  {
    var move := Move(i, Found);
    if todo == [] {
      steps := [move];
      assert Run(s, steps) == Run(Next(s, move), []);
    } else {
      var id, rest := todo[0], todo[1..];
      assert todo == [id] + rest;
      TickStarts(s, i, id, rest, Found);
      var first := if id in s.active then [move] else [move, move];
      assert id in s.active ==> Run(s, [move]) == Run(Next(s, move), []);
      var t := Run(s, first);
      var more := TickMarksAll(t, i, rest);
      RunAppend(s, first, more);
      steps := first + more;
    }
  }

  /**
   A trigger is turned away from a marked mirror, starts the sync of a free one whose
   configuration is found, and otherwise unmarks it.
   */
  lemma TriggerStarts(s: State, i: nat, id: MirrorId, lookup: Lookup)
    requires i < |s.actors| && s.actors[i] == Asking(id)
    ensures id in s.active ==> Next(s, Move(i, lookup)) == s.(actors := s.actors[i := Done])
    ensures id !in s.active ==>
              var move := Move(i, lookup);
              Run(s, [move, move, move]) ==
                if lookup.Found? then State(s.active + {id}, s.actors[i := Done] + [Syncing(id)])
                else s.(actors := s.actors[i := Done])
  {
    var move := Move(i, lookup);
    RunThree(s, move, move, move);
    if id !in s.active {
      var a := Next(s, move);
      var b := Next(a, move);
      var c := Next(b, move);
      assert s.active + {id} - {id} == s.active;
      assert s.actors[i := Looking(id)][i := b.actors[i]][i := Done] == s.actors[i := Done];
    }
  }

  /** So from any state a tick can come, mark all its mirrors and be done. */
  lemma TickRuns(s: State, ids: seq<MirrorId>) returns (steps: seq<Step>)
    ensures Run(s, [Tick(ids)] + steps).active == s.active + set id | id in ids
  {
    var t := Next(s, Tick(ids));
    steps := TickMarksAll(t, |s.actors|, ids);
    assert ([Tick(ids)] + steps)[1..] == steps;
  }

  /** And a trigger of a free mirror whose configuration is found can come and start its sync. */
  lemma TriggerRuns(s: State, id: MirrorId) returns (steps: seq<Step>)
    requires id !in s.active
    ensures var t := Run(s, [Trigger(id)] + steps); id in t.active && Syncing(id) in t.actors
  {
    var t, move := Next(s, Trigger(id)), Move(|s.actors|, Found);
    TriggerStarts(t, |s.actors|, id, Found);
    steps := [move, move, move];
    assert ([Trigger(id)] + steps)[1..] == steps;
    assert Run(t, steps).actors[|t.actors|] == Syncing(id);
  }
}
