/**
 The two implementations of the login-state store: an in-process map with a background
 sweeper, and a Redis keyspace whose Load consumes what it reads. Time is a monotone clock
 and each operation reads it once, at the instant it holds the lock.
 */
module StateStore {
  import opened Basics

  type Key = string

  datatype SessionState = SessionState(
    state: string, createdAt: int, redirectUrl: string, providerType: string,
    nonce: string, codeVerifier: string, samlRequestId: string)

  /** The operations of the interface, and the sweeper's pass with the instant it read before locking. */
  datatype Op =
    | Save(key: Key, data: SessionState, ttl: int)
    | Load(key: Key)
    | Delete(key: Key)
    | Reserve(key: Key, ttl: int)
    | Sweep(seen: int)

  datatype Event = Event(at: int, op: Op)

  datatype Answer = Done | Found(session: SessionState) | Missing | Reserved(first: bool) | Undecodable

  /** The clock never runs backwards, and a sweep acts on an instant no later than its own. */
  ghost predicate Ordered(events: seq<Event>) {
    && (forall i, j :: 0 <= i <= j < |events| ==> events[i].at <= events[j].at)
    && (forall i :: 0 <= i < |events| && events[i].op.Sweep? ==> events[i].op.seen <= events[i].at)
  }

  // ---- in memory ----

  datatype Entry = Entry(data: SessionState, expiresAt: int)

  type Memory = map<Key, Entry>

  datatype MemoryResult = MemoryResult(entries: Memory, answer: Answer)

  /** The session a reservation leaves in the map. */
  function Marker(key: Key, now: int): SessionState {
    SessionState(key, now, "", "", "", "", "")
  }

  function Swept(m: Memory, seen: int): Memory {
    map k | k in m && seen <= m[k].expiresAt :: m[k]
  }

  function MemoryStep(m: Memory, e: Event): MemoryResult {
    match e.op
    case Save(k, data, ttl) => MemoryResult(m[k := Entry(data, e.at + ttl)], Done)
    case Load(k) =>
      if k !in m then MemoryResult(m, Missing)
      else if m[k].expiresAt < e.at then MemoryResult(m - {k}, Missing)
      else MemoryResult(m, Found(m[k].data))
    case Delete(k) => MemoryResult(m - {k}, Done)
    case Reserve(k, ttl) =>
      if k in m && e.at < m[k].expiresAt then MemoryResult(m, Reserved(false))
      else MemoryResult(m[k := Entry(Marker(k, e.at), e.at + ttl)], Reserved(true))
    case Sweep(seen) => MemoryResult(Swept(m, seen), Done)
  }

  class MemoryStateStore {
    var entries: Memory

    constructor ()
      ensures entries == map[]
    {
      entries := map[];
    }

    method Save(now: int, state: Key, data: SessionState, ttl: int)
      modifies this
      ensures MemoryResult(entries, Done) == MemoryStep(old(entries), Event(now, Op.Save(state, data, ttl)))
    {
      entries := entries[state := Entry(data, now + ttl)];
    }

    method Load(now: int, state: Key) returns (answer: Answer)
      modifies this
      ensures MemoryResult(entries, answer) == MemoryStep(old(entries), Event(now, Op.Load(state)))
    {
      if state !in entries {
        return Missing;
      }
      var e := entries[state];
      if now > e.expiresAt {
        entries := entries - {state};
        return Missing;
      }
      return Found(e.data);
    }

    method Delete(now: int, state: Key)
      modifies this
      ensures MemoryResult(entries, Done) == MemoryStep(old(entries), Event(now, Op.Delete(state)))
    {
      entries := entries - {state};
    }

    method Reserve(now: int, key: Key, ttl: int) returns (answer: Answer)
      modifies this
      ensures MemoryResult(entries, answer) == MemoryStep(old(entries), Event(now, Op.Reserve(key, ttl)))
    {
      if key in entries && now < entries[key].expiresAt {
        return Reserved(false);
      }
      entries := entries[key := Entry(Marker(key, now), now + ttl)];
      return Reserved(true);
    }

    /** One tick of the cleanup goroutine: visit every key, drop the expired ones. */
    method Cleanup(now: int, seen: int)
      modifies this
      ensures MemoryResult(entries, Done) == MemoryStep(old(entries), Event(now, Sweep(seen)))
    {
      var pending := entries.Keys;
      while pending != {}
        invariant pending <= entries.Keys
        invariant entries == map k | k in old(entries) &&
                  (k in pending || seen <= old(entries)[k].expiresAt) :: old(entries)[k]
        decreases pending
      {
        var k :| k in pending;
        pending := pending - {k};
        if seen > entries[k].expiresAt {
          entries := entries - {k};
        }
      }
    }
  }

  // ---- Redis ----

  datatype Value = Json(session: SessionState) | One

  datatype RedisEntry = RedisEntry(value: Value, expiresAt: int)

  /** The keyspace under the store's own prefix. */
  type Keyspace = map<Key, RedisEntry>

  datatype RedisResult = RedisResult(keys: Keyspace, answer: Answer)

  /** Whether a key is still there; `keeps` says which way the server treats the expiry instant itself. */
  predicate Present(r: Keyspace, k: Key, now: int, keeps: bool) {
    k in r && (now < r[k].expiresAt || (keeps && now == r[k].expiresAt))
  }

  function RedisStep(r: Keyspace, e: Event, keeps: bool): RedisResult {
    match e.op
    case Save(k, data, ttl) => RedisResult(r[k := RedisEntry(Json(data), e.at + ttl)], Done)
    case Load(k) =>
      if !Present(r, k, e.at, keeps) then RedisResult(r, Missing)
      else RedisResult(r - {k}, if r[k].value.Json? then Found(r[k].value.session) else Undecodable)
    case Delete(k) => RedisResult(r - {k}, Done)
    case Reserve(k, ttl) =>
      if Present(r, k, e.at, keeps) then RedisResult(r, Reserved(false))
      else RedisResult(r[k := RedisEntry(One, e.at + ttl)], Reserved(true))
    case Sweep(_) => RedisResult(r, Done)
  }

  class RedisStateStore {
    const keeps: bool
    var keys: Keyspace

    constructor (keeps: bool)
      ensures this.keeps == keeps && keys == map[]
    {
      this.keeps := keeps;
      keys := map[];
    }

    method Save(now: int, state: Key, data: SessionState, ttl: int)
      modifies this
      ensures RedisResult(keys, Done) == RedisStep(old(keys), Event(now, Op.Save(state, data, ttl)), keeps)
    {
      keys := keys[state := RedisEntry(Json(data), now + ttl)];
    }

    /** The get-and-delete script, then the decoding of what it returned. */
    method Load(now: int, state: Key) returns (answer: Answer)
      modifies this
      ensures RedisResult(keys, answer) == RedisStep(old(keys), Event(now, Op.Load(state)), keeps)
    {
      if !Present(keys, state, now, keeps) {
        return Missing;
      }
      var value := keys[state].value;
      keys := keys - {state};
      return if value.Json? then Found(value.session) else Undecodable;
    }

    method Delete(now: int, state: Key)
      modifies this
      ensures RedisResult(keys, Done) == RedisStep(old(keys), Event(now, Op.Delete(state)), keeps)
    {
      keys := keys - {state};
    }

    method Reserve(now: int, key: Key, ttl: int) returns (answer: Answer)
      modifies this
      ensures RedisResult(keys, answer) == RedisStep(old(keys), Event(now, Op.Reserve(key, ttl)), keeps)
    {
      if Present(keys, key, now, keeps) {
        return Reserved(false);
      }
      keys := keys[key := RedisEntry(One, now + ttl)];
      return Reserved(true);
    }
  }

  // ---- the sweeper is invisible ----

  /** The answers callers get over a run; the sweeper's passes have none. */
  function Answers(m: Memory, events: seq<Event>): seq<Answer>
    decreases events
  {
    if events == [] then []
    else
      var step := MemoryStep(m, events[0]);
      (if events[0].op.Sweep? then [] else [step.answer]) + Answers(step.entries, events[1..])
  }

  function WithoutSweeps(events: seq<Event>): seq<Event> {
    if events == [] then []
    else (if events[0].op.Sweep? then [] else [events[0]]) + WithoutSweeps(events[1..])
  }

  /** Two maps that hold the same entries among those not yet past their expiry. */
  ghost predicate SameLive(m: Memory, n: Memory, now: int) {
    && (forall k :: k in m && now <= m[k].expiresAt ==> k in n && n[k] == m[k])
    && (forall k :: k in n && now <= n[k].expiresAt ==> k in m && m[k] == n[k])
  }

  lemma SameLiveStep(m: Memory, n: Memory, now: int, e: Event)
    requires SameLive(m, n, now) && now <= e.at
    requires e.op.Sweep? ==> e.op.seen <= e.at
    ensures !e.op.Sweep? ==>
              && MemoryStep(m, e).answer == MemoryStep(n, e).answer
              && SameLive(MemoryStep(m, e).entries, MemoryStep(n, e).entries, e.at)
    ensures e.op.Sweep? ==> SameLive(MemoryStep(m, e).entries, n, e.at)
  {
  }

  lemma {:induction false} SweepsInvisibleFrom(m: Memory, n: Memory, now: int, events: seq<Event>)
    requires Ordered(events) && SameLive(m, n, now)
    requires events != [] ==> now <= events[0].at
    ensures Answers(m, events) == Answers(n, WithoutSweeps(events))
    decreases events
  {
    if events != [] {
      var e, rest := events[0], events[1..];
      SameLiveStep(m, n, now, e);
      assert Ordered(rest);
      if e.op.Sweep? {
        SweepsInvisibleFrom(MemoryStep(m, e).entries, n, e.at, rest);
        assert WithoutSweeps(events) == WithoutSweeps(rest);
      } else {
        SweepsInvisibleFrom(MemoryStep(m, e).entries, MemoryStep(n, e).entries, e.at, rest);
        assert WithoutSweeps(events) == [e] + WithoutSweeps(rest);
        assert ([e] + WithoutSweeps(rest))[1..] == WithoutSweeps(rest);
      }
    }
  }

  /** Sweeps inserted anywhere in a run change no answer any caller gets. */
  lemma SweepsInvisible(m: Memory, events: seq<Event>)
    requires Ordered(events)
    ensures Answers(m, events) == Answers(m, WithoutSweeps(events))
  {
    SweepsInvisibleFrom(m, m, if events == [] then 0 else events[0].at, events);
  }

  /** A pass keeps exactly the entries that had not expired by the instant it read. */
  lemma SweepKeeps(m: Memory, now: int, seen: int, k: Key)
    ensures var t := MemoryStep(m, Event(now, Sweep(seen))).entries;
            (k in t <==> k in m && seen <= m[k].expiresAt) && (k in t ==> t[k] == m[k])
  {
  }

  // ---- what is answered, from the calls alone ----

  /** What the calls so far last put under a key, if nothing deleted it since. */
  function LastPut(events: seq<Event>, n: nat, k: Key): Option<Entry>
    requires n <= |events|
  {
    if n == 0 then None
    else
      var e, before := events[n - 1], LastPut(events, n - 1, k);
      match e.op
      case Save(key, data, ttl) => if key == k then Some(Entry(data, e.at + ttl)) else before
      case Delete(key) => if key == k then None else before
      case Reserve(key, ttl) =>
        if key == k && (before == None || before.value.expiresAt <= e.at)
        then Some(Entry(SessionState(k, e.at, "", "", "", "", ""), e.at + ttl))
        else before
      case _ => before
  }

  /** The map holds what was last put, except perhaps what has expired by the latest call. */
  lemma {:induction false} HoldsLastPut(events: seq<Event>, n: nat, k: Key)
    requires Ordered(events) && n <= |events|
    ensures var m, put := MemoryAt(map[], events, n), LastPut(events, n, k);
            && (k in m ==> put == Some(m[k]))
            && (k !in m && put.Some? ==> n > 0 && put.value.expiresAt < events[n - 1].at)
    decreases n
  {
    if n > 0 {
      HoldsLastPut(events, n - 1, k);
    }
  }

  /**
   In every run of the memory store a Load answers the session last put under its key up to and
   including the instant its time to live ends, and a Reserve succeeds from that instant on.
   */
  lemma MemoryAnswersExactly(events: seq<Event>, n: nat, k: Key)
    requires Ordered(events) && n < |events|
    ensures var put, at := LastPut(events, n, k), events[n].at;
            var answer := MemoryStep(MemoryAt(map[], events, n), events[n]).answer;
            && (events[n].op == Load(k) ==>
                  answer == if put.Some? && at <= put.value.expiresAt then Found(put.value.data) else Missing)
            && (events[n].op.Reserve? && events[n].op.key == k ==>
                  answer == Reserved(put == None || put.value.expiresAt <= at))
  {
    HoldsLastPut(events, n, k);
  }

  /** What the calls so far last put under a key of the Redis store, if no Delete or Load took it since. */
  function LastSet(events: seq<Event>, n: nat, k: Key, keeps: bool): Option<RedisEntry>
    requires n <= |events|
  {
    if n == 0 then None
    else
      var e, before := events[n - 1], LastSet(events, n - 1, k, keeps);
      var live := before.Some? && (e.at < before.value.expiresAt || (keeps && e.at == before.value.expiresAt));
      match e.op
      case Save(key, data, ttl) => if key == k then Some(RedisEntry(Json(data), e.at + ttl)) else before
      case Delete(key) => if key == k then None else before
      case Load(key) => if key == k && live then None else before
      case Reserve(key, ttl) => if key == k && !live then Some(RedisEntry(One, e.at + ttl)) else before
      case Sweep(_) => before
  }

  lemma {:induction false} HoldsLastSet(events: seq<Event>, n: nat, k: Key, keeps: bool)
    requires n <= |events|
    ensures var r := RedisAt(map[], events, n, keeps);
            LastSet(events, n, k, keeps) == if k in r then Some(r[k]) else None
  {
    if n > 0 {
      HoldsLastSet(events, n - 1, k, keeps);
    }
  }

  /**
   In every run of the Redis store a Load answers the session last saved under its key, once,
   before its time to live ends.
   */
  lemma RedisAnswersExactly(events: seq<Event>, n: nat, k: Key, keeps: bool)
    requires n < |events|
    ensures var put, at := LastSet(events, n, k, keeps), events[n].at;
            var live := put.Some? && (at < put.value.expiresAt || (keeps && at == put.value.expiresAt));
            var answer := RedisStep(RedisAt(map[], events, n, keeps), events[n], keeps).answer;
            && (events[n].op == Load(k) ==>
                  answer == if !live then Missing
                            else if put.value.value.Json? then Found(put.value.value.session) else Undecodable)
            && (events[n].op.Reserve? && events[n].op.key == k ==> answer == Reserved(!live))
  {
    HoldsLastSet(events, n, k, keeps);
  }

  // ---- reservations are spaced ----

  function MemoryAt(m: Memory, events: seq<Event>, n: nat): Memory
    requires n <= |events|
  {
    if n == 0 then m else MemoryStep(MemoryAt(m, events, n - 1), events[n - 1]).entries
  }

  predicate ReservesAt(m: Memory, events: seq<Event>, n: nat, k: Key)
    requires n < |events|
  {
    && events[n].op.Reserve? && events[n].op.key == k
    && MemoryStep(MemoryAt(m, events, n), events[n]).answer == Reserved(true)
  }

  predicate Overwrites(op: Op, k: Key) {
    (op.Save? || op.Delete?) && op.key == k
  }

  /** Until its expiry, the reservation's entry stands, whatever else runs. */
  lemma {:induction false} ReservationStands(m: Memory, events: seq<Event>, i: nat, n: nat, k: Key)
    requires Ordered(events) && i < n <= |events| && ReservesAt(m, events, i, k)
    requires forall j :: i < j < n ==> !Overwrites(events[j].op, k)
    ensures var until := events[i].at + events[i].op.ttl;
            || until <= events[n - 1].at
            || (k in MemoryAt(m, events, n) && MemoryAt(m, events, n)[k].expiresAt == until)
    decreases n
  {
    if n > i + 1 {
      ReservationStands(m, events, i, n - 1, k);
    }
  }

  /** Two successful reservations of one key are at least the first one's time to live apart. */
  lemma ReservationsSpaced(m: Memory, events: seq<Event>, i: nat, j: nat, k: Key)
    requires Ordered(events) && i < j < |events|
    requires ReservesAt(m, events, i, k) && ReservesAt(m, events, j, k)
    requires forall l :: i < l < j ==> !Overwrites(events[l].op, k)
    ensures events[i].at + events[i].op.ttl <= events[j].at
  {
    ReservationStands(m, events, i, j, k);
  }

  // ---- the two stores agree, exactly when ----

  /**
   What a caller of the memory store could have written down: the keys a Load has already
   answered since they were last written, and those last written by a reservation.
   */
  datatype Ledger = Ledger(consumed: set<Key>, markers: set<Key>)

  function LedgerStep(l: Ledger, m: Memory, e: Event): Ledger {
    match e.op
    case Save(k, _, _) => Ledger(l.consumed - {k}, l.markers - {k})
    case Delete(k) => Ledger(l.consumed - {k}, l.markers - {k})
    case Load(k) => if MemoryStep(m, e).answer.Found? then Ledger(l.consumed + {k}, l.markers) else l
    case Reserve(k, _) =>
      if MemoryStep(m, e).answer == Reserved(true) then Ledger(l.consumed - {k}, l.markers + {k}) else l
    case Sweep(_) => l
  }

  /**
   The operations on which the stores differ: a second Load, or a Reserve, of a session that
   was already loaded and has not expired; a Load of a reservation; and at the exact expiry
   instant, whichever of Load and Reserve the server's own rule contradicts.
   */
  predicate Diverges(m: Memory, l: Ledger, e: Event, keeps: bool) {
    match e.op
    case Load(k) =>
      && k in m && e.at <= m[k].expiresAt
      && (k in l.consumed || k in l.markers || (e.at == m[k].expiresAt && !keeps))
    case Reserve(k, _) =>
      && k in m
      && ((e.at < m[k].expiresAt && k in l.consumed) || (e.at == m[k].expiresAt && keeps && k !in l.consumed))
    case _ => false
  }

  function LedgerAt(m: Memory, l: Ledger, events: seq<Event>, n: nat): Ledger
    requires n <= |events|
  {
    if n == 0 then l
    else LedgerStep(LedgerAt(m, l, events, n - 1), MemoryAt(m, events, n - 1), events[n - 1])
  }

  function RedisAt(r: Keyspace, events: seq<Event>, n: nat, keeps: bool): Keyspace
    requires n <= |events|
  {
    if n == 0 then r else RedisStep(RedisAt(r, events, n - 1, keeps), events[n - 1], keeps).keys
  }

  /** Redis holds what memory holds, less what a Load consumed, among the keys still alive. */
  ghost predicate Mirrors(m: Memory, l: Ledger, r: Keyspace, now: int) {
    && (forall k :: k in m && now <= m[k].expiresAt && k !in l.consumed ==>
          && k in r && r[k].expiresAt == m[k].expiresAt
          && r[k].value == (if k in l.markers then One else Json(m[k].data)))
    && (forall k :: k in r && now <= r[k].expiresAt ==>
          k in m && m[k].expiresAt == r[k].expiresAt && k !in l.consumed)
  }

  predicate PositiveTtl(op: Op) {
    op.Save? || op.Reserve? ==> op.ttl > 0
  }

  lemma MirrorWrite(m: Memory, l: Ledger, r: Keyspace, e: Event, keeps: bool)
    requires Mirrors(m, l, r, e.at) && PositiveTtl(e.op)
    requires e.op.Save? || e.op.Delete? || (e.op.Sweep? && e.op.seen <= e.at)
    ensures Mirrors(MemoryStep(m, e).entries, LedgerStep(l, m, e), RedisStep(r, e, keeps).keys, e.at)
  {
  }

  lemma MirrorLoad(m: Memory, l: Ledger, r: Keyspace, e: Event, keeps: bool)
    requires Mirrors(m, l, r, e.at) && e.op.Load?
    ensures MemoryStep(m, e).answer == RedisStep(r, e, keeps).answer <==> !Diverges(m, l, e, keeps)
    ensures !Diverges(m, l, e, keeps) ==>
              Mirrors(MemoryStep(m, e).entries, LedgerStep(l, m, e), RedisStep(r, e, keeps).keys, e.at)
  {
  }

  lemma MirrorReserve(m: Memory, l: Ledger, r: Keyspace, e: Event, keeps: bool)
    requires Mirrors(m, l, r, e.at) && e.op.Reserve? && PositiveTtl(e.op)
    ensures MemoryStep(m, e).answer == RedisStep(r, e, keeps).answer <==> !Diverges(m, l, e, keeps)
    ensures !Diverges(m, l, e, keeps) ==>
              Mirrors(MemoryStep(m, e).entries, LedgerStep(l, m, e), RedisStep(r, e, keeps).keys, e.at)
  {
  }

  /** From mirroring states one operation answers alike exactly when it does not diverge, and then they mirror again. */
  lemma MirrorStep(m: Memory, l: Ledger, r: Keyspace, now: int, e: Event, keeps: bool)
    requires Mirrors(m, l, r, now) && now <= e.at && PositiveTtl(e.op)
    requires e.op.Sweep? ==> e.op.seen <= e.at
    ensures MemoryStep(m, e).answer == RedisStep(r, e, keeps).answer <==> !Diverges(m, l, e, keeps)
    ensures !Diverges(m, l, e, keeps) ==>
              Mirrors(MemoryStep(m, e).entries, LedgerStep(l, m, e), RedisStep(r, e, keeps).keys, e.at)
  {
    assert Mirrors(m, l, r, e.at);
    if e.op.Load? {
      MirrorLoad(m, l, r, e, keeps);
    } else if e.op.Reserve? {
      MirrorReserve(m, l, r, e, keeps);
    } else {
      MirrorWrite(m, l, r, e, keeps);
    }
  }

  ghost predicate DivergesAt(events: seq<Event>, n: nat, keeps: bool)
    requires n < |events|
  {
    Diverges(MemoryAt(map[], events, n), LedgerAt(map[], Ledger({}, {}), events, n), events[n], keeps)
  }

  ghost predicate AgreeAt(events: seq<Event>, n: nat, keeps: bool)
    requires n < |events|
  {
    var m, r := MemoryAt(map[], events, n), RedisAt(map[], events, n, keeps);
    MemoryStep(m, events[n]).answer == RedisStep(r, events[n], keeps).answer
  }

  lemma {:induction false} MirrorAt(events: seq<Event>, n: nat, keeps: bool)
    requires Ordered(events) && n < |events|
    requires forall i :: 0 <= i < |events| ==> PositiveTtl(events[i].op)
    requires forall i :: 0 <= i < n ==> !DivergesAt(events, i, keeps)
    ensures Mirrors(MemoryAt(map[], events, n), LedgerAt(map[], Ledger({}, {}), events, n),
                    RedisAt(map[], events, n, keeps), events[n].at)
  {
    if n > 0 {
      MirrorAt(events, n - 1, keeps);
      var m, r := MemoryAt(map[], events, n - 1), RedisAt(map[], events, n - 1, keeps);
      var l := LedgerAt(map[], Ledger({}, {}), events, n - 1);
      assert !DivergesAt(events, n - 1, keeps);
      MirrorStep(m, l, r, events[n - 1].at, events[n - 1], keeps);
    }
  }

  lemma {:induction false} AgreementExcludesDivergence(events: seq<Event>, n: nat, keeps: bool)
    requires Ordered(events) && n <= |events|
    requires forall i :: 0 <= i < |events| ==> PositiveTtl(events[i].op)
    requires forall i :: 0 <= i < n ==> AgreeAt(events, i, keeps)
    ensures forall i :: 0 <= i < n ==> !DivergesAt(events, i, keeps)
  {
    if n > 0 {
      AgreementExcludesDivergence(events, n - 1, keeps);
      StepAgreesIff(events, n - 1, keeps);
    }
  }

  lemma StepAgreesIff(events: seq<Event>, n: nat, keeps: bool)
    requires Ordered(events) && n < |events|
    requires forall i :: 0 <= i < |events| ==> PositiveTtl(events[i].op)
    requires forall i :: 0 <= i < n ==> !DivergesAt(events, i, keeps)
    ensures AgreeAt(events, n, keeps) <==> !DivergesAt(events, n, keeps)
  {
    MirrorAt(events, n, keeps);
    MirrorStep(MemoryAt(map[], events, n), LedgerAt(map[], Ledger({}, {}), events, n),
               RedisAt(map[], events, n, keeps), events[n].at, events[n], keeps);
  }

  /**
   Over every run from empty stores with positive times to live, the two implementations give
   the same answers throughout exactly when no operation of the run diverges.
   */
  lemma StoresAgreeIff(events: seq<Event>, keeps: bool)
    requires Ordered(events)
    requires forall i :: 0 <= i < |events| ==> PositiveTtl(events[i].op)
    ensures (forall n :: 0 <= n < |events| ==> AgreeAt(events, n, keeps))
       <==> (forall n :: 0 <= n < |events| ==> !DivergesAt(events, n, keeps))
  {
    if forall n :: 0 <= n < |events| ==> AgreeAt(events, n, keeps) {
      AgreementExcludesDivergence(events, |events|, keeps);
    } else if forall n :: 0 <= n < |events| ==> !DivergesAt(events, n, keeps) {
      forall n | 0 <= n < |events| ensures AgreeAt(events, n, keeps) {
        StepAgreesIff(events, n, keeps);
      }
    }
  }

  // ---- the callers' discipline is enough ----

  predicate Touches(op: Op, k: Key) {
    !op.Sweep? && op.key == k
  }

  ghost predicate NextTouch(events: seq<Event>, i: nat, j: nat, k: Key)
    requires i < j < |events|
  {
    Touches(events[j].op, k) && forall l :: i < l < j ==> !Touches(events[l].op, k)
  }

  /** After a Load of a key, the next operation on that key is its Delete. */
  ghost predicate LoadThenDelete(events: seq<Event>) {
    forall i, j :: 0 <= i < j < |events| && events[i].op.Load? && NextTouch(events, i, j, events[i].op.key) ==>
      events[j].op.Delete?
  }

  /** A key counts as consumed only while the latest operation on it is the Load that consumed it. */
  lemma {:induction false} ConsumedByLastLoad(events: seq<Event>, n: nat, k: Key) returns (i: nat)
    requires n <= |events| && LoadThenDelete(events)
    requires k in LedgerAt(map[], Ledger({}, {}), events, n).consumed
    ensures i < n && events[i].op == Load(k)
    ensures forall l :: i < l < n ==> !Touches(events[l].op, k)
  {
    var op := events[n - 1].op;
    if op == Load(k) {
      i := n - 1;
    } else {
      i := ConsumedByLastLoad(events, n - 1, k);
      assert Touches(op, k) ==> NextTouch(events, i, n - 1, k);
    }
  }

  /** No operation falls on the expiry instant of its key, and no Load meets a reservation. */
  ghost predicate ClearOfEdges(events: seq<Event>) {
    forall n :: 0 <= n < |events| ==>
      var m, op := MemoryAt(map[], events, n), events[n].op;
      && (!op.Sweep? && op.key in m ==> events[n].at != m[op.key].expiresAt)
      && (op.Load? ==> op.key !in LedgerAt(map[], Ledger({}, {}), events, n).markers)
  }

  /** The single-use pattern of the login handlers makes the two stores interchangeable. */
  lemma DisciplineSuffices(events: seq<Event>, keeps: bool)
    requires Ordered(events) && LoadThenDelete(events) && ClearOfEdges(events)
    requires forall i :: 0 <= i < |events| ==> PositiveTtl(events[i].op)
    ensures forall n :: 0 <= n < |events| ==> AgreeAt(events, n, keeps)
  {
    forall n | 0 <= n < |events| ensures !DivergesAt(events, n, keeps) {
      var op := events[n].op;
      if (op.Load? || op.Reserve?) && op.key in LedgerAt(map[], Ledger({}, {}), events, n).consumed {
        var i := ConsumedByLastLoad(events, n, op.key);
        assert NextTouch(events, i, n, op.key);
      }
    }
    StoresAgreeIff(events, keeps);
  }
}
