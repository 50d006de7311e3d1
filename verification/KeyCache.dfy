/**
 The pinned cache of release-signing keys: a job that primes an in-process map from the
 database at start, refreshes each tool's key from upstream under a fingerprint pin, and
 answers the mirror sync from the map.
 */
module KeyCache {
  import opened Basics
  import opened Text

  type Armored = string

  /** The primary fingerprint of an armored key, when it parses at all. */
  type Parser = Armored -> Option<string>

  datatype Endpoint = Endpoint(tool: string, fingerprint: string)

  datatype Row = Row(armored: Armored, fingerprint: string)

  type Database = map<string, Row>

  /** One process: its endpoints with their pins and its cache; and the database that outlives it. */
  datatype State = State(endpoints: seq<Endpoint>, cache: map<string, Armored>, rows: Database)

  /** What upstream serves: nothing, or a body and whether it still has a usable signing key. */
  datatype Served = Unreachable | Body(text: string, usable: bool)

  /** A database write is stored, refused, or stored with its acknowledgement lost. */
  datatype Write = Stored | Refused | AckLost

  predicate IsHex(c: char) {
    '0' <= c <= '9' || 'A' <= c <= 'F' || 'a' <= c <= 'f'
  }

  predicate PinShape(pin: string) {
    |pin| == 40 && forall i :: 0 <= i < |pin| ==> IsHex(pin[i])
  }

  predicate Matches(parse: Parser, key: Armored, pin: string) {
    parse(key).Some? && EqualFold(parse(key).value, pin)
  }

  /** `FetchReleasesKey`: the trimmed body, if it parses, is usable and carries the pinned fingerprint. */
  function Fetch(parse: Parser, served: Served, pin: string): Option<Armored> {
    if served.Unreachable? || !PinShape(pin) then None
    else
      var key := TrimSpace(served.text);
      if served.usable && Matches(parse, key, pin) then Some(key) else None
  }

  datatype Step =
    | Prime(endpoint: nat, readable: bool)
    | Refresh(endpoint: nat, served: Served, write: Write)
    | Restart(endpoints: seq<Endpoint>)

  predicate DistinctTools(es: seq<Endpoint>) {
    forall i, j :: 0 <= i < j < |es| ==> es[i].tool != es[j].tool
  }

  function PrimeOne(s: State, e: Endpoint, readable: bool): State {
    if !readable || e.tool !in s.rows || !EqualFold(s.rows[e.tool].fingerprint, e.fingerprint) then s
    else s.(cache := s.cache[e.tool := s.rows[e.tool].armored])
  }

  function RefreshOne(parse: Parser, s: State, e: Endpoint, served: Served, write: Write): State {
    var fetched := Fetch(parse, served, e.fingerprint);
    if fetched == None || (e.tool in s.cache && s.cache[e.tool] == fetched.value) then s
    else
      var row := Row(fetched.value, parse(fetched.value).value);
      match write
      case Refused => s
      case AckLost => s.(rows := s.rows[e.tool := row])
      case Stored => s.(rows := s.rows[e.tool := row], cache := s.cache[e.tool := fetched.value])
  }

  function Next(parse: Parser, s: State, step: Step): State {
    match step
    case Prime(i, readable) => if i < |s.endpoints| then PrimeOne(s, s.endpoints[i], readable) else s
    case Refresh(i, served, write) =>
      if i < |s.endpoints| then RefreshOne(parse, s, s.endpoints[i], served, write) else s
    case Restart(es) => if DistinctTools(es) then State(es, map[], s.rows) else s
  }

  function Run(parse: Parser, s: State, steps: seq<Step>): State
    decreases steps
  {
    if steps == [] then s else Run(parse, Next(parse, s, steps[0]), steps[1..])
  }

  /** `ResolveReleasesKey`; the empty string sends the caller to its embedded key. */
  function Resolve(s: State, tool: string): Armored {
    var key := Lower(tool);
    if key in s.cache then s.cache[key] else ""
  }

  /** A start: every endpoint primed in order, then every endpoint refreshed in order. */
  function PrimeFrom(s: State, readable: seq<bool>, i: nat): State
    requires |readable| == |s.endpoints| && i <= |readable|
    decreases |readable| - i
  {
    if i == |readable| then s else PrimeFrom(PrimeOne(s, s.endpoints[i], readable[i]), readable, i + 1)
  }

  function CycleFrom(parse: Parser, s: State, served: seq<Served>, writes: seq<Write>, i: nat): State
    requires |served| == |writes| == |s.endpoints| && i <= |served|
    decreases |served| - i
  {
    if i == |served| then s
    else CycleFrom(parse, RefreshOne(parse, s, s.endpoints[i], served[i], writes[i]), served, writes, i + 1)
  }

  class ReleasesKeyRefreshJob {
    const parse: Parser
    const endpoints: seq<Endpoint>
    var cache: map<string, Armored>
    var rows: Database

    ghost function Now(): State
      reads this
    {
      State(endpoints, cache, rows)
    }

    constructor (parse: Parser, endpoints: seq<Endpoint>, rows: Database)
      ensures this.parse == parse && Now() == State(endpoints, map[], rows)
    {
      this.parse, this.endpoints, this.rows, cache := parse, endpoints, rows, map[];
    }

    method PrimeCacheFromDB(readable: seq<bool>)
      requires |readable| == |endpoints|
      modifies this
      ensures Now() == PrimeFrom(old(Now()), readable, 0)
    {
      var i := 0;
      while i < |endpoints|
        invariant i <= |endpoints|
        invariant PrimeFrom(Now(), readable, i) == PrimeFrom(old(Now()), readable, 0)
      {
        var e := endpoints[i];
        if readable[i] && e.tool in rows {
          var row := rows[e.tool];
          if EqualFold(row.fingerprint, e.fingerprint) {
            cache := cache[e.tool := row.armored];
          }
        }
        i := i + 1;
      }
    }

    method RefreshTool(e: Endpoint, served: Served, write: Write)
      modifies this
      ensures Now() == RefreshOne(parse, old(Now()), e, served, write)
    {
      var fetched := Fetch(parse, served, e.fingerprint);
      if fetched == None {
        return;
      }
      var armored := fetched.value;
      if e.tool in cache && cache[e.tool] == armored {
        return;
      }
      if write != Refused {
        rows := rows[e.tool := Row(armored, parse(armored).value)];
      }
      if write != Stored {
        return;
      }
      cache := cache[e.tool := armored];
    }

    method RunCycle(served: seq<Served>, writes: seq<Write>)
      requires |served| == |writes| == |endpoints|
      modifies this
      ensures Now() == CycleFrom(parse, old(Now()), served, writes, 0)
    {
      var i := 0;
      while i < |endpoints|
        invariant i <= |endpoints|
        invariant CycleFrom(parse, Now(), served, writes, i) == CycleFrom(parse, old(Now()), served, writes, 0)
      {
        RefreshTool(endpoints[i], served[i], writes[i]);
        i := i + 1;
      }
    }

    method ResolveReleasesKey(tool: string) returns (key: Armored)
      ensures key == Resolve(Now(), tool)
    {
      var name := Lower(tool);
      key := if name in cache then cache[name] else "";
    }
  }

  // ---- what is fetched, and what the resolver then returns ----

  /** A key is fetched exactly when the trimmed body parses, is usable and carries a well-formed pin's fingerprint. */
  lemma FetchIff(parse: Parser, text: string, usable: bool, pin: string, key: Armored)
    ensures Fetch(parse, Unreachable, pin) == None
    ensures Fetch(parse, Body(text, usable), pin) == Some(key) <==>
              && key == TrimSpace(text) && usable && parse(key).Some? && EqualFold(parse(key).value, pin)
              && |pin| == 40 && forall c :: c in pin ==> '0' <= c <= '9' || 'a' <= c <= 'f' || 'A' <= c <= 'F'
  {
    assert forall i :: 0 <= i < |pin| ==> pin[i] in pin;
  }

  /** After a stored refresh the resolver returns the fetched key for the tool, in any letter case. */
  lemma ResolvesRefreshed(parse: Parser, s: State, e: Endpoint, served: Served, tool: string)
    requires Fetch(parse, served, e.fingerprint).Some? && e.tool == Lower(e.tool) && EqualFold(tool, e.tool)
    ensures Resolve(RefreshOne(parse, s, e, served, Stored), tool) == Fetch(parse, served, e.fingerprint).value
  {
  }

  /** Priming returns the row's key exactly when it can be read and carries the pin, and otherwise changes nothing. */
  lemma ResolvesPrimed(s: State, e: Endpoint, readable: bool, tool: string)
    requires e.tool == Lower(e.tool) && EqualFold(tool, e.tool)
    ensures var primes := readable && e.tool in s.rows && EqualFold(s.rows[e.tool].fingerprint, e.fingerprint);
            Resolve(PrimeOne(s, e, readable), tool) == if primes then s.rows[e.tool].armored else Resolve(s, tool)
  {
  }

  /** A refresh that fetches nothing, or whose write fails, leaves what the resolver returns. */
  lemma ResolvesUnchanged(parse: Parser, s: State, e: Endpoint, served: Served, write: Write, tool: string)
    requires Fetch(parse, served, e.fingerprint) == None || write != Stored || Lower(tool) != e.tool
    ensures Resolve(RefreshOne(parse, s, e, served, write), tool) == Resolve(s, tool)
  {
  }

  /** A restart forgets the cache and no row, so priming serves the last stored key before anything is fetched. */
  lemma RestartServesRow(parse: Parser, s: State, es: seq<Endpoint>, i: nat, tool: string)
    requires DistinctTools(es) && i < |es| && es[i].tool == Lower(es[i].tool) && EqualFold(tool, es[i].tool)
    requires es[i].tool in s.rows && EqualFold(s.rows[es[i].tool].fingerprint, es[i].fingerprint)
    ensures Resolve(Next(parse, s, Restart(es)), tool) == ""
    ensures Resolve(Next(parse, Next(parse, s, Restart(es)), Prime(i, true)), tool) == s.rows[es[i].tool].armored
  {
  }

  // ---- the resolver honours the pin ----

  /** With the job as sole writer every row's fingerprint is its key's. */
  ghost predicate HonestRows(parse: Parser, rows: Database) {
    forall k :: k in rows ==> parse(rows[k].armored) == Some(rows[k].fingerprint)
  }

  /** Some endpoint of this tool pins the key's fingerprint. */
  ghost predicate PinnedKey(parse: Parser, es: seq<Endpoint>, tool: string, key: Armored) {
    exists i :: 0 <= i < |es| && es[i].tool == tool && Matches(parse, key, es[i].fingerprint)
  }

  ghost predicate Pinned(parse: Parser, s: State) {
    && DistinctTools(s.endpoints)
    && HonestRows(parse, s.rows)
    && forall k :: k in s.cache ==> PinnedKey(parse, s.endpoints, k, s.cache[k])
  }

  /** Caching one more key that matches its endpoint's pin. */
  lemma PinnedAfter(parse: Parser, s: State, t: State, i: nat)
    requires Pinned(parse, s) && i < |s.endpoints| && t.endpoints == s.endpoints && HonestRows(parse, t.rows)
    requires forall k :: k in t.cache ==>
               || (k in s.cache && s.cache[k] == t.cache[k])
               || (k == s.endpoints[i].tool && Matches(parse, t.cache[k], s.endpoints[i].fingerprint))
    ensures Pinned(parse, t)
  {
  }

  lemma PinnedStep(parse: Parser, s: State, step: Step)
    requires Pinned(parse, s)
    ensures Pinned(parse, Next(parse, s, step))
  {
    if !step.Restart? && step.endpoint < |s.endpoints| {
      PinnedAfter(parse, s, Next(parse, s, step), step.endpoint);
    }
  }

  lemma {:induction false} PinnedRun(parse: Parser, s: State, steps: seq<Step>)
    requires Pinned(parse, s)
    ensures Pinned(parse, Run(parse, s, steps))
    decreases steps
  {
    if steps != [] {
      PinnedStep(parse, s, steps[0]);
      PinnedRun(parse, Next(parse, s, steps[0]), steps[1..]);
    }
  }

  /**
   Over restarts with new pins, unreadable rows, refused or half-acknowledged writes and
   anything upstream serves, the resolver only hands out keys that carry the current pin.
   */
  lemma ResolverHonoursPin(parse: Parser, s: State, steps: seq<Step>, tool: string, i: nat)
    requires Pinned(parse, s)
    requires var t := Run(parse, s, steps); i < |t.endpoints| && t.endpoints[i].tool == Lower(tool)
    ensures var t := Run(parse, s, steps);
            Resolve(t, tool) == "" || Matches(parse, Resolve(t, tool), t.endpoints[i].fingerprint)
  {
    PinnedRun(parse, s, steps);
  }

  // ---- the cache never falls out of step with the database ----

  ghost predicate InStep(s: State) {
    forall k :: k in s.cache ==> k in s.rows && s.rows[k].armored == s.cache[k]
  }

  /** A write that was stored but not acknowledged replaces the row of a key that stays cached. */
  predicate LosesTrack(parse: Parser, s: State, step: Step) {
    && step.Refresh? && step.write.AckLost? && step.endpoint < |s.endpoints|
    && var e := s.endpoints[step.endpoint];
       var fetched := Fetch(parse, step.served, e.fingerprint);
       fetched.Some? && e.tool in s.cache && s.cache[e.tool] != fetched.value
  }

  lemma InStepIff(parse: Parser, s: State, step: Step)
    requires InStep(s)
    ensures InStep(Next(parse, s, step)) <==> !LosesTrack(parse, s, step)
  {
    if LosesTrack(parse, s, step) {
      var tool := s.endpoints[step.endpoint].tool;
      assert Next(parse, s, step).rows[tool].armored != s.cache[tool];
    }
  }

  lemma {:induction false} RunSnoc(parse: Parser, s: State, steps: seq<Step>, n: nat)
    requires n < |steps|
    ensures Run(parse, s, steps[..n + 1]) == Next(parse, Run(parse, s, steps[..n]), steps[n])
    decreases n
  {
    if n == 0 {
      assert steps[..1][1..] == [];
    } else {
      RunSnoc(parse, Next(parse, s, steps[0]), steps[1..], n - 1);
      assert steps[..n + 1][1..] == steps[1..][..n];
      assert steps[..n][1..] == steps[1..][..n - 1];
    }
  }

  lemma {:induction false} InStepPrefix(parse: Parser, s: State, steps: seq<Step>, n: nat)
    requires InStep(s) && n <= |steps|
    requires forall i :: 0 <= i < |steps| ==> !LosesTrack(parse, Run(parse, s, steps[..i]), steps[i])
    ensures InStep(Run(parse, s, steps[..n]))
  {
    if n > 0 {
      InStepPrefix(parse, s, steps, n - 1);
      RunSnoc(parse, s, steps, n - 1);
      InStepIff(parse, Run(parse, s, steps[..n - 1]), steps[n - 1]);
    }
  }

  /**
   Over every run, each cached key equals its database row after every step, if and only if
   no write of a different key was ever stored without being acknowledged.
   */
  lemma CacheInStepIff(parse: Parser, s: State, steps: seq<Step>)
    requires InStep(s)
    ensures (forall n :: 0 <= n <= |steps| ==> InStep(Run(parse, s, steps[..n])))
       <==> (forall n :: 0 <= n < |steps| ==> !LosesTrack(parse, Run(parse, s, steps[..n]), steps[n]))
  {
    if forall n :: 0 <= n < |steps| ==> !LosesTrack(parse, Run(parse, s, steps[..n]), steps[n]) {
      forall n | 0 <= n <= |steps| ensures InStep(Run(parse, s, steps[..n])) {
        InStepPrefix(parse, s, steps, n);
      }
    } else if forall n :: 0 <= n <= |steps| ==> InStep(Run(parse, s, steps[..n])) {
      forall n | 0 <= n < |steps| ensures !LosesTrack(parse, Run(parse, s, steps[..n]), steps[n]) {
        RunSnoc(parse, s, steps, n);
        InStepIff(parse, Run(parse, s, steps[..n]), steps[n]);
      }
    }
  }

  /** So a skipped write never leaves the database behind: after a fetch and an unfailing write the row is the key. */
  lemma RefreshLeavesRowCurrent(parse: Parser, s: State, e: Endpoint, served: Served)
    requires InStep(s) && Fetch(parse, served, e.fingerprint).Some?
    ensures var t := RefreshOne(parse, s, e, served, Stored);
            var key := Fetch(parse, served, e.fingerprint).value;
            e.tool in t.rows && t.rows[e.tool].armored == key && e.tool in t.cache && t.cache[e.tool] == key
  {
  }

  /** Within one process a cached key may be replaced but never evicted. */
  lemma {:induction false} NeverEvicted(parse: Parser, s: State, steps: seq<Step>, tool: string)
    requires tool in s.cache
    requires forall n :: 0 <= n < |steps| ==> !steps[n].Restart?
    ensures tool in Run(parse, s, steps).cache
    decreases steps
  {
    if steps != [] {
      NeverEvicted(parse, Next(parse, s, steps[0]), steps[1..], tool);
    }
  }

  /** The row of a cached key holds another key. */
  ghost predicate Behind(s: State, tool: string) {
    tool in s.cache && tool in s.rows && s.rows[tool].armored != s.cache[tool]
  }

  /** A refresh that, if it is of this tool, fetches nothing or the key already cached. */
  ghost predicate OldKeyServed(parse: Parser, s: State, tool: string, step: Step) {
    && step.Refresh?
    && (step.endpoint < |s.endpoints| && s.endpoints[step.endpoint].tool == tool && tool in s.cache ==>
          Fetch(parse, step.served, s.endpoints[step.endpoint].fingerprint) in {None, Some(s.cache[tool])})
  }

  lemma {:induction false} StaysBehind(parse: Parser, s: State, steps: seq<Step>, tool: string)
    requires Behind(s, tool) && forall n :: 0 <= n < |steps| ==> OldKeyServed(parse, s, tool, steps[n])
    ensures Behind(Run(parse, s, steps), tool) && Run(parse, s, steps).cache[tool] == s.cache[tool]
    decreases steps
  {
    if steps != [] {
      var t := Next(parse, s, steps[0]);
      assert OldKeyServed(parse, s, tool, steps[0]);
      assert Behind(t, tool) && t.cache[tool] == s.cache[tool] && t.endpoints == s.endpoints;
      forall n | 0 <= n < |steps[1..]| ensures OldKeyServed(parse, t, tool, steps[1..][n]) {
        assert OldKeyServed(parse, s, tool, steps[n + 1]);
      }
      StaysBehind(parse, t, steps[1..], tool);
    }
  }

  /**
   The lost acknowledgement: the row takes the new key while the old one stays cached, and over
   any number of further refreshes, of whatever outcome, it stays so while upstream serves the
   old key or nothing.
   */
  lemma LostAckLeavesRowBehind(parse: Parser, s: State, i: nat, newer: Served, steps: seq<Step>)
    requires i < |s.endpoints| && LosesTrack(parse, s, Refresh(i, newer, AckLost))
    requires var t := Next(parse, s, Refresh(i, newer, AckLost));
             forall n :: 0 <= n < |steps| ==> OldKeyServed(parse, t, s.endpoints[i].tool, steps[n])
    ensures var tool := s.endpoints[i].tool;
            var t := Run(parse, Next(parse, s, Refresh(i, newer, AckLost)), steps);
            Behind(t, tool) && t.cache[tool] == s.cache[tool]
  {
    StaysBehind(parse, Next(parse, s, Refresh(i, newer, AckLost)), steps, s.endpoints[i].tool);
  }
}
