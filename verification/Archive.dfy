/**
 Extraction of a module archive into a directory: the entry loop of `ExtractTarGz`, with its
 containment check, its entry budget and its cumulative byte budget.
 */
module Archive {
  import opened Basics
  import opened Paths

  type Bytes = seq<bv8>

  datatype Node = Dir | File(bytes: Bytes)

  type Tree = map<Path, Node>

  const MAX_BYTES: int := 104857600
  const MAX_ENTRIES: int := 100000

  datatype Kind = Directory | Regular | Other

  /**
   What the operating system answers while one entry is handled: how many directories it
   agrees to create, whether the file opens, and where a copy breaks off if it does.
   */
  datatype Answers = Answers(mkdirs: nat, opens: bool, copyStops: Option<nat>)

  datatype Entry = Entry(name: string, kind: Kind, body: Bytes, os: Answers)

  /** The decoded stream: its entries, then an end of archive or a read failure. */
  datatype Archive = Unreadable | Readable(entries: seq<Entry>, intact: bool)

  datatype Error =
    | NotAbsolute | OpenGzip | ReadTar | TooManyEntries | InvalidPath
    | Mkdir | CreateFile | WriteFile | TooLarge

  predicate IsDir(tree: Tree, p: Path) {
    p in tree && tree[p].Dir?
  }

  /** Bytes written from offset zero into a file opened without truncation. */
  function Overlay(top: Bytes, under: Bytes): Bytes {
    if |top| < |under| then top + under[|top|..] else top
  }

  function BytesAt(tree: Tree, p: Path): Bytes {
    if p in tree && tree[p].File? then tree[p].bytes else []
  }

  /** An entry once its path is known: where it lands and whether the check accepted it. */
  datatype Job = Job(target: Path, inside: bool, kind: Kind, body: Bytes, os: Answers)

  function Place(dest: string, e: Entry): Job {
    Job(Target(dest, e.name), Contained(dest, e.name), e.kind, e.body, e.os)
  }

  function Jobs(dest: string, entries: seq<Entry>): seq<Job> {
    seq(|entries|, i requires 0 <= i < |entries| => Place(dest, entries[i]))
  }

  // ---- the functions the methods below compute ----

  datatype Made = Made(tree: Tree, ok: bool)

  /** `os.MkdirAll` from the `i`-th ancestor of `p` downwards. */
  function MakeFrom(tree: Tree, p: Path, i: nat, allowed: nat): Made
    requires i <= |p|
    decreases |p| - i
  {
    if i == |p| then Made(tree, true)
    else
      var q := p[..i + 1];
      if q in tree then
        if tree[q].Dir? then MakeFrom(tree, p, i + 1, allowed) else Made(tree, false)
      else if allowed == 0 then Made(tree, false)
      else MakeFrom(tree[q := Dir], p, i + 1, allowed - 1)
  }

  function Parent(p: Path): Path {
    if p == [] then p else p[..|p| - 1]
  }

  /** The bytes one copy puts on disk when `written` bytes preceded it. */
  function Copied(e: Job, written: int): Bytes
    requires 0 <= written <= MAX_BYTES
  {
    var n := Min(|e.body|, MAX_BYTES - written + 1);
    e.body[..if e.os.copyStops.Some? then Min(e.os.copyStops.value, n) else n]
  }

  datatype Turn = Turn(tree: Tree, written: int, error: Option<Error>)

  function WriteTurn(tree: Tree, e: Job, written: int): Turn
    requires 0 <= written <= MAX_BYTES
  {
    if !e.os.opens || IsDir(tree, e.target) then Turn(tree, written, Some(CreateFile))
    else
      var data := Copied(e, written);
      var after := tree[e.target := File(Overlay(data, BytesAt(tree, e.target)))];
      var total := written + |data|;
      Turn(after, total,
           if e.os.copyStops.Some? then Some(WriteFile)
           else if total > MAX_BYTES then Some(TooLarge)
           else None)
  }

  /** One pass of the loop body after the entry count was checked. */
  function EntryTurn(tree: Tree, e: Job, written: int): Turn
    requires 0 <= written <= MAX_BYTES
  {
    if !e.inside then Turn(tree, written, Some(InvalidPath))
    else match e.kind
      case Other => Turn(tree, written, None)
      case Directory =>
        var m := MakeFrom(tree, e.target, 0, e.os.mkdirs);
        Turn(m.tree, written, if m.ok then None else Some(Mkdir))
      case Regular =>
        var m := MakeFrom(tree, Parent(e.target), 0, e.os.mkdirs);
        if m.ok then WriteTurn(m.tree, e, written) else Turn(m.tree, written, Some(Mkdir))
  }

  datatype Outcome = Outcome(tree: Tree, written: int, handled: nat, error: Option<Error>)

  function ExtractFrom(tree: Tree, jobs: seq<Job>, intact: bool, i: nat, written: int): Outcome
    requires i <= |jobs|
    requires 0 <= written <= MAX_BYTES
    decreases |jobs| - i
  {
    if i == |jobs| then Outcome(tree, written, i, if intact then None else Some(ReadTar))
    else if i + 1 > MAX_ENTRIES then Outcome(tree, written, i, Some(TooManyEntries))
    else
      var turn := EntryTurn(tree, jobs[i], written);
      if turn.error.Some? then Outcome(turn.tree, turn.written, i + 1, turn.error)
      else ExtractFrom(turn.tree, jobs, intact, i + 1, turn.written)
  }

  function Extract(tree: Tree, dest: string, a: Archive): Outcome {
    if !IsAbs(dest) then Outcome(tree, 0, 0, Some(NotAbsolute))
    else if a.Unreadable? then Outcome(tree, 0, 0, Some(OpenGzip))
    else ExtractFrom(tree, Jobs(dest, a.entries), a.intact, 0, 0)
  }

  // ---- the loop, updating the file system in place ----

  class FileSystem {
    var tree: Tree

    constructor (tree: Tree)
      ensures this.tree == tree
    {
      this.tree := tree;
    }

    method MkdirAll(p: Path, allowed: nat) returns (ok: bool)
      modifies this
      ensures Made(tree, ok) == MakeFrom(old(tree), p, 0, allowed)
    {
      var i, left := 0, allowed;
      while i < |p|
        invariant i <= |p|
        invariant MakeFrom(tree, p, i, left) == MakeFrom(old(tree), p, 0, allowed)
      {
        var q := p[..i + 1];
        if q !in tree {
          if left == 0 {
            return false;
          }
          tree := tree[q := Dir];
          left := left - 1;
        } else if tree[q].File? {
          return false;
        }
        i := i + 1;
      }
      return true;
    }

    method ExtractTarGz(a: Archive, dest: string) returns (written: int, handled: nat, error: Option<Error>)
      modifies this
      ensures Outcome(tree, written, handled, error) == Extract(old(tree), dest, a)
    {
      written, handled, error := 0, 0, None;
      if !IsAbs(dest) {
        error := Some(NotAbsolute);
        return;
      }
      if a.Unreadable? {
        error := Some(OpenGzip);
        return;
      }
      ghost var jobs := Jobs(dest, a.entries);
      while handled < |a.entries|
        invariant handled <= |a.entries|
        invariant 0 <= written <= MAX_BYTES
        invariant error == None
        invariant ExtractFrom(tree, jobs, a.intact, handled, written) == ExtractFrom(old(tree), jobs, a.intact, 0, 0)
      {
        if handled + 1 > MAX_ENTRIES {
          error := Some(TooManyEntries);
          return;
        }
        assert jobs[handled] == Place(dest, a.entries[handled]);
        written, error := HandleEntry(a.entries[handled], dest, written);
        handled := handled + 1;
        if error.Some? {
          return;
        }
      }
      error := if a.intact then None else Some(ReadTar);
    }

    method HandleEntry(e: Entry, dest: string, written: int) returns (total: int, error: Option<Error>)
      requires 0 <= written <= MAX_BYTES
      modifies this
      ensures Turn(tree, total, error) == EntryTurn(old(tree), Place(dest, e), written)
      ensures error == None ==> 0 <= total <= MAX_BYTES
    {
      total, error := written, None;
      var target := Target(dest, e.name);
      if !Contained(dest, e.name) {
        error := Some(InvalidPath);
        return;
      }
      match e.kind
      case Other =>
      case Directory =>
        var ok := MkdirAll(target, e.os.mkdirs);
        error := if ok then None else Some(Mkdir);
      case Regular =>
        var ok := MkdirAll(Parent(target), e.os.mkdirs);
        if !ok {
          error := Some(Mkdir);
        } else if !e.os.opens || IsDir(tree, target) {
          error := Some(CreateFile);
        } else {
          var data := Copied(Place(dest, e), written);
          tree := tree[target := File(Overlay(data, BytesAt(tree, target)))];
          total := written + |data|;
          if e.os.copyStops.Some? {
            error := Some(WriteFile);
          } else if total > MAX_BYTES {
            error := Some(TooLarge);
          }
        }
    }
  }

  // ---- budgets ----

  lemma TurnTotals(tree: Tree, e: Job, written: int)
    requires 0 <= written <= MAX_BYTES
    ensures var turn := EntryTurn(tree, e, written);
            && written <= turn.written <= MAX_BYTES + 1
            && (turn.error == None ==>
                  && e.inside
                  && turn.written == written + (if e.kind.Regular? then |e.body| else 0) <= MAX_BYTES)
  {
  }

  function RegularBytes(jobs: seq<Job>, i: nat): nat
    requires i <= |jobs|
    decreases |jobs| - i
  {
    if i == |jobs| then 0
    else (if jobs[i].kind.Regular? then |jobs[i].body| else 0) + RegularBytes(jobs, i + 1)
  }

  lemma {:induction false} BudgetFrom(tree: Tree, jobs: seq<Job>, intact: bool, i: nat, written: int)
    requires i <= |jobs| && i <= MAX_ENTRIES
    requires 0 <= written <= MAX_BYTES
    ensures var out := ExtractFrom(tree, jobs, intact, i, written);
            && written <= out.written <= MAX_BYTES + 1
            && out.handled <= MAX_ENTRIES
            && (out.error == None ==>
                  && intact
                  && out.handled == |jobs|
                  && out.written == written + RegularBytes(jobs, i) <= MAX_BYTES
                  && forall j :: i <= j < |jobs| ==> jobs[j].inside)
    decreases |jobs| - i
  {
    if i < |jobs| && i + 1 <= MAX_ENTRIES {
      var turn := EntryTurn(tree, jobs[i], written);
      TurnTotals(tree, jobs[i], written);
      if turn.error == None {
        BudgetFrom(turn.tree, jobs, intact, i + 1, turn.written);
      }
    }
  }

  /**
   However extraction ends, at most the byte limit plus one byte reached the disk and at most
   the entry limit was handled. Success means more: an absolute destination, an intact
   archive, every entry inside the destination and every regular body counted within the limit.
   */
  lemma ExtractionBudget(tree: Tree, dest: string, a: Archive)
    ensures var out := Extract(tree, dest, a);
            && 0 <= out.written <= 104857600 + 1
            && out.handled <= 100000
            && (out.error == None ==>
                  && IsAbs(dest) && a.Readable? && a.intact
                  && |a.entries| <= 100000
                  && RegularBytes(Jobs(dest, a.entries), 0) == out.written <= 104857600
                  && forall j :: 0 <= j < |a.entries| ==> Components(dest) <= Target(dest, a.entries[j].name))
  {
    if a.Readable? && IsAbs(dest) {
      var jobs := Jobs(dest, a.entries);
      BudgetFrom(tree, jobs, a.intact, 0, 0);
      forall j | 0 <= j < |a.entries| && jobs[j].inside
        ensures Components(dest) <= Target(dest, a.entries[j].name)
      {
        ContainedIffPrefix(dest, a.entries[j].name);
      }
    }
  }

  // ---- where extraction stops, and why ----

  /** What each error of one entry says, and what the entry left behind. */
  lemma TurnErrors(tree: Tree, e: Job, written: int)
    requires 0 <= written <= 104857600
    ensures var turn := EntryTurn(tree, e, written);
            && (turn.error == Some(InvalidPath) <==> !e.inside)
            && (turn.error in {Some(InvalidPath), Some(Mkdir), Some(CreateFile)} ==> turn.written == written)
            && (turn.error == Some(InvalidPath) ==> turn.tree == tree)
            && (turn.error == Some(CreateFile) ==> e.kind.Regular? && (!e.os.opens || IsDir(turn.tree, e.target)))
            && (turn.error == Some(WriteFile) ==> e.kind.Regular? && e.os.copyStops.Some?)
            && (e.kind.Regular? && (!e.os.opens || e.os.copyStops.Some?) ==> turn.error != None)
            && (turn.error == Some(TooLarge) ==>
                  e.kind.Regular? && e.os.copyStops == None && turn.written == 104857601 <= written + |e.body|)
            && turn.error !in {Some(NotAbsolute), Some(OpenGzip), Some(ReadTar), Some(TooManyEntries)}
  {
  }

  /** A copy that breaks off, or hits the limit, leaves in the file as many of the entry's bytes as were counted. */
  lemma BrokenCopyLeavesPrefix(tree: Tree, e: Job, written: int)
    requires 0 <= written <= 104857600
    requires EntryTurn(tree, e, written).error in {Some(WriteFile), Some(TooLarge)}
    ensures var turn := EntryTurn(tree, e, written);
            var n := turn.written - written;
            && 0 <= n <= |e.body| && e.body[..n] <= BytesAt(turn.tree, e.target)
            && n == (if e.os.copyStops.Some? then Min(e.os.copyStops.value, Min(|e.body|, 104857601 - written))
                     else 104857601 - written)
  {
  }

  lemma {:induction false} StopFrom(tree: Tree, jobs: seq<Job>, intact: bool, i: nat, written: int)
    requires i <= |jobs| && 0 <= written <= MAX_BYTES
    ensures var out := ExtractFrom(tree, jobs, intact, i, written);
            && (out.error == Some(ReadTar) ==> !intact && out.handled == |jobs|)
            && (out.error == Some(TooManyEntries) ==> MAX_ENTRIES <= out.handled < |jobs|)
            && (out.error.Some? && out.error.value != ReadTar && out.error.value != TooManyEntries ==>
                  StoppedAtLast(tree, jobs, i, written, out))
    decreases |jobs| - i
  {
    if i < |jobs| && i + 1 <= MAX_ENTRIES {
      var turn := EntryTurn(tree, jobs[i], written);
      TurnTotals(tree, jobs[i], written);
      TurnErrors(tree, jobs[i], written);
      if turn.error == None {
        StopFrom(turn.tree, jobs, intact, i + 1, turn.written);
      }
    }
  }

  /** The failures that no single entry causes. */
  lemma ExtractionRefused(tree: Tree, dest: string, a: Archive)
    ensures var out := Extract(tree, dest, a);
            && (out.error == Some(NotAbsolute) <==> !IsAbs(dest))
            && (out.error == Some(OpenGzip) <==> IsAbs(dest) && a.Unreadable?)
            && (out.error in {Some(NotAbsolute), Some(OpenGzip)} ==> out.tree == tree)
            && (out.error == Some(ReadTar) ==> !a.intact && out.handled == |a.entries|)
            && (out.error == Some(TooManyEntries) ==> out.handled == 100000 < |a.entries|)
  {
    if IsAbs(dest) && a.Readable? {
      var jobs := Jobs(dest, a.entries);
      StopFrom(tree, jobs, a.intact, 0, 0);
      BudgetFrom(tree, jobs, a.intact, 0, 0);
      NeverUnopened(tree, jobs, a.intact, 0, 0);
    }
  }

  /** Extracting the entries before the `k`-th is running the loop over their jobs. */
  lemma PrefixExtract(tree: Tree, dest: string, entries: seq<Entry>, k: nat)
    requires IsAbs(dest) && k <= |entries|
    ensures Extract(tree, dest, Readable(entries[..k], true)) == ExtractFrom(tree, Jobs(dest, entries)[..k], true, 0, 0)
  {
    assert Jobs(dest, entries[..k]) == Jobs(dest, entries)[..k];
  }

  /** The outcome is that of the jobs before the last one handled, all of which passed, and then of that one's turn. */
  ghost predicate StoppedAtLast(tree: Tree, jobs: seq<Job>, i: nat, written: int, out: Outcome)
    requires 0 <= written <= MAX_BYTES
  {
    && i < out.handled <= |jobs|
    && var k := out.handled - 1;
       var before := ExtractFrom(tree, jobs[..k], true, i, written);
       && before.error == None && 0 <= before.written <= 104857600
       && EntryTurn(before.tree, jobs[k], before.written) == Turn(out.tree, out.written, out.error)
  }

  /**
   An extraction that fails at an entry has done what extracting the entries before it does, and
   then that entry's turn.
   */
  lemma ExtractionStops(tree: Tree, dest: string, a: Archive)
    requires IsAbs(dest) && a.Readable?
    requires var error := Extract(tree, dest, a).error;
             error.Some? && error.value != ReadTar && error.value != TooManyEntries
    ensures StoppedAtLast(tree, Jobs(dest, a.entries), 0, 0, Extract(tree, dest, a))
  {
    StopFrom(tree, Jobs(dest, a.entries), a.intact, 0, 0);
  }

  lemma {:induction false} NeverUnopened(tree: Tree, jobs: seq<Job>, intact: bool, i: nat, written: int)
    requires i <= |jobs| && 0 <= written <= MAX_BYTES
    ensures ExtractFrom(tree, jobs, intact, i, written).error !in {Some(NotAbsolute), Some(OpenGzip)}
    decreases |jobs| - i
  {
    if i < |jobs| && i + 1 <= MAX_ENTRIES {
      var turn := EntryTurn(tree, jobs[i], written);
      TurnTotals(tree, jobs[i], written);
      TurnErrors(tree, jobs[i], written);
      if turn.error == None {
        NeverUnopened(turn.tree, jobs, intact, i + 1, turn.written);
      }
    }
  }

  // ---- confinement ----

  /**
   `after` differs from `before` only at or below `dest`, apart from directories made above
   it because they were missing; nothing disappears and nothing changes kind.
   */
  ghost predicate Confined(before: Tree, after: Tree, dest: Path) {
    && (forall p :: p in before ==> p in after && (before[p].Dir? <==> after[p].Dir?))
    && (forall p :: p in before && !(dest <= p) ==> after[p] == before[p])
    && (forall p :: p in after && p !in before && !(dest <= p) ==> p < dest && after[p].Dir?)
  }

  lemma ConfinedTrans(a: Tree, b: Tree, c: Tree, dest: Path)
    requires Confined(a, b, dest) && Confined(b, c, dest)
    ensures Confined(a, c, dest)
  {
  }

  /** Making directories keeps every node and adds only directories on the way to `p`. */
  lemma {:induction false} MakeFromAdds(tree: Tree, p: Path, i: nat, allowed: nat)
    requires i <= |p|
    ensures var m := MakeFrom(tree, p, i, allowed);
            && (forall q :: q in tree ==> q in m.tree && m.tree[q] == tree[q])
            && (forall q :: q in m.tree && q !in tree ==> m.tree[q].Dir? && q <= p)
            && (m.ok && i < |p| ==> IsDir(m.tree, p))
    decreases |p| - i
  {
    if i < |p| {
      var q := p[..i + 1];
      assert i + 1 == |p| ==> q == p;
      if q in tree {
        if tree[q].Dir? {
          MakeFromAdds(tree, p, i + 1, allowed);
        }
      } else if allowed > 0 {
        MakeFromAdds(tree[q := Dir], p, i + 1, allowed - 1);
      }
    }
  }

  lemma PrefixesCompare(q: Path, dest: Path, target: Path)
    requires q <= target && dest <= target
    ensures dest <= q || q < dest
  {
    if |q| < |dest| {
      assert q == target[..|q|] == dest[..|q|];
    } else {
      assert dest == target[..|dest|] == q[..|dest|];
    }
  }

  lemma EntryTurnConfined(tree: Tree, e: Job, written: int, root: Path)
    requires 0 <= written <= MAX_BYTES
    requires e.inside ==> root <= e.target
    ensures Confined(tree, EntryTurn(tree, e, written).tree, root)
  {
    if e.inside && !e.kind.Other? {
      var deepest := if e.kind.Directory? then e.target else Parent(e.target);
      var m := MakeFrom(tree, deepest, 0, e.os.mkdirs);
      MakeFromAdds(tree, deepest, 0, e.os.mkdirs);
      forall q | q in m.tree && q !in tree ensures m.tree[q].Dir? && (root <= q || q < root) {
        assert q <= deepest <= e.target;
        PrefixesCompare(q, root, e.target);
      }
      assert Confined(tree, m.tree, root);
    }
  }

  lemma {:induction false} ConfinedFrom(tree: Tree, jobs: seq<Job>, intact: bool, i: nat, written: int, root: Path)
    requires i <= |jobs|
    requires 0 <= written <= MAX_BYTES
    requires forall j :: 0 <= j < |jobs| && jobs[j].inside ==> root <= jobs[j].target
    ensures Confined(tree, ExtractFrom(tree, jobs, intact, i, written).tree, root)
    decreases |jobs| - i
  {
    if i < |jobs| && i + 1 <= MAX_ENTRIES {
      var turn := EntryTurn(tree, jobs[i], written);
      EntryTurnConfined(tree, jobs[i], written, root);
      TurnTotals(tree, jobs[i], written);
      if turn.error == None {
        ConfinedFrom(turn.tree, jobs, intact, i + 1, turn.written, root);
        ConfinedTrans(tree, turn.tree, ExtractFrom(turn.tree, jobs, intact, i + 1, turn.written).tree, root);
      }
    }
  }

  /**
   For every archive and every way the operating system may fail: nothing outside the
   destination changes; when the destination and its ancestors exist, nothing is even
   created outside it.
   */
  lemma ExtractionConfined(tree: Tree, dest: string, a: Archive)
    ensures Confined(tree, Extract(tree, dest, a).tree, Components(dest))
    ensures (forall i :: 0 <= i <= |Components(dest)| ==> Components(dest)[..i] in tree) ==>
              forall p :: !(Components(dest) <= p) && p in Extract(tree, dest, a).tree ==> p in tree
  {
    var root, after := Components(dest), Extract(tree, dest, a).tree;
    if IsAbs(dest) && a.Readable? {
      var jobs := Jobs(dest, a.entries);
      forall j | 0 <= j < |jobs| && jobs[j].inside ensures root <= jobs[j].target {
        ContainedIffPrefix(dest, a.entries[j].name);
      }
      ConfinedFrom(tree, jobs, a.intact, 0, 0, root);
    }
    if forall i :: 0 <= i <= |root| ==> root[..i] in tree {
      forall p | !(root <= p) && p in after ensures p in tree {
        assert p < root ==> p == root[..|p|];
      }
    }
  }

  // ---- contents ----

  /** The bodies of the regular entries from the `i`-th on that land on `p`, in archive order. */
  function Layers(jobs: seq<Job>, i: nat, p: Path): seq<Bytes>
    requires i <= |jobs|
    decreases |jobs| - i
  {
    if i == |jobs| then []
    else
      var rest := Layers(jobs, i + 1, p);
      if jobs[i].kind.Regular? && jobs[i].target == p then [jobs[i].body] + rest else rest
  }

  function Stacked(under: Bytes, layers: seq<Bytes>): Bytes
    decreases layers
  {
    if layers == [] then under else Stacked(Overlay(layers[0], under), layers[1..])
  }

  /** A pass that does not fail writes its whole body on its target and no other file. */
  lemma EntryTurnContents(tree: Tree, e: Job, written: int, p: Path)
    requires 0 <= written <= MAX_BYTES
    requires EntryTurn(tree, e, written).error == None
    ensures var after := EntryTurn(tree, e, written).tree;
            if e.kind.Regular? && e.target == p
            then p in after && after[p] == File(Overlay(e.body, BytesAt(tree, p)))
            else BytesAt(after, p) == BytesAt(tree, p) && (p in tree ==> p in after && after[p] == tree[p])
  {
    MakeFromAdds(tree, e.target, 0, e.os.mkdirs);
    MakeFromAdds(tree, Parent(e.target), 0, e.os.mkdirs);
    assert e.body[..|e.body|] == e.body;
  }

  lemma {:induction false} ContentsFrom(tree: Tree, jobs: seq<Job>, i: nat, written: int, p: Path)
    requires i <= |jobs|
    requires 0 <= written <= MAX_BYTES
    requires ExtractFrom(tree, jobs, true, i, written).error == None
    ensures var after := ExtractFrom(tree, jobs, true, i, written).tree;
            var layers := Layers(jobs, i, p);
            && BytesAt(after, p) == Stacked(BytesAt(tree, p), layers)
            && (layers != [] || (p in tree && tree[p].File?) ==> p in after && after[p].File?)
            && (layers == [] && p in tree ==> p in after && after[p] == tree[p])
    decreases |jobs| - i
  {
    if i < |jobs| {
      var e := jobs[i];
      var turn := EntryTurn(tree, e, written);
      TurnTotals(tree, e, written);
      EntryTurnContents(tree, e, written, p);
      ContentsFrom(turn.tree, jobs, i + 1, turn.written, p);
      var layers := Layers(jobs, i, p);
      assert e.kind.Regular? && e.target == p ==> layers[0] == e.body && layers[1..] == Layers(jobs, i + 1, p);
    }
  }

  /**
   After a successful extraction every path holds the bodies the archive gave it, each
   overlaid on what was there before it; a path the archive gives nothing is as it was.
   */
  lemma ExtractedContents(tree: Tree, dest: string, a: Archive, p: Path)
    requires Extract(tree, dest, a).error == None
    ensures var after := Extract(tree, dest, a).tree;
            var layers := Layers(Jobs(dest, a.entries), 0, p);
            && BytesAt(after, p) == Stacked(BytesAt(tree, p), layers)
            && (layers != [] ==> p in after && after[p].File?)
            && (layers == [] && p in tree ==> p in after && after[p] == tree[p])
  {
    ExtractionBudget(tree, dest, a);
    ContentsFrom(tree, Jobs(dest, a.entries), 0, 0, p);
  }

  lemma {:induction false} LayersOfOne(jobs: seq<Job>, i: nat, k: nat)
    requires i <= |jobs| && k < |jobs| && jobs[k].kind.Regular?
    requires forall j :: 0 <= j < |jobs| && j != k && jobs[j].kind.Regular? ==> jobs[j].target != jobs[k].target
    ensures Layers(jobs, i, jobs[k].target) == if i <= k then [jobs[k].body] else []
    decreases |jobs| - i
  {
    if i < |jobs| {
      LayersOfOne(jobs, i + 1, k);
    }
  }

  /** A regular entry that alone names its target, absent beforehand, is extracted byte for byte. */
  lemma ExtractedExactly(tree: Tree, dest: string, a: Archive, k: nat)
    requires Extract(tree, dest, a).error == None
    requires k < |a.entries| && a.entries[k].kind.Regular?
    requires var jobs := Jobs(dest, a.entries);
             && jobs[k].target !in tree
             && forall j :: 0 <= j < |jobs| && j != k && jobs[j].kind.Regular? ==> jobs[j].target != jobs[k].target
    ensures var p := Target(dest, a.entries[k].name);
            p in Extract(tree, dest, a).tree && Extract(tree, dest, a).tree[p] == File(a.entries[k].body)
  {
    var jobs := Jobs(dest, a.entries);
    var body := jobs[k].body;
    ExtractedContents(tree, dest, a, jobs[k].target);
    LayersOfOne(jobs, 0, k);
    assert [body][1..] == [];
    assert Stacked([], [body]) == Stacked(Overlay(body, []), []);
  }

  lemma {:induction false} StackedLast(under: Bytes, front: seq<Bytes>, top: Bytes)
    ensures Stacked(under, front + [top]) == Overlay(top, Stacked(under, front))
    decreases front
  {
    if front == [] {
      assert front + [top] == [top] && [top][1..] == [];
    } else {
      assert (front + [top])[1..] == front[1..] + [top];
      StackedLast(Overlay(front[0], under), front[1..], top);
    }
  }

  ghost predicate AllWithin(layers: seq<Bytes>, n: nat) {
    forall i :: 0 <= i < |layers| ==> |layers[i]| <= n
  }

  lemma WithinMore(first: Bytes, rest: seq<Bytes>, n: nat)
    ensures AllWithin([first] + rest, n) <==> |first| <= n && AllWithin(rest, n)
  {
    var all := [first] + rest;
    assert all[0] == first && forall i :: 0 <= i < |rest| ==> all[i + 1] == rest[i];
  }

  /** A stack is as long as its longest layer. */
  lemma {:induction false} StackedLength(under: Bytes, layers: seq<Bytes>, n: nat)
    ensures |Stacked(under, layers)| <= n <==> |under| <= n && AllWithin(layers, n)
    decreases layers
  {
    if layers != [] {
      StackedLength(Overlay(layers[0], under), layers[1..], n);
      WithinMore(layers[0], layers[1..], n);
      assert [layers[0]] + layers[1..] == layers;
    }
  }

  /** The regular entries from the `i`-th on and before the `k`-th that land on `p` are no longer than `n`. */
  ghost predicate EarlierFit(jobs: seq<Job>, i: nat, k: nat, p: Path, n: nat)
    requires k <= |jobs|
  {
    forall j :: i <= j < k && jobs[j].kind.Regular? && jobs[j].target == p ==> |jobs[j].body| <= n
  }

  lemma FitsMore(jobs: seq<Job>, i: nat, k: nat, p: Path, n: nat)
    requires i < k <= |jobs|
    ensures EarlierFit(jobs, i, k, p, n) <==>
              (jobs[i].kind.Regular? && jobs[i].target == p ==> |jobs[i].body| <= n) && EarlierFit(jobs, i + 1, k, p, n)
  {
    if EarlierFit(jobs, i + 1, k, p, n) && (jobs[i].kind.Regular? && jobs[i].target == p ==> |jobs[i].body| <= n) {
      forall j | i <= j < k && jobs[j].kind.Regular? && jobs[j].target == p ensures |jobs[j].body| <= n {
        assert j == i || i + 1 <= j;
      }
    }
  }

  /** When the `k`-th entry is the last to land on its target, its body is the last layer. */
  lemma {:induction false} LayersBeforeLast(jobs: seq<Job>, i: nat, k: nat, n: nat) returns (front: seq<Bytes>)
    requires i <= k < |jobs| && jobs[k].kind.Regular?
    requires forall j :: k < j < |jobs| && jobs[j].kind.Regular? ==> jobs[j].target != jobs[k].target
    ensures Layers(jobs, i, jobs[k].target) == front + [jobs[k].body]
    ensures AllWithin(front, n) <==> EarlierFit(jobs, i, k, jobs[k].target, n)
    decreases k - i
  {
    var p := jobs[k].target;
    if i == k {
      front := [];
      NoLayersAfter(jobs, k + 1, p);
    } else {
      var rest := LayersBeforeLast(jobs, i + 1, k, n);
      FitsMore(jobs, i, k, p, n);
      if jobs[i].kind.Regular? && jobs[i].target == p {
        front := [jobs[i].body] + rest;
        WithinMore(jobs[i].body, rest, n);
      } else {
        front := rest;
      }
    }
  }

  lemma {:induction false} NoLayersAfter(jobs: seq<Job>, i: nat, p: Path)
    requires i <= |jobs| && forall j :: i <= j < |jobs| && jobs[j].kind.Regular? ==> jobs[j].target != p
    ensures Layers(jobs, i, p) == []
    decreases |jobs| - i
  {
    if i < |jobs| {
      NoLayersAfter(jobs, i + 1, p);
    }
  }

  /**
   After a successful extraction the last entry on a target is there byte for byte if and only
   if neither the file that was there nor any earlier entry on that target is longer than it.
   */
  lemma ExtractedIntactIff(tree: Tree, dest: string, a: Archive, k: nat)
    requires Extract(tree, dest, a).error == None
    requires k < |a.entries| && a.entries[k].kind.Regular?
    requires var jobs := Jobs(dest, a.entries);
             forall j :: k < j < |jobs| && jobs[j].kind.Regular? ==> jobs[j].target != jobs[k].target
    ensures var p, body := Target(dest, a.entries[k].name), a.entries[k].body;
            BytesAt(Extract(tree, dest, a).tree, p) == body <==>
              |BytesAt(tree, p)| <= |body| && EarlierFit(Jobs(dest, a.entries), 0, k, p, |body|)
  {
    var jobs := Jobs(dest, a.entries);
    var p, body := jobs[k].target, jobs[k].body;
    var front := LayersBeforeLast(jobs, 0, k, |body|);
    ExtractedContents(tree, dest, a, p);
    StackedLast(BytesAt(tree, p), front, body);
    StackedLength(BytesAt(tree, p), front, |body|);
  }

  /** The files are not truncated: a shorter entry repeating a name leaves the longer one's tail. */
  lemma RepeatedNameKeepsTail(tree: Tree, dest: string, first: Entry, second: Entry)
    requires first.kind.Regular? && second.kind.Regular?
    requires Target(dest, first.name) == Target(dest, second.name) && Target(dest, first.name) !in tree
    requires Extract(tree, dest, Readable([first, second], true)).error == None
    ensures BytesAt(Extract(tree, dest, Readable([first, second], true)).tree, Target(dest, first.name))
         == if |second.body| < |first.body| then second.body + first.body[|second.body|..] else second.body
  {
    var a := Readable([first, second], true);
    var jobs, p := Jobs(dest, a.entries), Target(dest, first.name);
    ExtractedContents(tree, dest, a, p);
    assert Layers(jobs, 1, p) == [second.body] + Layers(jobs, 2, p);
    assert Layers(jobs, 0, p) == [first.body, second.body];
    assert [first.body, second.body][1..] == [second.body] && [second.body][1..] == [];
    assert Stacked([], [first.body, second.body]) == Stacked(first.body, [second.body]);
  }

  // ---- exactly when extraction succeeds ----

  /** The operating system refuses nothing this entry asks for. */
  predicate Granted(e: Job) {
    e.os.opens && e.os.copyStops == None && e.os.mkdirs >= |e.target|
  }

  predicate NeedsDir(e: Job, q: Path) {
    && q != []
    && match e.kind
       case Directory => q <= e.target
       case Regular => q <= Parent(e.target)
       case Other => false
  }

  predicate NeedsFile(e: Job, q: Path) {
    e.kind.Regular? && q == e.target
  }

  /** No path is wanted both as a directory and as a file, by the archive or by the disk. */
  ghost predicate NoClash(tree: Tree, jobs: seq<Job>, i: nat) {
    && (forall j, q :: i <= j < |jobs| && NeedsDir(jobs[j], q) ==> q !in tree || tree[q].Dir?)
    && (forall j, q :: i <= j < |jobs| && NeedsFile(jobs[j], q) ==> !IsDir(tree, q))
    && (forall j, k, q :: i <= j < |jobs| && i <= k < |jobs| && NeedsDir(jobs[j], q) ==> !NeedsFile(jobs[k], q))
  }

  ghost predicate Extractable(tree: Tree, jobs: seq<Job>, intact: bool, i: nat, written: int)
    requires i <= |jobs|
  {
    && intact
    && |jobs| <= MAX_ENTRIES
    && (forall j :: i <= j < |jobs| ==> jobs[j].inside)
    && written + RegularBytes(jobs, i) <= MAX_BYTES
    && NoClash(tree, jobs, i)
  }

  /** No file is where a directory of the path below the `i`-th is wanted. */
  ghost predicate WayFree(tree: Tree, p: Path, i: nat) {
    forall j :: i < j <= |p| && p[..j] in tree ==> tree[p[..j]].Dir?
  }

  lemma WayStaysFree(tree: Tree, p: Path, i: nat)
    requires i < |p| && WayFree(tree, p, i)
    ensures WayFree(tree, p, i + 1) && WayFree(tree[p[..i + 1] := Dir], p, i + 1)
  {
  }

  /** No more directories are made than the system allows; one too many is what fails where no file is in the way. */
  lemma {:induction false} MakeFromCounts(tree: Tree, p: Path, i: nat, allowed: nat)
    requires i <= |p|
    ensures var m := MakeFrom(tree, p, i, allowed);
            && |tree| <= |m.tree| <= |tree| + allowed
            && (!m.ok && WayFree(tree, p, i) ==> |m.tree| == |tree| + allowed)
    decreases |p| - i
  {
    if i < |p| {
      var q := p[..i + 1];
      if WayFree(tree, p, i) {
        WayStaysFree(tree, p, i);
      }
      if q in tree {
        MakeFromCounts(tree, p, i + 1, allowed);
      } else if allowed > 0 {
        MakeFromCounts(tree[q := Dir], p, i + 1, allowed - 1);
        assert tree[q := Dir].Keys == tree.Keys + {q};
      }
    }
  }

  lemma {:induction false} MakeFromSucceeds(tree: Tree, p: Path, i: nat, allowed: nat)
    requires i <= |p| && allowed >= |p| - i
    ensures var m := MakeFrom(tree, p, i, allowed);
            && (m.ok <==> forall j :: i < j <= |p| && p[..j] in tree ==> tree[p[..j]].Dir?)
            && (m.ok ==> forall j :: i < j <= |p| ==> IsDir(m.tree, p[..j]))
    decreases |p| - i
  {
    if i < |p| {
      var q := p[..i + 1];
      if q in tree {
        if tree[q].Dir? {
          MakeFromSucceeds(tree, p, i + 1, allowed);
          MakeFromAdds(tree, p, i + 1, allowed);
        }
      } else {
        var grown := tree[q := Dir];
        MakeFromSucceeds(grown, p, i + 1, allowed - 1);
        MakeFromAdds(grown, p, i + 1, allowed - 1);
        assert forall j :: i < j <= |p| ==> |p[..j]| == j;
      }
    }
  }

  /** After directories were made down to `deepest`: which were needed, and that they are all there. */
  lemma GrantedDirs(tree: Tree, deepest: Path, allowed: nat)
    requires allowed >= |deepest|
    ensures var m := MakeFrom(tree, deepest, 0, allowed);
            && (m.ok <==> forall q :: q != [] && q <= deepest ==> q !in tree || tree[q].Dir?)
            && (forall q :: q in tree ==> q in m.tree && m.tree[q] == tree[q])
            && (forall q :: q in m.tree && q !in tree ==> m.tree[q].Dir? && q != [] && q <= deepest)
            && (m.ok ==> forall q :: q != [] && q <= deepest ==> IsDir(m.tree, q))
  {
    MakeFromSucceeds(tree, deepest, 0, allowed);
    MakeFromAdds(tree, deepest, 0, allowed);
    MakeFromNoRoot(tree, deepest, 0, allowed);
    assert forall q :: q != [] && q <= deepest ==> 0 < |q| <= |deepest| && deepest[..|q|] == q;
    assert forall j :: 0 < j <= |deepest| ==> deepest[..j] != [] && deepest[..j] <= deepest;
  }

  /** The file itself: written exactly when its path is no directory and the bytes fit. */
  lemma GrantedWrite(tree: Tree, e: Job, written: int)
    requires 0 <= written <= MAX_BYTES && Granted(e)
    ensures var turn := WriteTurn(tree, e, written);
            && (turn.error == None <==> !IsDir(tree, e.target) && written + |e.body| <= MAX_BYTES)
            && (turn.error == None ==>
                  && e.target in turn.tree && turn.tree[e.target].File?
                  && turn.tree == tree[e.target := turn.tree[e.target]])
  {
    assert |Copied(e, written)| == Min(|e.body|, MAX_BYTES - written + 1);
  }

  ghost predicate Passes(tree: Tree, e: Job, written: int) {
    && e.inside
    && (forall q :: NeedsDir(e, q) ==> q !in tree || tree[q].Dir?)
    && (forall q :: NeedsFile(e, q) ==> !IsDir(tree, q))
    && (e.kind.Regular? ==> written + |e.body| <= MAX_BYTES)
  }

  /** `after` keeps the kinds of all nodes and adds exactly the directories and the file the entry needs. */
  ghost predicate Adds(tree: Tree, after: Tree, e: Job) {
    && (forall q :: q in tree ==> q in after && (tree[q].Dir? <==> after[q].Dir?))
    && (forall q :: q in after && q !in tree ==> (NeedsDir(e, q) <==> after[q].Dir?))
    && (forall q :: q in after && q !in tree ==> NeedsDir(e, q) || NeedsFile(e, q))
    && (forall q :: NeedsDir(e, q) ==> IsDir(after, q))
    && (forall q :: NeedsFile(e, q) ==> q in after && after[q].File?)
  }

  lemma GrantedRegular(tree: Tree, e: Job, written: int)
    requires 0 <= written <= MAX_BYTES && Granted(e) && e.inside && e.kind.Regular?
    ensures var turn := EntryTurn(tree, e, written);
            (turn.error == None <==> Passes(tree, e, written)) && (turn.error == None ==> Adds(tree, turn.tree, e))
  {
    var parent := Parent(e.target);
    var made := MakeFrom(tree, parent, 0, e.os.mkdirs);
    GrantedDirs(tree, parent, e.os.mkdirs);
    GrantedWrite(made.tree, e, written);
    assert forall q :: NeedsDir(e, q) <==> q != [] && q <= parent;
    assert e.target != [] ==> !(e.target <= parent);
    assert IsDir(made.tree, e.target) <==> IsDir(tree, e.target);
    assert NeedsFile(e, e.target) && !NeedsDir(e, e.target);
    var turn := EntryTurn(tree, e, written);
    if turn.error == None {
      forall q | NeedsDir(e, q) ensures IsDir(turn.tree, q) {
        assert IsDir(made.tree, q);
      }
    }
  }

  lemma GrantedDirectory(tree: Tree, e: Job, written: int)
    requires 0 <= written <= MAX_BYTES && Granted(e) && e.inside && e.kind.Directory?
    ensures var turn := EntryTurn(tree, e, written);
            (turn.error == None <==> Passes(tree, e, written)) && (turn.error == None ==> Adds(tree, turn.tree, e))
  {
    GrantedDirs(tree, e.target, e.os.mkdirs);
    assert forall q :: NeedsDir(e, q) <==> q != [] && q <= e.target;
  }

  /** What one granted entry needs to pass, and the nodes it leaves. */
  lemma GrantedTurn(tree: Tree, e: Job, written: int)
    requires 0 <= written <= MAX_BYTES && Granted(e)
    ensures var turn := EntryTurn(tree, e, written);
            (turn.error == None <==> Passes(tree, e, written)) && (turn.error == None ==> Adds(tree, turn.tree, e))
  {
    if e.inside && e.kind.Regular? {
      GrantedRegular(tree, e, written);
    } else if e.inside && e.kind.Directory? {
      GrantedDirectory(tree, e, written);
    }
  }

  lemma {:induction false} MakeFromNoRoot(tree: Tree, p: Path, i: nat, allowed: nat)
    requires i <= |p|
    ensures [] in MakeFrom(tree, p, i, allowed).tree ==> [] in tree
    decreases |p| - i
  {
    if i < |p| {
      var q := p[..i + 1];
      if q in tree {
        MakeFromNoRoot(tree, p, i + 1, allowed);
      } else if allowed > 0 {
        MakeFromNoRoot(tree[q := Dir], p, i + 1, allowed - 1);
      }
    }
  }

  /** What an entry that passed leaves, in terms of what entries need. */
  lemma NoClashAfter(tree: Tree, after: Tree, jobs: seq<Job>, i: nat)
    requires i < |jobs| && Adds(tree, after, jobs[i]) && NoClash(tree, jobs, i)
    ensures NoClash(after, jobs, i + 1)
  {
    var e := jobs[i];
    assert forall q :: q in tree ==> (IsDir(tree, q) <==> IsDir(after, q));
    assert forall q :: IsDir(after, q) && q !in tree ==> NeedsDir(e, q);
    forall j, q | i < j < |jobs| && NeedsDir(jobs[j], q) ensures q !in after || after[q].Dir? {
      assert !NeedsFile(e, q);
    }
    forall j, q | i < j < |jobs| && NeedsFile(jobs[j], q) ensures !IsDir(after, q) {
      assert !NeedsDir(e, q);
    }
  }

  lemma NoClashBefore(tree: Tree, after: Tree, jobs: seq<Job>, i: nat, written: int)
    requires i < |jobs| && Adds(tree, after, jobs[i]) && Passes(tree, jobs[i], written) && NoClash(after, jobs, i + 1)
    ensures NoClash(tree, jobs, i)
  {
    var e := jobs[i];
    assert forall q :: NeedsFile(e, q) ==> !NeedsDir(e, q);
    forall j, k, q | i <= j < |jobs| && i <= k < |jobs| && NeedsDir(jobs[j], q) ensures !NeedsFile(jobs[k], q) {
      assert j == i ==> IsDir(after, q);
    }
    forall j, q | i <= j < |jobs| && NeedsFile(jobs[j], q) ensures !IsDir(tree, q) {
      assert j > i ==> !IsDir(after, q);
    }
  }

  lemma NoClashStep(tree: Tree, jobs: seq<Job>, i: nat, written: int)
    requires i < |jobs| && 0 <= written <= MAX_BYTES && Granted(jobs[i])
    requires EntryTurn(tree, jobs[i], written).error == None
    ensures NoClash(tree, jobs, i) <==> NoClash(EntryTurn(tree, jobs[i], written).tree, jobs, i + 1)
  {
    var after := EntryTurn(tree, jobs[i], written).tree;
    GrantedTurn(tree, jobs[i], written);
    if NoClash(tree, jobs, i) {
      NoClashAfter(tree, after, jobs, i);
    } else if NoClash(after, jobs, i + 1) {
      NoClashBefore(tree, after, jobs, i, written);
    }
  }

  lemma {:induction false} SucceedsIffFrom(tree: Tree, jobs: seq<Job>, intact: bool, i: nat, written: int)
    requires i <= |jobs| && i <= MAX_ENTRIES && 0 <= written <= MAX_BYTES
    requires forall j :: 0 <= j < |jobs| ==> Granted(jobs[j])
    ensures ExtractFrom(tree, jobs, intact, i, written).error == None <==> Extractable(tree, jobs, intact, i, written)
    decreases |jobs| - i
  {
    if i < |jobs| && i + 1 <= MAX_ENTRIES {
      var turn := EntryTurn(tree, jobs[i], written);
      GrantedTurn(tree, jobs[i], written);
      TurnTotals(tree, jobs[i], written);
      if turn.error == None {
        NoClashStep(tree, jobs, i, written);
        SucceedsIffFrom(turn.tree, jobs, intact, i + 1, turn.written);
      }
    }
  }

  /**
   When the operating system refuses nothing, extraction succeeds exactly for an intact
   archive within both budgets whose entries all lie inside the destination and never want
   one path both as a directory and as a file.
   */
  lemma ExtractionSucceedsIff(tree: Tree, dest: string, a: Archive)
    requires IsAbs(dest) && a.Readable?
    requires forall j :: 0 <= j < |a.entries| ==> Granted(Jobs(dest, a.entries)[j])
    ensures Extract(tree, dest, a).error == None <==> Extractable(tree, Jobs(dest, a.entries), a.intact, 0, 0)
  {
    SucceedsIffFrom(tree, Jobs(dest, a.entries), a.intact, 0, 0);
  }
}
