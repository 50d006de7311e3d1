/**
 The audit file shipper: entries are appended to a current file, and a file that has grown
 past its limit is rotated through numbered backup slots by renaming from the highest down.
 */
module FileRotation {
  import opened Basics

  /** One marshalled entry with its newline. */
  type Line = seq<bv8>

  type File = seq<Line>

  /** Slot 0 is the configured path, slot `i` the path with suffix `.i`. */
  type Slots = map<int, File>

  datatype Config = Config(maxSizeMb: int, maxBackups: int)

  /** The calls that fail during one rotation; renames are named by their source slot. */
  datatype Faults = Faults(close: bool, renames: set<int>, remove: bool, open: bool)

  const NO_FAULTS := Faults(false, {}, false, false)

  /** The files on disk, and whether the handle the shipper writes through is usable. */
  datatype Log = Log(slots: Slots, usable: bool)

  function Size(f: File): nat {
    if f == [] then 0 else |f[0]| + Size(f[1..])
  }

  function Limit(cfg: Config): int {
    cfg.maxSizeMb * 1024 * 1024
  }

  /** The highest slot a rotation can fill. */
  function Cap(cfg: Config): int {
    Max(1, cfg.maxBackups)
  }

  function Block(m: Slots, s: int): File {
    if s in m then m[s] else []
  }

  /** `os.Rename` of slot `i` onto slot `i + 1`: a missing source changes nothing. */
  function Rename(m: Slots, i: int, fails: bool): Slots {
    if fails || i !in m then m else (m - {i})[i + 1 := m[i]]
  }

  /** The renames from slot `i` down to the current file. */
  function ShiftDown(m: Slots, i: int, failing: set<int>): Slots
    decreases i + 1
  {
    if i < 0 then m else ShiftDown(Rename(m, i, i in failing), i - 1, failing)
  }

  function Rotated(log: Log, cfg: Config, f: Faults): Log {
    if !log.usable || f.close then Log(log.slots, false)
    else
      var shifted := ShiftDown(log.slots, Cap(cfg) - 1, f.renames);
      var pruned := if cfg.maxBackups > 0 && !f.remove then shifted - {cfg.maxBackups + 1} else shifted;
      if f.open then Log(pruned, false) else Log(pruned[0 := Block(pruned, 0)], true)
  }

  /** One call: the entry, or nothing when marshalling fails, and how the file system behaves. */
  datatype Call = Call(line: Option<Line>, faults: Faults, writes: bool)

  datatype Shipped = Shipped(log: Log, accepted: File, rotates: bool)

  function ShipOne(log: Log, cfg: Config, c: Call): Shipped {
    var due := cfg.maxSizeMb > 0 && log.usable && Size(Block(log.slots, 0)) > Limit(cfg);
    var ready := if due then Rotated(log, cfg, c.faults) else log;
    if c.line.Some? && ready.usable && c.writes
    then Shipped(ready.(slots := ready.slots[0 := Block(ready.slots, 0) + [c.line.value]]), [c.line.value], due)
    else Shipped(ready, [], due)
  }

  class FileShipper {
    const cfg: Config
    var slots: Slots
    var usable: bool

    ghost function State(): Log
      reads this
    {
      Log(slots, usable)
    }

    constructor (cfg: Config, slots: Slots)
      ensures this.cfg == cfg
      ensures State() == Log(slots[0 := Block(slots, 0)], true)
    {
      this.cfg := cfg;
      this.slots := slots[0 := Block(slots, 0)];
      usable := true;
    }

    method Rotate(f: Faults)
      modifies this
      ensures State() == Rotated(old(State()), cfg, f)
    {
      var wasUsable := usable;
      usable := false;
      if !wasUsable || f.close {
        return;
      }
      var i := cfg.maxBackups - 1;
      ghost var top := Cap(cfg) - 1;
      while i >= 1
        invariant i <= top
        invariant ShiftDown(slots, Max(i, 0), f.renames) == ShiftDown(old(slots), top, f.renames)
        invariant !usable
      {
        slots := Rename(slots, i, i in f.renames);
        i := i - 1;
      }
      slots := Rename(slots, 0, 0 in f.renames);
      if cfg.maxBackups > 0 && !f.remove {
        slots := slots - {cfg.maxBackups + 1};
      }
      if !f.open {
        slots := slots[0 := Block(slots, 0)];
        usable := true;
      }
    }

    method Ship(c: Call) returns (ok: bool)
      modifies this
      ensures var s := ShipOne(old(State()), cfg, c); State() == s.log && (ok <==> s.accepted != [])
    {
      if cfg.maxSizeMb > 0 && usable && Size(Block(slots, 0)) > Limit(cfg) {
        Rotate(c.faults);
      }
      ok := c.line.Some? && usable && c.writes;
      if ok {
        slots := slots[0 := Block(slots, 0) + [c.line.value]];
      }
    }
  }

  // ---- reading back ----

  /** The slots from `hi` down to `lo`, oldest backup first. */
  function ReadRange(m: Slots, hi: int, lo: int): File
    decreases hi - lo + 1
  {
    if hi < lo then [] else Block(m, hi) + ReadRange(m, hi - 1, lo)
  }

  function ReadBack(m: Slots, top: int): File {
    ReadRange(m, top, 0)
  }

  lemma Regroup<T>(a: seq<T>, b: seq<T>, c: seq<T>)
    ensures a + (b + c) == a + b + c
  {
  }

  lemma {:induction false} ReadSplit(m: Slots, hi: int, mid: int, lo: int)
    requires lo <= mid <= hi + 1
    ensures ReadRange(m, hi, lo) == ReadRange(m, hi, mid) + ReadRange(m, mid - 1, lo)
    decreases hi - mid + 1
  {
    if mid <= hi {
      ReadSplit(m, hi - 1, mid, lo);
      Regroup(Block(m, hi), ReadRange(m, hi - 1, mid), ReadRange(m, mid - 1, lo));
    }
  }

  lemma {:induction false} ReadSame(m: Slots, n: Slots, hi: int, lo: int)
    requires forall s :: lo <= s <= hi ==> Block(m, s) == Block(n, s)
    ensures ReadRange(m, hi, lo) == ReadRange(n, hi, lo)
    decreases hi - lo + 1
  {
    if lo <= hi {
      ReadSame(m, n, hi - 1, lo);
    }
  }

  /** What reading back means around slots `i` and `i + 1`. */
  lemma ReadAround(m: Slots, i: int, top: int)
    requires 0 <= i < top
    ensures ReadBack(m, top) == ReadRange(m, top, i + 2) + (Block(m, i + 1) + (Block(m, i) + ReadRange(m, i - 1, 0)))
  {
    ReadSplit(m, top, i + 2, 0);
    assert ReadRange(m, i + 1, 0) == Block(m, i + 1) + ReadRange(m, i, 0);
  }

  /** A rename loses the block it lands on and nothing else, and keeps the order. */
  lemma RenameReads(m: Slots, i: int, top: int)
    requires 0 <= i < top && i in m
    ensures ReadBack(Rename(m, i, false), top) == ReadRange(m, top, i + 2) + (Block(m, i) + ReadRange(m, i - 1, 0))
  {
    var n := Rename(m, i, false);
    ReadAround(n, i, top);
    ReadSame(m, n, top, i + 2);
    ReadSame(m, n, i - 1, 0);
    assert Block(n, i + 1) == Block(m, i) && Block(n, i) == [];
    assert Block(n, i) + ReadRange(n, i - 1, 0) == ReadRange(n, i - 1, 0);
  }

  ghost predicate IsSuffix<T>(a: seq<T>, b: seq<T>) {
    |a| <= |b| && a == b[|b| - |a|..]
  }

  lemma SuffixAppend<T>(a: seq<T>, b: seq<T>, c: seq<T>)
    requires IsSuffix(a, b)
    ensures IsSuffix(a + c, b + c)
  {
  }

  lemma SuffixThrough<T>(last: seq<T>, middle: seq<T>, first: seq<T>, latest: seq<T>, rest: seq<T>)
    requires IsSuffix(middle, first + latest) && IsSuffix(last, middle + rest)
    ensures IsSuffix(last, first + (latest + rest))
  {
    SuffixAppend(middle, first + latest, rest);
    assert first + latest + rest == first + (latest + rest);
  }

  /** Appending to the current file appends to what is read back. */
  lemma {:induction false} AppendReads(m: Slots, f: File, top: nat)
    ensures ReadBack(m[0 := Block(m, 0) + f], top) == ReadBack(m, top) + f
  {
    var n := m[0 := Block(m, 0) + f];
    if top == 0 {
      assert ReadRange(m, -1, 0) == ReadRange(n, -1, 0) == [];
    } else {
      AppendReads(m, f, top - 1);
      assert Block(n, top) == Block(m, top);
    }
  }

  // ---- without faults: a suffix ----

  ghost predicate Within(m: Slots, top: int) {
    forall s :: s in m ==> 0 <= s <= top
  }

  /** Renaming into a free slot, from there down, loses nothing. */
  lemma {:induction false} ShiftLossless(m: Slots, i: int, top: int)
    requires -1 <= i < top && (i >= 0 ==> i + 1 !in m)
    ensures ReadBack(ShiftDown(m, i, {}), top) == ReadBack(m, top)
    decreases i + 1
  {
    if i >= 0 {
      var n := Rename(m, i, false);
      if i in m {
        RenameReads(m, i, top);
        ReadAround(m, i, top);
        assert Block(m, i + 1) == [];
        assert Block(m, i + 1) + (Block(m, i) + ReadRange(m, i - 1, 0)) == Block(m, i) + ReadRange(m, i - 1, 0);
      }
      ShiftLossless(n, i - 1, top);
    }
  }

  /** A whole shift drops at most the oldest backup. */
  lemma ShiftDropsOldest(m: Slots, top: int)
    requires top >= 1
    ensures IsSuffix(ReadBack(ShiftDown(m, top - 1, {}), top), ReadBack(m, top))
  {
    var n := Rename(m, top - 1, false);
    ShiftLossless(n, top - 2, top);
    if top - 1 in m {
      var kept := Block(m, top - 1) + ReadRange(m, top - 2, 0);
      RenameReads(m, top - 1, top);
      ReadAround(m, top - 1, top);
      assert ReadRange(m, top, top + 1) == [];
      assert ReadBack(n, top) == kept && ReadBack(m, top) == Block(m, top) + kept;
    }
  }

  /** Where every slot goes in a shift, whichever renames fail. */
  lemma {:induction false} ShiftExactly(m: Slots, i: int, failing: set<int>, s: int)
    requires -1 <= i
    ensures var n := ShiftDown(m, i, failing);
            var moves := 1 <= s <= i + 1 && s - 1 in m && s - 1 !in failing;
            var stays := s in m && (s < 0 || s > i || s in failing);
            && (s in n <==> moves || stays)
            && (moves ==> n[s] == m[s - 1])
            && (!moves && stays ==> n[s] == m[s])
    decreases i + 1
  {
    if i >= 0 {
      ShiftExactly(Rename(m, i, i in failing), i - 1, failing, s);
    }
  }

  /** And in a shift without faults. */
  lemma ShiftClosed(m: Slots, i: int, s: int)
    requires -1 <= i
    ensures var n := ShiftDown(m, i, {});
            && (s > i + 1 ==> (s in n <==> s in m) && Block(n, s) == Block(m, s))
            && (1 <= s <= i + 1 && s - 1 in m ==> s in n && n[s] == m[s - 1])
            && (1 <= s <= i && s - 1 !in m ==> s !in n)
            && (1 <= s == i + 1 && s - 1 !in m ==> (s in n <==> s in m) && Block(n, s) == Block(m, s))
            && (s == 0 <= i ==> s !in n)
            && (s < 0 ==> (s in n <==> s in m))
  {
    ShiftExactly(m, i, {}, s);
  }

  /** Within the limit, but for the last entry. */
  predicate Fits(f: File, limit: int) {
    f == [] || Size(f[..|f| - 1]) <= limit
  }

  ghost predicate Bounded(m: Slots, limit: int) {
    forall s :: s in m ==> Fits(m[s], limit)
  }

  ghost predicate Sound(log: Log, cfg: Config) {
    && log.usable && 0 in log.slots && Within(log.slots, Cap(cfg))
    && (cfg.maxSizeMb > 0 ==> Bounded(log.slots, Limit(cfg)))
  }

  /**
   The removal after the renames finds nothing: the rename onto the highest slot already
   dropped the oldest backup.
   */
  lemma PruningFindsNothing(log: Log, cfg: Config)
    requires Sound(log, cfg)
    ensures cfg.maxBackups + 1 !in ShiftDown(log.slots, Cap(cfg) - 1, {}) || cfg.maxBackups <= 0
  {
    ShiftClosed(log.slots, Cap(cfg) - 1, cfg.maxBackups + 1);
  }

  lemma RotatedSound(log: Log, cfg: Config)
    requires Sound(log, cfg)
    ensures var after := Rotated(log, cfg, NO_FAULTS);
            && Sound(after, cfg) && after.slots[0] == []
            && IsSuffix(ReadBack(after.slots, Cap(cfg)), ReadBack(log.slots, Cap(cfg)))
  {
    var top := Cap(cfg);
    var shifted := ShiftDown(log.slots, top - 1, {});
    ShiftDropsOldest(log.slots, top);
    forall s | s in shifted
      ensures 1 <= s <= top && (cfg.maxSizeMb > 0 ==> Fits(shifted[s], Limit(cfg)))
    {
      ShiftClosed(log.slots, top - 1, s);
    }
    var after := Rotated(log, cfg, NO_FAULTS).slots;
    ReadSame(shifted, after, top, 0);
  }

  lemma AppendSound(log: Log, cfg: Config, line: Line)
    requires Sound(log, cfg) && (cfg.maxSizeMb > 0 ==> Size(log.slots[0]) <= Limit(cfg))
    ensures Sound(log.(slots := log.slots[0 := Block(log.slots, 0) + [line]]), cfg)
  {
    var grown := log.slots[0] + [line];
    assert grown[..|grown| - 1] == log.slots[0];
    assert cfg.maxSizeMb > 0 ==> Fits(grown, Limit(cfg));
  }

  lemma ShipSound(log: Log, cfg: Config, c: Call)
    requires Sound(log, cfg) && c.faults == NO_FAULTS && c.writes
    ensures var s := ShipOne(log, cfg, c);
            && Sound(s.log, cfg)
            && IsSuffix(ReadBack(s.log.slots, Cap(cfg)), ReadBack(log.slots, Cap(cfg)) + s.accepted)
            && s.accepted == (if c.line.Some? then [c.line.value] else [])
  {
    var s, top := ShipOne(log, cfg, c), Cap(cfg);
    var ready := if s.rotates then Rotated(log, cfg, c.faults) else log;
    if s.rotates {
      RotatedSound(log, cfg);
    }
    var before, after := ReadBack(log.slots, top), ReadBack(ready.slots, top);
    assert IsSuffix(after, before);
    if c.line.Some? {
      AppendSound(ready, cfg, c.line.value);
      AppendReads(ready.slots, [c.line.value], top);
      SuffixAppend(after, before, [c.line.value]);
    } else {
      assert before + [] == before;
    }
  }

  function Run(log: Log, cfg: Config, calls: seq<Call>): Log
    decreases calls
  {
    if calls == [] then log else Run(ShipOne(log, cfg, calls[0]).log, cfg, calls[1..])
  }

  /** The entries written over a run, in order. */
  function Accepted(log: Log, cfg: Config, calls: seq<Call>): File
    decreases calls
  {
    if calls == [] then []
    else var s := ShipOne(log, cfg, calls[0]); s.accepted + Accepted(s.log, cfg, calls[1..])
  }

  /** The current file holds more than the configured number of megabytes. */
  predicate OverLimit(log: Log, cfg: Config) {
    cfg.maxSizeMb > 0 && Size(Block(log.slots, 0)) > cfg.maxSizeMb * 1048576
  }

  /** The calls that find the current file over its limit. */
  function Rotations(log: Log, cfg: Config, calls: seq<Call>): nat
    decreases calls
  {
    if calls == [] then 0
    else Bit(OverLimit(log, cfg)) + Rotations(ShipOne(log, cfg, calls[0]).log, cfg, calls[1..])
  }

  function LineOf(c: Call): File {
    if c.line.Some? then [c.line.value] else []
  }

  function Entries(calls: seq<Call>): File {
    if calls == [] then []
    else LineOf(calls[0]) + Entries(calls[1..])
  }

  /**
   Over every run without faults, the backups read from the highest slot to the lowest and
   then the current file are a suffix of everything kept before and shipped since, every
   marshalled entry was written, and every file is within the limit but for its last entry.
   */
  lemma {:induction false} RotationKeepsSuffix(log: Log, cfg: Config, calls: seq<Call>)
    requires Sound(log, cfg)
    requires forall i :: 0 <= i < |calls| ==> calls[i].faults == NO_FAULTS && calls[i].writes
    ensures Sound(Run(log, cfg, calls), cfg)
    ensures IsSuffix(ReadBack(Run(log, cfg, calls).slots, Cap(cfg)), ReadBack(log.slots, Cap(cfg)) + Entries(calls))
    ensures Accepted(log, cfg, calls) == Entries(calls)
    decreases calls
  {
    var before := ReadBack(log.slots, Cap(cfg));
    if calls == [] {
      assert before + [] == before;
    } else {
      var s := ShipOne(log, cfg, calls[0]);
      ShipSound(log, cfg, calls[0]);
      RotationKeepsSuffix(s.log, cfg, calls[1..]);
      var rest := Entries(calls[1..]);
      var middle := ReadBack(s.log.slots, Cap(cfg));
      SuffixThrough(ReadBack(Run(log, cfg, calls).slots, Cap(cfg)), middle, before, s.accepted, rest);
    }
  }

  ghost predicate Backups(m: Slots, b: int) {
    forall s :: s in m <==> 0 <= s <= b
  }

  lemma RotatedBackups(log: Log, cfg: Config, b: int)
    requires log.usable && Backups(log.slots, b) && 0 <= b <= Cap(cfg)
    ensures Backups(Rotated(log, cfg, NO_FAULTS).slots, Min(b + 1, Cap(cfg)))
  {
    var shifted := ShiftDown(log.slots, Cap(cfg) - 1, {});
    forall s ensures s in shifted <==> 1 <= s <= Min(b + 1, Cap(cfg)) {
      ShiftClosed(log.slots, Cap(cfg) - 1, s);
    }
  }

  /** From a start with no backups there are as many as rotations, up to the cap, in consecutive slots. */
  lemma {:induction false} BackupCount(log: Log, cfg: Config, calls: seq<Call>, b: int)
    requires Sound(log, cfg) && Backups(log.slots, b) && 0 <= b <= Cap(cfg)
    requires forall i :: 0 <= i < |calls| ==> calls[i].faults == NO_FAULTS && calls[i].writes
    ensures Backups(Run(log, cfg, calls).slots, Min(b + Rotations(log, cfg, calls), Cap(cfg)))
    decreases calls
  {
    if calls != [] {
      var s := ShipOne(log, cfg, calls[0]);
      ShipSound(log, cfg, calls[0]);
      RotatedBackups(log, cfg, b);
      BackupCount(s.log, cfg, calls[1..], if s.rotates then Min(b + 1, Cap(cfg)) else b);
    }
  }

  // ---- what is rotated, and when something is lost ----

  lemma {:induction false} SizeAppend(f: File, g: File)
    ensures Size(f + g) == Size(f) + Size(g)
  {
    if f == [] {
      assert f + g == g;
    } else {
      assert (f + g)[1..] == f[1..] + g;
      SizeAppend(f[1..], g);
    }
  }

  lemma SizeOfLine(line: Line)
    ensures Size([line]) == |line|
  {
    assert [line][1..] == [];
  }

  /** A file is rotated exactly when it is over its limit; otherwise the entry joins it and no backup changes. */
  lemma RotatesIff(log: Log, cfg: Config, c: Call)
    requires log.usable && 0 in log.slots && c.faults == NO_FAULTS && c.writes && c.line.Some?
    ensures var t := ShipOne(log, cfg, c).log;
            if OverLimit(log, cfg)
            then t.slots[0] == [c.line.value] && 1 in t.slots && t.slots[1] == log.slots[0]
            else t.slots == log.slots[0 := log.slots[0] + [c.line.value]]
  {
    if OverLimit(log, cfg) {
      ShiftClosed(log.slots, Cap(cfg) - 1, 0);
      ShiftClosed(log.slots, Cap(cfg) - 1, 1);
    }
  }

  /** The least that `r` files over a limit of `l` hold together. */
  function FullFiles(r: nat, l: int): int {
    if r == 0 then 0 else FullFiles(r - 1, l) + l + 1
  }

  lemma {:induction false} FullFilesExceed(r: nat, n: nat, l: int)
    requires r >= n && l >= 0
    ensures FullFiles(r, l) >= n * l + n
  {
    if n > 0 {
      FullFilesExceed(r - 1, n - 1, l);
      assert n * l == (n - 1) * l + l;
    } else if r > 0 {
      FullFilesExceed(r - 1, 0, l);
    }
  }

  /**
   After `r` rotations since a start without backups, everything shipped being `all`: the
   backups are full, that many full files have been shipped besides the current one, and
   nothing is lost while there is room for them.
   */
  ghost predicate Accounted(log: Log, cfg: Config, r: nat, all: File) {
    && log.usable && Backups(log.slots, Min(r, Cap(cfg)))
    && (forall s :: s in log.slots && s > 0 ==> Size(log.slots[s]) > cfg.maxSizeMb * 1048576)
    && (r > 0 ==> cfg.maxSizeMb > 0)
    && Size(all) >= FullFiles(r, cfg.maxSizeMb * 1048576) + Size(Block(log.slots, 0))
    && (r <= Cap(cfg) ==> ReadBack(log.slots, Cap(cfg)) == all)
  }

  lemma RotatedFull(log: Log, cfg: Config, r: nat)
    requires log.usable && Backups(log.slots, Min(r, Cap(cfg))) && OverLimit(log, cfg)
    requires forall s :: s in log.slots && s > 0 ==> Size(log.slots[s]) > cfg.maxSizeMb * 1048576
    ensures var t := Rotated(log, cfg, NO_FAULTS);
            && t.usable && Backups(t.slots, Min(r + 1, Cap(cfg))) && t.slots[0] == []
            && forall s :: s in t.slots && s > 0 ==> Size(t.slots[s]) > cfg.maxSizeMb * 1048576
  {
    var shifted := ShiftDown(log.slots, Cap(cfg) - 1, {});
    RotatedBackups(log, cfg, Min(r, Cap(cfg)));
    ShiftClosed(log.slots, Cap(cfg) - 1, 0);
    forall s | s in shifted && s > 0 ensures Size(shifted[s]) > cfg.maxSizeMb * 1048576 {
      ShiftClosed(log.slots, Cap(cfg) - 1, s);
    }
  }

  lemma RotatedWhole(log: Log, cfg: Config, r: nat)
    requires log.usable && Backups(log.slots, r) && r < Cap(cfg)
    ensures ReadBack(Rotated(log, cfg, NO_FAULTS).slots, Cap(cfg)) == ReadBack(log.slots, Cap(cfg))
  {
    var top := Cap(cfg);
    var shifted := ShiftDown(log.slots, top - 1, {});
    ShiftLossless(log.slots, top - 1, top);
    ReadSame(shifted, Rotated(log, cfg, NO_FAULTS).slots, top, 0);
  }

  lemma RotatedAccounted(log: Log, cfg: Config, r: nat, all: File)
    requires Accounted(log, cfg, r, all) && OverLimit(log, cfg)
    ensures Accounted(Rotated(log, cfg, NO_FAULTS), cfg, r + 1, all)
  {
    RotatedFull(log, cfg, r);
    if r < Cap(cfg) {
      RotatedWhole(log, cfg, r);
    }
  }

  lemma AppendAccounted(log: Log, cfg: Config, r: nat, all: File, line: Line)
    requires Accounted(log, cfg, r, all)
    ensures Accounted(log.(slots := log.slots[0 := Block(log.slots, 0) + [line]]), cfg, r, all + [line])
  {
    SizeAppend(all, [line]);
    SizeAppend(Block(log.slots, 0), [line]);
    AppendReads(log.slots, [line], Cap(cfg));
  }

  /** The entry, if there is one, joins the current file. */
  function WithLine(log: Log, c: Call): Log {
    if c.line.Some? then log.(slots := log.slots[0 := Block(log.slots, 0) + [c.line.value]]) else log
  }

  lemma ShipsWithLine(log: Log, cfg: Config, c: Call)
    requires log.usable && c.faults == NO_FAULTS && c.writes
    ensures ShipOne(log, cfg, c).log
         == WithLine(if OverLimit(log, cfg) then Rotated(log, cfg, NO_FAULTS) else log, c)
  {
  }

  lemma LineAccounted(log: Log, cfg: Config, r: nat, all: File, c: Call)
    requires Accounted(log, cfg, r, all)
    ensures Accounted(WithLine(log, c), cfg, r, all + LineOf(c))
  {
    if c.line.Some? {
      AppendAccounted(log, cfg, r, all, c.line.value);
    } else {
      assert all + [] == all;
    }
  }

  lemma ShipAccounted(log: Log, cfg: Config, r: nat, all: File, c: Call)
    requires Accounted(log, cfg, r, all) && c.faults == NO_FAULTS && c.writes
    ensures Accounted(ShipOne(log, cfg, c).log, cfg, r + Bit(OverLimit(log, cfg)), all + LineOf(c))
  {
    ShipsWithLine(log, cfg, c);
    if OverLimit(log, cfg) {
      RotatedAccounted(log, cfg, r, all);
      LineAccounted(Rotated(log, cfg, NO_FAULTS), cfg, r + 1, all, c);
    } else {
      LineAccounted(log, cfg, r, all, c);
    }
  }

  lemma FirstCall(log: Log, cfg: Config, calls: seq<Call>, r: nat, all: File)
    requires calls != []
    ensures var next := ShipOne(log, cfg, calls[0]).log;
            && Run(log, cfg, calls) == Run(next, cfg, calls[1..])
            && r + Rotations(log, cfg, calls) == r + Bit(OverLimit(log, cfg)) + Rotations(next, cfg, calls[1..])
            && all + Entries(calls) == all + LineOf(calls[0]) + Entries(calls[1..])
  {
    Regroup(all, LineOf(calls[0]), Entries(calls[1..]));
  }

  lemma {:induction false} RunAccounted(log: Log, cfg: Config, calls: seq<Call>, r: nat, all: File,
                                        after: Log, rotations: nat, total: File)
    requires Accounted(log, cfg, r, all)
    requires forall i :: 0 <= i < |calls| ==> calls[i].faults == NO_FAULTS && calls[i].writes
    requires after == Run(log, cfg, calls) && rotations == r + Rotations(log, cfg, calls)
    requires total == all + Entries(calls)
    ensures Accounted(after, cfg, rotations, total)
    decreases calls
  {
    if calls == [] {
      assert total == all;
    } else {
      var next, more := ShipOne(log, cfg, calls[0]).log, all + LineOf(calls[0]);
      FirstCall(log, cfg, calls, r, all);
      ShipAccounted(log, cfg, r, all, calls[0]);
      RunAccounted(next, cfg, calls[1..], r + Bit(OverLimit(log, cfg)), more, after, rotations, total);
    }
  }

  /**
   Over every run without faults from a start without backups: every backup holds more than the
   limit, so nothing shipped is missing while the total is within the limit times the files
   there can be; and nothing ever is when no limit is configured.
   */
  lemma NothingLostWithinRoom(log: Log, cfg: Config, calls: seq<Call>)
    requires log.usable && Backups(log.slots, 0)
    requires forall i :: 0 <= i < |calls| ==> calls[i].faults == NO_FAULTS && calls[i].writes
    ensures var t := Run(log, cfg, calls);
            var all := log.slots[0] + Entries(calls);
            && (forall s :: s in t.slots && s > 0 ==> Size(t.slots[s]) > cfg.maxSizeMb * 1048576)
            && (cfg.maxSizeMb <= 0 || Size(all) <= (Max(1, cfg.maxBackups) + 1) * (cfg.maxSizeMb * 1048576) ==>
                  ReadBack(t.slots, Cap(cfg)) == all)
  {
    ReadsAlone(log.slots, Cap(cfg));
    var t, r, all := Run(log, cfg, calls), Rotations(log, cfg, calls), log.slots[0] + Entries(calls);
    RunAccounted(log, cfg, calls, 0, log.slots[0], t, r, all);
    if cfg.maxSizeMb <= 0 || Size(all) <= (Max(1, cfg.maxBackups) + 1) * (cfg.maxSizeMb * 1048576) {
      RoomIsEnough(t, cfg, r, all);
    }
  }

  lemma RoomIsEnough(log: Log, cfg: Config, r: nat, all: File)
    requires Accounted(log, cfg, r, all)
    requires cfg.maxSizeMb <= 0 || Size(all) <= (Max(1, cfg.maxBackups) + 1) * (cfg.maxSizeMb * 1048576)
    ensures ReadBack(log.slots, Cap(cfg)) == all
  {
    if cfg.maxSizeMb > 0 && r > Cap(cfg) {
      FullFilesExceed(r, Cap(cfg) + 1, cfg.maxSizeMb * 1048576);
    }
  }

  lemma {:induction false} ReadsAlone(m: Slots, top: int)
    requires Backups(m, 0) && top >= 0
    ensures ReadBack(m, top) == m[0]
    decreases top
  {
    if top > 0 {
      ReadsAlone(m, top - 1);
      assert Block(m, top) == [] && [] + m[0] == m[0];
    } else {
      assert ReadRange(m, 0, 0) == Block(m, 0) + ReadRange(m, -1, 0);
    }
  }

  // ---- with any faults: still in order, never twice ----

  /** `a` is `b` with some elements left out. */
  predicate Subsequence<T(==)>(a: seq<T>, b: seq<T>)
    decreases b
  {
    || a == []
    || (b != [] && ((a[0] == b[0] && Subsequence(a[1..], b[1..])) || Subsequence(a, b[1..])))
  }

  lemma {:induction false} SubsequenceSelf<T>(a: seq<T>)
    ensures Subsequence(a, a)
  {
    if a != [] {
      SubsequenceSelf(a[1..]);
    }
  }

  lemma {:induction false} SubsequenceAppend<T>(a: seq<T>, b: seq<T>, c: seq<T>, d: seq<T>)
    requires Subsequence(a, b) && Subsequence(c, d)
    ensures Subsequence(a + c, b + d)
    decreases b
  {
    if b == [] {
      assert a + c == c && b + d == d;
    } else {
      assert (b + d)[1..] == b[1..] + d;
      if a != [] && a[0] == b[0] && Subsequence(a[1..], b[1..]) {
        assert (a + c)[1..] == a[1..] + c;
        SubsequenceAppend(a[1..], b[1..], c, d);
      } else {
        assert a == [] ==> Subsequence(a, b[1..]);
        SubsequenceAppend(a, b[1..], c, d);
        if a + c != [] {
          assert Subsequence(a + c, (b + d)[1..]);
        }
      }
    }
  }

  lemma {:induction false} SubsequenceTrans<T>(a: seq<T>, b: seq<T>, c: seq<T>)
    requires Subsequence(a, b) && Subsequence(b, c)
    ensures Subsequence(a, c)
    decreases c
  {
    if a != [] {
      if b[0] == c[0] && Subsequence(b[1..], c[1..]) {
        if a[0] == b[0] && Subsequence(a[1..], b[1..]) {
          SubsequenceTrans(a[1..], b[1..], c[1..]);
        } else {
          SubsequenceTrans(a, b[1..], c[1..]);
        }
      } else {
        SubsequenceTrans(a, b, c[1..]);
      }
    }
  }

  lemma DroppingABlock<T>(a: seq<T>, b: seq<T>, c: seq<T>)
    ensures Subsequence(a + c, a + (b + c))
  {
    SubsequenceSelf(a);
    SubsequenceSelf(c);
    assert Subsequence([], b);
    SubsequenceAppend([], b, c, c);
    assert [] + c == c;
    SubsequenceAppend(a, a, c, b + c);
  }

  lemma {:induction false} ShiftInOrder(m: Slots, i: int, failing: set<int>, top: int)
    requires -1 <= i < top
    ensures Subsequence(ReadBack(ShiftDown(m, i, failing), top), ReadBack(m, top))
    decreases i + 1
  {
    SubsequenceSelf(ReadBack(m, top));
    if i >= 0 {
      var n := Rename(m, i, i in failing);
      if i in m && i !in failing {
        RenameReads(m, i, top);
        ReadAround(m, i, top);
        DroppingABlock(ReadRange(m, top, i + 2), Block(m, i + 1), Block(m, i) + ReadRange(m, i - 1, 0));
      }
      ShiftInOrder(n, i - 1, failing, top);
      SubsequenceTrans(ReadBack(ShiftDown(m, i, failing), top), ReadBack(n, top), ReadBack(m, top));
    }
  }

  lemma ShipInOrder(log: Log, cfg: Config, c: Call)
    ensures var s := ShipOne(log, cfg, c);
            Subsequence(ReadBack(s.log.slots, Cap(cfg)), ReadBack(log.slots, Cap(cfg)) + s.accepted)
  {
    var s, top := ShipOne(log, cfg, c), Cap(cfg);
    var before := ReadBack(log.slots, top);
    var ready := if s.rotates then Rotated(log, cfg, c.faults) else log;
    SubsequenceSelf(before);
    if s.rotates && ready.slots != log.slots {
      var shifted := ShiftDown(log.slots, top - 1, c.faults.renames);
      ShiftInOrder(log.slots, top - 1, c.faults.renames, top);
      ReadSame(shifted, ready.slots, top, 0);
    }
    AppendReads(ready.slots, s.accepted, top);
    SubsequenceSelf(s.accepted);
    SubsequenceAppend(ReadBack(ready.slots, top), before, s.accepted, s.accepted);
    if s.accepted == [] {
      assert ReadBack(ready.slots, top) + [] == ReadBack(ready.slots, top);
    }
  }

  lemma SubsequenceThrough<T>(last: seq<T>, middle: seq<T>, first: seq<T>, latest: seq<T>, rest: seq<T>)
    requires Subsequence(middle, first + latest) && Subsequence(last, middle + rest)
    ensures Subsequence(last, first + (latest + rest))
  {
    SubsequenceSelf(rest);
    SubsequenceAppend(middle, first + latest, rest, rest);
    Regroup(first, latest, rest);
    SubsequenceTrans(last, middle + rest, first + latest + rest);
  }

  /** Whatever fails, what can be read back is in shipping order and holds nothing twice. */
  lemma {:induction false} FaultsOnlyLose(log: Log, cfg: Config, calls: seq<Call>)
    ensures Subsequence(ReadBack(Run(log, cfg, calls).slots, Cap(cfg)),
                        ReadBack(log.slots, Cap(cfg)) + Accepted(log, cfg, calls))
    decreases calls
  {
    var before := ReadBack(log.slots, Cap(cfg));
    if calls == [] {
      assert before + [] == before;
      SubsequenceSelf(before);
    } else {
      var s := ShipOne(log, cfg, calls[0]);
      var rest, middle := Accepted(s.log, cfg, calls[1..]), ReadBack(s.log.slots, Cap(cfg));
      ShipInOrder(log, cfg, calls[0]);
      FaultsOnlyLose(s.log, cfg, calls[1..]);
      SubsequenceThrough(ReadBack(Run(log, cfg, calls).slots, Cap(cfg)), middle, before, s.accepted, rest);
    }
  }

  /**
   A rotation leaves a usable handle exactly when closing and opening work, and no file changes
   when closing fails.
   */
  lemma RotationFaults(log: Log, cfg: Config, f: Faults)
    requires log.usable
    ensures var t := Rotated(log, cfg, f);
            && (t.usable <==> !f.close && !f.open)
            && (f.close ==> t.slots == log.slots)
            && (!f.close ==> forall s :: 1 <= s <= Cap(cfg) ==>
                  Block(t.slots, s) == Block(ShiftDown(log.slots, Cap(cfg) - 1, f.renames), s))
            && (t.usable ==> 0 in t.slots)
  {
  }

  /** Once the handle is lost nothing is written or rotated any more. */
  lemma {:induction false} UnusableForever(log: Log, cfg: Config, calls: seq<Call>)
    requires !log.usable
    ensures Run(log, cfg, calls) == log && Accepted(log, cfg, calls) == []
    decreases calls
  {
    if calls != [] {
      UnusableForever(ShipOne(log, cfg, calls[0]).log, cfg, calls[1..]);
    }
  }

  /**
   An entry is written exactly when it was marshalled, the write works and the handle outlives
   any rotation that is due.
   */
  lemma AcceptedIff(log: Log, cfg: Config, c: Call)
    ensures var s := ShipOne(log, cfg, c);
            var held := log.usable && (OverLimit(log, cfg) ==> !c.faults.close && !c.faults.open);
            var ready := if log.usable && OverLimit(log, cfg) then Rotated(log, cfg, c.faults) else log;
            if c.line.Some? && c.writes && held
            then s.accepted == [c.line.value] && s.log.slots == ready.slots[0 := Block(ready.slots, 0) + [c.line.value]]
            else s.accepted == [] && s.log == ready
  {
  }
}
