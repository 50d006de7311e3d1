/**
 What a mirror sync reaches when nothing fails, from whatever interrupted runs left behind: one
 sync completes every version that is listed once, two complete every version, and a sync that
 finds all of them complete changes nothing.
 */
module MirrorConvergence {
  import opened Basics
  import opened PlatformFilter
  import opened MirrorSync
  import opened MirrorIntegrity
  import Shasums

  /** What ids and recorded platforms look like in every store a sync leaves. */
  ghost predicate Regular(s: Store) {
    && (forall v :: v in s.versions ==> s.versions[v] < s.nextId)
    && (forall key :: key in s.platforms ==> key.version < s.nextId && TidyPlatform(key.platform))
  }

  function Sums(up: Upstream, v: Version): map<string, string> {
    if v.platforms == [] || up.package(v.name, v.platforms[0]) == None then map[]
    else Shasums.Parse(up.shasums(v.name))
  }

  /** Upstream has the package, and its own bytes pass the package's checks. */
  predicate Delivers(m: Mirror, up: Upstream, version: string, p: Platform, sums: map<string, string>) {
    var pkg := up.package(version, p);
    pkg.Some? && Acceptable(m, pkg.value, sums, pkg.value.body)
  }

  ghost predicate AnyDelivered(m: Mirror, up: Upstream, version: string, ps: seq<Platform>, sums: map<string, string>) {
    exists p :: p in ps && Delivers(m, up, version, p, sums)
  }

  ghost predicate Holds(m: Mirror, up: Upstream, s: Store, id: nat, version: string, ps: seq<Platform>,
                        sums: map<string, string>)
  {
    forall p :: p in ps && Delivers(m, up, version, p, sums) ==> PlatformKey(id, p) in s.platforms
  }

  /**
   A recorded version has every kept platform that upstream delivers; an unrecorded one has
   none to offer, or no description of its first platform.
   */
  ghost predicate Complete(m: Mirror, up: Upstream, s: Store, v: Version) {
    var kept, sums := Kept(v.platforms, m.filter), Sums(up, v);
    if v.name in s.versions then Holds(m, up, s, s.versions[v.name], v.name, kept, sums)
    else v.platforms == [] || up.package(v.name, v.platforms[0]) == None || !AnyDelivered(m, up, v.name, kept, sums)
  }

  /** The same records and objects. */
  ghost predicate Same(s: Store, t: Store) {
    t.versions == s.versions && t.platforms == s.platforms && t.blobs == s.blobs && t.nextId >= s.nextId
  }

  /** The other versions and all platform records stay. */
  ghost predicate Extends(s: Store, t: Store, version: string) {
    && OnlyVersion(s, t, version)
    && forall key :: key in s.platforms ==> key in t.platforms && t.platforms[key] == s.platforms[key]
  }

  // ---- platforms ----

  lemma PlatformReliable(m: Mirror, up: Upstream, s: Store, id: nat, version: string, p: Platform,
                         sums: map<string, string>, f: PlatformFaults)
    requires NoPlatformFault(f)
    ensures var r := SyncPlatform(m, up, s, id, version, p, sums, f);
            && (!Delivers(m, up, version, p, sums) ==> r == Synced(s, false))
            && (Delivers(m, up, version, p, sums) ==>
                  PlatformKey(id, p) in r.store.platforms && (PlatformKey(id, p) !in s.platforms ==> r.ok))
  {
  }

  /** The loop over platforms: all that upstream delivers end up recorded, and it is idle when it delivers none. */
  lemma {:induction false} PlatformsReliable(m: Mirror, up: Upstream, s: Store, id: nat, version: string,
                                             ps: seq<Platform>, k: nat,
                                             sums: map<string, string>, f: nat -> PlatformFaults)
    requires k <= |ps| && forall j :: NoPlatformFault(f(j))
    ensures var r := SyncPlatforms(m, up, s, id, version, ps, k, sums, f);
            && Holds(m, up, r.store, id, version, ps[k..], sums)
            && (!AnyDelivered(m, up, version, ps[k..], sums) ==> r == Counted(s, 0))
            && (forall p :: p in ps[k..] && Delivers(m, up, version, p, sums) && PlatformKey(id, p) !in s.platforms ==>
                  r.count > 0)
    decreases |ps| - k
  {
    if k < |ps| {
      var one := SyncPlatform(m, up, s, id, version, ps[k], sums, f(k));
      assert ps[k..] == [ps[k]] + ps[k + 1..];
      PlatformReliable(m, up, s, id, version, ps[k], sums, f(k));
      PlatformFrame(m, NoChecksum(), up, s, id, version, ps[k], sums, f(k));
      PlatformsReliable(m, up, one.store, id, version, ps, k + 1, sums, f);
      PlatformsFrame(m, up, one.store, id, version, ps, k + 1, sums, f);
    }
  }

  // ---- one version ----

  lemma FillReliable(m: Mirror, up: Upstream, s: Store, version: string, ps: seq<Platform>,
                     sums: map<string, string>, f: VersionFaults)
    requires Regular(s) && version !in s.versions && NoVersionFault(f)
    requires AnyDelivered(m, up, version, ps, sums)
    ensures var r := Fill(m, up, s, version, ps, sums, f);
            && version in r.store.versions && r.store.versions[version] == s.nextId
            && Holds(m, up, r.store, s.nextId, version, ps, sums)
            && r.store == SyncPlatforms(m, up, Created(s, version), s.nextId, version, ps, 0, sums, f.at).store
  {
    PlatformsReliable(m, up, Created(s, version), s.nextId, version, ps, 0, sums, f.at);
    PlatformsFrame(m, up, Created(s, version), s.nextId, version, ps, 0, sums, f.at);
    assert ps[0..] == ps;
  }

  /** With nothing to deliver, the record created for the version is taken away again. */
  lemma FillIdle(m: Mirror, up: Upstream, s: Store, version: string, ps: seq<Platform>, sums: map<string, string>,
                 f: VersionFaults)
    requires Regular(s) && version !in s.versions && NoVersionFault(f)
    requires !AnyDelivered(m, up, version, ps, sums)
    ensures var r := Fill(m, up, s, version, ps, sums, f); Same(s, r.store) && !r.ok
  {
    var created := Created(s, version);
    PlatformsReliable(m, up, created, s.nextId, version, ps, 0, sums, f.at);
    assert ps[0..] == ps;
    var t := DeleteVersion(created, version, s.nextId, f.delete);
    assert t.versions == s.versions;
    assert t.platforms == s.platforms;
  }

  lemma NewReliable(m: Mirror, up: Upstream, s: Store, v: Version, f: VersionFaults)
    requires Regular(s) && v.name !in s.versions && NoVersionFault(f)
    requires forall p :: p in v.platforms ==> TidyPlatform(p)
    ensures var r := SyncNew(m, up, s, v, f);
            Regular(r.store) && Extends(s, r.store, v.name) && Complete(m, up, r.store, v)
    ensures Complete(m, up, s, v) ==> var r := SyncNew(m, up, s, v, f); Same(s, r.store) && !r.ok
  {
    var kept, sums := Kept(v.platforms, m.filter), SumsOf(up, v, f.shasumsFail);
    if v.platforms != [] && up.package(v.name, v.platforms[0]) != None {
      if AnyDelivered(m, up, v.name, kept, sums) {
        FillReliable(m, up, s, v.name, kept, sums, f);
        PlatformsFrame(m, up, Created(s, v.name), s.nextId, v.name, kept, 0, sums, f.at);
        KeptTidy(v, m.filter);
      } else {
        FillIdle(m, up, s, v.name, kept, sums, f);
      }
    }
  }

  lemma KeptTidy(v: Version, filter: Filter)
    requires forall p :: p in v.platforms ==> TidyPlatform(p)
    ensures forall p :: p in Kept(v.platforms, filter) ==> TidyPlatform(p)
  {
    forall p | p in Kept(v.platforms, filter) ensures TidyPlatform(p) {
      KeptExactly(v.platforms, filter, p);
    }
  }

  /** The platforms to fetch for a recorded version are the kept ones it has no record of. */
  lemma MissingKept(m: Mirror, s: Store, id: nat, v: Version)
    requires Regular(s) && forall p :: p in v.platforms ==> TidyPlatform(p)
    ensures var kept := Kept(v.platforms, m.filter);
            forall p :: p in Missing(Recorded(s.platforms, id), kept) <==>
              p in kept && PlatformKey(id, p) !in s.platforms
  {
    var kept, names := Kept(v.platforms, m.filter), Recorded(s.platforms, id);
    KeptTidy(v, m.filter);
    forall p ensures p in Missing(names, kept) <==> p in kept && PlatformKey(id, p) !in s.platforms {
      MissingExactly(names, kept, p);
      if p in kept {
        RecordedExactly(s.platforms, id, p);
      }
    }
  }

  lemma ExistingReliable(m: Mirror, up: Upstream, s: Store, v: Version, f: VersionFaults)
    requires Regular(s) && v.name in s.versions && NoVersionFault(f)
    requires forall p :: p in v.platforms ==> TidyPlatform(p)
    ensures var r := SyncExisting(m, up, s, s.versions[v.name], v, f);
            Regular(r.store) && Extends(s, r.store, v.name) && Complete(m, up, r.store, v)
    ensures Complete(m, up, s, v) ==>
              var r := SyncExisting(m, up, s, s.versions[v.name], v, f); Same(s, r.store) && r.count == 0
  {
    var id := s.versions[v.name];
    var kept, sums := Kept(v.platforms, m.filter), SumsForExisting(up, v, f);
    var missing := Missing(Recorded(s.platforms, id), kept);
    KeptTidy(v, m.filter);
    MissingKept(m, s, id, v);
    PlatformsReliable(m, up, s, id, v.name, missing, 0, sums, f.at);
    PlatformsFrame(m, up, s, id, v.name, missing, 0, sums, f.at);
    assert missing[0..] == missing;
  }

  /** The records now in the database for a version are those that were listed at the start. */
  ghost predicate Agrees(listed: map<string, nat>, s: Store, version: string) {
    (version in listed <==> version in s.versions) && (version in listed ==> listed[version] == s.versions[version])
  }

  lemma VersionReliable(m: Mirror, up: Upstream, s: Store, listed: map<string, nat>, v: Version, f: VersionFaults)
    requires Regular(s) && Agrees(listed, s, v.name) && NoVersionFault(f)
    requires forall p :: p in v.platforms ==> TidyPlatform(p)
    ensures var r := SyncVersion(m, up, s, listed, v, f);
            Regular(r.store) && Extends(s, r.store, v.name) && Complete(m, up, r.store, v)
    ensures Complete(m, up, s, v) ==> var r := SyncVersion(m, up, s, listed, v, f); Same(s, r.store) && r.count == 0
  {
    if v.name in listed {
      ExistingReliable(m, up, s, v, f);
    } else {
      NewReliable(m, up, s, v, f);
    }
  }

  // ---- whole runs ----

  ghost predicate CompleteUpTo(m: Mirror, up: Upstream, s: Store, n: nat)
    requires n <= |up.versions|
  {
    forall i :: 0 <= i < n ==> Complete(m, up, s, up.versions[i])
  }

  /** A kept platform of this entry of the listing that upstream delivers. */
  predicate Yields(m: Mirror, up: Upstream, v: Version, p: Platform) {
    p in Kept(v.platforms, m.filter) && Delivers(m, up, v.name, p, Sums(up, v))
  }

  /** The entry makes a record of its version when there is none. */
  ghost predicate Creates(m: Mirror, up: Upstream, v: Version) {
    && v.platforms != [] && up.package(v.name, v.platforms[0]) != None
    && AnyDelivered(m, up, v.name, Kept(v.platforms, m.filter), Sums(up, v))
  }

  lemma CompleteMeans(m: Mirror, up: Upstream, s: Store, v: Version)
    ensures Complete(m, up, s, v) <==>
              if v.name !in s.versions then !Creates(m, up, v)
              else forall p :: Yields(m, up, v, p) ==> PlatformKey(s.versions[v.name], p) in s.platforms
  {
  }

  /** None of the first `n` entries of this name creates it. */
  ghost predicate NoneCreates(m: Mirror, up: Upstream, n: nat, name: string)
    requires n <= |up.versions|
  {
    forall k :: 0 <= k < n && up.versions[k].name == name ==> !Creates(m, up, up.versions[k])
  }

  /** The first entry of its name that creates it. */
  ghost predicate FirstCreating(m: Mirror, up: Upstream, i: nat) {
    && i < |up.versions| && Creates(m, up, up.versions[i])
    && NoneCreates(m, up, i, up.versions[i].name)
  }

  lemma {:induction false} FirstOne(m: Mirror, up: Upstream, n: nat, name: string) returns (i: nat)
    requires n <= |up.versions| && !NoneCreates(m, up, n, name)
    ensures i < n && up.versions[i].name == name && FirstCreating(m, up, i)
  {
    if NoneCreates(m, up, n - 1, name) {
      i := n - 1;
    } else {
      i := FirstOne(m, up, n - 1, name);
    }
  }

  /** The version has a record made in this sync, with exactly the platforms that this entry yields. */
  ghost predicate MadeBy(m: Mirror, up: Upstream, s: Store, base: nat, v: Version) {
    && v.name in s.versions && base <= s.versions[v.name]
    && forall p :: PlatformKey(s.versions[v.name], p) in s.platforms <==> Yields(m, up, v, p)
  }

  ghost predicate Grounded(s: Store, listed: map<string, nat>, base: nat) {
    Regular(s) && base <= s.nextId && Keeps(listed, s) && forall w :: w in listed ==> listed[w] < base
  }

  /** The entries so far whose version was listed at the start are complete. */
  ghost predicate ListedDone(m: Mirror, up: Upstream, s: Store, listed: map<string, nat>, n: nat)
    requires n <= |up.versions|
  {
    forall j :: 0 <= j < n && up.versions[j].name in listed ==> Complete(m, up, s, up.versions[j])
  }

  /** The entries so far that created a version made it. */
  ghost predicate NewDone(m: Mirror, up: Upstream, s: Store, listed: map<string, nat>, base: nat, n: nat)
    requires n <= |up.versions|
  {
    forall k :: 0 <= k < n && FirstCreating(m, up, k) && up.versions[k].name !in listed ==>
      MadeBy(m, up, s, base, up.versions[k])
  }

  /** A version that was not listed at the start is recorded only if an entry so far creates it. */
  ghost predicate NamesKnown(m: Mirror, up: Upstream, s: Store, listed: map<string, nat>, n: nat)
    requires n <= |up.versions|
  {
    forall w :: w in s.versions && w !in listed ==> !NoneCreates(m, up, n, w)
  }

  /** Where a sync stands after `n` entries, `base` being the next id at its start. */
  ghost predicate Progress(m: Mirror, up: Upstream, s: Store, listed: map<string, nat>, base: nat, n: nat)
    requires n <= |up.versions|
  {
    && Grounded(s, listed, base) && ListedDone(m, up, s, listed, n)
    && NewDone(m, up, s, listed, base, n) && NamesKnown(m, up, s, listed, n)
  }

  /** Versions and platform records are kept, and new platform records belong to the given id. */
  ghost predicate AddsTo(s: Store, t: Store, id: nat) {
    && (forall w :: w in s.versions ==> w in t.versions && t.versions[w] == s.versions[w])
    && (forall key :: key in s.platforms ==> key in t.platforms)
    && (forall key :: key in t.platforms && key !in s.platforms ==> key.version == id)
  }

  lemma ListedGrows(m: Mirror, up: Upstream, s: Store, t: Store, listed: map<string, nat>, id: nat, n: nat)
    requires n <= |up.versions| && ListedDone(m, up, s, listed, n) && Keeps(listed, s) && AddsTo(s, t, id)
    ensures ListedDone(m, up, t, listed, n) && Keeps(listed, t)
  {
    forall j | 0 <= j < n && up.versions[j].name in listed ensures Complete(m, up, t, up.versions[j]) {
      assert Complete(m, up, s, up.versions[j]);
    }
  }

  lemma NewGrows(m: Mirror, up: Upstream, s: Store, t: Store, listed: map<string, nat>, base: nat, id: nat, n: nat)
    requires n <= |up.versions| && NewDone(m, up, s, listed, base, n) && AddsTo(s, t, id)
    requires Regular(s) && (id < base || s.nextId <= id || t.platforms == s.platforms)
    ensures NewDone(m, up, t, listed, base, n)
  {
    forall k | 0 <= k < n && FirstCreating(m, up, k) && up.versions[k].name !in listed
      ensures MadeBy(m, up, t, base, up.versions[k])
    {
      assert MadeBy(m, up, s, base, up.versions[k]);
    }
  }

  lemma NamesGrow(m: Mirror, up: Upstream, s: Store, t: Store, listed: map<string, nat>, n: nat)
    requires n < |up.versions| && NamesKnown(m, up, s, listed, n)
    requires forall w :: w in t.versions && w !in s.versions ==>
               w == up.versions[n].name && Creates(m, up, up.versions[n])
    ensures NamesKnown(m, up, t, listed, n + 1)
  {
    forall w | w in t.versions && w !in listed ensures !NoneCreates(m, up, n + 1, w) {
      assert w in s.versions ==> !NoneCreates(m, up, n, w);
    }
  }

  lemma ExistingAdds(m: Mirror, up: Upstream, s: Store, id: nat, v: Version, f: VersionFaults)
    ensures var t := SyncExisting(m, up, s, id, v, f).store;
            t.versions == s.versions && t.nextId == s.nextId && AddsTo(s, t, id)
  {
    var missing := Missing(Recorded(s.platforms, id), Kept(v.platforms, m.filter));
    PlatformsFrame(m, up, s, id, v.name, missing, 0, SumsForExisting(up, v, f), f.at);
  }

  /** An entry whose version was listed at the start. */
  lemma ProgressListed(m: Mirror, up: Upstream, s: Store, listed: map<string, nat>, base: nat, n: nat, f: VersionFaults)
    requires n < |up.versions| && Progress(m, up, s, listed, base, n) && NoVersionFault(f)
    requires up.versions[n].name in listed && forall p :: p in up.versions[n].platforms ==> TidyPlatform(p)
    ensures Progress(m, up, SyncVersion(m, up, s, listed, up.versions[n], f).store, listed, base, n + 1)
  {
    var v := up.versions[n];
    var id := listed[v.name];
    var t := SyncVersion(m, up, s, listed, v, f).store;
    ExistingReliable(m, up, s, v, f);
    ExistingAdds(m, up, s, id, v, f);
    ListedGrows(m, up, s, t, listed, id, n);
    NewGrows(m, up, s, t, listed, base, id, n);
    NamesGrow(m, up, s, t, listed, n);
  }

  lemma NotFirst(m: Mirror, up: Upstream, s: Store, listed: map<string, nat>, n: nat)
    requires n < |up.versions| && NamesKnown(m, up, s, listed, n) && up.versions[n].name !in listed
    requires up.versions[n].name in s.versions || !Creates(m, up, up.versions[n])
    ensures !FirstCreating(m, up, n)
  {
    assert up.versions[n].name in s.versions ==> !NoneCreates(m, up, n, up.versions[n].name);
  }

  lemma DoneSkip(m: Mirror, up: Upstream, t: Store, listed: map<string, nat>, base: nat, n: nat)
    requires n < |up.versions| && up.versions[n].name !in listed && !FirstCreating(m, up, n)
    requires ListedDone(m, up, t, listed, n) && NewDone(m, up, t, listed, base, n)
    ensures ListedDone(m, up, t, listed, n + 1) && NewDone(m, up, t, listed, base, n + 1)
  {
  }

  /** An entry that does nothing: its version was made by an earlier one, or it has nothing to offer. */
  lemma ProgressIdle(m: Mirror, up: Upstream, s: Store, t: Store, listed: map<string, nat>, base: nat, n: nat)
    requires n < |up.versions| && Progress(m, up, s, listed, base, n) && Same(s, t)
    requires up.versions[n].name !in listed
    requires up.versions[n].name in s.versions || !Creates(m, up, up.versions[n])
    ensures Progress(m, up, t, listed, base, n + 1)
  {
    NotFirst(m, up, s, listed, n);
    ListedGrows(m, up, s, t, listed, base, n);
    NewGrows(m, up, s, t, listed, base, base, n);
    DoneSkip(m, up, t, listed, base, n);
    NamesGrow(m, up, s, t, listed, n);
  }

  /** Without faults the loop adds only what upstream delivers. */
  lemma {:induction false} OnlyDelivered(m: Mirror, up: Upstream, s: Store, id: nat, version: string, ps: seq<Platform>,
                                         k: nat, sums: map<string, string>, f: nat -> PlatformFaults)
    requires k <= |ps| && forall j :: NoPlatformFault(f(j))
    ensures var t := SyncPlatforms(m, up, s, id, version, ps, k, sums, f).store;
            forall key :: key in t.platforms && key !in s.platforms ==>
              key.version == id && key.platform in ps && Delivers(m, up, version, key.platform, sums)
    decreases |ps| - k
  {
    if k < |ps| {
      var t := SyncPlatform(m, up, s, id, version, ps[k], sums, f(k)).store;
      PlatformReliable(m, up, s, id, version, ps[k], sums, f(k));
      PlatformFrame(m, NoChecksum(), up, s, id, version, ps[k], sums, f(k));
      OnlyDelivered(m, up, t, id, version, ps, k + 1, sums, f);
    }
  }

  /** A version made by its entry has exactly the platforms the entry yields. */
  lemma NewMade(m: Mirror, up: Upstream, s: Store, v: Version, f: VersionFaults)
    requires Regular(s) && v.name !in s.versions && NoVersionFault(f) && Creates(m, up, v)
    ensures var t := SyncNew(m, up, s, v, f).store;
            && t.versions == s.versions[v.name := s.nextId] && t.nextId == s.nextId + 1
            && AddsTo(s, t, s.nextId) && MadeBy(m, up, t, s.nextId, v)
  {
    var kept, sums := Kept(v.platforms, m.filter), SumsOf(up, v, f.shasumsFail);
    FillReliable(m, up, s, v.name, kept, sums, f);
    PlatformsFrame(m, up, Created(s, v.name), s.nextId, v.name, kept, 0, sums, f.at);
    OnlyDelivered(m, up, Created(s, v.name), s.nextId, v.name, kept, 0, sums, f.at);
  }

  lemma DoneNext(m: Mirror, up: Upstream, t: Store, listed: map<string, nat>, base: nat, later: nat, n: nat)
    requires n < |up.versions| && up.versions[n].name !in listed && base <= later
    requires ListedDone(m, up, t, listed, n) && NewDone(m, up, t, listed, base, n)
    requires MadeBy(m, up, t, later, up.versions[n])
    ensures ListedDone(m, up, t, listed, n + 1) && NewDone(m, up, t, listed, base, n + 1)
  {
    assert MadeBy(m, up, t, base, up.versions[n]);
  }

  lemma ProgressMadeTo(m: Mirror, up: Upstream, s: Store, t: Store, listed: map<string, nat>, base: nat, n: nat)
    requires n < |up.versions| && Progress(m, up, s, listed, base, n) && up.versions[n].name !in listed
    requires Regular(t) && AddsTo(s, t, s.nextId) && s.nextId <= t.nextId && Creates(m, up, up.versions[n])
    requires t.versions == s.versions[up.versions[n].name := s.nextId] && MadeBy(m, up, t, s.nextId, up.versions[n])
    ensures Progress(m, up, t, listed, base, n + 1)
  {
    ListedGrows(m, up, s, t, listed, s.nextId, n);
    NewGrows(m, up, s, t, listed, base, s.nextId, n);
    DoneNext(m, up, t, listed, base, s.nextId, n);
    NamesGrow(m, up, s, t, listed, n);
  }

  /** An entry that creates its version. */
  lemma ProgressMade(m: Mirror, up: Upstream, s: Store, listed: map<string, nat>, base: nat, n: nat, f: VersionFaults)
    requires n < |up.versions| && Progress(m, up, s, listed, base, n) && NoVersionFault(f)
    requires forall p :: p in up.versions[n].platforms ==> TidyPlatform(p)
    requires var v := up.versions[n]; v.name !in listed && v.name !in s.versions && Creates(m, up, v)
    ensures Progress(m, up, SyncVersion(m, up, s, listed, up.versions[n], f).store, listed, base, n + 1)
  {
    NewReliable(m, up, s, up.versions[n], f);
    NewMade(m, up, s, up.versions[n], f);
    ProgressMadeTo(m, up, s, SyncVersion(m, up, s, listed, up.versions[n], f).store, listed, base, n);
  }

  lemma EntryIdle(m: Mirror, up: Upstream, s: Store, listed: map<string, nat>, v: Version, f: VersionFaults)
    requires Regular(s) && NoVersionFault(f) && v.name !in listed && forall p :: p in v.platforms ==> TidyPlatform(p)
    requires v.name in s.versions || !Creates(m, up, v)
    ensures Same(s, SyncVersion(m, up, s, listed, v, f).store)
  {
    if v.name !in s.versions {
      CompleteMeans(m, up, s, v);
      NewReliable(m, up, s, v, f);
    }
  }

  lemma ProgressStep(m: Mirror, up: Upstream, s: Store, listed: map<string, nat>, base: nat, n: nat, f: VersionFaults)
    requires n < |up.versions| && Progress(m, up, s, listed, base, n) && NoVersionFault(f) && SlashFree(up)
    ensures Progress(m, up, SyncVersion(m, up, s, listed, up.versions[n], f).store, listed, base, n + 1)
  {
    var v := up.versions[n];
    if v.name in listed {
      ProgressListed(m, up, s, listed, base, n, f);
    } else if v.name !in s.versions && Creates(m, up, v) {
      ProgressMade(m, up, s, listed, base, n, f);
    } else {
      EntryIdle(m, up, s, listed, v, f);
      ProgressIdle(m, up, s, SyncVersion(m, up, s, listed, v, f).store, listed, base, n);
    }
  }

  lemma {:induction false} VersionsReliable(m: Mirror, up: Upstream, s: Store, listed: map<string, nat>, base: nat,
                                            i: nat, f: nat -> VersionFaults)
    requires SlashFree(up) && i <= |up.versions| && forall j :: NoVersionFault(f(j))
    requires Progress(m, up, s, listed, base, i)
    ensures Progress(m, up, SyncVersions(m, up, s, listed, i, f).store, listed, base, |up.versions|)
    decreases |up.versions| - i
  {
    if i < |up.versions| {
      var t := SyncVersion(m, up, s, listed, up.versions[i], f(i)).store;
      assert SyncVersions(m, up, s, listed, i, f).store == SyncVersions(m, up, t, listed, i + 1, f).store;
      ProgressStep(m, up, s, listed, base, i, f(i));
      VersionsReliable(m, up, t, listed, base, i + 1, f);
    }
  }

  /** What entry `j` yields, entry `i` yields. */
  ghost predicate Covers(m: Mirror, up: Upstream, i: nat, j: nat)
    requires i < |up.versions| && j < |up.versions|
  {
    forall p :: Yields(m, up, up.versions[j], p) ==> Yields(m, up, up.versions[i], p)
  }

  /** For every version without a record, the entry that creates it yields whatever any entry of that name does. */
  ghost predicate OneIsEnough(m: Mirror, up: Upstream, s: Store) {
    forall i, j :: 0 <= i < |up.versions| && 0 <= j < |up.versions| && FirstCreating(m, up, i)
                   && up.versions[j].name == up.versions[i].name && up.versions[i].name !in s.versions ==>
      Covers(m, up, i, j)
  }

  lemma MadeCompleteIff(m: Mirror, up: Upstream, s: Store, base: nat, i: nat, j: nat)
    requires i < |up.versions| && j < |up.versions| && up.versions[j].name == up.versions[i].name
    requires MadeBy(m, up, s, base, up.versions[i])
    ensures Complete(m, up, s, up.versions[j]) <==> Covers(m, up, i, j)
  {
    CompleteMeans(m, up, s, up.versions[j]);
    if Complete(m, up, s, up.versions[j]) {
      forall p | Yields(m, up, up.versions[j], p) ensures Yields(m, up, up.versions[i], p) {
        assert PlatformKey(s.versions[up.versions[j].name], p) in s.platforms;
      }
    }
  }

  lemma FinishedIff(m: Mirror, up: Upstream, s: Store, t: Store, base: nat)
    requires Progress(m, up, t, s.versions, base, |up.versions|)
    ensures CompleteUpTo(m, up, t, |up.versions|) <==> OneIsEnough(m, up, s)
  {
    if OneIsEnough(m, up, s) {
      forall j | 0 <= j < |up.versions| ensures Complete(m, up, t, up.versions[j]) {
        var v := up.versions[j];
        if v.name !in s.versions {
          if NoneCreates(m, up, |up.versions|, v.name) {
            CompleteMeans(m, up, t, v);
          } else {
            var i := FirstOne(m, up, |up.versions|, v.name);
            MadeCompleteIff(m, up, t, base, i, j);
          }
        }
      }
    } else if CompleteUpTo(m, up, t, |up.versions|) {
      forall i, j | 0 <= i < |up.versions| && 0 <= j < |up.versions| && FirstCreating(m, up, i)
                    && up.versions[j].name == up.versions[i].name && up.versions[i].name !in s.versions
        ensures Covers(m, up, i, j)
      {
        MadeCompleteIff(m, up, t, base, i, j);
      }
    }
  }

  lemma Started(m: Mirror, up: Upstream, s: Store)
    requires Regular(s)
    ensures Progress(m, up, s, s.versions, s.nextId, 0)
  {
  }

  lemma Finished(m: Mirror, up: Upstream, s: Store, f: Faults)
    requires SlashFree(up) && Regular(s) && NoFault(f)
    ensures Progress(m, up, SyncProvider(m, up, s, f).store, s.versions, s.nextId, |up.versions|)
  {
    Started(m, up, s);
    VersionsReliable(m, up, s, s.versions, s.nextId, 0, f.at);
  }

  /**
   One sync in which nothing fails completes every listed version, whatever the store held
   before, if and only if one entry is enough for each version without a record.
   */
  lemma SyncCompletesIff(m: Mirror, up: Upstream, s: Store, f: Faults)
    requires SlashFree(up) && Regular(s) && NoFault(f)
    ensures var t := SyncProvider(m, up, s, f).store;
            Regular(t) && (CompleteUpTo(m, up, t, |up.versions|) <==> OneIsEnough(m, up, s))
  {
    Finished(m, up, s, f);
    FinishedIff(m, up, s, SyncProvider(m, up, s, f).store, s.nextId);
  }

  /** After one such sync, every version that any entry creates has a record, so the next one completes. */
  lemma EnoughAfterOne(m: Mirror, up: Upstream, s: Store, f: Faults)
    requires SlashFree(up) && Regular(s) && NoFault(f)
    ensures OneIsEnough(m, up, SyncProvider(m, up, s, f).store)
  {
    Finished(m, up, s, f);
  }

  /** No version is listed twice. */
  ghost predicate Once(up: Upstream) {
    forall i, j :: 0 <= i < j < |up.versions| ==> up.versions[i].name != up.versions[j].name
  }

  /** So one sync completes every version of a listing that names none twice. */
  lemma SyncCompletes(m: Mirror, up: Upstream, s: Store, f: Faults)
    requires SlashFree(up) && Once(up) && Regular(s) && NoFault(f)
    ensures var t := SyncProvider(m, up, s, f).store; Regular(t) && CompleteUpTo(m, up, t, |up.versions|)
  {
    SyncCompletesIff(m, up, s, f);
    assert OneIsEnough(m, up, s);
  }

  /** And a listing that names a version twice can leave the second entry's platforms out. */
  lemma RepeatedVersionLeavesPlatform(m: Mirror, up: Upstream, s: Store, f: Faults, v: string, p: Platform, q: Platform)
    requires SlashFree(up) && Regular(s) && NoFault(f) && m.filter.Unset? && v !in s.versions && p != q
    requires up.versions == [Version(v, [p]), Version(v, [q])]
    requires Yields(m, up, Version(v, [p]), p)
    ensures var t := SyncProvider(m, up, s, f).store; v in t.versions && PlatformKey(t.versions[v], q) !in t.platforms
  {
    Finished(m, up, s, f);
    var kept := Kept([p], m.filter);
    KeptAll([p], m.filter);
    assert p in kept && Delivers(m, up, v, p, Sums(up, up.versions[0]));
    assert FirstCreating(m, up, 0);
    assert MadeBy(m, up, SyncProvider(m, up, s, f).store, s.nextId, up.versions[0]);
    assert !Yields(m, up, up.versions[0], q);
  }

  lemma {:induction false} VersionsIdle(m: Mirror, up: Upstream, s: Store, listed: map<string, nat>, i: nat,
                                        f: nat -> VersionFaults)
    requires SlashFree(up) && Regular(s) && i <= |up.versions| && forall j :: NoVersionFault(f(j))
    requires listed == s.versions && CompleteUpTo(m, up, s, |up.versions|)
    ensures var r := SyncVersions(m, up, s, listed, i, f); Same(s, r.store) && r.count == 0
    decreases |up.versions| - i
  {
    if i < |up.versions| {
      var t := SyncVersion(m, up, s, listed, up.versions[i], f(i)).store;
      VersionReliable(m, up, s, listed, up.versions[i], f(i));
      forall j | 0 <= j < |up.versions| ensures Complete(m, up, t, up.versions[j]) {
        assert Complete(m, up, s, up.versions[j]);
      }
      VersionsIdle(m, up, t, listed, i + 1, f);
    }
  }

  /** A sync that finds every version complete changes no record and no object, and reports nothing new. */
  lemma SyncIdle(m: Mirror, up: Upstream, s: Store, f: Faults)
    requires SlashFree(up) && Regular(s) && NoFault(f) && CompleteUpTo(m, up, s, |up.versions|)
    ensures var r := SyncProvider(m, up, s, f);
            Same(s, r.store) && r.versionsNew == (if up.versions == [] then None else Some(0))
  {
    VersionsIdle(m, up, s, s.versions, 0, f.at);
  }

  // ---- whatever came before ----

  lemma RunRegular(m: Mirror, up: Upstream, s: Store, id: nat, version: string, ps: seq<Platform>,
                   sums: map<string, string>, f: nat -> PlatformFaults)
    requires Regular(s) && id < s.nextId && forall p :: p in ps ==> TidyPlatform(p)
    ensures var t := SyncPlatforms(m, up, s, id, version, ps, 0, sums, f).store; Regular(t) && t.nextId == s.nextId
  {
    PlatformsFrame(m, up, s, id, version, ps, 0, sums, f);
  }

  lemma FillRegular(m: Mirror, up: Upstream, s: Store, version: string, ps: seq<Platform>, sums: map<string, string>,
                    f: VersionFaults)
    requires Regular(s) && forall p :: p in ps ==> TidyPlatform(p)
    ensures var t := Fill(m, up, s, version, ps, sums, f).store; Regular(t) && s.nextId <= t.nextId
  {
    FillCases(m, up, s, version, ps, sums, f);
    RunRegular(m, up, Created(s, version), s.nextId, version, ps, sums, f.at);
  }

  lemma VersionRegular(m: Mirror, up: Upstream, s: Store, listed: map<string, nat>, v: Version, f: VersionFaults)
    requires Regular(s) && (forall w :: w in listed ==> listed[w] < s.nextId)
    requires forall p :: p in v.platforms ==> TidyPlatform(p)
    ensures var t := SyncVersion(m, up, s, listed, v, f).store; Regular(t) && s.nextId <= t.nextId
  {
    var kept := Kept(v.platforms, m.filter);
    KeptTidy(v, m.filter);
    if v.name in listed {
      var names := Recorded(s.platforms, listed[v.name]);
      forall p | p in Missing(names, kept) ensures TidyPlatform(p) {
        MissingExactly(names, kept, p);
      }
      RunRegular(m, up, s, listed[v.name], v.name, Missing(names, kept), SumsForExisting(up, v, f), f.at);
    } else {
      FillRegular(m, up, s, v.name, kept, SumsOf(up, v, f.shasumsFail), f);
    }
  }

  lemma {:induction false} VersionsRegular(m: Mirror, up: Upstream, s: Store, listed: map<string, nat>, i: nat,
                                           f: nat -> VersionFaults)
    requires SlashFree(up) && Regular(s) && i <= |up.versions| && forall w :: w in listed ==> listed[w] < s.nextId
    ensures Regular(SyncVersions(m, up, s, listed, i, f).store)
    decreases |up.versions| - i
  {
    if i < |up.versions| {
      VersionRegular(m, up, s, listed, up.versions[i], f(i));
      VersionsRegular(m, up, SyncVersion(m, up, s, listed, up.versions[i], f(i)).store, listed, i + 1, f);
    }
  }

  lemma {:induction false} HistoryRegular(m: Mirror, s: Store, events: seq<Event>)
    requires Regular(s) && forall i :: 0 <= i < |events| && events[i].Sync? ==> SlashFree(events[i].up)
    ensures Regular(History(m, s, events))
    decreases events
  {
    if events != [] {
      if events[0].Sync? {
        VersionsRegular(m, events[0].up, s, s.versions, 0, events[0].faults.at);
      }
      HistoryRegular(m, Happen(m, s, events[0]), events[1..]);
    }
  }

  /**
   Convergence: after any history of syncs against any upstreams, with every call allowed to
   fail, and of removals, one sync in which nothing fails completes every listed version exactly
   when one entry is enough for each, and the next then changes nothing; in any case two such
   syncs complete every version, and a third changes no record and no object and reports no new
   version.
   */
  lemma SyncConverges(m: Mirror, start: Store, events: seq<Event>, up: Upstream, f: Faults, g: Faults, h: Faults)
    requires Regular(start)
    requires forall i :: 0 <= i < |events| && events[i].Sync? ==> SlashFree(events[i].up)
    requires SlashFree(up) && up.versions != [] && NoFault(f) && NoFault(g) && NoFault(h)
    ensures var s := History(m, start, events);
            var once := SyncProvider(m, up, s, f).store;
            var twice := SyncProvider(m, up, once, g);
            var thrice := SyncProvider(m, up, twice.store, h);
            && (CompleteUpTo(m, up, once, |up.versions|) <==> OneIsEnough(m, up, s))
            && (OneIsEnough(m, up, s) ==> Same(once, twice.store) && twice.versionsNew == Some(0))
            && CompleteUpTo(m, up, twice.store, |up.versions|)
            && Same(twice.store, thrice.store) && thrice.versionsNew == Some(0)
  {
    var s := History(m, start, events);
    HistoryRegular(m, start, events);
    SyncCompletesIff(m, up, s, f);
    var once := SyncProvider(m, up, s, f).store;
    if OneIsEnough(m, up, s) {
      SyncIdle(m, up, once, g);
    }
    EnoughAfterOne(m, up, s, f);
    SyncCompletesIff(m, up, once, g);
    SyncIdle(m, up, SyncProvider(m, up, once, g).store, h);
  }

  /**
   In particular, where upstream describes every platform it lists and each description's
   checks accept its bytes, a sync records every entry of the listing with all it keeps, given
   that one entry is enough.
   */
  lemma EveryKeptPlatformRecorded(m: Mirror, up: Upstream, s: Store, f: Faults, i: nat, p: Platform)
    requires SlashFree(up) && OneIsEnough(m, up, s) && Regular(s) && NoFault(f) && i < |up.versions|
    requires forall q :: q in up.versions[i].platforms ==>
               Delivers(m, up, up.versions[i].name, q, Sums(up, up.versions[i]))
    requires p in up.versions[i].platforms && Selects(m.filter, p)
    ensures var t := SyncProvider(m, up, s, f).store;
            var v := up.versions[i].name;
            v in t.versions && PlatformKey(t.versions[v], p) in t.platforms
  {
    SyncCompletesIff(m, up, s, f);
    var v := up.versions[i];
    KeptExactly(v.platforms, m.filter, p);
    assert Complete(m, up, SyncProvider(m, up, s, f).store, v);
    assert v.platforms[0] in v.platforms;
  }
}
