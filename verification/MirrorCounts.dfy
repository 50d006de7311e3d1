/**
 What the number a sync reports as new versions counts: version records it added, and also
 each platform record it added to a version that was there before.
 */
module MirrorCounts {
  import opened Basics
  import opened PlatformFilter
  import opened MirrorSync
  import opened MirrorIntegrity
  import opened MirrorConvergence

  /** The platform records of the given versions. */
  function Of(s: Store, ids: set<nat>): set<PlatformKey> {
    set key | key in s.platforms && key.version in ids
  }

  /** The records a sync reports on, given the versions listed at its start. */
  function Reported(s: Store, ids: set<nat>): nat {
    |s.versions| + |Of(s, ids)|
  }

  lemma OfGrows(s: Store, t: Store, key: PlatformKey, ids: set<nat>)
    requires Grows(s, t, key) && key.version in ids
    ensures |Of(t, ids)| == |Of(s, ids)| + Bit(key in t.platforms && key !in s.platforms)
  {
    if key in t.platforms && key !in s.platforms {
      assert Of(t, ids) == Of(s, ids) + {key};
    } else {
      assert Of(t, ids) == Of(s, ids);
    }
  }

  /** Success means a new record; without faults a new record means success. */
  lemma PlatformSuccess(m: Mirror, up: Upstream, s: Store, id: nat, version: string, p: Platform,
                        sums: map<string, string>, f: PlatformFaults)
    ensures var r, key := SyncPlatform(m, up, s, id, version, p, sums, f), PlatformKey(id, p);
            && (r.ok ==> key in r.store.platforms && key !in s.platforms)
            && (NoPlatformFault(f) && key in r.store.platforms && key !in s.platforms ==> r.ok)
  {
  }

  lemma PlatformCounted(m: Mirror, up: Upstream, s: Store, id: nat, version: string, p: Platform,
                        sums: map<string, string>, f: PlatformFaults, ids: set<nat>)
    requires id in ids
    ensures var r := SyncPlatform(m, up, s, id, version, p, sums, f);
            && |Of(s, ids)| + Bit(r.ok) <= |Of(r.store, ids)|
            && (NoPlatformFault(f) ==> |Of(s, ids)| + Bit(r.ok) == |Of(r.store, ids)|)
  {
    PlatformFrame(m, NoChecksum(), up, s, id, version, p, sums, f);
    PlatformSuccess(m, up, s, id, version, p, sums, f);
    OfGrows(s, SyncPlatform(m, up, s, id, version, p, sums, f).store, PlatformKey(id, p), ids);
  }

  lemma {:induction false} PlatformsCounted(m: Mirror, up: Upstream, s: Store, id: nat, version: string,
                                            ps: seq<Platform>, k: nat,
                                            sums: map<string, string>, f: nat -> PlatformFaults, ids: set<nat>)
    requires k <= |ps| && id in ids
    ensures var r := SyncPlatforms(m, up, s, id, version, ps, k, sums, f);
            && |Of(s, ids)| + r.count <= |Of(r.store, ids)|
            && ((forall j :: NoPlatformFault(f(j))) ==> |Of(s, ids)| + r.count == |Of(r.store, ids)|)
    decreases |ps| - k
  {
    if k < |ps| {
      PlatformCounted(m, up, s, id, version, ps[k], sums, f(k), ids);
      var t := SyncPlatform(m, up, s, id, version, ps[k], sums, f(k)).store;
      PlatformsCounted(m, up, t, id, version, ps, k + 1, sums, f, ids);
    }
  }

  lemma CreatedSize(versions: map<string, nat>, version: string, id: nat)
    requires version !in versions
    ensures |versions[version := id]| == |versions| + 1 && versions[version := id] - {version} == versions
  {
    assert versions[version := id].Keys == versions.Keys + {version};
  }

  lemma DeletedCounted(s: Store, run: Store, version: string, ack: Ack, ids: set<nat>)
    requires s.nextId !in ids && version !in s.versions
    requires run.versions == s.versions[version := s.nextId] && Of(run, ids) == Of(s, ids)
    ensures var t := DeleteVersion(run, version, s.nextId, ack);
            && Of(t, ids) == Of(s, ids) && t.nextId == run.nextId
            && (t.versions == s.versions || (ack.Refused? && t.versions == run.versions))
  {
    CreatedSize(s.versions, version, s.nextId);
    var t := DeleteVersion(run, version, s.nextId, ack);
    assert forall key :: key in Of(t, ids) <==> key in Of(run, ids);
  }

  lemma RunCounted(m: Mirror, up: Upstream, s: Store, version: string, ps: seq<Platform>, sums: map<string, string>,
                   f: nat -> PlatformFaults, ids: set<nat>)
    requires s.nextId !in ids
    ensures var run := SyncPlatforms(m, up, Created(s, version), s.nextId, version, ps, 0, sums, f).store;
            run.versions == s.versions[version := s.nextId] && run.nextId == s.nextId + 1 && Of(run, ids) == Of(s, ids)
  {
    PlatformsFrame(m, up, Created(s, version), s.nextId, version, ps, 0, sums, f);
  }

  /** The four ways filling can end, by what happened to the store. */
  lemma EndsCounted(s: Store, run: Store, t: Store, version: string, ack: Ack, ids: set<nat>)
    requires s.nextId !in ids && version !in s.versions
    requires run.versions == s.versions[version := s.nextId] && run.nextId == s.nextId + 1 && Of(run, ids) == Of(s, ids)
    requires t == s || t == Created(s, version) || t == run || t == DeleteVersion(run, version, s.nextId, ack)
    ensures s.nextId <= t.nextId && Of(t, ids) == Of(s, ids) && |s.versions| <= |t.versions|
    ensures version in t.versions ==> |t.versions| == |s.versions| + 1
    ensures version !in t.versions ==> |t.versions| == |s.versions|
  {
    CreatedSize(s.versions, version, s.nextId);
    DeletedCounted(s, run, version, ack, ids);
  }

  /** Filling succeeds exactly when the record stays, but for faults that leave it behind. */
  lemma FillSuccess(m: Mirror, up: Upstream, s: Store, version: string, ps: seq<Platform>, sums: map<string, string>,
                    f: VersionFaults)
    requires version !in s.versions
    ensures var r := Fill(m, up, s, version, ps, sums, f);
            && (r.ok ==> version in r.store.versions)
            && (NoVersionFault(f) && !r.ok ==> version !in r.store.versions)
  {
    PlatformsFrame(m, up, Created(s, version), s.nextId, version, ps, 0, sums, f.at);
  }

  /** Filling a new version touches no platform record of the versions listed before. */
  lemma FillCounted(m: Mirror, up: Upstream, s: Store, version: string, ps: seq<Platform>, sums: map<string, string>,
                    f: VersionFaults, ids: set<nat>)
    requires s.nextId !in ids && version !in s.versions
    ensures var r := Fill(m, up, s, version, ps, sums, f);
            && s.nextId <= r.store.nextId
            && Of(r.store, ids) == Of(s, ids)
            && |s.versions| + Bit(r.ok) <= |r.store.versions|
            && (NoVersionFault(f) ==> |s.versions| + Bit(r.ok) == |r.store.versions|)
  {
    var run := SyncPlatforms(m, up, Created(s, version), s.nextId, version, ps, 0, sums, f.at).store;
    FillCases(m, up, s, version, ps, sums, f);
    FillSuccess(m, up, s, version, ps, sums, f);
    RunCounted(m, up, s, version, ps, sums, f.at, ids);
    EndsCounted(s, run, Fill(m, up, s, version, ps, sums, f).store, version, f.delete, ids);
  }

  lemma VersionCounted(m: Mirror, up: Upstream, s: Store, listed: map<string, nat>, v: Version, f: VersionFaults)
    requires forall id :: id in listed.Values ==> id < s.nextId
    ensures var r := SyncVersion(m, up, s, listed, v, f);
            && s.nextId <= r.store.nextId
            && Reported(s, listed.Values) + r.count <= Reported(r.store, listed.Values)
            && (NoVersionFault(f) ==> Reported(s, listed.Values) + r.count == Reported(r.store, listed.Values))
  {
    var kept := Kept(v.platforms, m.filter);
    if v.name in listed {
      var id := listed[v.name];
      var missing, sums := Missing(Recorded(s.platforms, id), kept), SumsForExisting(up, v, f);
      PlatformsFrame(m, up, s, id, v.name, missing, 0, sums, f.at);
      PlatformsCounted(m, up, s, id, v.name, missing, 0, sums, f.at, listed.Values);
    } else if v.name !in s.versions {
      FillCounted(m, up, s, v.name, kept, SumsOf(up, v, f.shasumsFail), f, listed.Values);
    }
  }

  lemma {:induction false} VersionsCounted(m: Mirror, up: Upstream, s: Store, listed: map<string, nat>, i: nat,
                                           f: nat -> VersionFaults)
    requires i <= |up.versions| && forall id :: id in listed.Values ==> id < s.nextId
    ensures var r := SyncVersions(m, up, s, listed, i, f);
            && Reported(s, listed.Values) + r.count <= Reported(r.store, listed.Values)
            && ((forall j :: NoVersionFault(f(j))) ==>
                  Reported(s, listed.Values) + r.count == Reported(r.store, listed.Values))
    decreases |up.versions| - i
  {
    if i < |up.versions| {
      var t := SyncVersion(m, up, s, listed, up.versions[i], f(i)).store;
      VersionCounted(m, up, s, listed, up.versions[i], f(i));
      VersionsCounted(m, up, t, listed, i + 1, f);
    }
  }

  /**
   The reported number never exceeds the version records added plus the platform records added
   to versions that were there before, whatever fails; when nothing fails it is exactly that.
   */
  lemma VersionsNewCounts(m: Mirror, up: Upstream, s: Store, f: Faults)
    requires Regular(s) && SyncProvider(m, up, s, f).versionsNew.Some?
    ensures var r := SyncProvider(m, up, s, f);
            var ids := s.versions.Values;
            && Reported(s, ids) + r.versionsNew.value <= Reported(r.store, ids)
            && (NoFault(f) ==> Reported(s, ids) + r.versionsNew.value == Reported(r.store, ids))
  {
    VersionsCounted(m, up, s, s.versions, 0, f.at);
  }
}
