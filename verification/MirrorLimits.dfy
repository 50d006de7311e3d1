/**
 Exactly when the mirror sync keeps its promises whatever fails: backing needs a listing that
 does not repeat a storable platform, and the checksums of SHA256SUMS need that file, where
 the package description has none.
 */
module MirrorLimits {
  import opened Basics
  import opened PlatformFilter
  import opened MirrorSync
  import opened MirrorIntegrity
  import Shasums

  // ---- runs in which one version is worked on ----

  /** A platform whose description cannot be fetched. */
  const SKIPPED := PlatformFaults(true, Broken, UploadFails(None), Refused)

  /** A version of which neither the listing of platforms nor the new record succeeds. */
  const UNTOUCHED := VersionFaults(false, false, Refused, true, Refused, k => SKIPPED)

  function OnlyVersionAt(i: nat, f: VersionFaults): Faults {
    Faults(false, j => if j == i then f else UNTOUCHED)
  }

  /** A recorded version without platforms, as a lost acknowledgement leaves it. */
  function Bare(version: string): Store {
    Store(map[version := 0], map[], map[], 1)
  }

  lemma BareSound(m: Mirror, want: Wanted, version: string)
    requires TidyMirror(m) && NoSlash(version)
    ensures Sound(m, want, Bare(version))
  {
  }

  lemma {:induction false} NothingMissed(ps: seq<Platform>)
    ensures Missing({}, ps) == ps
  {
    if ps != [] {
      NothingMissed(ps[1..]);
    }
  }

  lemma {:induction false} OnlyVersionRuns(m: Mirror, up: Upstream, s: Store, listed: map<string, nat>, k: nat, i: nat,
                                           f: VersionFaults)
    requires k <= |up.versions| && i < |up.versions|
    ensures SyncVersions(m, up, s, listed, k, OnlyVersionAt(i, f).at).store
         == if k <= i then SyncVersion(m, up, s, listed, up.versions[i], f).store else s
    decreases |up.versions| - k
  {
    if k < |up.versions| {
      var t := SyncVersion(m, up, s, listed, up.versions[k], OnlyVersionAt(i, f).at(k)).store;
      OnlyVersionRuns(m, up, t, listed, k + 1, i, f);
    }
  }

  /** A sync of a bare version to which SHA256SUMS is not available. */
  lemma BareSync(m: Mirror, up: Upstream, i: nat, f: VersionFaults)
    requires i < |up.versions| && !f.listFails
    requires var v := up.versions[i]; v.platforms == [] || f.lookupFails || up.package(v.name, v.platforms[0]) == None
    ensures var v := up.versions[i];
            var run := SyncPlatforms(m, up, Bare(v.name), 0, v.name, Kept(v.platforms, m.filter), 0, map[], f.at);
            SyncProvider(m, up, Bare(v.name), OnlyVersionAt(i, f)).store == run.store
  {
    var v := up.versions[i];
    var s := Bare(v.name);
    assert Recorded(s.platforms, 0) == {};
    NothingMissed(Kept(v.platforms, m.filter));
    OnlyVersionRuns(m, up, s, s.versions, 0, i, f);
  }

  lemma {:induction false} SkipTo(m: Mirror, up: Upstream, s: Store, id: nat, version: string, ps: seq<Platform>,
                                  k: nat, n: nat, sums: map<string, string>, f: nat -> PlatformFaults)
    requires k <= n <= |ps| && forall j :: k <= j < n ==> f(j).lookupFails
    ensures SyncPlatforms(m, up, s, id, version, ps, k, sums, f) == SyncPlatforms(m, up, s, id, version, ps, n, sums, f)
    decreases n - k
  {
    if k < n {
      SkipTo(m, up, s, id, version, ps, k + 1, n, sums, f);
    }
  }

  // ---- a repeated platform ----

  /** Stored at the first place, and a failing upload at the second. */
  function SpoiltAt(a: nat, b: nat, body: Bytes): nat -> PlatformFaults {
    k =>
      if k == a then PlatformFaults(false, Altered(body), Uploaded, Acked)
      else if k == b then PlatformFaults(false, Altered(body), UploadFails(None), Acked)
      else SKIPPED
  }

  lemma SpoiltLoop(m: Mirror, up: Upstream, s: Store, id: nat, version: string, ps: seq<Platform>, a: nat, b: nat,
                   body: Bytes)
    requires a < b < |ps| && ps[a] == ps[b] && PlatformKey(id, ps[a]) !in s.platforms
    requires var pkg := up.package(version, ps[a]); pkg.Some? && Acceptable(m, pkg.value, map[], body)
    ensures var t := SyncPlatforms(m, up, s, id, version, ps, 0, map[], SpoiltAt(a, b, body)).store;
            var key := PlatformKey(id, ps[a]);
            t.versions == s.versions && key in t.platforms && t.platforms[key].path !in t.blobs
  {
    var f, p := SpoiltAt(a, b, body), ps[a];
    var stored := SyncPlatform(m, up, s, id, version, p, map[], f(a)).store;
    var lost := SyncPlatform(m, up, stored, id, version, p, map[], f(b)).store;
    SkipTo(m, up, s, id, version, ps, 0, a, map[], f);
    SkipTo(m, up, stored, id, version, ps, a + 1, b, map[], f);
    SkipTo(m, up, lost, id, version, ps, b + 1, |ps|, map[], f);
    assert SyncPlatforms(m, up, stored, id, version, ps, b, map[], f).store == lost;
    assert SyncPlatforms(m, up, s, id, version, ps, a, map[], f).store == lost;
  }

  /**
   Whenever the kept platforms of a version repeat one that can be stored, a sync whose second
   upload of it fails takes away the object that its record points at.
   */
  lemma RepeatedPlatformLosesObject(m: Mirror, up: Upstream, i: nat, p: Platform) returns (f: Faults)
    requires i < |up.versions| && Repeats(Kept(up.versions[i].platforms, m.filter), p)
    requires Storable(m, up, up.versions[i].name, p)
    ensures var t := SyncProvider(m, up, Bare(up.versions[i].name), f).store;
            var key := PlatformKey(0, p);
            && up.versions[i].name in t.versions && t.versions[up.versions[i].name] == 0
            && key in t.platforms && t.platforms[key].path !in t.blobs
  {
    var v := up.versions[i];
    var kept := Kept(v.platforms, m.filter);
    var a, b :| 0 <= a < b < |kept| && kept[a] == p && kept[b] == p;
    var body :| Acceptable(m, up.package(v.name, p).value, map[], body);
    var vf := VersionFaults(true, false, Refused, false, Refused, SpoiltAt(a, b, body));
    f := OnlyVersionAt(i, vf);
    BareSync(m, up, i, vf);
    SpoiltLoop(m, up, Bare(v.name), 0, v.name, kept, a, b, body);
  }

  /**
   Against one slash-free upstream, records stay backed over every history from every sound
   store if and only if no kept platform that can be stored is listed twice.
   */
  lemma BackedIffNoRepeats(m: Mirror, up: Upstream)
    requires TidyMirror(m) && SlashFree(up)
    ensures (forall s, events :: Sound(m, NoChecksum(), s) && Against(up, events) ==>
               Sound(m, NoChecksum(), History(m, s, events)))
       <==> NoRepeats(m, up)
  {
    if NoRepeats(m, up) {
      forall s, events | Sound(m, NoChecksum(), s) && Against(up, events)
        ensures Sound(m, NoChecksum(), History(m, s, events))
      {
        RecordsStayBacked(m, s, events);
      }
    } else {
      var i :| 0 <= i < |up.versions| && !Single(m, up, up.versions[i].name, Kept(up.versions[i].platforms, m.filter));
      var v := up.versions[i].name;
      var p :| Repeats(Kept(up.versions[i].platforms, m.filter), p) && Storable(m, up, v, p);
      var f := RepeatedPlatformLosesObject(m, up, i, p);
      BareSound(m, NoChecksum(), v);
      OneSync(m, Bare(v), up, f);
      var t := History(m, Bare(v), [Sync(up, f)]);
      assert !Backed(m, NoChecksum(), t.blobs, v, p, t.platforms[PlatformKey(0, p)]);
    }
  }

  lemma OneSync(m: Mirror, s: Store, up: Upstream, f: Faults)
    ensures History(m, s, [Sync(up, f)]) == SyncProvider(m, up, s, f).store && Against(up, [Sync(up, f)])
  {
    assert [Sync(up, f)][1..] == [];
  }

  // ---- the checksums of SHA256SUMS ----

  /** The checksum announced by the package description or, failing that, by SHA256SUMS. */
  function AnyChecksum(up: Upstream): Wanted {
    (v, p) =>
      var pkg, sums := up.package(v, p), Shasums.Parse(up.shasums(v));
      if pkg == None then ""
      else if pkg.value.sha256 != "" then pkg.value.sha256
      else if pkg.value.filename in sums then sums[pkg.value.filename] else ""
  }

  /** Only SHA256SUMS announces this platform's checksum, and a file with another one could be stored. */
  ghost predicate SumsOnly(m: Mirror, up: Upstream, version: string, p: Platform) {
    var pkg := up.package(version, p);
    && pkg.Some? && pkg.value.sha256 == "" && SafeFilename(pkg.value.filename)
    && AnyChecksum(up)(version, p) != ""
    && exists body :: m.hash(body) != AnyChecksum(up)(version, p)
  }

  /**
   With SHA256SUMS at hand every announced checksum is enforced; without it, exactly those not
   announced there alone.
   */
  lemma AnnouncedEnforcedIff(m: Mirror, up: Upstream, version: string, p: Platform)
    ensures Enforced(m, AnyChecksum(up), up, version, p, Shasums.Parse(up.shasums(version)))
    ensures Enforced(m, AnyChecksum(up), up, version, p, map[]) <==> !SumsOnly(m, up, version, p)
  {
    if SumsOnly(m, up, version, p) {
      var body :| m.hash(body) != AnyChecksum(up)(version, p);
      assert Acceptable(m, up.package(version, p).value, map[], body);
    }
  }

  /** Which versions had SHA256SUMS fetched: the file itself and the description that says where it is. */
  ghost predicate Fetches(f: Faults, fetched: nat -> bool) {
    forall i :: fetched(i) ==> !f.at(i).shasumsFail && !f.at(i).lookupFails
  }

  ghost predicate AllFetch(events: seq<Event>, fetched: nat -> bool) {
    forall i :: 0 <= i < |events| && events[i].Sync? ==> Fetches(events[i].faults, fetched)
  }

  /**
   Every version had SHA256SUMS, which takes its first platform's description, or keeps no
   platform that depends on it.
   */
  ghost predicate SumsSuffice(m: Mirror, up: Upstream, fetched: nat -> bool) {
    forall i :: 0 <= i < |up.versions| ==> VersionSumsSuffice(m, up, up.versions[i], fetched(i))
  }

  ghost predicate VersionSumsSuffice(m: Mirror, up: Upstream, v: Version, fetched: bool) {
    || (fetched && v.platforms != [] && up.package(v.name, v.platforms[0]).Some?)
    || forall p :: p in Kept(v.platforms, m.filter) ==> !SumsOnly(m, up, v.name, p)
  }

  lemma SufficientSums(m: Mirror, up: Upstream, v: Version, f: VersionFaults, fetched: bool)
    requires VersionSumsSuffice(m, up, v, fetched) && (fetched ==> !f.shasumsFail && !f.lookupFails)
    ensures VersionEnforced(m, AnyChecksum(up), up, v, f)
  {
    UnfetchedSums(up, v);
    forall p | p in Kept(v.platforms, m.filter)
      ensures Enforced(m, AnyChecksum(up), up, v.name, p, SumsOf(up, v, f.shasumsFail))
      ensures Enforced(m, AnyChecksum(up), up, v.name, p, SumsForExisting(up, v, f))
    {
      AnnouncedEnforcedIff(m, up, v.name, p);
    }
  }

  /**
   Against one upstream, where SHA256SUMS suffices, every record's stored bytes have the
   checksum announced in either place.
   */
  lemma RecordsMatchAnnouncement(m: Mirror, up: Upstream, s: Store, events: seq<Event>, fetched: nat -> bool)
    requires SlashFree(up) && NoRepeats(m, up) && Sound(m, AnyChecksum(up), s)
    requires Against(up, events) && AllFetch(events, fetched) && SumsSuffice(m, up, fetched)
    ensures Sound(m, AnyChecksum(up), History(m, s, events))
  {
    forall n | 0 <= n < |events| ensures Compatible(m, AnyChecksum(up), events[n]) {
      if events[n].Sync? {
        var f := events[n].faults;
        forall i | 0 <= i < |up.versions| ensures VersionEnforced(m, AnyChecksum(up), up, up.versions[i], f.at(i)) {
          assert Fetches(f, fetched);
          SufficientSums(m, up, up.versions[i], f.at(i), fetched(i));
        }
        UsableUpstream(m, AnyChecksum(up), up, f.at);
      }
    }
    HistorySound(m, AnyChecksum(up), s, events);
  }

  /** One platform of the loop is stored with the given bytes, the others are skipped. */
  function StoredAt(a: nat, body: Bytes): nat -> PlatformFaults {
    k => if k == a then PlatformFaults(false, Altered(body), Uploaded, Acked) else SKIPPED
  }

  lemma StoredLoop(m: Mirror, up: Upstream, s: Store, id: nat, version: string, ps: seq<Platform>, a: nat, body: Bytes)
    requires a < |ps| && PlatformKey(id, ps[a]) !in s.platforms
    requires var pkg := up.package(version, ps[a]); pkg.Some? && Acceptable(m, pkg.value, map[], body)
    ensures var t := SyncPlatforms(m, up, s, id, version, ps, 0, map[], StoredAt(a, body)).store;
            var key := PlatformKey(id, ps[a]);
            t.versions == s.versions && key in t.platforms && t.platforms[key].shasum == m.hash(body)
  {
    var f := StoredAt(a, body);
    var stored := SyncPlatform(m, up, s, id, version, ps[a], map[], f(a)).store;
    SkipTo(m, up, s, id, version, ps, 0, a, map[], f);
    SkipTo(m, up, stored, id, version, ps, a + 1, |ps|, map[], f);
    assert SyncPlatforms(m, up, s, id, version, ps, a, map[], f).store == stored;
  }

  /**
   Where SHA256SUMS was not fetched, or could not be for want of the first platform's
   description, a platform that depends on it is recorded with altered bytes.
   */
  lemma UnfetchedSumsLetAlteredBytesIn(m: Mirror, up: Upstream, i: nat, p: Platform, body: Bytes, fetched: nat -> bool)
    returns (f: Faults)
    requires i < |up.versions| && p in Kept(up.versions[i].platforms, m.filter)
    requires var v := up.versions[i]; !fetched(i) || v.platforms == [] || up.package(v.name, v.platforms[0]) == None
    requires SumsOnly(m, up, up.versions[i].name, p) && m.hash(body) != AnyChecksum(up)(up.versions[i].name, p)
    ensures Fetches(f, fetched)
    ensures var t := SyncProvider(m, up, Bare(up.versions[i].name), f).store;
            var key := PlatformKey(0, p);
            && up.versions[i].name in t.versions && t.versions[up.versions[i].name] == 0
            && key in t.platforms && t.platforms[key].shasum == m.hash(body)
  {
    var v := up.versions[i];
    var kept := Kept(v.platforms, m.filter);
    var a :| 0 <= a < |kept| && kept[a] == p;
    var vf := VersionFaults(!fetched(i), !fetched(i), Refused, false, Refused, StoredAt(a, body));
    f := OnlyVersionAt(i, vf);
    BareSync(m, up, i, vf);
    StoredLoop(m, up, Bare(v.name), 0, v.name, kept, a, body);
  }

  /**
   Against one upstream and for every pattern of fetched SHA256SUMS: over every history from
   every sound store that fetches at least those, the stored bytes have the announced
   checksum if and only if every version had the file or keeps no platform that depends on it.
   */
  lemma AnnouncementHeldIff(m: Mirror, up: Upstream, fetched: nat -> bool)
    requires TidyMirror(m) && SlashFree(up) && NoRepeats(m, up)
    ensures (forall s, events :: Sound(m, AnyChecksum(up), s) && Against(up, events) && AllFetch(events, fetched) ==>
               Sound(m, AnyChecksum(up), History(m, s, events)))
       <==> SumsSuffice(m, up, fetched)
  {
    if SumsSuffice(m, up, fetched) {
      forall s, events | Sound(m, AnyChecksum(up), s) && Against(up, events) && AllFetch(events, fetched)
        ensures Sound(m, AnyChecksum(up), History(m, s, events))
      {
        RecordsMatchAnnouncement(m, up, s, events, fetched);
      }
    } else {
      var i :| 0 <= i < |up.versions| && !VersionSumsSuffice(m, up, up.versions[i], fetched(i));
      var v := up.versions[i].name;
      var p :| p in Kept(up.versions[i].platforms, m.filter) && SumsOnly(m, up, v, p);
      var body :| m.hash(body) != AnyChecksum(up)(v, p);
      var f := UnfetchedSumsLetAlteredBytesIn(m, up, i, p, body, fetched);
      BareSound(m, AnyChecksum(up), v);
      OneSync(m, Bare(v), up, f);
      var t := History(m, Bare(v), [Sync(up, f)]);
      assert !Backed(m, AnyChecksum(up), t.blobs, v, p, t.platforms[PlatformKey(0, p)]);
      assert AllFetch([Sync(up, f)], fetched);
    }
  }
}
