/**
 What the mirror sync keeps whatever fails: every platform record points at stored bytes with
 its checksum.
 */
module MirrorIntegrity {
  import opened Basics
  import opened Text
  import opened PlatformFilter
  import opened MirrorSync

  predicate NoSlash(s: string) {
    '/' !in s
  }

  predicate TidyPlatform(p: Platform) {
    NoSlash(p.os) && NoSlash(p.arch)
  }

  predicate TidyMirror(m: Mirror) {
    NoSlash(m.namespace) && NoSlash(m.provider)
  }

  /** The identifiers upstream lists are single path segments. */
  ghost predicate SlashFree(up: Upstream) {
    forall i :: 0 <= i < |up.versions| ==>
      && NoSlash(up.versions[i].name)
      && forall p :: p in up.versions[i].platforms ==> TidyPlatform(p)
  }

  ghost predicate Owned(s: Store, id: nat) {
    exists v :: v in s.versions && s.versions[v] == id
  }

  /** Ids are fresh and unique, and every platform record belongs to a version record. */
  ghost predicate Sane(s: Store) {
    && (forall v :: v in s.versions ==> s.versions[v] < s.nextId && NoSlash(v))
    && (forall v, w :: v in s.versions && w in s.versions && s.versions[v] == s.versions[w] ==> v == w)
    && (forall key :: key in s.platforms ==> Owned(s, key.version) && TidyPlatform(key.platform))
  }

  /** The checksum required of a version's package for a platform, empty when none is. */
  type Wanted = (string, Platform) -> string

  /**
   The record's path is the one its version and platform give it, it holds bytes with the
   recorded checksum, and that is the one required.
   */
  predicate Backed(m: Mirror, want: Wanted, blobs: map<string, Bytes>, version: string, p: Platform, r: Record) {
    && SafeFilename(r.filename)
    && r.path == StoragePath(m, version, p, r.filename)
    && r.path in blobs && m.hash(blobs[r.path]) == r.shasum
    && (want(version, p) == "" || want(version, p) == r.shasum)
  }

  ghost predicate AllBacked(m: Mirror, want: Wanted, s: Store) {
    forall v, key :: v in s.versions && key in s.platforms && key.version == s.versions[v] ==>
      Backed(m, want, s.blobs, v, key.platform, s.platforms[key])
  }

  ghost predicate Sound(m: Mirror, want: Wanted, s: Store) {
    TidyMirror(m) && Sane(s) && AllBacked(m, want, s)
  }

  /** The requirement that asks for no checksum. */
  function NoChecksum(): Wanted {
    (v, p) => ""
  }

  /** Whatever bytes pass the checks made with `sums` meet what is required of this platform. */
  ghost predicate Enforced(m: Mirror, want: Wanted, up: Upstream, version: string, p: Platform,
                           sums: map<string, string>)
  {
    var pkg := up.package(version, p);
    pkg.Some? ==> forall body :: Acceptable(m, pkg.value, sums, body) ==> want(version, p) in {"", m.hash(body)}
  }

  /** Some file passes the checks of this platform's package, made without SHA256SUMS. */
  ghost predicate Storable(m: Mirror, up: Upstream, version: string, p: Platform) {
    var pkg := up.package(version, p);
    pkg.Some? && exists body :: Acceptable(m, pkg.value, map[], body)
  }

  /** No platform for which a file could be stored is listed twice. */
  ghost predicate Single(m: Mirror, up: Upstream, version: string, ps: seq<Platform>) {
    forall p :: Repeats(ps, p) ==> !Storable(m, up, version, p)
  }

  /** The platforms kept of every version are single. */
  ghost predicate NoRepeats(m: Mirror, up: Upstream) {
    forall i :: 0 <= i < |up.versions| ==>
      Single(m, up, up.versions[i].name, Kept(up.versions[i].platforms, m.filter))
  }

  function Segments(m: Mirror, version: string, p: Platform, filename: string): seq<string> {
    ["providers", m.namespace, m.provider, version, p.os, p.arch, filename]
  }

  /** Storage paths of different versions or platforms differ. */
  lemma PathsDiffer(m: Mirror, v: string, p: Platform, f: string, w: string, q: Platform, g: string)
    requires TidyMirror(m) && NoSlash(v) && NoSlash(w) && TidyPlatform(p) && TidyPlatform(q) && NoSlash(f) && NoSlash(g)
    requires v != w || p != q
    ensures StoragePath(m, v, p, f) != StoragePath(m, w, q, g)
  {
    var a, b := Segments(m, v, p, f), Segments(m, w, q, g);
    SplitJoinBy(a, '/');
    SplitJoinBy(b, '/');
    assert a[3] == v && b[3] == w && a[4] == p.os && b[4] == q.os && a[5] == p.arch && b[5] == q.arch;
    assert a != b;
  }

  // ---- one platform ----

  /** The object a sync of this platform may touch. */
  function Target(m: Mirror, up: Upstream, version: string, p: Platform): Option<string> {
    var pkg := up.package(version, p);
    if pkg.Some? && SafeFilename(pkg.value.filename) then Some(StoragePath(m, version, p, pkg.value.filename)) else None
  }

  /** Records stay, and a new one is the given platform's. */
  ghost predicate Grows(s: Store, t: Store, key: PlatformKey) {
    && t.versions == s.versions && t.nextId == s.nextId
    && (forall k :: k in s.platforms ==> k in t.platforms && t.platforms[k] == s.platforms[k])
    && (forall k :: k in t.platforms && k !in s.platforms ==> k == key)
  }

  /** A sync of one platform touches one object and at most one record, which it backs. */
  lemma PlatformFrame(m: Mirror, want: Wanted, up: Upstream, s: Store, id: nat, version: string, p: Platform,
                      sums: map<string, string>, f: PlatformFaults)
    ensures var t := SyncPlatform(m, up, s, id, version, p, sums, f).store;
            var key := PlatformKey(id, p);
            && Grows(s, t, key)
            && (Enforced(m, want, up, version, p, sums) && key in t.platforms && key !in s.platforms ==>
                  Backed(m, want, t.blobs, version, p, t.platforms[key]))
            && (forall path :: path in s.blobs && Some(path) != Target(m, up, version, p) ==>
                  path in t.blobs && t.blobs[path] == s.blobs[path])
  {
  }

  lemma TargetElsewhere(m: Mirror, want: Wanted, blobs: map<string, Bytes>, v: string, q: Platform, r: Record,
                        up: Upstream, version: string, p: Platform)
    requires TidyMirror(m) && NoSlash(v) && NoSlash(version) && TidyPlatform(p) && TidyPlatform(q)
    requires Backed(m, want, blobs, v, q, r) && (v != version || p != q)
    ensures Some(r.path) != Target(m, up, version, p)
  {
    if Target(m, up, version, p).Some? {
      PathsDiffer(m, v, q, r.filename, version, p, up.package(version, p).value.filename);
    }
  }

  /** Writing at a path no record uses, and adding a record backed there, keeps all records backed. */
  lemma BackedAfter(m: Mirror, want: Wanted, up: Upstream, s: Store, t: Store, version: string, p: Platform,
                    key: PlatformKey)
    requires Sound(m, want, s) && version in s.versions && TidyPlatform(p)
    requires key == PlatformKey(s.versions[version], p) && key !in s.platforms && Grows(s, t, key)
    requires key in t.platforms ==> Backed(m, want, t.blobs, version, p, t.platforms[key])
    requires forall path :: path in s.blobs && Some(path) != Target(m, up, version, p) ==>
               path in t.blobs && t.blobs[path] == s.blobs[path]
    ensures AllBacked(m, want, t)
  {
    forall v, k | v in t.versions && k in t.platforms && k.version == t.versions[v]
      ensures Backed(m, want, t.blobs, v, k.platform, t.platforms[k])
    {
      if k in s.platforms {
        TargetElsewhere(m, want, s.blobs, v, k.platform, s.platforms[k], up, version, p);
      } else {
        assert v == version;
      }
    }
  }

  lemma SaneAfter(s: Store, t: Store, version: string, p: Platform)
    requires Sane(s) && version in s.versions && TidyPlatform(p) && Grows(s, t, PlatformKey(s.versions[version], p))
    ensures Sane(t)
  {
    forall key | key in t.platforms ensures Owned(t, key.version) && TidyPlatform(key.platform) {
      if key in s.platforms {
        assert Owned(s, key.version);
      }
    }
  }

  /** A platform for which no file can be stored changes nothing. */
  lemma UnstorableIdle(m: Mirror, up: Upstream, s: Store, id: nat, version: string, p: Platform,
                       sums: map<string, string>, f: PlatformFaults)
    requires !Storable(m, up, version, p)
    ensures SyncPlatform(m, up, s, id, version, p, sums, f).store == s
  {
    var pkg := up.package(version, p);
    if pkg.Some? {
      var body := if f.stream.Altered? then f.stream.bytes else pkg.value.body;
      assert !Acceptable(m, pkg.value, map[], body);
    }
  }

  /** What makes a platform safe to sync: not recorded yet, or impossible to store. */
  ghost predicate Fit(m: Mirror, want: Wanted, up: Upstream, s: Store, id: nat, version: string, p: Platform,
                      sums: map<string, string>)
  {
    && TidyPlatform(p) && Enforced(m, want, up, version, p, sums)
    && (PlatformKey(id, p) !in s.platforms || !Storable(m, up, version, p))
  }

  lemma PlatformSound(m: Mirror, want: Wanted, up: Upstream, s: Store, id: nat, version: string, p: Platform,
                      sums: map<string, string>, f: PlatformFaults)
    requires Sound(m, want, s) && version in s.versions && s.versions[version] == id
    requires Fit(m, want, up, s, id, version, p, sums)
    ensures Sound(m, want, SyncPlatform(m, up, s, id, version, p, sums, f).store)
  {
    var t := SyncPlatform(m, up, s, id, version, p, sums, f).store;
    if PlatformKey(id, p) in s.platforms {
      UnstorableIdle(m, up, s, id, version, p, sums, f);
    } else {
      PlatformFrame(m, want, up, s, id, version, p, sums, f);
      BackedAfter(m, want, up, s, t, version, p, PlatformKey(id, p));
      SaneAfter(s, t, version, p);
    }
  }

  /** One unrecorded platform is synced soundly under every fault if and only if its checks enforce what is required. */
  lemma PlatformSoundIff(m: Mirror, want: Wanted, up: Upstream, s: Store, id: nat, version: string, p: Platform,
                         sums: map<string, string>)
    requires Sound(m, want, s) && version in s.versions && s.versions[version] == id
    requires TidyPlatform(p) && PlatformKey(id, p) !in s.platforms
    ensures (forall f :: Sound(m, want, SyncPlatform(m, up, s, id, version, p, sums, f).store))
       <==> Enforced(m, want, up, version, p, sums)
  {
    if Enforced(m, want, up, version, p, sums) {
      forall f ensures Sound(m, want, SyncPlatform(m, up, s, id, version, p, sums, f).store) {
        PlatformSound(m, want, up, s, id, version, p, sums, f);
      }
    } else {
      var pkg := up.package(version, p).value;
      var body :| Acceptable(m, pkg, sums, body) && want(version, p) !in {"", m.hash(body)};
      var f := PlatformFaults(false, Altered(body), Uploaded, Acked);
      var t := SyncPlatform(m, up, s, id, version, p, sums, f).store;
      assert t.platforms[PlatformKey(id, p)].shasum == m.hash(body);
      assert !Backed(m, want, t.blobs, version, p, t.platforms[PlatformKey(id, p)]);
    }
  }

  // ---- the platforms of one version ----

  /** The platforms from the `k`-th on are safe to sync one after the other. */
  ghost predicate Ready(m: Mirror, want: Wanted, up: Upstream, s: Store, id: nat, version: string, ps: seq<Platform>,
                        sums: map<string, string>, k: nat)
  {
    Single(m, up, version, ps) && forall j :: k <= j < |ps| ==> Fit(m, want, up, s, id, version, ps[j], sums)
  }

  lemma ReadyNext(m: Mirror, want: Wanted, up: Upstream, s: Store, t: Store, id: nat, version: string,
                  ps: seq<Platform>, sums: map<string, string>, k: nat)
    requires k < |ps| && Ready(m, want, up, s, id, version, ps, sums, k) && Grows(s, t, PlatformKey(id, ps[k]))
    ensures Ready(m, want, up, t, id, version, ps, sums, k + 1)
  {
    forall j | k + 1 <= j < |ps| ensures Fit(m, want, up, t, id, version, ps[j], sums) {
      assert Fit(m, want, up, s, id, version, ps[j], sums);
      assert ps[j] == ps[k] ==> Repeats(ps, ps[k]);
    }
  }

  lemma {:induction false} PlatformsFrame(m: Mirror, up: Upstream, s: Store, id: nat, version: string,
                                          ps: seq<Platform>, k: nat,
                                          sums: map<string, string>, f: nat -> PlatformFaults)
    requires k <= |ps|
    ensures var t := SyncPlatforms(m, up, s, id, version, ps, k, sums, f).store;
            && t.versions == s.versions && t.nextId == s.nextId
            && (forall key :: key in s.platforms ==> key in t.platforms && t.platforms[key] == s.platforms[key])
            && (forall key :: key in t.platforms && key !in s.platforms ==> key.version == id && key.platform in ps)
    decreases |ps| - k
  {
    if k < |ps| {
      PlatformFrame(m, NoChecksum(), up, s, id, version, ps[k], sums, f(k));
      var t := SyncPlatform(m, up, s, id, version, ps[k], sums, f(k)).store;
      PlatformsFrame(m, up, t, id, version, ps, k + 1, sums, f);
    }
  }

  lemma {:induction false} PlatformsSound(m: Mirror, want: Wanted, up: Upstream, s: Store, id: nat, version: string,
                                          ps: seq<Platform>, k: nat, sums: map<string, string>,
                                            f: nat -> PlatformFaults)
    requires k <= |ps| && Ready(m, want, up, s, id, version, ps, sums, k)
    requires Sound(m, want, s) && version in s.versions && s.versions[version] == id
    ensures Sound(m, want, SyncPlatforms(m, up, s, id, version, ps, k, sums, f).store)
    decreases |ps| - k
  {
    if k < |ps| {
      var t := SyncPlatform(m, up, s, id, version, ps[k], sums, f(k)).store;
      PlatformSound(m, want, up, s, id, version, ps[k], sums, f(k));
      PlatformFrame(m, want, up, s, id, version, ps[k], sums, f(k));
      ReadyNext(m, want, up, s, t, id, version, ps, sums, k);
      PlatformsSound(m, want, up, t, id, version, ps, k + 1, sums, f);
    }
  }

  // ---- one version ----

  /** Removing version records and the platform records they own. */
  lemma FewerSound(m: Mirror, want: Wanted, s: Store, t: Store)
    requires Sound(m, want, s)
    requires t.blobs == s.blobs && t.nextId >= s.nextId
    requires forall v :: v in t.versions ==> v in s.versions && t.versions[v] == s.versions[v]
    requires forall key :: key in t.platforms ==>
               key in s.platforms && t.platforms[key] == s.platforms[key] && Owned(t, key.version)
    ensures Sound(m, want, t)
  {
  }

  lemma DeleteSound(m: Mirror, want: Wanted, s: Store, version: string, id: nat, ack: Ack)
    requires Sound(m, want, s) && version in s.versions && s.versions[version] == id
    ensures Sound(m, want, DeleteVersion(s, version, id, ack))
  {
    var t := DeleteVersion(s, version, id, ack);
    forall key | key in t.platforms ensures Owned(t, key.version) {
      var v :| v in s.versions && s.versions[v] == key.version;
      assert v in t.versions && t.versions[v] == key.version;
    }
    FewerSound(m, want, s, t);
  }

  function Created(s: Store, version: string): Store {
    s.(versions := s.versions[version := s.nextId], nextId := s.nextId + 1)
  }

  lemma CreateSane(s: Store, version: string)
    requires Sane(s) && version !in s.versions && NoSlash(version)
    ensures Sane(Created(s, version)) && forall key :: key in s.platforms ==> key.version != s.nextId
  {
    var t := Created(s, version);
    forall key | key in s.platforms ensures Owned(t, key.version) && key.version != s.nextId {
      var v :| v in s.versions && s.versions[v] == key.version;
      assert v in t.versions && t.versions[v] == key.version;
    }
  }

  lemma CreateSound(m: Mirror, want: Wanted, s: Store, version: string)
    requires Sound(m, want, s) && version !in s.versions && NoSlash(version)
    ensures Sound(m, want, Created(s, version))
  {
    var t := Created(s, version);
    CreateSane(s, version);
    forall v, key | v in t.versions && key in t.platforms && key.version == t.versions[v]
      ensures Backed(m, want, t.blobs, v, key.platform, t.platforms[key])
    {
      assert v != version;
    }
  }

  /** The database still holds, under the same ids, the versions that were listed at the start. */
  ghost predicate Keeps(listed: map<string, nat>, s: Store) {
    forall v :: v in listed ==> v in s.versions && s.versions[v] == listed[v]
  }

  /** The platforms to sync are single path segments, each enforced, and single. */
  ghost predicate Usable(m: Mirror, want: Wanted, up: Upstream, version: string, ps: seq<Platform>,
                         sums: map<string, string>)
  {
    && Single(m, up, version, ps)
    && forall p :: p in ps ==> TidyPlatform(p) && Enforced(m, want, up, version, p, sums)
  }

  lemma NamesDiffer(p: Platform, q: Platform)
    requires TidyPlatform(p) && TidyPlatform(q) && PlatformName(p) == PlatformName(q)
    ensures p == q
  {
    SplitJoinBy([p.os, p.arch], '/');
    SplitJoinBy([q.os, q.arch], '/');
    assert [p.os, p.arch][0] == [q.os, q.arch][0] && [p.os, p.arch][1] == [q.os, q.arch][1];
  }

  /** Among platforms whose parts hold no slash, the recorded names identify the records. */
  lemma RecordedExactly(have: map<PlatformKey, Record>, id: nat, p: Platform)
    requires TidyPlatform(p) && forall key :: key in have ==> TidyPlatform(key.platform)
    ensures PlatformName(p) in Recorded(have, id) <==> PlatformKey(id, p) in have
  {
    if PlatformName(p) in Recorded(have, id) {
      var key :| key in have && key.version == id && PlatformName(key.platform) == PlatformName(p);
      NamesDiffer(key.platform, p);
    }
  }

  lemma {:induction false} MissingExactly(names: set<string>, ps: seq<Platform>, p: Platform)
    ensures p in Missing(names, ps) <==> p in ps && PlatformName(p) !in names
    ensures Repeats(Missing(names, ps), p) ==> Repeats(ps, p)
  {
    if ps != [] {
      MissingExactly(names, ps[1..], p);
      RepeatsTail(ps, p);
      if PlatformName(ps[0]) !in names {
        assert Missing(names, ps)[1..] == Missing(names, ps[1..]);
        RepeatsTail(Missing(names, ps), p);
      }
    }
  }

  lemma ReadyMissing(m: Mirror, want: Wanted, up: Upstream, s: Store, id: nat, version: string, ps: seq<Platform>,
                     sums: map<string, string>)
    requires Usable(m, want, up, version, ps, sums) && Sane(s)
    ensures Ready(m, want, up, s, id, version, Missing(Recorded(s.platforms, id), ps), sums, 0)
  {
    var names := Recorded(s.platforms, id);
    var missing := Missing(names, ps);
    forall j | 0 <= j < |missing| ensures Fit(m, want, up, s, id, version, missing[j], sums) {
      MissingExactly(names, ps, missing[j]);
      RecordedExactly(s.platforms, id, missing[j]);
    }
    forall p | Repeats(missing, p) ensures !Storable(m, up, version, p) {
      MissingExactly(names, ps, p);
    }
  }

  /** Only the one version may have been added or removed. */
  ghost predicate OnlyVersion(s: Store, t: Store, version: string) {
    forall w :: w != version ==>
      (w in t.versions <==> w in s.versions) && (w in s.versions ==> t.versions[w] == s.versions[w])
  }

  /** The store `Fill` leaves: untouched, or the new record with some platforms, or without the record again. */
  lemma FillCases(m: Mirror, up: Upstream, s: Store, version: string, ps: seq<Platform>, sums: map<string, string>,
                  f: VersionFaults)
    ensures var t := Fill(m, up, s, version, ps, sums, f).store;
            var run := SyncPlatforms(m, up, Created(s, version), s.nextId, version, ps, 0, sums, f.at).store;
            || t == s
            || (version !in s.versions &&
                (t == Created(s, version) || t == run || t == DeleteVersion(run, version, s.nextId, f.delete)))
  {
  }

  lemma FillFrame(m: Mirror, up: Upstream, s: Store, version: string, ps: seq<Platform>, sums: map<string, string>,
                  f: VersionFaults)
    ensures var t := Fill(m, up, s, version, ps, sums, f).store;
            OnlyVersion(s, t, version) && (version in s.versions ==> t == s)
  {
    PlatformsFrame(m, up, Created(s, version), s.nextId, version, ps, 0, sums, f.at);
  }

  lemma RunSound(m: Mirror, want: Wanted, up: Upstream, s: Store, version: string, ps: seq<Platform>,
                 sums: map<string, string>, f: nat -> PlatformFaults)
    requires Sound(m, want, s) && version !in s.versions && NoSlash(version) && Usable(m, want, up, version, ps, sums)
    ensures var run := SyncPlatforms(m, up, Created(s, version), s.nextId, version, ps, 0, sums, f).store;
            Sound(m, want, run) && version in run.versions && run.versions[version] == s.nextId
  {
    CreateSane(s, version);
    CreateSound(m, want, s, version);
    PlatformsSound(m, want, up, Created(s, version), s.nextId, version, ps, 0, sums, f);
    PlatformsFrame(m, up, Created(s, version), s.nextId, version, ps, 0, sums, f);
  }

  lemma EndsSound(m: Mirror, want: Wanted, s: Store, run: Store, t: Store, version: string, ack: Ack)
    requires Sound(m, want, s) && Sound(m, want, run) && version !in s.versions && NoSlash(version)
    requires version in run.versions && run.versions[version] == s.nextId
    requires t == s || t == Created(s, version) || t == run || t == DeleteVersion(run, version, s.nextId, ack)
    ensures Sound(m, want, t)
  {
    if t == Created(s, version) {
      CreateSound(m, want, s, version);
    } else if t == DeleteVersion(run, version, s.nextId, ack) {
      DeleteSound(m, want, run, version, s.nextId, ack);
    }
  }

  lemma FillSound(m: Mirror, want: Wanted, up: Upstream, s: Store, version: string, ps: seq<Platform>,
                  sums: map<string, string>, f: VersionFaults)
    requires Sound(m, want, s) && NoSlash(version) && Usable(m, want, up, version, ps, sums)
    ensures Sound(m, want, Fill(m, up, s, version, ps, sums, f).store)
  {
    FillCases(m, up, s, version, ps, sums, f);
    if version !in s.versions {
      var run := SyncPlatforms(m, up, Created(s, version), s.nextId, version, ps, 0, sums, f.at).store;
      RunSound(m, want, up, s, version, ps, sums, f.at);
      EndsSound(m, want, s, run, Fill(m, up, s, version, ps, sums, f).store, version, f.delete);
    }
  }

  lemma ExistingSound(m: Mirror, want: Wanted, up: Upstream, s: Store, id: nat, v: Version, f: VersionFaults)
    requires Sound(m, want, s) && v.name in s.versions && s.versions[v.name] == id
    requires Usable(m, want, up, v.name, Kept(v.platforms, m.filter), SumsForExisting(up, v, f))
    ensures var t := SyncExisting(m, up, s, id, v, f).store; Sound(m, want, t) && t.versions == s.versions
  {
    var kept, sums := Kept(v.platforms, m.filter), SumsForExisting(up, v, f);
    var missing := Missing(Recorded(s.platforms, id), kept);
    ReadyMissing(m, want, up, s, id, v.name, kept, sums);
    PlatformsSound(m, want, up, s, id, v.name, missing, 0, sums, f.at);
    PlatformsFrame(m, up, s, id, v.name, missing, 0, sums, f.at);
  }

  ghost predicate UsableVersion(m: Mirror, want: Wanted, up: Upstream, v: Version, f: VersionFaults) {
    var kept := Kept(v.platforms, m.filter);
    && NoSlash(v.name)
    && Usable(m, want, up, v.name, kept, SumsOf(up, v, f.shasumsFail))
    && Usable(m, want, up, v.name, kept, SumsForExisting(up, v, f))
  }

  lemma VersionSound(m: Mirror, want: Wanted, up: Upstream, s: Store, listed: map<string, nat>, v: Version,
                     f: VersionFaults)
    requires Sound(m, want, s) && Keeps(listed, s) && UsableVersion(m, want, up, v, f)
    ensures var t := SyncVersion(m, up, s, listed, v, f).store; Sound(m, want, t) && Keeps(listed, t)
  {
    if v.name in listed {
      ExistingSound(m, want, up, s, listed[v.name], v, f);
    } else {
      var kept, sums := Kept(v.platforms, m.filter), SumsOf(up, v, f.shasumsFail);
      FillSound(m, want, up, s, v.name, kept, sums, f);
      FillFrame(m, up, s, v.name, kept, sums, f);
    }
  }

  // ---- whole runs ----

  ghost predicate AllUsable(m: Mirror, want: Wanted, up: Upstream, f: nat -> VersionFaults) {
    forall i :: 0 <= i < |up.versions| ==> UsableVersion(m, want, up, up.versions[i], f(i))
  }

  lemma {:induction false} VersionsSound(m: Mirror, want: Wanted, up: Upstream, s: Store, listed: map<string, nat>,
                                         i: nat, f: nat -> VersionFaults)
    requires AllUsable(m, want, up, f) && Sound(m, want, s) && Keeps(listed, s) && i <= |up.versions|
    ensures Sound(m, want, SyncVersions(m, up, s, listed, i, f).store)
    decreases |up.versions| - i
  {
    if i < |up.versions| {
      VersionSound(m, want, up, s, listed, up.versions[i], f(i));
      VersionsSound(m, want, up, SyncVersion(m, up, s, listed, up.versions[i], f(i)).store, listed, i + 1, f);
    }
  }

  /** A sync against some upstream, or an administrator deleting a platform record and perhaps its object. */
  datatype Event = Sync(up: Upstream, faults: Faults) | Remove(key: PlatformKey, withObject: bool)

  function Happen(m: Mirror, s: Store, e: Event): Store {
    match e
    case Sync(up, f) => SyncProvider(m, up, s, f).store
    case Remove(key, withObject) =>
      if key !in s.platforms then s
      else s.(platforms := s.platforms - {key},
              blobs := if withObject then s.blobs - {s.platforms[key].path} else s.blobs)
  }

  function History(m: Mirror, s: Store, events: seq<Event>): Store
    decreases events
  {
    if events == [] then s else History(m, Happen(m, s, events[0]), events[1..])
  }

  lemma RemoveSound(m: Mirror, want: Wanted, s: Store, key: PlatformKey, withObject: bool)
    requires Sound(m, want, s)
    ensures Sound(m, want, Happen(m, s, Remove(key, withObject)))
  {
    if key in s.platforms {
      var t := Happen(m, s, Remove(key, withObject));
      var owner :| owner in s.versions && s.versions[owner] == key.version;
      var gone := s.platforms[key];
      assert Backed(m, want, s.blobs, owner, key.platform, gone);
      forall v, k | v in t.versions && k in t.platforms && k.version == t.versions[v]
        ensures Backed(m, want, t.blobs, v, k.platform, t.platforms[k])
      {
        var r := s.platforms[k];
        assert Backed(m, want, s.blobs, v, k.platform, r);
        PathsDiffer(m, v, k.platform, r.filename, owner, key.platform, gone.filename);
      }
      forall k | k in t.platforms ensures Owned(t, k.version) && TidyPlatform(k.platform) {
        assert Owned(s, k.version);
      }
    }
  }

  ghost predicate Compatible(m: Mirror, want: Wanted, e: Event) {
    e.Sync? ==> AllUsable(m, want, e.up, e.faults.at)
  }

  lemma HappenSound(m: Mirror, want: Wanted, s: Store, e: Event)
    requires Sound(m, want, s) && Compatible(m, want, e)
    ensures Sound(m, want, Happen(m, s, e))
  {
    match e
    case Remove(key, withObject) => RemoveSound(m, want, s, key, withObject);
    case Sync(up, f) => VersionsSound(m, want, up, s, s.versions, 0, f.at);
  }

  lemma {:induction false} HistorySound(m: Mirror, want: Wanted, s: Store, events: seq<Event>)
    requires Sound(m, want, s) && forall i :: 0 <= i < |events| ==> Compatible(m, want, events[i])
    ensures Sound(m, want, History(m, s, events))
    decreases events
  {
    if events != [] {
      HappenSound(m, want, s, events[0]);
      HistorySound(m, want, Happen(m, s, events[0]), events[1..]);
    }
  }

  /** What the filter keeps is slash-free when what upstream lists is. */
  lemma KeptSlashFree(up: Upstream, i: nat, filter: Filter)
    requires SlashFree(up) && i < |up.versions|
    ensures forall p :: p in Kept(up.versions[i].platforms, filter) ==> TidyPlatform(p)
  {
    forall p | p in Kept(up.versions[i].platforms, filter) ensures TidyPlatform(p) {
      KeptExactly(up.versions[i].platforms, filter, p);
    }
  }

  /** Every platform kept of a version is enforced with the checksums known on either path. */
  ghost predicate VersionEnforced(m: Mirror, want: Wanted, up: Upstream, v: Version, f: VersionFaults) {
    forall p :: p in Kept(v.platforms, m.filter) ==>
      && Enforced(m, want, up, v.name, p, SumsOf(up, v, f.shasumsFail))
      && Enforced(m, want, up, v.name, p, SumsForExisting(up, v, f))
  }

  lemma UsableUpstream(m: Mirror, want: Wanted, up: Upstream, f: nat -> VersionFaults)
    requires SlashFree(up) && NoRepeats(m, up)
    requires forall i :: 0 <= i < |up.versions| ==> VersionEnforced(m, want, up, up.versions[i], f(i))
    ensures AllUsable(m, want, up, f)
  {
    forall i | 0 <= i < |up.versions| ensures UsableVersion(m, want, up, up.versions[i], f(i)) {
      KeptSlashFree(up, i, m.filter);
      assert VersionEnforced(m, want, up, up.versions[i], f(i));
    }
  }

  /**
   Over any sequence of syncs of one mirror, each against its own upstream and with every call
   allowed to fail, lose its acknowledgement, or deliver other bytes, and with records removed
   in between: every platform record points at stored bytes whose checksum is the recorded one.
   */
  lemma RecordsStayBacked(m: Mirror, s: Store, events: seq<Event>)
    requires Sound(m, NoChecksum(), s)
    requires forall i :: 0 <= i < |events| && events[i].Sync? ==> SlashFree(events[i].up) && NoRepeats(m, events[i].up)
    ensures Sound(m, NoChecksum(), History(m, s, events))
  {
    forall i | 0 <= i < |events| ensures Compatible(m, NoChecksum(), events[i]) {
      if events[i].Sync? {
        UsableUpstream(m, NoChecksum(), events[i].up, events[i].faults.at);
      }
    }
    HistorySound(m, NoChecksum(), s, events);
  }

  /** In such a store no two records point at one object. */
  lemma NoSharedObject(m: Mirror, want: Wanted, s: Store, a: PlatformKey, b: PlatformKey)
    requires Sound(m, want, s) && a in s.platforms && b in s.platforms && a != b
    ensures s.platforms[a].path != s.platforms[b].path
  {
    assert Owned(s, a.version) && Owned(s, b.version);
    var v :| v in s.versions && s.versions[v] == a.version;
    var w :| w in s.versions && s.versions[w] == b.version;
    assert Backed(m, want, s.blobs, v, a.platform, s.platforms[a]);
    assert Backed(m, want, s.blobs, w, b.platform, s.platforms[b]);
    PathsDiffer(m, v, a.platform, s.platforms[a].filename, w, b.platform, s.platforms[b].filename);
  }

  /** The syncs among the events are all against this upstream. */
  ghost predicate Against(up: Upstream, events: seq<Event>) {
    forall i :: 0 <= i < |events| && events[i].Sync? ==> events[i].up == up
  }

  /** The checksum upstream's package description announces. */
  function PackageChecksum(up: Upstream): Wanted {
    (v, p) => if up.package(v, p).Some? then up.package(v, p).value.sha256 else ""
  }

  /** Against one upstream, whatever fails, every record's stored bytes have the checksum its package announces. */
  lemma RecordsMatchPackage(m: Mirror, up: Upstream, s: Store, events: seq<Event>)
    requires SlashFree(up) && NoRepeats(m, up) && Sound(m, PackageChecksum(up), s) && Against(up, events)
    ensures Sound(m, PackageChecksum(up), History(m, s, events))
  {
    forall i | 0 <= i < |events| ensures Compatible(m, PackageChecksum(up), events[i]) {
      if events[i].Sync? {
        UsableUpstream(m, PackageChecksum(up), up, events[i].faults.at);
      }
    }
    HistorySound(m, PackageChecksum(up), s, events);
  }
}
