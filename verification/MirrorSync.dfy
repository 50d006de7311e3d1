/**
 Reconciling one mirrored provider with its upstream: `syncProvider` and the functions it
 calls, over a database of version and platform records and an object store, with every
 fallible call allowed to fail.
 */
module MirrorSync {
  import opened Basics
  import opened Text
  import opened PlatformFilter
  import Shasums

  type Bytes = seq<bv8>

  /** What upstream describes for one platform: `sha256` is empty when it announces no checksum. */
  datatype Package = Package(filename: string, sha256: string, body: Bytes)

  datatype Version = Version(name: string, platforms: seq<Platform>)

  /** Upstream as a fixed function: the listed versions, their packages, and the text of their SHA256SUMS. */
  datatype Upstream = Upstream(
    versions: seq<Version>, package: (string, Platform) -> Option<Package>, shasums: string -> string)

  /** One mirrored provider; `hash` is the hexadecimal SHA-256. */
  datatype Mirror = Mirror(namespace: string, provider: string, filter: Filter, hash: Bytes -> string)

  datatype Record = Record(filename: string, path: string, shasum: string)

  datatype PlatformKey = PlatformKey(version: nat, platform: Platform)

  /** Version records by name, platform records by version and platform, stored objects by path, the next fresh id. */
  datatype Store = Store(
    versions: map<string, nat>, platforms: map<PlatformKey, Record>, blobs: map<string, Bytes>, nextId: nat)

  // ---- failures ----

  /** A database write is acknowledged, refused, or done with its acknowledgement lost. */
  datatype Ack = Acked | Refused | AckLost

  datatype Stream = Intact | Broken | Altered(bytes: Bytes)

  /** A failed upload may leave the object absent or holding anything. */
  datatype Upload = Uploaded | UploadFails(residue: Option<Bytes>)

  datatype PlatformFaults = PlatformFaults(lookupFails: bool, stream: Stream, upload: Upload, create: Ack)

  datatype VersionFaults = VersionFaults(
    lookupFails: bool, shasumsFail: bool, create: Ack, listFails: bool, delete: Ack, at: nat -> PlatformFaults)

  datatype Faults = Faults(listFails: bool, at: nat -> VersionFaults)

  ghost predicate NoPlatformFault(f: PlatformFaults) {
    f == PlatformFaults(false, Intact, Uploaded, Acked)
  }

  ghost predicate NoVersionFault(f: VersionFaults) {
    && !f.lookupFails && !f.shasumsFail && f.create.Acked? && !f.listFails && f.delete.Acked?
    && forall k :: NoPlatformFault(f.at(k))
  }

  ghost predicate NoFault(f: Faults) {
    !f.listFails && forall i :: NoVersionFault(f.at(i))
  }

  // ---- one platform ----

  /** `ValidateStorageFilename`. */
  predicate SafeFilename(name: string) {
    && name != "" && '/' !in name && '\\' !in name
    && forall i :: 0 <= i < |name| - 1 ==> !(name[i] == '.' && name[i + 1] == '.')
  }

  function StoragePath(m: Mirror, version: string, p: Platform, filename: string): string {
    JoinBy(["providers", m.namespace, m.provider, version, p.os, p.arch, filename], '/')
  }

  /** The checksum a download must have, or the empty string when none is known. */
  function Expected(pkg: Package, sums: map<string, string>): string {
    if pkg.sha256 != "" then pkg.sha256
    else if pkg.filename in sums then sums[pkg.filename] else ""
  }

  /** The package's checks accept these bytes. */
  predicate Acceptable(m: Mirror, pkg: Package, sums: map<string, string>, body: Bytes) {
    && (Expected(pkg, sums) == "" || Expected(pkg, sums) == m.hash(body))
    && SafeFilename(pkg.filename)
  }

  /** Some text around two dots. */
  ghost predicate HoldsDots(name: string) {
    exists a, b :: name == a + ".." + b
  }

  /** A filename passes when it is not empty and holds no slash, no backslash and no two dots in a row. */
  lemma SafeFilenameIff(name: string)
    ensures SafeFilename(name) <==> name != "" && '/' !in name && '\\' !in name && !HoldsDots(name)
  {
    if HoldsDots(name) {
      var a, b :| name == a + ".." + b;
      assert name[|a|] == '.' && name[|a| + 1] == '.';
    }
    if i :| 0 <= i < |name| - 1 && name[i] == '.' && name[i + 1] == '.' {
      assert name == name[..i] + ".." + name[i + 2..];
    }
  }

  /**
   Bytes are accepted when their checksum is the one the description gives or, where it gives
   none, the one SHA256SUMS gives for the filename, if any, and the filename passes.
   */
  lemma AcceptableIff(m: Mirror, pkg: Package, sums: map<string, string>, body: Bytes)
    ensures Acceptable(m, pkg, sums, body) <==>
              && (if pkg.sha256 != "" then m.hash(body) == pkg.sha256
                  else pkg.filename in sums && sums[pkg.filename] != "" ==> m.hash(body) == sums[pkg.filename])
              && pkg.filename != "" && '/' !in pkg.filename && '\\' !in pkg.filename && !HoldsDots(pkg.filename)
  {
    SafeFilenameIff(pkg.filename);
  }

  lemma JoinMore(first: string, rest: seq<string>)
    requires rest != []
    ensures JoinBy([first] + rest, '/') == first + "/" + JoinBy(rest, '/')
  {
    assert ([first] + rest)[1..] == rest;
  }

  /** Where an object is stored: its parts in this order, with slashes between. */
  lemma StoragePathReads(m: Mirror, version: string, p: Platform, filename: string)
    ensures StoragePath(m, version, p, filename)
         == "providers" + "/" + (m.namespace + "/" + (m.provider + "/" + (version + "/"
              + (p.os + "/" + (p.arch + "/" + filename)))))
  {
    var last := [filename];
    JoinMore(p.arch, last);
    JoinMore(p.os, [p.arch] + last);
    JoinMore(version, [p.os] + ([p.arch] + last));
    JoinMore(m.provider, [version] + ([p.os] + ([p.arch] + last)));
    JoinMore(m.namespace, [m.provider] + ([version] + ([p.os] + ([p.arch] + last))));
    JoinMore("providers", [m.namespace] + ([m.provider] + ([version] + ([p.os] + ([p.arch] + last)))));
    assert ["providers", m.namespace, m.provider, version, p.os, p.arch, filename]
        == ["providers"] + ([m.namespace] + ([m.provider] + ([version] + ([p.os] + ([p.arch] + last)))));
  }

  datatype Synced = Synced(store: Store, ok: bool)

  function SyncPlatform(m: Mirror, up: Upstream, s: Store, id: nat, version: string, p: Platform,
                        sums: map<string, string>, f: PlatformFaults): Synced
  {
    var found := up.package(version, p);
    if f.lookupFails || found == None || f.stream.Broken? then Synced(s, false)
    else
      var pkg := found.value;
      var body := if f.stream.Altered? then f.stream.bytes else pkg.body;
      if !Acceptable(m, pkg, sums, body) then Synced(s, false)
      else
        var path := StoragePath(m, version, p, pkg.filename);
        match f.upload
        case UploadFails(None) => Synced(s.(blobs := s.blobs - {path}), false)
        case UploadFails(Some(junk)) => Synced(s.(blobs := s.blobs[path := junk]), false)
        case Uploaded =>
          var stored := s.(blobs := s.blobs[path := body]);
          var key := PlatformKey(id, p);
          if key in s.platforms || f.create.Refused? then Synced(stored, false)
          else
            Synced(stored.(platforms := s.platforms[key := Record(pkg.filename, path, m.hash(body))]), f.create.Acked?)
  }

  /** A download in which nothing fails and whose bytes are accepted is stored and recorded as what it is. */
  lemma DownloadRecorded(m: Mirror, up: Upstream, s: Store, id: nat, version: string, p: Platform,
                         sums: map<string, string>, f: PlatformFaults)
    requires NoPlatformFault(f) && up.package(version, p).Some? && PlatformKey(id, p) !in s.platforms
    requires Acceptable(m, up.package(version, p).value, sums, up.package(version, p).value.body)
    ensures var pkg := up.package(version, p).value;
            var path := StoragePath(m, version, p, pkg.filename);
            SyncPlatform(m, up, s, id, version, p, sums, f) ==
              Synced(s.(platforms := s.platforms[PlatformKey(id, p) := Record(pkg.filename, path, m.hash(pkg.body))],
                        blobs := s.blobs[path := pkg.body]), true)
  {
  }

  /**
   When the record is refused the object stays where it was put, with no record, and the sync
   of the platform fails.
   */
  lemma RefusedRecordLeavesObject(m: Mirror, up: Upstream, s: Store, id: nat, version: string, p: Platform,
                                  sums: map<string, string>, f: PlatformFaults)
    requires f == PlatformFaults(false, Intact, Uploaded, Refused) && up.package(version, p).Some?
    requires Acceptable(m, up.package(version, p).value, sums, up.package(version, p).value.body)
    ensures var pkg := up.package(version, p).value;
            SyncPlatform(m, up, s, id, version, p, sums, f) ==
              Synced(s.(blobs := s.blobs[StoragePath(m, version, p, pkg.filename) := pkg.body]), false)
  {
  }

  /** The bytes a download delivers. */
  function Received(pkg: Package, f: PlatformFaults): Bytes {
    if f.stream.Altered? then f.stream.bytes else pkg.body
  }

  /** The platform's sync succeeds exactly when no call fails, the bytes are accepted and there is no record yet. */
  lemma PlatformOkIff(m: Mirror, up: Upstream, s: Store, id: nat, version: string, p: Platform,
                      sums: map<string, string>, f: PlatformFaults)
    ensures SyncPlatform(m, up, s, id, version, p, sums, f).ok <==>
              && up.package(version, p).Some? && !f.lookupFails && !f.stream.Broken?
              && Acceptable(m, up.package(version, p).value, sums, Received(up.package(version, p).value, f))
              && f.upload.Uploaded? && f.create.Acked? && PlatformKey(id, p) !in s.platforms
  {
  }

  /** What accepted bytes leave behind: a failed upload its residue and no record, a lost acknowledgement the record. */
  lemma AcceptedLeaves(m: Mirror, up: Upstream, s: Store, id: nat, version: string, p: Platform,
                       sums: map<string, string>, f: PlatformFaults)
    requires up.package(version, p).Some? && !f.lookupFails && !f.stream.Broken?
    requires Acceptable(m, up.package(version, p).value, sums, Received(up.package(version, p).value, f))
    ensures var pkg := up.package(version, p).value;
            var path := StoragePath(m, version, p, pkg.filename);
            var t := SyncPlatform(m, up, s, id, version, p, sums, f).store;
            && (f.upload.UploadFails? ==> t.platforms == s.platforms && (path in t.blobs <==> f.upload.residue.Some?))
            && (f.upload.UploadFails? && f.upload.residue.Some? ==> t.blobs[path] == f.upload.residue.value)
            && (f.upload.Uploaded? ==> path in t.blobs && t.blobs[path] == Received(pkg, f))
            && (f.upload.Uploaded? && !f.create.Refused? ==> PlatformKey(id, p) in t.platforms)
  {
  }

  datatype Counted = Counted(store: Store, count: nat)

  /** The loop over the platforms of one version, from the `k`-th on. */
  function SyncPlatforms(m: Mirror, up: Upstream, s: Store, id: nat, version: string, ps: seq<Platform>, k: nat,
                         sums: map<string, string>, f: nat -> PlatformFaults): Counted
    requires k <= |ps|
    decreases |ps| - k
  {
    if k == |ps| then Counted(s, 0)
    else
      var one := SyncPlatform(m, up, s, id, version, ps[k], sums, f(k));
      var rest := SyncPlatforms(m, up, one.store, id, version, ps, k + 1, sums, f);
      Counted(rest.store, Bit(one.ok) + rest.count)
  }

  // ---- one version ----

  /** The version record and, by cascade, its platform records. */
  function DeleteVersion(s: Store, version: string, id: nat, ack: Ack): Store {
    if ack.Refused? then s
    else s.(versions := s.versions - {version},
            platforms := map key | key in s.platforms && key.version != id :: s.platforms[key])
  }

  function SumsOf(up: Upstream, v: Version, failed: bool): map<string, string> {
    Shasums.Parse(if failed then "" else up.shasums(v.name))
  }

  /** A new version record, its platforms, and the record's removal when none could be downloaded. */
  function Fill(m: Mirror, up: Upstream, s: Store, version: string, ps: seq<Platform>, sums: map<string, string>,
                f: VersionFaults): Synced
  {
    if version in s.versions || f.create.Refused? then Synced(s, false)
    else
      var created := s.(versions := s.versions[version := s.nextId], nextId := s.nextId + 1);
      if f.create.AckLost? then Synced(created, false)
      else
        var run := SyncPlatforms(m, up, created, s.nextId, version, ps, 0, sums, f.at);
        if run.count == 0 then Synced(DeleteVersion(run.store, version, s.nextId, f.delete), false)
        else Synced(run.store, true)
  }

  /** `syncProviderVersion`: a version the database did not list. */
  function SyncNew(m: Mirror, up: Upstream, s: Store, v: Version, f: VersionFaults): Synced {
    if v.platforms == [] || f.lookupFails || up.package(v.name, v.platforms[0]) == None then Synced(s, false)
    else Fill(m, up, s, v.name, Kept(v.platforms, m.filter), SumsOf(up, v, f.shasumsFail), f)
  }

  /** A version for which no platform is listed or no description can be had is left alone. */
  lemma NewRefused(m: Mirror, up: Upstream, s: Store, v: Version, f: VersionFaults)
    requires v.platforms == [] || f.lookupFails || up.package(v.name, v.platforms[0]) == None
    ensures SyncNew(m, up, s, v, f) == Synced(s, false)
  {
  }

  /** A new record whose acknowledgement is lost stays, without platforms, and counts as a failure. */
  lemma LostVersionAck(m: Mirror, up: Upstream, s: Store, version: string, ps: seq<Platform>, sums: map<string, string>,
                       f: VersionFaults)
    requires version !in s.versions && f.create.AckLost?
    ensures Fill(m, up, s, version, ps, sums, f) ==
              Synced(s.(versions := s.versions[version := s.nextId], nextId := s.nextId + 1), false)
  {
  }

  /** When SHA256SUMS cannot be fetched no checksum is known from it. */
  lemma UnfetchedSums(up: Upstream, v: Version)
    ensures SumsOf(up, v, true) == map[]
  {
    assert Split("", '\n') == [""];
    assert TrimSpace("") == "";
    assert Shasums.ReadLines([""], 1) == Shasums.ReadLine(Shasums.ReadLines([""], 0), "");
  }

  function PlatformName(p: Platform): string {
    JoinBy([p.os, p.arch], '/')
  }

  /** The platforms recorded for a version, by name. */
  function Recorded(have: map<PlatformKey, Record>, id: nat): set<string> {
    set key | key in have && key.version == id :: PlatformName(key.platform)
  }

  function Missing(names: set<string>, ps: seq<Platform>): seq<Platform> {
    if ps == [] then []
    else if PlatformName(ps[0]) in names then Missing(names, ps[1..])
    else [ps[0]] + Missing(names, ps[1..])
  }

  /** The checksums known when a listed version is completed: none when its first package cannot be looked up. */
  function SumsForExisting(up: Upstream, v: Version, f: VersionFaults): map<string, string> {
    if v.platforms == [] || f.lookupFails || up.package(v.name, v.platforms[0]) == None then map[]
    else SumsOf(up, v, f.shasumsFail)
  }

  /** The recovery path: a version the database listed, whose missing platforms are downloaded. */
  function SyncExisting(m: Mirror, up: Upstream, s: Store, id: nat, v: Version, f: VersionFaults): Counted {
    if f.listFails then Counted(s, 0)
    else
      var missing := Missing(Recorded(s.platforms, id), Kept(v.platforms, m.filter));
      if missing == [] then Counted(s, 0)
      else SyncPlatforms(m, up, s, id, v.name, missing, 0, SumsForExisting(up, v, f), f.at)
  }

  // ---- the provider ----

  function SyncVersion(m: Mirror, up: Upstream, s: Store, listed: map<string, nat>, v: Version,
                       f: VersionFaults): Counted
  {
    if v.name in listed then SyncExisting(m, up, s, listed[v.name], v, f)
    else var r := SyncNew(m, up, s, v, f); Counted(r.store, Bit(r.ok))
  }

  function SyncVersions(m: Mirror, up: Upstream, s: Store, listed: map<string, nat>, i: nat,
                        f: nat -> VersionFaults): Counted
    requires i <= |up.versions|
    decreases |up.versions| - i
  {
    if i == |up.versions| then Counted(s, 0)
    else
      var one := SyncVersion(m, up, s, listed, up.versions[i], f(i));
      var rest := SyncVersions(m, up, one.store, listed, i + 1, f);
      Counted(rest.store, one.count + rest.count)
  }

  datatype Outcome = Outcome(store: Store, versionsNew: Option<nat>)

  /** `syncProvider`: no count when it returns an error. */
  function SyncProvider(m: Mirror, up: Upstream, s: Store, f: Faults): Outcome {
    if up.versions == [] || f.listFails then Outcome(s, None)
    else
      var r := SyncVersions(m, up, s, s.versions, 0, f.at);
      Outcome(r.store, Some(r.count))
  }

  /** Without a listing of versions, upstream's or the database's, the sync fails and changes nothing. */
  lemma ProviderRefusedIff(m: Mirror, up: Upstream, s: Store, f: Faults)
    ensures SyncProvider(m, up, s, f).versionsNew == None <==> up.versions == [] || f.listFails
    ensures SyncProvider(m, up, s, f).versionsNew == None ==> SyncProvider(m, up, s, f).store == s
  {
  }

  /** The records and the object store, updated in place. */
  class Registry {
    const m: Mirror
    var versions: map<string, nat>
    var platforms: map<PlatformKey, Record>
    var blobs: map<string, Bytes>
    var nextId: nat

    ghost function Now(): Store
      reads this
    {
      Store(versions, platforms, blobs, nextId)
    }

    constructor (m: Mirror, s: Store)
      ensures this.m == m && Now() == s
    {
      this.m := m;
      versions, platforms, blobs, nextId := s.versions, s.platforms, s.blobs, s.nextId;
    }

    method SyncPlatformBinary(up: Upstream, id: nat, version: string, p: Platform, sums: map<string, string>,
                              f: PlatformFaults)
      returns (ok: bool)
      modifies this
      ensures Synced(Now(), ok) == SyncPlatform(m, up, old(Now()), id, version, p, sums, f)
    {
      var found := up.package(version, p);
      if f.lookupFails || found.None? || f.stream.Broken? {
        return false;
      }
      var pkg := found.value;
      var body := if f.stream.Altered? then f.stream.bytes else pkg.body;
      var expected := pkg.sha256;
      if expected == "" && pkg.filename in sums {
        expected := sums[pkg.filename];
      }
      if (expected != "" && m.hash(body) != expected) || !SafeFilename(pkg.filename) {
        return false;
      }
      var path := StoragePath(m, version, p, pkg.filename);
      if f.upload.UploadFails? {
        blobs := if f.upload.residue.Some? then blobs[path := f.upload.residue.value] else blobs - {path};
        return false;
      }
      blobs := blobs[path := body];
      var key := PlatformKey(id, p);
      if key in platforms || f.create.Refused? {
        return false;
      }
      platforms := platforms[key := Record(pkg.filename, path, m.hash(body))];
      return f.create.Acked?;
    }

    method SyncEach(up: Upstream, id: nat, version: string, ps: seq<Platform>, sums: map<string, string>,
                    f: nat -> PlatformFaults)
      returns (count: nat)
      modifies this
      ensures Counted(Now(), count) == SyncPlatforms(m, up, old(Now()), id, version, ps, 0, sums, f)
    {
      count := 0;
      var k := 0;
      while k < |ps|
        invariant k <= |ps|
        invariant var rest := SyncPlatforms(m, up, Now(), id, version, ps, k, sums, f);
                  var whole := SyncPlatforms(m, up, old(Now()), id, version, ps, 0, sums, f);
                  Counted(rest.store, count + rest.count) == whole
      {
        var ok := SyncPlatformBinary(up, id, version, ps[k], sums, f(k));
        if ok {
          count := count + 1;
        }
        k := k + 1;
      }
    }

    method CreateAndFill(up: Upstream, version: string, ps: seq<Platform>, sums: map<string, string>, f: VersionFaults)
      returns (ok: bool)
      modifies this
      ensures Synced(Now(), ok) == Fill(m, up, old(Now()), version, ps, sums, f)
    {
      if version in versions || f.create.Refused? {
        return false;
      }
      var id := nextId;
      versions, nextId := versions[version := id], id + 1;
      if f.create.AckLost? {
        return false;
      }
      var downloaded := SyncEach(up, id, version, ps, sums, f.at);
      if downloaded == 0 {
        if !f.delete.Refused? {
          versions := versions - {version};
          platforms := map key | key in platforms && key.version != id :: platforms[key];
        }
        return false;
      }
      return true;
    }

    method SyncProviderVersion(up: Upstream, v: Version, f: VersionFaults) returns (ok: bool)
      modifies this
      ensures Synced(Now(), ok) == SyncNew(m, up, old(Now()), v, f)
    {
      var kept := FilterPlatforms(v.platforms, m.filter);
      if |v.platforms| == 0 || f.lookupFails || up.package(v.name, v.platforms[0]).None? {
        return false;
      }
      var sums := Shasums.ParseShasumFile(if f.shasumsFail then "" else up.shasums(v.name));
      ok := CreateAndFill(up, v.name, kept, sums, f);
    }

    method ListMissing(id: nat, kept: seq<Platform>) returns (missing: seq<Platform>)
      ensures missing == Missing(Recorded(platforms, id), kept)
    {
      var names := Recorded(platforms, id);
      missing := [];
      var k := 0;
      while k < |kept|
        invariant k <= |kept|
        invariant missing + Missing(names, kept[k..]) == Missing(names, kept)
      {
        assert kept[k..][1..] == kept[k + 1..];
        if PlatformName(kept[k]) !in names {
          missing := missing + [kept[k]];
        }
        k := k + 1;
      }
    }

    method SyncListedVersion(up: Upstream, id: nat, v: Version, f: VersionFaults) returns (count: nat)
      modifies this
      ensures Counted(Now(), count) == SyncExisting(m, up, old(Now()), id, v, f)
    {
      count := 0;
      if f.listFails {
        return;
      }
      var kept := FilterPlatforms(v.platforms, m.filter);
      var missing := ListMissing(id, kept);
      if |missing| == 0 {
        return;
      }
      var sums := map[];
      if |v.platforms| != 0 && !f.lookupFails && up.package(v.name, v.platforms[0]).Some? {
        sums := Shasums.ParseShasumFile(if f.shasumsFail then "" else up.shasums(v.name));
      }
      count := SyncEach(up, id, v.name, missing, sums, f.at);
    }

    method SyncOneVersion(up: Upstream, listed: map<string, nat>, v: Version, f: VersionFaults) returns (count: nat)
      modifies this
      ensures Counted(Now(), count) == SyncVersion(m, up, old(Now()), listed, v, f)
    {
      if v.name in listed {
        count := SyncListedVersion(up, listed[v.name], v, f);
      } else {
        var ok := SyncProviderVersion(up, v, f);
        count := Bit(ok);
      }
    }

    method SyncAll(up: Upstream, f: Faults) returns (versionsNew: Option<nat>)
      modifies this
      ensures Outcome(Now(), versionsNew) == SyncProvider(m, up, old(Now()), f)
    {
      if |up.versions| == 0 || f.listFails {
        return None;
      }
      var listed := versions;
      var count: nat, i := 0, 0;
      while i < |up.versions|
        invariant i <= |up.versions|
        invariant var rest := SyncVersions(m, up, Now(), listed, i, f.at);
                  Counted(rest.store, count + rest.count) == SyncVersions(m, up, old(Now()), listed, 0, f.at)
      {
        var added := SyncOneVersion(up, listed, up.versions[i], f.at(i));
        count := count + added;
        i := i + 1;
      }
      return Some(count);
    }
  }
}
