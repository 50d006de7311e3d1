/** The platform filter of a mirror configuration. */
module PlatformFilter {
  import opened Text

  datatype Platform = Platform(os: string, arch: string)

  /** The configured JSON: absent or empty, not a list of strings, or the list it holds. */
  datatype Filter = Unset | Malformed | Allowed(list: seq<string>)

  function Key(p: Platform): string {
    Lower(p.os) + "/" + Lower(p.arch)
  }

  function Normal(entry: string): string {
    Lower(TrimSpace(entry))
  }

  predicate Selects(f: Filter, p: Platform) {
    f.Allowed? && f.list != [] ==> exists i :: 0 <= i < |f.list| && Normal(f.list[i]) == Key(p)
  }

  function Kept(ps: seq<Platform>, f: Filter): seq<Platform> {
    if ps == [] then []
    else if Selects(f, ps[0]) then [ps[0]] + Kept(ps[1..], f)
    else Kept(ps[1..], f)
  }

  lemma {:induction false} KeptAll(ps: seq<Platform>, f: Filter)
    requires !f.Allowed? || f.list == []
    ensures Kept(ps, f) == ps
  {
    if ps != [] {
      KeptAll(ps[1..], f);
    }
  }

  lemma {:induction false} KeptAppend(ps: seq<Platform>, p: Platform, f: Filter)
    ensures Kept(ps + [p], f) == Kept(ps, f) + (if Selects(f, p) then [p] else [])
  {
    if ps == [] {
      assert ps + [p] == [p];
    } else {
      assert (ps + [p])[1..] == ps[1..] + [p];
      KeptAppend(ps[1..], p, f);
    }
  }

  /** The loop: the list becomes a set of normalised names, then each platform is looked up in it. */
  method FilterPlatforms(ps: seq<Platform>, f: Filter) returns (kept: seq<Platform>)
    ensures kept == Kept(ps, f)
  {
    if !f.Allowed? || |f.list| == 0 {
      KeptAll(ps, f);
      return ps;
    }
    var allowed: set<string> := {};
    var i := 0;
    while i < |f.list|
      invariant i <= |f.list|
      invariant forall k :: k in allowed <==> exists j :: 0 <= j < i && Normal(f.list[j]) == k
    {
      allowed := allowed + {Normal(f.list[i])};
      i := i + 1;
    }
    kept := [];
    i := 0;
    while i < |ps|
      invariant i <= |ps|
      invariant kept == Kept(ps[..i], f)
    {
      assert ps[..i + 1] == ps[..i] + [ps[i]];
      KeptAppend(ps[..i], ps[i], f);
      if Key(ps[i]) in allowed {
        kept := kept + [ps[i]];
      }
      i := i + 1;
    }
    assert ps[..i] == ps;
  }

  ghost predicate Repeats(ps: seq<Platform>, p: Platform) {
    exists a, b :: 0 <= a < b < |ps| && ps[a] == p && ps[b] == p
  }

  lemma RepeatsTail(ps: seq<Platform>, p: Platform)
    requires ps != []
    ensures Repeats(ps, p) <==> (ps[0] == p && p in ps[1..]) || Repeats(ps[1..], p)
  {
    if Repeats(ps, p) {
      var a, b :| 0 <= a < b < |ps| && ps[a] == p && ps[b] == p;
      assert ps[1..][b - 1] == p;
      assert a > 0 ==> ps[1..][a - 1] == p;
    }
    if Repeats(ps[1..], p) {
      var a, b :| 0 <= a < b < |ps| - 1 && ps[1..][a] == p && ps[1..][b] == p;
      assert ps[a + 1] == p && ps[b + 1] == p;
    }
    if ps[0] == p && p in ps[1..] {
      var b :| 0 <= b < |ps| - 1 && ps[1..][b] == p;
      assert ps[b + 1] == p;
    }
  }

  /** Filtering keeps exactly the selected platforms, and repeats only what was repeated. */
  lemma {:induction false} KeptExactly(ps: seq<Platform>, f: Filter, p: Platform)
    ensures p in Kept(ps, f) <==> p in ps && Selects(f, p)
    ensures Repeats(Kept(ps, f), p) <==> Repeats(ps, p) && Selects(f, p)
  {
    if ps != [] {
      KeptExactly(ps[1..], f, p);
      RepeatsTail(ps, p);
      if Selects(f, ps[0]) {
        assert Kept(ps, f)[1..] == Kept(ps[1..], f);
        RepeatsTail(Kept(ps, f), p);
      }
    }
  }

  // ---- which platforms an entry names ----

  lemma LowerJoined(a: string, b: string)
    ensures Lower(a + "/" + b) == Lower(a) + "/" + Lower(b)
  {
  }

  /**
   An entry, whatever blanks surround it, keeps the listed platforms it spells as operating
   system, slash, architecture.
   */
  lemma EntryKeeps(ps: seq<Platform>, left: string, core: string, right: string, p: Platform)
    requires AllSpace(left) && AllSpace(right)
    requires core == "" || (!IsSpace(core[0]) && !IsSpace(core[|core| - 1]))
    ensures p in Kept(ps, Allowed([left + core + right])) <==> p in ps && EqualFold(core, p.os + "/" + p.arch)
  {
    var f := Allowed([left + core + right]);
    KeptExactly(ps, f, p);
    TrimPadded(left, core, right);
    LowerJoined(p.os, p.arch);
    assert Normal(f.list[0]) == Lower(core);
  }

  /** A list keeps what any one of its entries keeps. */
  lemma ListKeeps(ps: seq<Platform>, list: seq<string>, p: Platform)
    requires list != []
    ensures p in Kept(ps, Allowed(list)) <==> exists i :: 0 <= i < |list| && p in Kept(ps, Allowed([list[i]]))
  {
    KeptExactly(ps, Allowed(list), p);
    forall i | 0 <= i < |list|
      ensures p in Kept(ps, Allowed([list[i]])) <==> p in ps && Normal(list[i]) == Key(p)
    {
      KeptExactly(ps, Allowed([list[i]]), p);
      assert [list[i]][0] == list[i];
    }
  }
}
