/**
 Lexical paths as Go's `path/filepath` treats them on a slash-separated system, and the
 containment check that archive extraction makes with them.
 */
module Paths {
  import opened Text

  /** The components of a cleaned absolute path; the root is the empty sequence. */
  type Path = seq<string>

  /** A component that `Clean` keeps. */
  predicate Plain(c: string) {
    c != "" && c != "." && c != ".." && '/' !in c
  }

  predicate Canonical(p: Path) {
    forall i :: 0 <= i < |p| ==> Plain(p[i])
  }

  predicate IsAbs(s: string) {
    HasPrefix(s, "/")
  }

  /** One component of `Clean`: `..` at the root stays at the root. */
  function Visit(at: Path, c: string): Path {
    if c == "" || c == "." then at
    else if c == ".." then (if at == [] then at else at[..|at| - 1])
    else at + [c]
  }

  function Walk(at: Path, cs: seq<string>): Path
    decreases cs
  {
    if cs == [] then at else Walk(Visit(at, cs[0]), cs[1..])
  }

  /** The components of `filepath.Clean(s)` for an absolute `s`. */
  function Components(s: string): Path {
    Walk([], Split(s, '/'))
  }

  function JoinSlash(p: seq<string>): string {
    JoinBy(p, '/')
  }

  /** `filepath.Clean` for an absolute path. */
  function Clean(s: string): string {
    "/" + JoinSlash(Components(s))
  }

  /** `filepath.Join` of two elements, the first not empty. */
  function Join(dir: string, name: string): string {
    if name == "" then Clean(dir) else Clean(dir + "/" + name)
  }

  function CommonPrefix(a: Path, b: Path): nat {
    if a == [] || b == [] || a[0] != b[0] then 0 else 1 + CommonPrefix(a[1..], b[1..])
  }

  lemma {:induction false} CommonPrefixBound(a: Path, b: Path)
    ensures CommonPrefix(a, b) <= |a| && CommonPrefix(a, b) <= |b|
    ensures a[..CommonPrefix(a, b)] == b[..CommonPrefix(a, b)]
    ensures a <= b <==> CommonPrefix(a, b) == |a|
  {
    if a != [] && b != [] && a[0] == b[0] {
      CommonPrefixBound(a[1..], b[1..]);
      var k := CommonPrefix(a[1..], b[1..]);
      assert a[..k + 1] == [a[0]] + a[1..][..k];
      assert b[..k + 1] == [b[0]] + b[1..][..k];
      assert a <= b <==> a[1..] <= b[1..];
    }
  }

  /** `filepath.Rel` of two absolute paths, which never fails. */
  function Rel(base: string, target: string): string {
    var b, t := Components(base), Components(target);
    var k := CommonPrefix(b, t);
    CommonPrefixBound(b, t);
    var rel := seq(|b| - k, _ => "..") + t[k..];
    if rel == [] then "." else JoinSlash(rel)
  }

  /** The check made on every entry name before anything is written for it. */
  predicate Contained(dest: string, name: string) {
    var rel := Rel(Clean(dest), Join(Clean(dest), name));
    !(rel == ".." || HasPrefix(rel, "../") || IsAbs(rel))
  }

  /** Where an entry lands. */
  function Target(dest: string, name: string): Path {
    Components(Join(Clean(dest), name))
  }

  // ---- what the lexical functions compute ----

  lemma {:induction false} WalkCanonical(at: Path, cs: seq<string>)
    requires Canonical(at)
    requires forall i :: 0 <= i < |cs| ==> '/' !in cs[i]
    ensures Canonical(Walk(at, cs))
    decreases cs
  {
    if cs != [] {
      WalkCanonical(Visit(at, cs[0]), cs[1..]);
    }
  }

  lemma {:induction false} SplitHasNoSlash(s: string)
    ensures forall i :: 0 <= i < |Split(s, '/')| ==> '/' !in Split(s, '/')[i]
  {
    if s != "" {
      SplitHasNoSlash(s[1..]);
    }
  }

  lemma ComponentsCanonical(s: string)
    ensures Canonical(Components(s))
  {
    SplitHasNoSlash(s);
    WalkCanonical([], Split(s, '/'));
  }

  lemma {:induction false} WalkAppend(at: Path, cs: seq<string>, ds: seq<string>)
    ensures Walk(at, cs + ds) == Walk(Walk(at, cs), ds)
    decreases cs
  {
    if cs == [] {
      assert cs + ds == ds;
    } else {
      assert (cs + ds)[1..] == cs[1..] + ds;
      WalkAppend(Visit(at, cs[0]), cs[1..], ds);
    }
  }

  lemma {:induction false} WalkPlain(at: Path, p: Path)
    requires Canonical(p)
    ensures Walk(at, p) == at + p
    decreases p
  {
    if p == [] {
      assert at + p == at;
    } else {
      WalkPlain(at + [p[0]], p[1..]);
      assert at + [p[0]] + p[1..] == at + p;
    }
  }

  /** Printing canonical components and reading them back is the identity. */
  lemma ComponentsOfClean(p: Path)
    requires Canonical(p)
    ensures Components("/" + JoinSlash(p)) == p
  {
    if p == [] {
      assert "/" + JoinSlash(p) == "/" && "/"[1..] == "";
      assert Split("/", '/') == ["", ""];
      assert Walk([], ["", ""]) == Walk([], [""]) == Walk([], []);
    } else {
      SplitJoined("", '/', JoinSlash(p));
      assert "" + ['/'] + JoinSlash(p) == "/" + JoinSlash(p);
      SplitJoinBy(p, '/');
      assert ([""] + p)[1..] == p;
      WalkPlain([], p);
    }
  }

  /** `Clean` is idempotent. */
  lemma CleanTwice(s: string)
    ensures Clean(Clean(s)) == Clean(s)
    ensures Components(Clean(s)) == Components(s)
  {
    ComponentsCanonical(s);
    ComponentsOfClean(Components(s));
  }

  /** The target of an entry is reached by walking its name from the destination. */
  lemma TargetWalks(dest: string, name: string)
    ensures Target(dest, name) == Walk(Components(dest), Split(name, '/'))
    ensures Canonical(Target(dest, name))
  {
    var clean := Clean(dest);
    CleanTwice(dest);
    if name == "" {
      CleanTwice(clean);
    } else {
      CleanTwice(clean + "/" + name);
      SplitJoined(clean, '/', name);
      assert clean + ['/'] + name == clean + "/" + name;
      WalkAppend([], Split(clean, '/'), Split(name, '/'));
    }
    ComponentsCanonical(Join(clean, name));
  }

  /** A printed relative path starts with `..` exactly when its first component is `..`. */
  lemma LeadingDots(rel: seq<string>)
    requires rel != [] && rel[0] != "" && '/' !in rel[0]
    ensures (JoinSlash(rel) == ".." || HasPrefix(JoinSlash(rel), "../")) <==> rel[0] == ".."
    ensures !IsAbs(JoinSlash(rel))
  {
    var s, c := JoinSlash(rel), rel[0];
    assert c[0] in c && c[0] != '/';
    assert s[0] == c[0];
    assert c <= s && (|rel| > 1 ==> |c| < |s| && s[|c|] == '/');
    assert forall i :: 0 <= i < |c| ==> c[i] in c && s[i] == c[i] && s[i] != '/';
    if c == ".." {
      assert |rel| > 1 ==> s[..3] == "../";
    } else {
      assert !(|s| >= 3 && s[0] == s[1] == '.' && s[2] == '/');
      assert "../"[0] == "../"[1] == '.' && "../"[2] == '/';
    }
  }

  /**
   The containment check accepts a name exactly when the destination's components are a
   prefix of the target's. So a component that merely begins with two dots is accepted,
   and so is a name that leaves the destination and comes back.
   */
  lemma ContainedIffPrefix(dest: string, name: string)
    ensures Contained(dest, name) <==> Components(dest) <= Target(dest, name)
  {
    var b, t := Components(dest), Target(dest, name);
    TargetWalks(dest, name);
    CleanTwice(dest);
    ComponentsCanonical(dest);
    CommonPrefixBound(b, t);
    var k := CommonPrefix(b, t);
    var rel := seq(|b| - k, _ => "..") + t[k..];
    if rel != [] {
      assert k < |b| ==> rel[0] == "..";
      assert k == |b| ==> rel[0] == t[k];
      LeadingDots(rel);
    }
  }

  // ---- the rules of `Clean`, on the text itself ----

  lemma SplitAround(a: string, b: string, c: string)
    ensures Split(a + "/" + b + "/" + c, '/') == Split(a, '/') + Split(b, '/') + Split(c, '/')
  {
    SplitJoined(a, '/', b);
    SplitJoined(a + "/" + b, '/', c);
    assert a + ['/'] + b == a + "/" + b && a + "/" + b + ['/'] + c == a + "/" + b + "/" + c;
  }

  lemma SplitPair(a: string, b: string)
    ensures Split(a + "/" + b, '/') == Split(a, '/') + Split(b, '/')
  {
    SplitJoined(a, '/', b);
    assert a + ['/'] + b == a + "/" + b;
  }

  lemma WalkOne(at: Path, c: string)
    ensures Walk(at, [c]) == Visit(at, c)
  {
    assert [c][1..] == [];
  }

  /** A component between two texts that leaves every place where it was can be left out. */
  lemma NeutralBetween(at: Path, a: string, b: string, c: string)
    requires forall p :: Walk(p, Split(b, '/')) == p
    ensures Walk(at, Split(a + "/" + b + "/" + c, '/')) == Walk(at, Split(a + "/" + c, '/'))
  {
    SplitAround(a, b, c);
    SplitPair(a, c);
    WalkAppend(at, Split(a, '/') + Split(b, '/'), Split(c, '/'));
    WalkAppend(at, Split(a, '/'), Split(b, '/'));
    WalkAppend(at, Split(a, '/'), Split(c, '/'));
  }

  lemma EmptyNeutral()
    ensures forall p :: Walk(p, Split("", '/')) == p
  {
    forall p ensures Walk(p, Split("", '/')) == p {
      WalkOne(p, "");
    }
  }

  lemma DotNeutral()
    ensures forall p :: Walk(p, Split(".", '/')) == p
  {
    SplitWhole(".", '/');
    forall p ensures Walk(p, Split(".", '/')) == p {
      WalkOne(p, ".");
    }
  }

  lemma BackNeutral(c: string)
    requires Plain(c)
    ensures forall p :: Walk(p, Split(c + "/" + "..", '/')) == p
  {
    SplitPair(c, "..");
    SplitWhole(c, '/');
    SplitWhole("..", '/');
    forall p ensures Walk(p, Split(c + "/" + "..", '/')) == p {
      WalkAppend(p, [c], [".."]);
      WalkOne(p, c);
      WalkOne(p + [c], "..");
      assert (p + [c])[..|p|] == p;
    }
  }

  /**
   The documented rules, each for any text around: several slashes are one, a single dot goes,
   and a component followed by two dots goes with them.
   */
  lemma CleanRules(a: string, c: string, b: string)
    requires Plain(c)
    ensures Components(a + "/" + "" + "/" + b) == Components(a + "/" + b)
    ensures Components(a + "/" + "." + "/" + b) == Components(a + "/" + b)
    ensures Components(a + "/" + (c + "/" + "..") + "/" + b) == Components(a + "/" + b)
  {
    EmptyNeutral();
    DotNeutral();
    BackNeutral(c);
    NeutralBetween([], a, "", b);
    NeutralBetween([], a, ".", b);
    NeutralBetween([], a, c + "/" + "..", b);
  }

  /** Two dots at the root stay at the root. */
  lemma RootRule(b: string)
    ensures Components("/" + ".." + "/" + b) == Components("/" + b)
  {
    SplitAround("", "..", b);
    SplitPair("", b);
    SplitWhole("..", '/');
    assert "" + "/" + ".." + "/" + b == "/" + ".." + "/" + b && "" + "/" + b == "/" + b;
    WalkAppend([], [""] + [".."], Split(b, '/'));
    WalkAppend([], [""], [".."]);
    WalkAppend([], [""], Split(b, '/'));
    WalkOne([], "");
    WalkOne([], "..");
  }

  // ---- where names land ----

  /** The same rules hold of an entry's name. */
  lemma TargetRules(dest: string, a: string, c: string, b: string)
    requires Plain(c)
    ensures Target(dest, a + "/" + "" + "/" + b) == Target(dest, a + "/" + b)
    ensures Target(dest, a + "/" + "." + "/" + b) == Target(dest, a + "/" + b)
    ensures Target(dest, a + "/" + (c + "/" + "..") + "/" + b) == Target(dest, a + "/" + b)
  {
    var at := Components(dest);
    TargetWalks(dest, a + "/" + b);
    TargetWalks(dest, a + "/" + "" + "/" + b);
    TargetWalks(dest, a + "/" + "." + "/" + b);
    TargetWalks(dest, a + "/" + (c + "/" + "..") + "/" + b);
    EmptyNeutral();
    DotNeutral();
    BackNeutral(c);
    NeutralBetween(at, a, "", b);
    NeutralBetween(at, a, ".", b);
    NeutralBetween(at, a, c + "/" + "..", b);
  }

  /** A leading slash or a leading dot makes no difference. */
  lemma TargetLeading(dest: string, b: string)
    ensures Target(dest, "/" + b) == Target(dest, b)
    ensures Target(dest, "." + "/" + b) == Target(dest, b)
  {
    var at := Components(dest);
    TargetWalks(dest, b);
    TargetWalks(dest, "/" + b);
    TargetWalks(dest, "." + "/" + b);
    assert "" + "/" + b == "/" + b;
    EmptyNeutral();
    DotNeutral();
    SplitPair("", b);
    SplitPair(".", b);
    WalkAppend(at, Split("", '/'), Split(b, '/'));
    WalkAppend(at, Split(".", '/'), Split(b, '/'));
  }

  /** A number of steps up, then a plain path: what every name amounts to once it is cleaned. */
  function Climb(k: nat, p: Path): seq<string> {
    seq(k, _ => "..") + p
  }

  lemma {:induction false} WalkUp(at: Path, k: nat)
    ensures Walk(at, seq(k, _ => "..")) == Above(at, k)
    decreases k
  {
    var ups := seq(k, _ => "..");
    if k > 0 {
      assert ups[0] == ".." && ups[1..] == seq(k - 1, _ => "..");
      WalkUp(Visit(at, ".."), k - 1);
    }
  }

  function Above(d: Path, k: nat): Path {
    if k <= |d| then d[..|d| - k] else []
  }

  lemma WalkClimb(d: Path, k: nat, p: Path)
    requires Canonical(p)
    ensures Walk(d, Climb(k, p)) == Above(d, k) + p
  {
    WalkAppend(d, seq(k, _ => ".."), p);
    WalkUp(d, k);
    WalkPlain(Above(d, k), p);
  }

  lemma SplitClimb(k: nat, p: Path)
    requires Canonical(p) && Climb(k, p) != []
    ensures Split(JoinSlash(Climb(k, p)), '/') == Climb(k, p)
  {
    var cs := Climb(k, p);
    forall i | 0 <= i < |cs| ensures '/' !in cs[i] {
      assert i < k ==> cs[i] == "..";
    }
    SplitJoinBy(cs, '/');
  }

  /** Such a name lands as many levels above the destination, at most at the root, and then below that. */
  lemma TargetOfClimb(dest: string, k: nat, p: Path)
    requires Canonical(p)
    ensures Target(dest, JoinSlash(Climb(k, p))) == Above(Components(dest), k) + p
  {
    TargetWalks(dest, JoinSlash(Climb(k, p)));
    WalkClimb(Components(dest), k, p);
    if Climb(k, p) == [] {
      WalkOne(Components(dest), "");
    } else {
      SplitClimb(k, p);
    }
  }

  /**
   So a name that climbs is accepted exactly when it comes back down through the components of
   the destination it climbed out of; a name that does not climb is always accepted.
   */
  lemma ContainedClimbIff(dest: string, k: nat, p: Path)
    requires Canonical(p)
    ensures var d := Components(dest);
            Contained(dest, JoinSlash(Climb(k, p))) <==> d[|Above(d, k)|..] <= p
  {
    ContainedIffPrefix(dest, JoinSlash(Climb(k, p)));
    TargetOfClimb(dest, k, p);
    ClimbPrefix(Components(dest), k, p);
  }

  lemma ClimbPrefix(d: Path, k: nat, p: Path)
    ensures d <= Above(d, k) + p <==> d[|Above(d, k)|..] <= p
  {
    var up := Above(d, k);
    assert d == up + d[|up|..];
    PrefixAfter(up, d[|up|..], p);
  }

  lemma PrefixAfter(up: Path, left: Path, p: Path)
    ensures up + left <= up + p <==> left <= p
  {
    assert left <= p ==> p == left + p[|left|..] && up + p == up + left + p[|left|..];
    assert (up + p)[|up|..] == p && (up + left)[|up|..] == left;
  }
}
