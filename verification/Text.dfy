/** The string operations of the Go library that the modelled code calls. */
module Text {

  /** `unicode.IsSpace`, the class `strings.TrimSpace` removes. */
  predicate IsSpace(c: char) {
    || '\t' <= c <= '\r' || c == ' ' || c == '\U{85}' || c == '\U{A0}' || c == '\U{1680}'
    || '\U{2000}' <= c <= '\U{200A}' || c == '\U{2028}' || c == '\U{2029}'
    || c == '\U{202F}' || c == '\U{205F}' || c == '\U{3000}'
  }

  predicate AllSpace(s: string) {
    forall i :: 0 <= i < |s| ==> IsSpace(s[i])
  }

  predicate NoSpace(s: string) {
    forall i :: 0 <= i < |s| ==> !IsSpace(s[i])
  }

  function TrimLeft(s: string): string {
    if s != "" && IsSpace(s[0]) then TrimLeft(s[1..]) else s
  }

  function TrimRight(s: string): string {
    if s != "" && IsSpace(s[|s| - 1]) then TrimRight(s[..|s| - 1]) else s
  }

  function TrimSpace(s: string): string {
    TrimRight(TrimLeft(s))
  }

  /** A core with no space at either end is what trimming leaves. */
  lemma {:induction false} TrimPadded(left: string, core: string, right: string)
    requires AllSpace(left) && AllSpace(right)
    requires core == "" || (!IsSpace(core[0]) && !IsSpace(core[|core| - 1]))
    ensures TrimSpace(left + core + right) == core
  {
    if core == "" {
      TrimLeftSpaces(left + right, "");
      assert left + core + right == left + right + "";
    } else {
      TrimLeftSpaces(left, core + right);
      assert left + core + right == left + (core + right);
      assert TrimLeft(core + right) == core + right;
      TrimRightSpaces(core, right);
    }
  }

  lemma {:induction false} TrimLeftSpaces(left: string, rest: string)
    requires AllSpace(left)
    ensures TrimLeft(left + rest) == TrimLeft(rest)
  {
    if left == "" {
      assert left + rest == rest;
    } else {
      assert (left + rest)[1..] == left[1..] + rest;
      TrimLeftSpaces(left[1..], rest);
    }
  }

  lemma {:induction false} TrimRightSpaces(core: string, right: string)
    requires AllSpace(right)
    requires core != "" && !IsSpace(core[|core| - 1])
    ensures TrimRight(core + right) == core
  {
    if right == "" {
      assert core + right == core;
    } else {
      assert (core + right)[..|core + right| - 1] == core + right[..|right| - 1];
      TrimRightSpaces(core, right[..|right| - 1]);
    }
  }

  /** Trimming leaves a core without a blank at either end, between blanks, and nothing else does. */
  lemma TrimExact(s: string, core: string)
    ensures core == TrimSpace(s) <==>
              && (core == "" || (!IsSpace(core[0]) && !IsSpace(core[|core| - 1])))
              && exists left, right :: AllSpace(left) && AllSpace(right) && s == left + core + right
  {
    var left := TrimLeftSplits(s);
    var right := TrimRightSplits(TrimLeft(s));
    assert s == left + TrimSpace(s) + right;
    if exists l, r :: AllSpace(l) && AllSpace(r) && s == l + core + r {
      var l, r :| AllSpace(l) && AllSpace(r) && s == l + core + r;
      if core == "" || (!IsSpace(core[0]) && !IsSpace(core[|core| - 1])) {
        TrimPadded(l, core, r);
      }
    }
  }

  lemma {:induction false} TrimLeftSplits(s: string) returns (left: string)
    ensures AllSpace(left) && s == left + TrimLeft(s) && (TrimLeft(s) == "" || !IsSpace(TrimLeft(s)[0]))
  {
    left := "";
    if s != "" && IsSpace(s[0]) {
      var rest := TrimLeftSplits(s[1..]);
      left := [s[0]] + rest;
    }
  }

  lemma {:induction false} TrimRightSplits(s: string) returns (right: string)
    ensures AllSpace(right) && s == TrimRight(s) + right
    ensures TrimRight(s) == "" || (TrimRight(s)[0] == s[0] && !IsSpace(TrimRight(s)[|TrimRight(s)| - 1]))
  {
    right := "";
    if s != "" && IsSpace(s[|s| - 1]) {
      var rest := TrimRightSplits(s[..|s| - 1]);
      right := rest + [s[|s| - 1]];
    }
  }

  /** The ASCII blanks are the tab, the line feed, the vertical tab, the form feed, the return and the space. */
  lemma AsciiBlanks(c: char)
    requires c < '\U{80}'
    ensures IsSpace(c) <==> c in {'\t', '\n', '\U{0B}', '\U{0C}', '\r', ' '}
  {
  }

  /** `strings.ToLower` on the ASCII letters. */
  function LowerChar(c: char): char {
    if 'A' <= c <= 'Z' then c - 'A' + 'a' else c
  }

  function Lower(s: string): string {
    seq(|s|, i requires 0 <= i < |s| => LowerChar(s[i]))
  }

  /** `strings.EqualFold` on ASCII. */
  predicate EqualFold(s: string, t: string) {
    Lower(s) == Lower(t)
  }

  /** The two letters are one, or the upper and the lower case of one. */
  predicate SameLetter(a: char, b: char) {
    || a == b
    || ('A' <= a <= 'Z' && b as int == a as int + 32)
    || ('A' <= b <= 'Z' && a as int == b as int + 32)
  }

  /** Folding compares letter by letter. */
  lemma EqualFoldExact(s: string, t: string)
    ensures EqualFold(s, t) <==> |s| == |t| && forall i :: 0 <= i < |s| ==> SameLetter(s[i], t[i])
  {
    if EqualFold(s, t) {
      assert |s| == |Lower(s)| == |t|;
      forall i | 0 <= i < |s| ensures SameLetter(s[i], t[i]) {
        assert Lower(s)[i] == Lower(t)[i];
      }
    }
  }

  predicate HasPrefix(s: string, prefix: string) {
    prefix <= s
  }

  /** The first part grown by one leading character. */
  function Attach(c: char, parts: seq<string>): seq<string>
    requires parts != []
  {
    [[c] + parts[0]] + parts[1..]
  }

  /** `strings.Split` on a one-character separator. */
  function Split(s: string, sep: char): (parts: seq<string>)
    ensures parts != []
  {
    if s == "" then [""]
    else if s[0] == sep then [""] + Split(s[1..], sep)
    else Attach(s[0], Split(s[1..], sep))
  }

  lemma AttachAppend(c: char, a: seq<string>, b: seq<string>)
    requires a != []
    ensures Attach(c, a + b) == Attach(c, a) + b
  {
    assert (a + b)[1..] == a[1..] + b;
  }

  /** Splitting a text without the separator leaves it whole. */
  lemma {:induction false} SplitWhole(s: string, sep: char)
    requires sep !in s
    ensures Split(s, sep) == [s]
  {
    if s != "" {
      assert s[0] in s;
      SplitWhole(s[1..], sep);
      assert [s[0]] + s[1..] == s;
    }
  }

  /** Splitting distributes over text joined by one separator. */
  lemma {:induction false} SplitJoined(s: string, sep: char, t: string)
    ensures Split(s + [sep] + t, sep) == Split(s, sep) + Split(t, sep)
  {
    var whole := s + [sep] + t;
    if s == "" {
      assert whole == [sep] + t && whole[1..] == t;
    } else {
      assert whole[0] == s[0] && whole[1..] == s[1..] + [sep] + t;
      SplitJoined(s[1..], sep, t);
      if s[0] != sep {
        AttachAppend(s[0], Split(s[1..], sep), Split(t, sep));
      }
    }
  }

  /** `strings.Join` on a one-character separator. */
  function JoinBy(parts: seq<string>, sep: char): string {
    if parts == [] then ""
    else if |parts| == 1 then parts[0]
    else parts[0] + [sep] + JoinBy(parts[1..], sep)
  }

  /** Parts without the separator survive being joined and split again. */
  lemma {:induction false} SplitJoinBy(parts: seq<string>, sep: char)
    requires parts != [] && forall i :: 0 <= i < |parts| ==> sep !in parts[i]
    ensures Split(JoinBy(parts, sep), sep) == parts
  {
    SplitWhole(parts[0], sep);
    if |parts| > 1 {
      SplitJoined(parts[0], sep, JoinBy(parts[1..], sep));
      SplitJoinBy(parts[1..], sep);
    }
  }
}
