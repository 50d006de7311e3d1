/** The SHA256SUMS file of a release: reading it into a map from filename to checksum. */
module Shasums {
  import opened Basics
  import opened Text

  datatype Entry = Entry(sum: string, name: string)

  /** `strings.SplitN(line, "  ", 2)`, when it gives two parts. */
  function CutAtTwoSpaces(line: string): Option<Entry> {
    if |line| < 2 then None
    else if line[0] == ' ' && line[1] == ' ' then Some(Entry("", line[2..]))
    else
      match CutAtTwoSpaces(line[1..])
      case None => None
      case Some(e) => Some(Entry([line[0]] + e.sum, e.name))
  }

  function ReadLine(m: map<string, string>, raw: string): map<string, string> {
    var line := TrimSpace(raw);
    if line == "" then m
    else match CutAtTwoSpaces(line)
      case None => m
      case Some(e) => m[e.name := e.sum]
  }

  function ReadLines(lines: seq<string>, n: nat): map<string, string>
    requires n <= |lines|
  {
    if n == 0 then map[] else ReadLine(ReadLines(lines, n - 1), lines[n - 1])
  }

  function Parse(content: string): map<string, string> {
    var lines := Split(content, '\n');
    ReadLines(lines, |lines|)
  }

  method ParseShasumFile(content: string) returns (result: map<string, string>)
    ensures result == Parse(content)
  {
    result := map[];
    var lines := Split(content, '\n');
    var i := 0;
    while i < |lines|
      invariant i <= |lines|
      invariant result == ReadLines(lines, i)
    {
      var line := TrimSpace(lines[i]);
      if line != "" {
        var parts := CutAtTwoSpaces(line);
        if parts.Some? {
          result := result[parts.value.name := parts.value.sum];
        }
      }
      i := i + 1;
    }
  }

  // ---- printing ----

  /** A line of such a file: an entry with any blanks around it, or blanks alone. */
  datatype Line = Record(left: string, entry: Entry, right: string) | Blank(spaces: string)

  predicate IsPadding(s: string) {
    AllSpace(s) && '\n' !in s
  }

  /** A checksum has no blank; a filename is on one line and does not end in a blank. */
  predicate Printable(e: Entry) {
    && e.sum != "" && NoSpace(e.sum)
    && e.name != "" && '\n' !in e.name && !IsSpace(e.name[|e.name| - 1])
  }

  predicate Proper(l: Line) {
    match l
    case Record(left, e, right) => IsPadding(left) && Printable(e) && IsPadding(right)
    case Blank(spaces) => IsPadding(spaces)
  }

  function Render(l: Line): string {
    match l
    case Record(left, e, right) => left + (e.sum + "  " + e.name) + right
    case Blank(spaces) => spaces
  }

  function Rendered(ls: seq<Line>): seq<string> {
    seq(|ls|, i requires 0 <= i < |ls| => Render(ls[i]))
  }

  function Print(ls: seq<Line>): string {
    JoinBy(Rendered(ls), '\n')
  }

  /** What the lines say, a later record of a name replacing an earlier one. */
  function Meaning(ls: seq<Line>, n: nat): map<string, string>
    requires n <= |ls|
  {
    if n == 0 then map[]
    else
      var m := Meaning(ls, n - 1);
      match ls[n - 1]
      case Record(_, e, _) => m[e.name := e.sum]
      case Blank(_) => m
  }

  lemma {:induction false} CutFindsSum(sum: string, name: string)
    requires NoSpace(sum)
    ensures CutAtTwoSpaces(sum + "  " + name) == Some(Entry(sum, name))
  {
    var line := sum + "  " + name;
    if sum == "" {
      assert line[2..] == name;
    } else {
      assert line[1..] == sum[1..] + "  " + name;
      CutFindsSum(sum[1..], name);
      assert !IsSpace(sum[0]) && line[0] == sum[0];
      assert [sum[0]] + sum[1..] == sum;
    }
  }

  predicate TwoSpacesAt(line: string, i: nat) {
    i + 1 < |line| && line[i] == ' ' && line[i + 1] == ' '
  }

  lemma TwoSpacesLater(line: string, i: nat)
    requires line != "" && i > 0
    ensures TwoSpacesAt(line, i) <==> TwoSpacesAt(line[1..], i - 1)
  {
  }

  /** A line is cut at its first two spaces in a row, and read as nothing exactly when it has none. */
  lemma {:induction false} CutExact(line: string)
    ensures CutAtTwoSpaces(line) == None ==> forall i: nat :: !TwoSpacesAt(line, i)
    ensures CutAtTwoSpaces(line).Some? ==>
              var e := CutAtTwoSpaces(line).value;
              && line == e.sum + "  " + e.name
              && TwoSpacesAt(line, |e.sum|) && forall i: nat :: i < |e.sum| ==> !TwoSpacesAt(line, i)
  {
    if |line| >= 2 && !TwoSpacesAt(line, 0) {
      CutExact(line[1..]);
      forall i: nat | i > 0 ensures TwoSpacesAt(line, i) <==> TwoSpacesAt(line[1..], i - 1) {
        TwoSpacesLater(line, i);
      }
      assert line == [line[0]] + line[1..];
    } else if |line| >= 2 {
      assert line == "" + "  " + line[2..];
    }
  }

  lemma RenderedLineReads(m: map<string, string>, l: Line)
    requires Proper(l)
    ensures ReadLine(m, Render(l)) == match l case Record(_, e, _) => m[e.name := e.sum] case Blank(_) => m
    ensures '\n' !in Render(l)
  {
    match l
    case Blank(spaces) =>
      TrimPadded(spaces, "", "");
      assert spaces + "" + "" == spaces;
    case Record(left, e, right) =>
      var core := e.sum + "  " + e.name;
      assert core[0] == e.sum[0] && core[|core| - 1] == e.name[|e.name| - 1];
      TrimPadded(left, core, right);
      CutFindsSum(e.sum, e.name);
      assert '\n' !in e.sum;
  }

  lemma {:induction false} RenderedLinesRead(ls: seq<Line>, n: nat)
    requires n <= |ls| && forall i :: 0 <= i < |ls| ==> Proper(ls[i])
    ensures ReadLines(Rendered(ls), n) == Meaning(ls, n)
  {
    if n > 0 {
      RenderedLinesRead(ls, n - 1);
      RenderedLineReads(Meaning(ls, n - 1), ls[n - 1]);
    }
  }

  /** Parsing a printed file gives what its lines say, whatever their order, blanks and line ends. */
  lemma ParseOfPrint(ls: seq<Line>)
    requires ls != [] && forall i :: 0 <= i < |ls| ==> Proper(ls[i])
    ensures Parse(Print(ls)) == Meaning(ls, |ls|)
  {
    forall i | 0 <= i < |ls| ensures '\n' !in Rendered(ls)[i] {
      RenderedLineReads(map[], ls[i]);
    }
    SplitJoinBy(Rendered(ls), '\n');
    RenderedLinesRead(ls, |ls|);
  }

  ghost predicate Lists(ls: seq<Line>, m: map<string, string>) {
    && (forall i :: 0 <= i < |ls| && ls[i].Record? ==> ls[i].entry.name in m && m[ls[i].entry.name] == ls[i].entry.sum)
    && (forall name :: name in m ==> exists i :: 0 <= i < |ls| && ls[i].Record? && ls[i].entry.name == name)
  }

  lemma {:induction false} MeaningOfListing(ls: seq<Line>, m: map<string, string>, n: nat)
    requires n <= |ls|
    requires forall i :: 0 <= i < |ls| && ls[i].Record? ==>
             ls[i].entry.name in m && m[ls[i].entry.name] == ls[i].entry.sum
    ensures forall name :: name in Meaning(ls, n) ==> name in m && Meaning(ls, n)[name] == m[name]
    ensures forall i :: 0 <= i < n && ls[i].Record? ==> ls[i].entry.name in Meaning(ls, n)
  {
    if n > 0 {
      MeaningOfListing(ls, m, n - 1);
    }
  }

  /** Any map of printable entries, written one record a line in any order, is read back exactly. */
  lemma ShasumsRoundTrip(ls: seq<Line>, m: map<string, string>)
    requires ls != [] && forall i :: 0 <= i < |ls| ==> Proper(ls[i])
    requires Lists(ls, m)
    ensures Parse(Print(ls)) == m
  {
    ParseOfPrint(ls);
    MeaningOfListing(ls, m, |ls|);
  }
}
