/**
 Cleaning a doc comment: carriage returns out, lines split, a uniform column of stars and the
 common indentation removed, trailing blanks trimmed, lines joined again.
 */
module DocText {
  import opened Wrappers

  predicate Ws(c: char) { c == ' ' || c == '\t' }

  /** find_first_not_of(" \t"), with the length for "not found". */
  function Lead(s: string): (n: nat)
    ensures n <= |s| && (n < |s| ==> !Ws(s[n])) && forall i | 0 <= i < n :: Ws(s[i])
  {
    if s == "" || !Ws(s[0]) then 0 else 1 + Lead(s[1..])
  }

  predicate Blank(s: string) { Lead(s) == |s| }

  // ----- The passes -----

  function RemoveCr(s: string): string {
    if s == "" then "" else (if s[0] == '\r' then "" else [s[0]]) + RemoveCr(s[1..])
  }

  /** The text between newlines; never empty. */
  function Split(s: string): (ls: seq<string>)
    ensures |ls| > 0
  {
    if s == "" then [""]
    else
      var rest := Split(s[1..]);
      if s[0] == '\n' then [""] + rest else [[s[0]] + rest[0]] + rest[1..]
  }

  /** All lines, the last one only if it is not blank. */
  function Lines(s: string): seq<string> {
    var ls := Split(s);
    if Blank(ls[|ls| - 1]) then ls[..|ls| - 1] else ls
  }

  function Erase(s: string, n: nat): string { if n <= |s| then s[n..] else "" }

  function EraseAll(ls: seq<string>, n: nat): (r: seq<string>)
    ensures |r| == |ls|
  {
    seq(|ls|, i requires 0 <= i < |ls| => Erase(ls[i], n))
  }

  /** The scan for a star column: the lines with blank ones cleared as far as it got, whether every
      nonblank line kept to the column, whether there was one, and the column. */
  datatype Scan = Scan(lines: seq<string>, have: bool, found: bool, col: nat)

  function StarScan(ls: seq<string>, found: bool, col: nat): (r: Scan)
    ensures |r.lines| == |ls|
  {
    if ls == [] then Scan([], true, found, col)
    else if Blank(ls[0]) then
      var r := StarScan(ls[1..], found, col);
      r.(lines := [""] + r.lines)
    else if ls[0][Lead(ls[0])] == '*' && (found ==> Lead(ls[0]) == col) then
      var r := StarScan(ls[1..], true, Lead(ls[0]));
      r.(lines := [ls[0]] + r.lines)
    else Scan(ls, false, found, col)
  }

  /** The smallest indentation of a nonblank line. */
  function MinLead(ls: seq<string>): Option<nat> {
    if ls == [] then None
    else
      var m, l := MinLead(ls[..|ls| - 1]), ls[|ls| - 1];
      if Blank(l) || (m.Some? && m.value <= Lead(l)) then m else Some(Lead(l))
  }

  function TrimEnd(s: string): string {
    if s == "" || !Ws(s[|s| - 1]) then s else TrimEnd(s[..|s| - 1])
  }

  /** A blank line is left as it is. */
  function Trim(s: string): string { if Blank(s) then s else TrimEnd(s) }

  function TrimAll(ls: seq<string>): (r: seq<string>)
    ensures |r| == |ls|
  {
    seq(|ls|, i requires 0 <= i < |ls| => Trim(ls[i]))
  }

  function Join(ls: seq<string>): string {
    if ls == [] then "" else Join(ls[..|ls| - 1]) + ls[|ls| - 1] + "\n"
  }

  /** The later lines once the star column is gone. */
  function Unstarred(later: seq<string>): (r: seq<string>)
    ensures |r| == |later|
  {
    var sc := StarScan(later, false, 0);
    if sc.have then EraseAll(sc.lines, sc.col + 1) else sc.lines
  }

  function Outdented(ls: seq<string>): (r: seq<string>)
    ensures |r| == |ls|
  {
    var m := MinLead(ls);
    if m.Some? then EraseAll(ls, m.value) else ls
  }

  /** Every line as it is before the joining. */
  function CleanLines(ls: seq<string>): (r: seq<string>)
    requires ls != []
    ensures |r| == |ls|
  {
    TrimAll([ls[0][Lead(ls[0])..]] + Outdented(Unstarred(ls[1..])))
  }

  function Kept(ls: seq<string>): seq<string>
    requires ls != []
  {
    if ls[0] == "" then ls[1..] else ls
  }

  /** clean_up_doctext; None for the null pointer it returns when nothing is left. */
  function Clean(doc: string): Option<string> {
    var ls := Lines(RemoveCr(doc));
    if ls == [] then None else Some(Join(Kept(CleanLines(ls))))
  }

  // ----- The passes as loops -----

  method SplitLines(s: string) returns (lines: seq<string>)
    ensures lines == Lines(s)
  {
    hide Split, Lead;
    lines := [];
    var last := 0;
    for pos := 0 to |s|
      invariant last <= pos && '\n' !in s[last..pos]
      invariant lines + Split(s[last..]) == Split(s)
    {
      if s[pos] == '\n' {
        SplitAt(s[last..], pos - last);
        assert s[last..][..pos - last] == s[last..pos] && s[last..][pos - last + 1..] == s[pos + 1..];
        lines := lines + [s[last..pos]];
        last := pos + 1;
      } else {
        assert s[last..pos + 1] == s[last..pos] + [s[pos]];
      }
    }
    assert s[last..|s|] == s[last..];
    SplitWhole(s[last..]);
    if !Blank(s[last..]) {
      lines := lines + [s[last..]];
    }
  }

  lemma {:induction false} SplitAt(s: string, k: nat)
    requires k < |s| && s[k] == '\n' && '\n' !in s[..k]
    ensures Split(s) == [s[..k]] + Split(s[k + 1..])
  {
    if k > 0 {
      assert s[..k][0] == s[0] && s[1..][..k - 1] == s[..k][1..] && s[1..][k..] == s[k + 1..];
      SplitAt(s[1..], k - 1);
      assert s[..k] == [s[0]] + s[1..][..k - 1];
    }
  }

  lemma {:induction false} SplitWhole(s: string)
    requires '\n' !in s
    ensures Split(s) == [s]
  {
    if s != "" {
      SplitWhole(s[1..]);
      assert s == [s[0]] + s[1..];
    }
  }

  /** The loop over the later lines with its two flags. */
  method ScanStars(ls: seq<string>) returns (r: Scan)
    ensures r == StarScan(ls, false, 0)
  {
    hide StarScan;
    var done: seq<string>, found, col := [], false, 0;
    assert ls[0..] == ls;
    for i := 0 to |ls|
      invariant StarScan(ls, false, 0) == Prefixed(done, StarScan(ls[i..], found, col))
    {
      assert ls[i..][0] == ls[i] && ls[i..][1..] == ls[i + 1..];
      ScanUnfolds(ls[i..], found, col);
      var pos := Lead(ls[i]);
      var line := ls[i];
      if pos == |line| {
        line := "";
      } else if line[pos] == '*' && (found ==> pos == col) {
        found, col := true, pos;
      } else {
        return Scan(done + ls[i..], false, found, col);
      }
      PrefixedTwice(done, line, StarScan(ls[i + 1..], found, col));
      done := done + [line];
    }
    ScanUnfolds([], found, col);
    assert done + [] == done;
    return Scan(done, true, found, col);
  }

  function Prefixed(done: seq<string>, r: Scan): Scan { r.(lines := done + r.lines) }

  lemma PrefixedTwice(done: seq<string>, l: string, r: Scan)
    ensures Prefixed(done, Prefixed([l], r)) == Prefixed(done + [l], r)
  {
    assert done + ([l] + r.lines) == done + [l] + r.lines;
  }

  lemma ScanUnfolds(ls: seq<string>, found: bool, col: nat)
    ensures ls == [] ==> StarScan(ls, found, col) == Scan([], true, found, col)
    ensures ls != [] ==>
      StarScan(ls, found, col) ==
        if Blank(ls[0]) then Prefixed([""], StarScan(ls[1..], found, col))
        else if ls[0][Lead(ls[0])] == '*' && (found ==> Lead(ls[0]) == col)
        then Prefixed([ls[0]], StarScan(ls[1..], true, Lead(ls[0])))
        else Scan(ls, false, found, col)
  {
  }

  method FindMinLead(ls: seq<string>) returns (m: Option<nat>)
    ensures m == MinLead(ls)
  {
    m := None;
    for i := 0 to |ls|
      invariant m == MinLead(ls[..i])
    {
      assert ls[..i + 1][..i] == ls[..i];
      var pos := Lead(ls[i]);
      if pos < |ls[i]| && (m.None? || pos < m.value) {
        m := Some(pos);
      }
    }
    assert ls[..|ls|] == ls;
  }

  method JoinLines(ls: seq<string>) returns (s: string)
    ensures s == Join(ls)
  {
    s := "";
    for i := 0 to |ls|
      invariant s == Join(ls[..i])
    {
      assert ls[..i + 1][..i] == ls[..i];
      s := s + ls[i];
      s := s + "\n";
    }
    assert ls[..|ls|] == ls;
  }

  method CleanUp(doc: string) returns (r: Option<string>)
    ensures r == Clean(doc)
  {
    hide StarScan, MinLead, Join, Split, Trim, Erase, RemoveCr, Lines, EraseAll, TrimAll;
    var lines := SplitLines(RemoveCr(doc));
    if lines == [] {
      return None;
    }
    var sc := ScanStars(lines[1..]);
    var later := if sc.have then EraseAll(sc.lines, sc.col + 1) else sc.lines;
    var m := FindMinLead(later);
    if m.Some? {
      later := EraseAll(later, m.value);
    }
    var all := TrimAll([lines[0][Lead(lines[0])..]] + later);
    var text := JoinLines(if all[0] == "" then all[1..] else all);
    return Some(text);
  }

  // ----- No text is lost -----

  predicate Invisible(c: char) { Ws(c) || c == '\r' || c == '\n' }

  /** Everything but blanks, carriage returns and newlines. */
  function Ink(s: string): string {
    if s == "" then "" else (if Invisible(s[0]) then "" else [s[0]]) + Ink(s[1..])
  }

  lemma {:induction false} InkJoins(a: string, b: string)
    ensures Ink(a + b) == Ink(a) + Ink(b)
  {
    if a == "" {
      assert a + b == b;
    } else {
      assert (a + b)[0] == a[0] && (a + b)[1..] == a[1..] + b;
      InkJoins(a[1..], b);
    }
  }

  lemma {:induction false} NoInk(s: string)
    requires forall i | 0 <= i < |s| :: Invisible(s[i])
    ensures Ink(s) == ""
  {
    if s != "" {
      NoInk(s[1..]);
    }
  }

  lemma {:induction false} CrHasNoInk(s: string)
    ensures Ink(RemoveCr(s)) == Ink(s)
  {
    if s != "" {
      CrHasNoInk(s[1..]);
      InkJoins(if s[0] == '\r' then "" else [s[0]], RemoveCr(s[1..]));
      assert [s[0]][1..] == "";
    }
  }

  /** Cutting only blanks off the front, or anything off a blank line, keeps the ink. */
  lemma EraseKeepsInk(s: string, n: nat)
    requires n <= Lead(s) || Blank(s)
    ensures Ink(Erase(s, n)) == Ink(s)
  {
    if n <= |s| {
      assert s == s[..n] + s[n..];
      InkJoins(s[..n], s[n..]);
      NoInk(s[..n]);
    } else {
      NoInk(s);
    }
  }

  /** Cutting through the star takes the star and nothing else. */
  lemma EraseTakesStar(s: string)
    requires !Blank(s) && s[Lead(s)] == '*'
    ensures Ink(s) == "*" + Ink(Erase(s, Lead(s) + 1))
  {
    var n := Lead(s);
    EraseKeepsInk(s, n);
    assert s[n..][0] == '*' && s[n..][1..] == s[n + 1..];
  }

  lemma {:induction false} TrimEndKeepsInk(s: string)
    ensures Ink(TrimEnd(s)) == Ink(s)
  {
    if s != "" && Ws(s[|s| - 1]) {
      var n := |s| - 1;
      TrimEndKeepsInk(s[..n]);
      assert s == s[..n] + s[n..];
      InkJoins(s[..n], s[n..]);
      NoInk(s[n..]);
    }
  }

  function InkAll(ls: seq<string>): string {
    if ls == [] then "" else InkAll(ls[..|ls| - 1]) + Ink(ls[|ls| - 1])
  }

  lemma {:induction false} JoinKeepsInk(ls: seq<string>)
    ensures Ink(Join(ls)) == InkAll(ls)
  {
    if ls != [] {
      var n := |ls| - 1;
      JoinKeepsInk(ls[..n]);
      InkJoins(Join(ls[..n]) + ls[n], "\n");
      InkJoins(Join(ls[..n]), ls[n]);
      NoInk("\n");
    }
  }

  lemma {:induction false} InkCons(l: string, ls: seq<string>)
    ensures InkAll([l] + ls) == Ink(l) + InkAll(ls)
  {
    hide Ink;
    if ls == [] {
      assert [l] + ls == [l] && [l][..0] == [];
    } else {
      var n := |ls| - 1;
      InkCons(l, ls[..n]);
      assert ([l] + ls)[..n + 1] == [l] + ls[..n] && ([l] + ls)[n + 1] == ls[n];
    }
  }

  lemma {:induction false} SplitKeepsInk(s: string)
    ensures InkAll(Split(s)) == Ink(s)
  {
    hide InkAll;
    InkNone();
    if s == "" {
      InkCons("", []);
      assert [""] + [] == [""];
    } else {
      var rest := Split(s[1..]);
      SplitKeepsInk(s[1..]);
      if s[0] == '\n' {
        InkCons("", rest);
      } else {
        assert rest == [rest[0]] + rest[1..];
        InkCons(rest[0], rest[1..]);
        InkCons([s[0]] + rest[0], rest[1..]);
        InkJoins([s[0]], rest[0]);
        InkChar(s[0]);
      }
    }
  }

  lemma InkNone()
    ensures InkAll([]) == ""
  {
  }

  lemma InkChar(c: char)
    ensures Ink([c]) == if Invisible(c) then "" else [c]
  {
    assert [c][1..] == "";
  }

  lemma LinesKeepInk(s: string)
    ensures InkAll(Lines(s)) == Ink(s)
  {
    SplitKeepsInk(s);
    var l := Split(s)[|Split(s)| - 1];
    if Blank(l) {
      NoInk(l);
    }
  }

  lemma {:induction false} InkPointwise(a: seq<string>, b: seq<string>)
    requires |a| == |b| && forall i | 0 <= i < |a| :: Ink(a[i]) == Ink(b[i])
    ensures InkAll(a) == InkAll(b)
  {
    if a != [] {
      InkPointwise(a[..|a| - 1], b[..|b| - 1]);
    }
  }

  // ----- The star column -----

  /** Every nonblank line has its first visible character, a star, in column `c`. */
  predicate AllStarred(ls: seq<string>, c: nat) {
    forall i | 0 <= i < |ls| :: Blank(ls[i]) || (Lead(ls[i]) == c && ls[i][c] == '*')
  }

  ghost predicate Starred(ls: seq<string>) { exists c :: AllStarred(ls, c) }

  lemma {:induction false} ScanMeans(ls: seq<string>, found: bool, col: nat)
    ensures var r := StarScan(ls, found, col);
            && (forall i | 0 <= i < |ls| :: r.lines[i] == ls[i] || (Blank(ls[i]) && r.lines[i] == ""))
            && (r.have ==> AllStarred(ls, r.col) && (found ==> r.col == col))
            && (r.have ==> forall i | 0 <= i < |ls| :: Blank(ls[i]) ==> r.lines[i] == "")
            && (!r.have ==> forall c | found ==> c == col :: !AllStarred(ls, c))
  {
    hide StarScan;
    ScanUnfolds(ls, found, col);
    if ls != [] {
      var tail := ls[1..];
      assert forall c :: AllStarred(ls, c) ==> AllStarred(tail, c);
      if Blank(ls[0]) {
        ScanMeans(tail, found, col);
        assert forall c :: AllStarred(tail, c) ==> AllStarred(ls, c);
      } else {
        var n := Lead(ls[0]);
        ScanMeans(tail, true, n);
        if ls[0][n] == '*' && (found ==> n == col) {
          assert AllStarred(tail, n) ==> AllStarred(ls, n);
        }
      }
    }
  }

  /** What is left of a line's ink when its star goes. */
  function Bare(l: string, starred: bool): string {
    if starred && Ink(l) != "" then Ink(l)[1..] else Ink(l)
  }

  lemma UnstarredInk(later: seq<string>, i: nat)
    requires i < |later|
    ensures Ink(Unstarred(later)[i]) == Bare(later[i], Starred(later))
  {
    hide StarScan, Ink;
    var sc, l := StarScan(later, false, 0), later[i];
    ScanMeans(later, false, 0);
    EmptyInk();
    if Blank(l) {
      NoInk(l);
      EraseKeepsInk(sc.lines[i], sc.col + 1);
    } else if sc.have {
      assert Starred(later);
      EraseTakesStar(l);
      assert Ink(l)[1..] == Ink(Erase(l, sc.col + 1));
    } else {
      assert !Starred(later);
    }
  }

  lemma EmptyInk()
    ensures Ink("") == ""
  {
  }

  lemma {:induction false} MinMeans(ls: seq<string>)
    ensures MinLead(ls).None? ==> forall i | 0 <= i < |ls| :: Blank(ls[i])
    ensures MinLead(ls).Some? ==> forall i | 0 <= i < |ls| :: Blank(ls[i]) || MinLead(ls).value <= Lead(ls[i])
    ensures MinLead(ls).Some? ==> exists i :: 0 <= i < |ls| && !Blank(ls[i]) && Lead(ls[i]) == MinLead(ls).value
  {
    if ls != [] {
      var n := |ls| - 1;
      MinMeans(ls[..n]);
      var m := MinLead(ls[..n]);
      if m.Some? {
        var i :| 0 <= i < n && !Blank(ls[..n][i]) && Lead(ls[..n][i]) == m.value;
        assert !Blank(ls[i]) && Lead(ls[i]) == m.value;
      }
      assert forall i | 0 <= i < n :: ls[..n][i] == ls[i];
      if !Blank(ls[n]) {
        assert Lead(ls[n]) == Lead(ls[n]);
      }
    }
  }

  lemma OutdentedInk(ls: seq<string>, i: nat)
    requires i < |ls|
    ensures Ink(Outdented(ls)[i]) == Ink(ls[i])
  {
    MinMeans(ls);
    if MinLead(ls).Some? {
      EraseKeepsInk(ls[i], MinLead(ls).value);
    }
  }

  /** The ink of the later lines, each without its star if there is a star column. */
  ghost function BareAll(ls: seq<string>, starred: bool): string {
    if ls == [] then "" else BareAll(ls[..|ls| - 1], starred) + Bare(ls[|ls| - 1], starred)
  }

  lemma {:induction false} BarePointwise(a: seq<string>, ls: seq<string>, starred: bool)
    requires |a| == |ls| && forall i | 0 <= i < |ls| :: Ink(a[i]) == Bare(ls[i], starred)
    ensures InkAll(a) == BareAll(ls, starred)
  {
    hide Ink;
    if ls != [] {
      BarePointwise(a[..|a| - 1], ls[..|ls| - 1], starred);
    }
  }

  /** Cleaning loses no text: the visible characters come out in order, minus one star for each
      nonblank later line when those lines share a star column. */
  lemma CleaningKeepsInk(doc: string)
    requires Clean(doc).Some?
    ensures var ls := Lines(RemoveCr(doc));
            && Ink(doc) == Ink(ls[0]) + InkAll(ls[1..])
            && Ink(Clean(doc).value) == Ink(ls[0]) + BareAll(ls[1..], Starred(ls[1..]))
  {
    hide Ink, InkAll, Join, Unstarred, Outdented, StarScan, Lines;
    var ls := Lines(RemoveCr(doc));
    CrHasNoInk(doc);
    LinesKeepInk(RemoveCr(doc));
    assert ls == [ls[0]] + ls[1..];
    InkCons(ls[0], ls[1..]);
    var c := CleanLines(ls);
    CleanLinesInk(ls);
    assert c == [c[0]] + c[1..];
    InkCons(c[0], c[1..]);
    EmptyInk();
    JoinKeepsInk(Kept(c));
  }

  /** A text is cleaned to nothing exactly when it is one line of blanks; then it has no ink. */
  lemma NullHasNoInk(doc: string)
    ensures Clean(doc).None? <==> Blank(RemoveCr(doc))
    ensures Clean(doc).None? ==> Ink(doc) == ""
  {
    hide Split, RemoveCr, Ink, CleanLines;
    var d := RemoveCr(doc);
    if Blank(d) {
      SplitWhole(d);
    } else if |Split(d)| == 1 {
      SplitOne(d);
    }
    CrHasNoInk(doc);
    LinesKeepInk(d);
    InkNone();
  }

  lemma {:induction false} SplitOne(s: string)
    requires |Split(s)| == 1
    ensures Split(s) == [s]
  {
    if s != "" {
      assert |Split(s[1..])| == 1;
      SplitOne(s[1..]);
      assert s == [s[0]] + s[1..] && Split(s)[0] == s;
    }
  }

  lemma CleanLinesInk(ls: seq<string>)
    requires ls != []
    ensures var c := CleanLines(ls);
            Ink(c[0]) == Ink(ls[0]) && InkAll(c[1..]) == BareAll(ls[1..], Starred(ls[1..]))
  {
    hide Ink, InkAll, Unstarred, Outdented;
    var c, later := CleanLines(ls), ls[1..];
    EraseKeepsInk(ls[0], Lead(ls[0]));
    TrimKeepsInk(ls[0][Lead(ls[0])..]);
    forall i | 0 <= i < |later| ensures Ink(c[1..][i]) == Bare(later[i], Starred(later)) {
      LaterInk(ls, i);
    }
    BarePointwise(c[1..], later, Starred(later));
  }

  lemma LaterInk(ls: seq<string>, i: nat)
    requires ls != [] && i < |ls| - 1
    ensures Ink(CleanLines(ls)[1..][i]) == Bare(ls[1..][i], Starred(ls[1..]))
  {
    hide Ink, Unstarred, Outdented, Starred, Trim;
    var later := ls[1..];
    var u := Unstarred(later);
    UnstarredInk(later, i);
    OutdentedInk(u, i);
    TrimKeepsInk(Outdented(u)[i]);
    assert CleanLines(ls)[1..][i] == Trim(Outdented(u)[i]);
  }

  lemma TrimKeepsInk(s: string)
    ensures Ink(Trim(s)) == Ink(s)
  {
    TrimEndKeepsInk(s);
  }

  // ----- Indentation -----

  lemma LeadAfterErase(s: string, n: nat)
    requires !Blank(s) && n <= Lead(s)
    ensures !Blank(Erase(s, n)) && Lead(Erase(s, n)) == Lead(s) - n
  {
    LeadIs(Erase(s, n), Lead(s) - n);
  }

  lemma {:induction false} LeadIs(s: string, k: nat)
    requires k < |s| && !Ws(s[k]) && forall i | 0 <= i < k :: Ws(s[i])
    ensures Lead(s) == k
  {
    if k > 0 {
      LeadIs(s[1..], k - 1);
    }
  }

  lemma {:induction false} TrimEndPrefix(s: string)
    ensures TrimEnd(s) <= s
    ensures forall i | |TrimEnd(s)| <= i < |s| :: Ws(s[i])
    ensures TrimEnd(s) != "" ==> !Ws(TrimEnd(s)[|TrimEnd(s)| - 1])
  {
    if s != "" && Ws(s[|s| - 1]) {
      TrimEndPrefix(s[..|s| - 1]);
    }
  }

  lemma LeadAfterTrim(s: string)
    requires !Blank(s)
    ensures !Blank(Trim(s)) && Lead(Trim(s)) == Lead(s)
  {
    TrimEndPrefix(s);
    LeadIs(Trim(s), Lead(s));
  }

  /** Later lines keep their relative indentation and the smallest becomes zero. `Unstarred` is the
      text right of the star column if there is one, and the line itself otherwise. */
  lemma IndentationKept(ls: seq<string>, i: nat, j: nat)
    requires ls != [] && i < |ls| - 1 && j < |ls| - 1
    requires !Blank(Unstarred(ls[1..])[i]) && !Blank(Unstarred(ls[1..])[j])
    ensures var u, c := Unstarred(ls[1..]), CleanLines(ls)[1..];
            && !Blank(c[i]) && Lead(c[i]) - Lead(c[j]) == Lead(u[i]) - Lead(u[j])
            && exists k :: 0 <= k < |c| && !Blank(c[k]) && Lead(c[k]) == 0
  {
    hide Unstarred, Trim, Erase, Lead;
    var u, c := Unstarred(ls[1..]), CleanLines(ls)[1..];
    MinMeans(u);
    var m := MinLead(u).value;
    var k :| 0 <= k < |u| && !Blank(u[k]) && Lead(u[k]) == m;
    forall x | x in {i, j, k} ensures !Blank(c[x]) && Lead(c[x]) == Lead(u[x]) - m {
      LeadAfterErase(u[x], m);
      LeadAfterTrim(Erase(u[x], m));
      assert c[x] == Trim(Erase(u[x], m));
    }
  }

  lemma UnstarredIs(later: seq<string>, i: nat)
    requires i < |later| && !Blank(later[i])
    ensures if Starred(later) then AllStarred(later, Lead(later[i])) && Unstarred(later)[i] == later[i][Lead(later[i]) + 1..]
            else Unstarred(later)[i] == later[i]
  {
    hide StarScan;
    ScanMeans(later, false, 0);
  }

  // ----- Line by line -----

  /** Blanks are spaces and tabs; carriage returns and newlines are no ink either. */
  lemma BlanksAre(c: char)
    ensures Ws(c) <==> c in " \t"
    ensures Ink([c]) == "" <==> c in " \t\r\n"
  {
    InkChar(c);
  }

  /** Carriage returns go, and nothing else. */
  lemma OnlyCrGoes(a: string, b: string)
    ensures RemoveCr(a + b) == RemoveCr(a) + RemoveCr(b)
    ensures '\r' !in RemoveCr(a) && ('\r' !in a ==> RemoveCr(a) == a)
  {
    hide RemoveCr;
    CrJoins(a, b);
    CrGone(a);
    CrShortens(a);
  }

  lemma {:induction false} CrJoins(a: string, b: string)
    ensures RemoveCr(a + b) == RemoveCr(a) + RemoveCr(b)
  {
    if a == "" {
      assert a + b == b;
    } else {
      var head := if a[0] == '\r' then "" else [a[0]];
      assert (a + b)[1..] == a[1..] + b && (a + b)[0] == a[0];
      CrJoins(a[1..], b);
      assert RemoveCr(a + b) == head + (RemoveCr(a[1..]) + RemoveCr(b));
    }
  }

  lemma {:induction false} CrGone(a: string)
    ensures '\r' !in RemoveCr(a)
  {
    if a != "" {
      CrGone(a[1..]);
    }
  }

  lemma {:induction false} LinesHaveNoNewline(s: string)
    ensures forall i | 0 <= i < |Split(s)| :: '\n' !in Split(s)[i]
  {
    if s != "" {
      LinesHaveNoNewline(s[1..]);
    }
  }

  /** Joining and splitting: every line comes back, and the empty rest after the last newline. */
  lemma {:induction false} SplitJoined(ls: seq<string>)
    requires forall i | 0 <= i < |ls| :: '\n' !in ls[i]
    ensures Split(Join(ls)) == ls + [""]
  {
    if ls != [] {
      var l, rest := ls[0], ls[1..];
      assert ls == [l] + rest;
      TotalCons(l, rest);
      SplitJoined(rest);
      var s := l + "\n" + Join(rest);
      assert s[|l|] == '\n' && s[..|l|] == l && s[|l| + 1..] == Join(rest);
      SplitAt(s, |l|);
    }
  }

  /** `a` is a contiguous part of `b`. */
  ghost predicate Slice(a: string, b: string) { exists i, j :: 0 <= i <= j <= |b| && a == b[i..j] }

  lemma SliceTwice(a: string, b: string, c: string)
    requires Slice(a, b) && Slice(b, c)
    ensures Slice(a, c)
  {
    var i, j :| 0 <= i <= j <= |b| && a == b[i..j];
    var k, l :| 0 <= k <= l <= |c| && b == c[k..l];
    SliceOfSlice(c, k, l, i, j);
  }

  lemma SliceOfSlice(c: string, k: nat, l: nat, i: nat, j: nat)
    requires k <= l <= |c| && i <= j <= l - k
    ensures c[k..l][i..j] == c[k + i..k + j]
  {
    var a, b := c[k..l][i..j], c[k + i..k + j];
    assert |a| == |b|;
    forall n | 0 <= n < |a| ensures a[n] == b[n] {
      assert a[n] == c[k..l][i + n] == c[k + (i + n)];
    }
  }

  lemma EraseSlice(s: string, n: nat)
    ensures Slice(Erase(s, n), s) && Slice(s, s) && Slice("", s)
  {
    assert s == s[0..|s|] && "" == s[0..0];
    if n <= |s| {
      assert Erase(s, n) == s[n..|s|];
    }
  }

  lemma TrimSlice(s: string)
    ensures Slice(Trim(s), s)
  {
    TrimEndPrefix(s);
    assert s == s[0..|s|] && TrimEnd(s) == s[0..|TrimEnd(s)|];
  }

  /** A cleaned line is a contiguous part of its line, and if visible does not end in a blank. */
  lemma CleanLineSlice(ls: seq<string>, i: nat)
    requires i < |ls|
    ensures Slice(CleanLines(ls)[i], ls[i])
    ensures !Blank(CleanLines(ls)[i]) ==> !Ws(CleanLines(ls)[i][|CleanLines(ls)[i]| - 1])
  {
    hide StarScan, MinLead, Trim, Slice, Lead;
    if i == 0 {
      var s := ls[0][Lead(ls[0])..];
      assert CleanLines(ls)[0] == Trim(s);
      EraseSlice(ls[0], Lead(ls[0]));
      TrimSlice(s);
      SliceTwice(Trim(s), s, ls[0]);
      TrimmedEnd(s);
    } else {
      var later := ls[1..];
      var u := Unstarred(later);
      var o := Outdented(u)[i - 1];
      assert CleanLines(ls)[i] == Trim(o);
      UnstarredSlice(later, i - 1);
      EraseSlice(u[i - 1], if MinLead(u).Some? then MinLead(u).value else 0);
      TrimSlice(o);
      SliceTwice(o, u[i - 1], later[i - 1]);
      SliceTwice(Trim(o), o, later[i - 1]);
      TrimmedEnd(o);
    }
  }

  lemma TrimmedEnd(s: string)
    ensures !Blank(Trim(s)) ==> !Ws(Trim(s)[|Trim(s)| - 1])
  {
    TrimEndPrefix(s);
  }

  lemma UnstarredSlice(later: seq<string>, i: nat)
    requires i < |later|
    ensures Slice(Unstarred(later)[i], later[i])
  {
    hide StarScan, Slice;
    ScanMeans(later, false, 0);
    var sc := StarScan(later, false, 0);
    EraseSlice(later[i], sc.col + 1);
    EraseSlice("", sc.col + 1);
    assert Erase("", sc.col + 1) == "";
  }

  lemma SliceWithin(a: string, b: string, c: char)
    requires Slice(a, b) && c in a
    ensures c in b
  {
  }

  /**
   The lines of the result are the cleaned lines of the comment, one for one: all but a blank last line
   and then a blank first one. Each is a contiguous part of its line with the line's ink, later ones
   without their star.
   */
  lemma LineByLine(doc: string)
    requires Clean(doc).Some?
    ensures var all := Split(RemoveCr(doc));
            var ls := if Blank(all[|all| - 1]) then all[..|all| - 1] else all;
            var out := Split(Clean(doc).value);
            && ls != []
            && var k := if Blank(ls[0]) then 1 else 0;
            && |out| == |ls| - k + 1 && out[|out| - 1] == ""
            && (forall i | 0 <= i < |ls| - k :: out[i] == CleanLines(ls)[i + k] && Slice(out[i], ls[i + k]))
            && (k == 0 ==> Ink(out[0]) == Ink(ls[0]) && Lead(out[0]) == 0)
            && forall i | 0 < i < |ls| :: Ink(out[i - k]) == Bare(ls[i], Starred(ls[1..]))
  {
    hide Split, Join, RemoveCr, Ink, CleanLines, Starred, Slice;
    var ls := Lines(RemoveCr(doc));
    var c := CleanLines(ls);
    LinesHaveNoNewline(RemoveCr(doc));
    forall i | 0 <= i < |c| ensures '\n' !in c[i] && Slice(c[i], ls[i]) {
      CleanLineSlice(ls, i);
      if '\n' in c[i] {
        SliceWithin(c[i], ls[i], '\n');
      }
    }
    SplitJoined(Kept(c));
    FirstLine(ls);
    CleanLinesInk(ls);
    forall i | 0 < i < |ls| ensures Ink(c[i]) == Bare(ls[i], Starred(ls[1..])) {
      LaterInk(ls, i - 1);
      assert c[1..][i - 1] == c[i] && ls[1..][i - 1] == ls[i];
    }
  }

  /** The first line loses its indentation, and is emptied iff it is blank. */
  lemma FirstLine(ls: seq<string>)
    requires ls != []
    ensures CleanLines(ls)[0] == "" <==> Blank(ls[0])
    ensures !Blank(ls[0]) ==> Lead(CleanLines(ls)[0]) == 0
  {
    hide StarScan, MinLead;
    var s := ls[0][Lead(ls[0])..];
    assert CleanLines(ls)[0] == Trim(s);
    if !Blank(ls[0]) {
      assert !Ws(s[0]);
      LeadIs(s, 0);
      LeadAfterTrim(s);
    }
  }

  // ----- Length -----

  /** `a` is `b` with something cut out, or `b` itself. */
  predicate Cut(a: string, b: string) { |a| <= |b| && (|a| == |b| ==> a == b) }

  lemma CutLines(ls: seq<string>, i: nat)
    requires i < |ls|
    ensures Cut(CleanLines(ls)[i], ls[i])
  {
    hide Lead, Unstarred, Outdented, Trim;
    if i == 0 {
      CutTrim(ls[0][Lead(ls[0])..]);
    } else {
      var u := Unstarred(ls[1..]);
      CutUnstarred(ls[1..], i - 1);
      CutOutdented(u, i - 1);
      CutTrim(Outdented(u)[i - 1]);
    }
  }

  lemma CutUnstarred(later: seq<string>, i: nat)
    requires i < |later|
    ensures Cut(Unstarred(later)[i], later[i])
  {
    hide StarScan;
    ScanMeans(later, false, 0);
  }

  lemma CutOutdented(ls: seq<string>, i: nat)
    requires i < |ls|
    ensures Cut(Outdented(ls)[i], ls[i])
  {
  }

  lemma CutTrim(s: string)
    ensures Cut(Trim(s), s)
  {
    TrimEndPrefix(s);
  }

  /** The length of the joined lines. */
  function Total(ls: seq<string>): nat {
    if ls == [] then 0 else Total(ls[..|ls| - 1]) + |ls[|ls| - 1]| + 1
  }

  lemma {:induction false} JoinLength(ls: seq<string>)
    ensures |Join(ls)| == Total(ls)
  {
    if ls != [] {
      JoinLength(ls[..|ls| - 1]);
    }
  }

  lemma {:induction false} TotalCons(l: string, ls: seq<string>)
    ensures Total([l] + ls) == |l| + 1 + Total(ls)
    ensures Join([l] + ls) == l + "\n" + Join(ls)
  {
    if ls == [] {
      assert [l] + ls == [l] && [l][..0] == [];
    } else {
      var n := |ls| - 1;
      TotalCons(l, ls[..n]);
      assert ([l] + ls)[..n + 1] == [l] + ls[..n] && ([l] + ls)[n + 1] == ls[n];
    }
  }

  lemma {:induction false} JoinSplit(s: string)
    ensures Join(Split(s)) == s + "\n"
  {
    hide Join;
    if s == "" {
      JoinOne("");
    } else {
      var rest := Split(s[1..]);
      JoinSplit(s[1..]);
      assert s == [s[0]] + s[1..];
      if s[0] == '\n' {
        TotalCons("", rest);
        assert s[..1] == "\n";
      } else {
        assert rest == [rest[0]] + rest[1..];
        TotalCons(rest[0], rest[1..]);
        TotalCons([s[0]] + rest[0], rest[1..]);
        assert [s[0]] + rest[0] + "\n" + Join(rest[1..]) == [s[0]] + (rest[0] + "\n" + Join(rest[1..]));
        assert [s[0]] + (s[1..] + "\n") == s + "\n";
      }
    }
  }

  lemma JoinOne(l: string)
    ensures Join([l]) == l + "\n"
  {
    TotalCons(l, []);
    assert [l] + [] == [l];
  }

  lemma {:induction false} CutTotal(a: seq<string>, b: seq<string>)
    requires |a| == |b| && forall i | 0 <= i < |a| :: Cut(a[i], b[i])
    ensures Total(a) <= Total(b) && (Total(a) == Total(b) ==> a == b)
  {
    if a != [] {
      var n := |a| - 1;
      CutTotal(a[..n], b[..n]);
      assert a == a[..n] + [a[n]] && b == b[..n] + [b[n]];
    }
  }

  lemma {:induction false} CrShortens(s: string)
    ensures |RemoveCr(s)| <= |s| && (|RemoveCr(s)| == |s| ==> RemoveCr(s) == s && '\r' !in s)
    ensures '\r' !in s ==> RemoveCr(s) == s
  {
    if s != "" {
      CrShortens(s[1..]);
      assert s == [s[0]] + s[1..];
    }
  }

  lemma LinesLength(s: string)
    ensures var ls := Lines(s);
            if ls == Split(s) then Total(ls) == |s| + 1 && Join(ls) == s + "\n" else Total(ls) <= |s|
  {
    var all := Split(s);
    JoinSplit(s);
    JoinLength(all);
  }

  /** The cleaned text is at most one character longer than the input, and longer only if it is the
      input with a newline added. */
  lemma LongerOnlyByNewline(doc: string)
    requires Clean(doc).Some?
    ensures var out := Clean(doc).value;
            |out| <= |doc| + 1 && (|out| > |doc| <==> out == doc + "\n")
            && (|out| > |doc| ==> CleanLines(Split(doc)) == Split(doc) && Split(doc)[0] != "" && Lines(doc) == Split(doc) && '\r' !in doc)
  {
    hide Join, Split, Total, CleanLines, RemoveCr, Lines;
    var d := RemoveCr(doc);
    var ls := Lines(d);
    var c := CleanLines(ls);
    CrShortens(doc);
    LinesLength(d);
    forall i | 0 <= i < |ls| ensures Cut(c[i], ls[i]) {
      CutLines(ls, i);
    }
    CutTotal(c, ls);
    assert c == [c[0]] + c[1..];
    TotalCons(c[0], c[1..]);
    JoinLength(Kept(c));
    JoinLength(c);
  }

  /** Every nonempty line of blanks stands after lines that do not share a star column. */
  ghost predicate Tidy(ls: seq<string>) {
    forall i | 0 <= i < |ls| && Blank(ls[i]) && ls[i] != "" :: !Starred(ls[..i])
  }

  /** No visible line ends in a blank. */
  predicate Trimmed(ls: seq<string>) { forall i | 0 <= i < |ls| :: Blank(ls[i]) || !Ws(ls[i][|ls[i]| - 1]) }

  /** Some visible line is not indented. */
  predicate Flush(ls: seq<string>) { exists i :: 0 <= i < |ls| && !Blank(ls[i]) && Lead(ls[i]) == 0 }

  /** A comment the cleaning leaves as it is: no carriage return, no blank last line, nothing before
      the first visible character, no trailing blanks, and later lines that have no star column, no
      common indentation, and a nonempty line of blanks only after a line that breaks the column. */
  ghost predicate AlreadyClean(doc: string) {
    var ls := Split(doc);
    && '\r' !in doc && !Blank(ls[|ls| - 1])
    && ls[0] != "" && Lead(ls[0]) == 0
    && Trimmed(ls)
    && (|ls| > 1 ==> !Starred(ls[1..]) && Flush(ls[1..]) && Tidy(ls[1..]))
  }

  lemma TrimIdle(s: string)
    ensures Trim(s) == s <==> Blank(s) || !Ws(s[|s| - 1])
  {
    TrimEndPrefix(s);
  }

  /** Exactly a text that is already clean comes out longer. */
  lemma BoundFailsIff(doc: string)
    requires Clean(doc).Some?
    ensures |Clean(doc).value| > |doc| <==> AlreadyClean(doc)
  {
    hide Split, StarScan, MinLead, Join, Trim, RemoveCr, CleanLines;
    LongerOnlyByNewline(doc);
    var ls := Split(doc);
    if |Clean(doc).value| > |doc| {
      IdleLines(ls);
    }
    if AlreadyClean(doc) {
      CrShortens(doc);
      IdleLines(ls);
      JoinSplit(doc);
      assert |Clean(doc).value| == |doc + "\n"|;
    }
  }

  /** The line passes change nothing exactly under the conditions of AlreadyClean. */
  lemma IdleLines(ls: seq<string>)
    requires ls != [] && ls[0] != "" && !Blank(ls[|ls| - 1])
    ensures CleanLines(ls) == ls <==>
            && Lead(ls[0]) == 0
            && Trimmed(ls)
            && (|ls| > 1 ==> !Starred(ls[1..]) && Flush(ls[1..]) && Tidy(ls[1..]))
  {
    hide StarScan, MinLead, Trim, Unstarred, Outdented, Starred, Flush, Tidy, Trimmed, TrimAll;
    var c, later := CleanLines(ls), ls[1..];
    var first := ls[0][Lead(ls[0])..];
    CutTrim(first);
    TrimIdle(ls[0]);
    CleanParts(ls);
    assert c[0] == ls[0] <==> Lead(ls[0]) == 0 && Trim(ls[0]) == ls[0];
    assert c == [c[0]] + c[1..] && ls == [ls[0]] + later;
    TrimmedCons(ls);
    if |ls| > 1 {
      IdleLater(later);
    }
  }

  lemma CleanParts(ls: seq<string>)
    requires ls != []
    ensures CleanLines(ls)[0] == Trim(ls[0][Lead(ls[0])..])
    ensures CleanLines(ls)[1..] == TrimAll(Outdented(Unstarred(ls[1..])))
  {
    hide Unstarred, Outdented, Trim;
  }

  lemma TrimmedCons(ls: seq<string>)
    requires ls != []
    ensures Trimmed(ls) <==> (Blank(ls[0]) || !Ws(ls[0][|ls[0]| - 1])) && Trimmed(ls[1..])
    ensures |ls| == 1 ==> Trimmed(ls[1..])
  {
    hide Blank;
    assert forall i | 0 < i < |ls| :: ls[i] == ls[1..][i - 1];
    assert forall i | 0 <= i < |ls| - 1 :: ls[1..][i] == ls[i + 1];
  }

  lemma IdleLater(later: seq<string>)
    requires later != [] && !Blank(later[|later| - 1])
    ensures TrimAll(Outdented(Unstarred(later))) == later <==>
            && !Starred(later) && Tidy(later) && Flush(later)
            && Trimmed(later)
  {
    hide StarScan, MinLead, Trim, Unstarred, Outdented, Starred, Flush, Tidy;
    var u := Unstarred(later);
    var o := Outdented(u);
    var c := TrimAll(o);
    forall i | 0 <= i < |later|
      ensures c[i] == later[i] <==> u[i] == later[i] && o[i] == u[i] && Trim(later[i]) == later[i]
      ensures Trim(later[i]) == later[i] <==> Blank(later[i]) || !Ws(later[i][|later[i]| - 1])
    {
      CutUnstarred(later, i);
      CutOutdented(u, i);
      CutTrim(o[i]);
      TrimIdle(later[i]);
    }
    IdleStars(later);
    if u == later {
      IdleIndent(later);
    }
  }

  lemma IdleStars(later: seq<string>)
    requires later != [] && !Blank(later[|later| - 1])
    ensures Unstarred(later) == later <==> !Starred(later) && Tidy(later)
  {
    hide StarScan, Lead, Starred, Blank, Unstarred, Tidy;
    HaveMeans(later);
    TidyMeans(later);
    if StarScan(later, false, 0).have {
      LastShortened(later);
    } else {
      NotErased(later);
    }
  }

  /** The scan reaches line `i` and clears it. */
  ghost predicate Cleared(ls: seq<string>, i: nat, found: bool, col: nat)
    requires i < |ls|
  {
    Blank(ls[i]) && ls[i] != "" && exists c :: AllStarred(ls[..i], c) && (found ==> c == col)
  }

  /** The scan for stars clears nothing exactly when the lines are tidy. */
  lemma TidyMeans(ls: seq<string>)
    ensures StarScan(ls, false, 0).lines == ls <==> Tidy(ls)
  {
    hide StarScan, AllStarred, Lead;
    ScanIdle(ls, false, 0);
    assert forall i | 0 <= i < |ls| :: Cleared(ls, i, false, 0) <==> Blank(ls[i]) && ls[i] != "" && Starred(ls[..i]);
  }

  lemma {:induction false} ScanIdle(ls: seq<string>, found: bool, col: nat)
    ensures StarScan(ls, found, col).lines == ls <==> forall i | 0 <= i < |ls| :: !Cleared(ls, i, found, col)
  {
    hide StarScan, Lead, Cleared;
    ScanUnfolds(ls, found, col);
    if ls != [] {
      var tail := ls[1..];
      assert ls == [ls[0]] + tail;
      HeadCleared(ls, found, col);
      forall i | 0 < i < |ls|
        ensures Cleared(ls, i, found, col) <==>
                if Blank(ls[0]) then Cleared(tail, i - 1, found, col)
                else ls[0][Lead(ls[0])] == '*' && (found ==> Lead(ls[0]) == col) && Cleared(tail, i - 1, true, Lead(ls[0]))
      {
        TailCleared(ls, i, found, col);
      }
      assert forall i | 0 <= i < |tail| :: tail[i] == ls[i + 1];
      if Blank(ls[0]) {
        ScanIdle(tail, found, col);
        Shifted(ls, found, col, found, col);
      } else if ls[0][Lead(ls[0])] == '*' && (found ==> Lead(ls[0]) == col) {
        ScanIdle(tail, true, Lead(ls[0]));
        Shifted(ls, found, col, true, Lead(ls[0]));
      }
    }
  }

  lemma Shifted(ls: seq<string>, found: bool, col: nat, found2: bool, col2: nat)
    requires ls != [] && forall i | 0 < i < |ls| :: Cleared(ls, i, found, col) <==> Cleared(ls[1..], i - 1, found2, col2)
    ensures (forall i | 0 < i < |ls| :: !Cleared(ls, i, found, col)) <==>
            forall i | 0 <= i < |ls[1..]| :: !Cleared(ls[1..], i, found2, col2)
  {
    hide Cleared;
    forall i | 0 <= i < |ls[1..]| ensures Cleared(ls[1..], i, found2, col2) <==> Cleared(ls, i + 1, found, col) {
    }
  }

  lemma HeadCleared(ls: seq<string>, found: bool, col: nat)
    requires ls != []
    ensures Cleared(ls, 0, found, col) <==> Blank(ls[0]) && ls[0] != ""
  {
    assert AllStarred(ls[..0], col);
  }

  lemma TailCleared(ls: seq<string>, i: nat, found: bool, col: nat)
    requires 0 < i < |ls|
    ensures Cleared(ls, i, found, col) <==>
            if Blank(ls[0]) then Cleared(ls[1..], i - 1, found, col)
            else ls[0][Lead(ls[0])] == '*' && (found ==> Lead(ls[0]) == col) && Cleared(ls[1..], i - 1, true, Lead(ls[0]))
  {
    hide Lead, AllStarred;
    forall c: nat
      ensures AllStarred(ls[..i], c) <==>
              (Blank(ls[0]) || (Lead(ls[0]) == c && ls[0][c] == '*')) && AllStarred(ls[1..][..i - 1], c)
    {
      StarredCons(ls, i, c);
    }
    var n, tail := Lead(ls[0]), ls[1..];
    var before := tail[..i - 1];
    assert tail[i - 1] == ls[i];
    if Blank(ls[0]) {
      if c :| AllStarred(ls[..i], c) && (found ==> c == col) {
        assert AllStarred(tail[..i - 1], c);
      }
      if c :| AllStarred(before, c) && (found ==> c == col) {
        assert AllStarred(ls[..i], c);
      }
    } else {
      if c :| AllStarred(ls[..i], c) && (found ==> c == col) {
        assert AllStarred(tail[..i - 1], c) && c == n;
      }
      if AllStarred(tail[..i - 1], n) && ls[0][n] == '*' {
        assert AllStarred(ls[..i], n);
      }
    }
  }

  lemma StarredCons(ls: seq<string>, i: nat, c: nat)
    requires 0 < i < |ls|
    ensures AllStarred(ls[..i], c) <==>
            (Blank(ls[0]) || (Lead(ls[0]) == c && ls[0][c] == '*')) && AllStarred(ls[1..][..i - 1], c)
  {
    hide Lead, Blank;
    var a, b := ls[..i], ls[1..][..i - 1];
    assert a == [ls[0]] + b;
    assert a[0] == ls[0] && forall k | 0 <= k < |b| :: b[k] == a[k + 1];
  }

  lemma LastShortened(later: seq<string>)
    requires later != [] && !Blank(later[|later| - 1]) && StarScan(later, false, 0).have
    ensures |Unstarred(later)[|later| - 1]| < |later[|later| - 1]|
  {
    hide StarScan;
    ScanMeans(later, false, 0);
    assert later[|later| - 1] != "";
  }

  lemma NotErased(later: seq<string>)
    requires !StarScan(later, false, 0).have
    ensures Unstarred(later) == StarScan(later, false, 0).lines
  {
  }

  lemma HaveMeans(later: seq<string>)
    ensures StarScan(later, false, 0).have <==> Starred(later)
  {
    hide StarScan, Lead, AllStarred;
    ScanMeans(later, false, 0);
    var sc := StarScan(later, false, 0);
    if sc.have {
      assert AllStarred(later, sc.col);
    }
  }

  lemma IdleIndent(ls: seq<string>)
    requires ls != [] && !Blank(ls[|ls| - 1])
    ensures Outdented(ls) == ls <==> Flush(ls)
  {
    MinMeans(ls);
    var n := |ls| - 1;
    if MinLead(ls).Some? && MinLead(ls).value > 0 {
      assert |Outdented(ls)[n]| < |ls[n]|;
    } else if MinLead(ls).Some? {
      assert forall i | 0 <= i < |ls| :: Outdented(ls)[i] == ls[i];
    }
  }

  /** The shortest text that comes out longer. */
  lemma OneLetterFails()
    ensures Clean("a") == Some("a\n")
  {
    hide Split, RemoveCr, CleanLines, StarScan, Join, Trim, Starred;
    SplitWhole("a");
    CrShortens("a");
    assert !Blank("a") && Lines("a") == ["a"];
    assert AlreadyClean("a");
    LongerOnlyByNewline("a");
    BoundFailsIff("a");
    assert "a" + "\n" == "a\n";
  }

  // ----- The caller -----

  lemma {:induction false} SplitLast(s: string)
    requires s != "" && s[|s| - 1] != '\n'
    ensures var l := Split(s)[|Split(s)| - 1]; l != "" && l[|l| - 1] == s[|s| - 1]
  {
    if |s| > 1 {
      SplitLast(s[1..]);
    } else {
      SplitWhole(s);
    }
  }

  /** A text that ends in a blank never comes out longer. */
  lemma BlankEndKeepsBound(doc: string)
    requires doc != "" && Ws(doc[|doc| - 1]) && Clean(doc).Some?
    ensures |Clean(doc).value| <= |doc|
  {
    hide Split, Clean, Starred;
    BoundFailsIff(doc);
    SplitLast(doc);
  }

  /** The lexer's action on a doc comment: the text after the opening, with the closing star replaced by
      a blank and the slash dropped, is cleaned in place. It fits where it was, so the assertion before
      the copy holds; nothing is left exactly of a comment that is one line of blanks. */
  method ScanDocText(yytext: string) returns (r: Option<string>)
    requires |yytext| >= 5 && "/**" <= yytext && yytext[|yytext| - 2..] == "*/"
    ensures r == Clean(yytext[3..|yytext| - 2] + " ")
    ensures r.Some? ==> |r.value| <= |yytext[3..]| - 1
    ensures r.None? <==> Blank(RemoveCr(yytext[3..|yytext| - 2] + " "))
  {
    hide Clean, RemoveCr, Blank;
    var doctext := yytext[3..];
    doctext := doctext[|doctext| - 2 := ' '];
    doctext := doctext[..|doctext| - 1];
    assert doctext == yytext[3..|yytext| - 2] + " ";
    r := CleanUp(doctext);
    NullHasNoInk(doctext);
    if r.Some? {
      BlankEndKeepsBound(doctext);
    }
  }
}
