/**
 The annotation that declares a derived statistic of a UVE: its grammar, and the string surgery
 that takes it apart.
 */
module Annotation {
  import opened Wrappers
  import opened Search
  import opened Material

  /** period.prealgo-raw.comp.sub:algo:args, where -1 and "" mean absent. */
  datatype Anno = Anno(period: int, prealgo: string, raw: string, comp: string, sub: string, algo: string, args: string)

  /** What precedes and what follows the first `c`; the second part is None if there is none. */
  function Halves(s: string, c: char): (string, Option<string>) {
    var k := Find(s, c);
    (s[..k], if k == |s| then None else Some(s[k + 1..]))
  }

  function Or(o: Option<string>, s: string): string { if o.Some? then o.value else s }

  /** The digits a text starts with. */
  function Digits(s: string): string {
    if s == "" || !('0' <= s[0] <= '9') then "" else [s[0]] + Digits(s[1..])
  }

  /** isspace */
  predicate IsSpace(c: char) { c == ' ' || '\t' <= c <= '\r' }

  function SkipSpace(s: string): string {
    if s != "" && IsSpace(s[0]) then SkipSpace(s[1..]) else s
  }

  /** atoi: blanks, a sign, digits. */
  function Atoi(s: string): int {
    var t := SkipSpace(s);
    if t != "" && t[0] == '-' then -NatOf(Digits(t[1..]))
    else if t != "" && t[0] == '+' then NatOf(Digits(t[1..]))
    else NatOf(Digits(t))
  }

  /** The string surgery of derived_stats_info. Without a colon, substr(npos + 1) is the whole text. */
  function ParseAnno(s: string): Anno {
    var (head, after) := Halves(s, ':');
    var (algo, args) := Halves(Or(after, s), ':');
    var (pre, rest) := Halves(head, '-');
    var (per, prealgo) := Halves(pre, '.');
    var full := Or(rest, head);
    var (raw, path) := Halves(full, '.');
    var (comp, sub) := Halves(Or(path, ""), '.');
    if rest.Some? then Anno(Atoi(per), Or(prealgo, ""), raw, comp, Or(sub, ""), algo, Or(args, ""))
    else Anno(-1, "", raw, comp, Or(sub, ""), algo, Or(args, ""))
  }

  lemma AtoiVectors()
    ensures Atoi("12.x") == 12 && Atoi("-5") == -5 && Atoi(" +7") == 7 && Atoi("x") == 0
  {
    assert Digits("12.x") == "12" by { assert Digits("2.x") == "2"; }
    assert NatOf("12") == 12 by { assert "12"[..1] == "1" && NatOf("1") == 1; }
    assert SkipSpace(" +7") == "+7" && "+7"[1..] == "7" && "-5"[1..] == "5";
    assert Digits("7") == "7" && Digits("5") == "5";
    assert NatOf("7") == 7 && NatOf("5") == 5 && Digits("x") == "";
  }

  /** No minus sign reaches atoi, so a parsed period is never negative but for the mark of absence. */
  lemma ParsedPeriod(s: string)
    ensures ParseAnno(s).period >= -1
  {
    hide NatOf, Atoi;
    var pre := Halves(Halves(s, ':').0, '-').0;
    var per := Halves(pre, '.').0;
    assert '-' !in pre;
    assert '-' !in per by {
      assert forall c | c in per :: c in pre;
    }
    NoSign(per);
  }

  lemma NoSign(t: string)
    requires '-' !in t
    ensures Atoi(t) >= 0
  {
    hide NatOf, Digits;
    var u := SkipSpace(t);
    SpaceSuffix(t);
    DigitsOnly(u);
    DecimalNonneg(Digits(u));
    if u != "" {
      DigitsOnly(u[1..]);
      DecimalNonneg(Digits(u[1..]));
    }
  }

  lemma {:induction false} SpaceSuffix(t: string)
    ensures forall c | c in SkipSpace(t) :: c in t
  {
    if t != "" && IsSpace(t[0]) {
      SpaceSuffix(t[1..]);
    }
  }

  lemma {:induction false} DigitsOnly(t: string)
    ensures forall i | 0 <= i < |Digits(t)| :: '0' <= Digits(t)[i] <= '9'
  {
    if t != "" {
      DigitsOnly(t[1..]);
    }
  }

  lemma {:induction false} DecimalNonneg(t: string)
    requires forall i | 0 <= i < |t| :: '0' <= t[i] <= '9'
    ensures NatOf(t) >= 0
  {
    if t != "" {
      DecimalNonneg(t[..|t| - 1]);
    }
  }

  /** Without a colon the whole text is the algorithm, and is also taken apart as the rest. */
  lemma NoColon(s: string)
    requires ':' !in s
    ensures ParseAnno(s).algo == s && ParseAnno(s).args == ""
    ensures '-' !in s && '.' !in s ==> ParseAnno(s) == Anno(-1, "", s, "", "", s, "")
  {
    hide NatOf, Atoi;
    FindNone(s, ':');
    if '-' !in s && '.' !in s {
      FindNone(s, '-');
      FindNone(s, '.');
      FindNone("", '.');
    }
  }

  function After(sep: string, s: string): string { if s == "" then "" else sep + s }

  function PrintPath(a: Anno): string { a.raw + After(".", a.comp + After(".", a.sub)) }

  function PrintPeriod(a: Anno): string
    requires a.period >= 0
  {
    PrintNat(a.period) + After(".", a.prealgo)
  }

  function PrintHead(a: Anno): string {
    if a.period < 0 then PrintPath(a) else PrintPeriod(a) + "-" + PrintPath(a)
  }

  function PrintAnno(a: Anno): string { PrintHead(a) + ":" + (a.algo + After(":", a.args)) }

  predicate Free(s: string, cs: string) { forall c | c in cs :: c !in s }

  predicate GoodAnno(a: Anno) {
    && Free(a.raw, ":-.") && Free(a.comp, ":-.") && Free(a.sub, ":-") && Free(a.prealgo, ":-") && Free(a.algo, ":")
    && (a.comp == "" ==> a.sub == "")
    && a.period >= -1 && (a.period == -1 ==> a.prealgo == "")
  }

  lemma FindSplit(a: string, c: char, b: string)
    requires c !in a
    ensures Halves(a + [c] + b, c) == (a, Some(b))
  {
    var s := a + [c] + b;
    FindAt(s, c, |a|);
    assert s[..|a|] == a && s[|a| + 1..] == b;
  }

  lemma {:induction false} FindAt(s: string, c: char, k: nat)
    requires k < |s| && s[k] == c && forall i | 0 <= i < k :: s[i] != c
    ensures Find(s, c) == k
  {
    if k > 0 {
      FindAt(s[1..], c, k - 1);
    }
  }

  lemma FindNone(a: string, c: char)
    requires c !in a
    ensures Halves(a, c) == (a, None)
  {
    assert a[..|a|] == a;
  }

  /** An optional tail after a separator is recovered, "" standing for its absence. */
  lemma TailBack(a: string, c: char, b: string)
    requires c !in a
    ensures Halves(a + After([c], b), c).0 == a && Or(Halves(a + After([c], b), c).1, "") == b
  {
    if b == "" {
      assert a + "" == a;
      FindNone(a, c);
    } else {
      assert a + ([c] + b) == a + [c] + b;
      FindSplit(a, c, b);
    }
  }

  lemma {:induction false} DigitsAll(s: string)
    requires forall i | 0 <= i < |s| :: '0' <= s[i] <= '9'
    ensures Digits(s) == s
  {
    if s != "" {
      DigitsAll(s[1..]);
    }
  }

  lemma NumberText(n: nat)
    ensures Atoi(PrintNat(n)) == n && Free(PrintNat(n), ":-.")
  {
    NatInverse(n);
    var s := PrintNat(n);
    forall i | 0 <= i < |s| ensures '0' <= s[i] <= '9' {
      assert s[i] in s;
    }
    DigitsAll(s);
  }

  lemma FreeJoin(a: string, b: string, cs: string)
    requires Free(a, cs) && Free(b, cs)
    ensures Free(a + b, cs)
  {
  }

  lemma FreeAfter(s: string, cs: string)
    requires Free(s, cs) && '.' !in cs
    ensures Free(After(".", s), cs)
  {
  }

  lemma PeriodBack(a: Anno)
    requires GoodAnno(a) && a.period >= 0
    ensures var (per, prealgo) := Halves(PrintPeriod(a), '.');
            Atoi(per) == a.period && Or(prealgo, "") == a.prealgo
    ensures Free(PrintPeriod(a), ":-")
  {
    hide Atoi, PrintNat;
    NumberText(a.period);
    TailBack(PrintNat(a.period), '.', a.prealgo);
    FreeAfter(a.prealgo, ":-");
    FreeJoin(PrintNat(a.period), After(".", a.prealgo), ":-");
  }

  lemma PathBack(a: Anno)
    requires GoodAnno(a)
    ensures var (raw, path) := Halves(PrintPath(a), '.');
            var (comp, sub) := Halves(Or(path, ""), '.');
            raw == a.raw && comp == a.comp && Or(sub, "") == a.sub
    ensures Free(PrintPath(a), ":-")
  {
    TailBack(a.raw, '.', a.comp + After(".", a.sub));
    TailBack(a.comp, '.', a.sub);
    FreeAfter(a.sub, ":-");
    FreeJoin(a.comp, After(".", a.sub), ":-");
    FreeAfter(a.comp + After(".", a.sub), ":-");
    FreeJoin(a.raw, After(".", a.comp + After(".", a.sub)), ":-");
  }

  /** Parsing a printed annotation recovers every part. */
  lemma AnnoRoundTrip(a: Anno)
    requires GoodAnno(a)
    ensures ParseAnno(PrintAnno(a)) == a
  {
    hide PrintPeriod, PrintPath, Atoi, Find;
    PathBack(a);
    if a.period >= 0 {
      PeriodBack(a);
      FindSplit(PrintPeriod(a), '-', PrintPath(a));
    } else {
      FindNone(PrintPath(a), '-');
    }
    assert Free(PrintHead(a), ":");
    FindSplit(PrintHead(a), ':', a.algo + After(":", a.args));
    TailBack(a.algo, ':', a.args);
  }
}
