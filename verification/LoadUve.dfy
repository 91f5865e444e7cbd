/**
 The emitted LoadUVE: which members stay set, which statistics are flushed and whether to send,
 for each kind of load. The emitted code is chosen by category; the rules proved here are in
 terms of the annotations the categories come from.
 */
module LoadUve {
  import opened Wrappers
  import Annotation
  import opened DerivedStats

  datatype SendType = Sync | Introspect | PeriodicLoad

  /** What the statistics' own objects answer: IsResult, and the flag FillResult leaves. */
  datatype Answers = Answers(results: set<string>, fills: set<string>)

  type Maps = (map<string, Cat>, map<string, DSInfo>)

  // ----- The two maps together -----

  /** Every member is in exactly one of the maps, under a category the generator handles there. */
  ghost predicate Classified(m: Maps, ms: seq<Field>, periodic: bool) {
    && m.0.Keys == PlainNames(ms) && m.1.Keys == StatNames(ms)
    && (forall f | f in ms && !IsStat(f) :: f.name !in m.1 && PlainCat(f, m.0[f.name]))
    && (forall f | f in ms && IsStat(f) :: f.name !in m.0 && Describes(m.1[f.name], ms, periodic, f))
  }

  /** Both passes over the struct, as the updater generator runs them. */
  method Classify(ms: seq<Field>, periodic: bool) returns (r: Option<(Maps, RawMap)>)
    requires DistinctNames(ms)
    ensures r.Some? <==> (forall f | f in ms :: PlainOk(f)) && (forall f | f in ms && IsStat(f) :: StatOk(ms, periodic, f))
    ensures r.Some? ==> Classified(r.value.0, ms, periodic) && Inverts(r.value.1, ms)
  {
    hide StatOk, Describes, PlainCat, Inverts;
    var d := DerivedStatsInfo(ms, periodic);
    if d.None? {
      return None;
    }
    var c := CacheAttrInfo(ms);
    if c.None? {
      return None;
    }
    NamesApart(ms);
    return Some(((c.value, d.value.0), d.value.1));
  }

  lemma NamesApart(ms: seq<Field>)
    requires DistinctNames(ms)
    ensures StatNames(ms) !! PlainNames(ms)
  {
  }

  // ----- The emitted code -----

  predicate Due(period: int, cycle: nat) { period > 0 && cycle % period == 0 }

  /** The flag of one member after the load, by category. */
  predicate Flag(m: Maps, n: string, st: SendType, cycle: nat, ans: Answers, was: bool) {
    if n in m.1 then
      if n !in ans.results then was
      else
        n in ans.fills &&
        match m.1[n].cat {
          case Mandatory => was
          case Hidden => st == Introspect
          case HiddenPer => st == Introspect
          case Inline => st != PeriodicLoad
          case Periodic => st == Introspect || (st == PeriodicLoad && Due(m.1[n].period, cycle))
        }
    else if n in m.0 then
      was && (m.0[n] == Hidden ==> st == Introspect) && (m.0[n] == Inline ==> st != PeriodicLoad)
    else was
  }

  /** A statistic with a result is flushed on a periodic load at a multiple of its period. */
  predicate Flushes(m: Maps, n: string, st: SendType, cycle: nat, ans: Answers) {
    st == PeriodicLoad && n in m.1 && n in ans.results && m.1[n].cat in {Periodic, HiddenPer} && Due(m.1[n].period, cycle)
  }

  function Names(ms: seq<Field>): set<string> { set f | f in ms :: f.name }

  /** The members the emitted code touches. */
  function Touched(ms: seq<Field>): set<string> { Names(ms) - {"deleted"} }

  function Put(s: set<string>, n: string, b: bool): set<string> { if b then s + {n} else s - {n} }

  /** The flags and the flushes after loading the named members. */
  ghost predicate After(m: Maps, ns: set<string>, st: SendType, cycle: nat, ans: Answers,
                        set0: set<string>, flush0: set<string>, set1: set<string>, flush1: set<string>) {
    && (forall n :: n in set1 <==> if n in ns then Flag(m, n, st, cycle, ans, n in set0) else n in set0)
    && (forall n :: n in flush1 <==> n in flush0 || (n in ns && Flushes(m, n, st, cycle, ans)))
  }

  lemma AfterOne(m: Maps, ns: set<string>, n: string, st: SendType, cycle: nat, ans: Answers,
                 set0: set<string>, flush0: set<string>, set1: set<string>, flush1: set<string>)
    requires After(m, ns, st, cycle, ans, set0, flush0, set1, flush1) && n !in ns
    ensures After(m, ns + {n}, st, cycle, ans, set0, flush0, Put(set1, n, Flag(m, n, st, cycle, ans, n in set1)),
                  if Flushes(m, n, st, cycle, ans) then flush1 + {n} else flush1)
  {
    hide Flag, Flushes;
  }

  /** The periodic statistics the emitted code looks at. */
  predicate Counts(m: Maps, n: string, ans: Answers) { n in m.1 && n in ans.results && m.1[n].cat == Periodic }

  ghost predicate AnyDue(m: Maps, ns: set<string>, ans: Answers, isset: set<string>) {
    exists n | n in ns :: Counts(m, n, ans) && n in isset
  }

  lemma AnyDueMore(m: Maps, ns: set<string>, n: string, ans: Answers, isset: set<string>, b: bool)
    requires n !in ns
    ensures AnyDue(m, ns + {n}, ans, Put(isset, n, b)) <==> AnyDue(m, ns, ans, isset) || (Counts(m, n, ans) && b)
  {
    hide Counts;
    if k :| k in ns && Counts(m, k, ans) && k in isset {
      assert k in ns + {n} && k in Put(isset, n, b);
    }
    if Counts(m, n, ans) && b {
      assert n in ns + {n} && n in Put(isset, n, b);
    }
  }

  class Data {
    var isset: set<string>
    var flushed: set<string>
    var deleted: bool

    constructor (isset: set<string>, deleted: bool)
      ensures this.isset == isset && this.deleted == deleted && flushed == {}
    {
      this.isset, this.deleted, flushed := isset, deleted, {};
    }

    /** The code emitted for one statistic that has a result. */
    method LoadStat(n: string, d: DSInfo, st: SendType, cycle: nat, fill: bool)
      requires d.cat != Mandatory && (d.cat in {Periodic, HiddenPer} ==> d.period > 0)
      modifies this`isset, this`flushed
      ensures forall m: Maps, ans: Answers | n in m.1 && m.1[n] == d && n in ans.results && (n in ans.fills <==> fill) ::
                && isset == Put(old(isset), n, Flag(m, n, st, cycle, ans, n in old(isset)))
                && flushed == if Flushes(m, n, st, cycle, ans) then old(flushed) + {n} else old(flushed)
    {
      match d.cat {
        case Hidden => isset := if st != Introspect then isset - {n} else Put(isset, n, fill);
        case HiddenPer =>
          if st == PeriodicLoad {
            if cycle % d.period == 0 {
              flushed := flushed + {n};
            }
            isset := isset - {n};
          } else {
            isset := if st == Sync then isset - {n} else Put(isset, n, fill);
          }
        case Inline => isset := if st == PeriodicLoad then isset - {n} else Put(isset, n, fill);
        case Periodic =>
          if st == PeriodicLoad {
            if cycle % d.period == 0 {
              flushed := flushed + {n};
              isset := Put(isset, n, fill);
            } else {
              isset := isset - {n};
            }
          } else {
            isset := if st == Sync then isset - {n} else Put(isset, n, fill);
          }
      }
    }

    /** The code emitted for one member; the result is its share of is_periodic_attr. */
    method LoadMember(n: string, m: Maps, st: SendType, cycle: nat, ans: Answers) returns (due: bool)
      requires n in m.1 || n in m.0
      requires n in m.1 ==> m.1[n].cat != Mandatory && (m.1[n].cat in {Periodic, HiddenPer} ==> m.1[n].period > 0)
      requires n !in m.1 ==> m.0[n] in {Mandatory, Hidden, Inline}
      modifies this`isset, this`flushed
      ensures isset == Put(old(isset), n, Flag(m, n, st, cycle, ans, n in old(isset)))
      ensures flushed == if Flushes(m, n, st, cycle, ans) then old(flushed) + {n} else old(flushed)
      ensures due <==> Counts(m, n, ans) && n in isset
    {
      due := false;
      if n !in m.1 {
        if n in isset {
          if m.0[n] == Hidden {
            isset := if st != Introspect then isset - {n} else isset;
          } else if m.0[n] == Inline {
            isset := if st == PeriodicLoad then isset - {n} else isset;
          }
        }
      } else if n in ans.results {
        LoadStat(n, m.1[n], st, cycle, n in ans.fills);
        due := m.1[n].cat == Periodic && n in isset;
      }
    }

    /** The whole of LoadUVE; the result says whether to send. */
    method Load(ms: seq<Field>, ghost periodic: bool, m: Maps, st: SendType, cycle: nat, ans: Answers) returns (send: bool)
      requires DistinctNames(ms) && Classified(m, ms, periodic)
      modifies this`isset, this`flushed
      ensures After(m, Touched(ms), st, cycle, ans, old(isset), old(flushed), isset, flushed)
      ensures send <==> st != PeriodicLoad || deleted || AnyDue(m, Touched(ms), ans, isset)
    {
      hide After, Flag, Flushes, Counts, AnyDue, Classified;
      var isPeriodic := false;
      NothingLoaded(m, ms, st, cycle, ans, isset, flushed);
      for i := 0 to |ms|
        invariant After(m, Touched(ms[..i]), st, cycle, ans, old(isset), old(flushed), isset, flushed)
        invariant isPeriodic <==> AnyDue(m, Touched(ms[..i]), ans, isset)
      {
        var n := ms[i].name;
        OneMore(ms, i);
        if n == "deleted" {
          continue;
        }
        Lookup(m, ms, periodic, ms[i]);
        AfterOne(m, Touched(ms[..i]), n, st, cycle, ans, old(isset), old(flushed), isset, flushed);
        AnyDueMore(m, Touched(ms[..i]), n, ans, isset, Flag(m, n, st, cycle, ans, n in isset));
        var due := LoadMember(n, m, st, cycle, ans);
        isPeriodic := isPeriodic || due;
      }
      assert ms[..|ms|] == ms;
      return if st == PeriodicLoad then isPeriodic || deleted else true;
    }
  }

  lemma NothingLoaded(m: Maps, ms: seq<Field>, st: SendType, cycle: nat, ans: Answers, set0: set<string>, flush0: set<string>)
    ensures After(m, Touched(ms[..0]), st, cycle, ans, set0, flush0, set0, flush0)
    ensures !AnyDue(m, Touched(ms[..0]), ans, set0)
  {
  }

  lemma OneMore(ms: seq<Field>, i: nat)
    requires i < |ms| && DistinctNames(ms)
    ensures Touched(ms[..i + 1]) == if ms[i].name == "deleted" then Touched(ms[..i]) else Touched(ms[..i]) + {ms[i].name}
    ensures ms[i].name !in Touched(ms[..i])
  {
    assert ms[..i + 1] == ms[..i] + [ms[i]];
  }

  /** The generator's lookups never miss, and never meet a category they do not handle. */
  lemma Lookup(m: Maps, ms: seq<Field>, periodic: bool, f: Field)
    requires Classified(m, ms, periodic) && f in ms
    ensures f.name in m.1 <==> IsStat(f)
    ensures f.name in m.0 <==> !IsStat(f)
    ensures IsStat(f) ==> m.1[f.name].cat != Mandatory && (m.1[f.name].cat in {Periodic, HiddenPer} ==> m.1[f.name].period > 0)
    ensures !IsStat(f) ==> m.0[f.name] in {Mandatory, Hidden, Inline}
  {
  }

  // ----- What each kind of load leaves, by annotation -----

  predicate IsHidden(f: Field) { "hidden" in f.notes }

  /** A statistic that a periodic load of this cycle reports. */
  predicate DueStat(f: Field, periodic: bool, cycle: nat) {
    IsStat(f) && !IsHidden(f) && Due(Period(periodic, f), cycle)
  }

  /** The flag of a member after a load, said of the declaration alone. */
  predicate Settles(f: Field, periodic: bool, st: SendType, cycle: nat, ans: Answers, was: bool) {
    if !IsStat(f) then
      was && (f.optional ==> st == Introspect || (st == Sync && !IsHidden(f)))
    else if f.name !in ans.results then was
    else
      f.name in ans.fills &&
      match st {
        case Introspect => true
        case Sync => !IsHidden(f) && Period(periodic, f) == 0
        case PeriodicLoad => DueStat(f, periodic, cycle)
      }
  }

  lemma ByAnnotation(m: Maps, ms: seq<Field>, periodic: bool, f: Field, st: SendType, cycle: nat, ans: Answers, was: bool)
    requires Classified(m, ms, periodic) && f in ms && PlainOk(f)
    ensures Flag(m, f.name, st, cycle, ans, was) == Settles(f, periodic, st, cycle, ans, was)
    ensures Flushes(m, f.name, st, cycle, ans) <==>
            st == PeriodicLoad && IsStat(f) && f.name in ans.results && Due(Period(periodic, f), cycle)
    ensures Counts(m, f.name, ans) <==> IsStat(f) && f.name in ans.results && !IsHidden(f) && Period(periodic, f) != 0
  {
    hide Annotation.ParseAnno, RawType, LookUp;
    if IsStat(f) {
      assert Describes(m.1[f.name], ms, periodic, f);
    } else {
      assert PlainCat(f, m.0[f.name]);
    }
  }

  /** No statistic without a result is set. */
  predicate Fresh(ms: seq<Field>, ans: Answers, isset: set<string>) {
    forall f | f in ms && IsStat(f) && f.name != "deleted" && f.name in isset :: f.name in ans.results
  }

  /** One load seen from outside: the flags and flushes before and after, and the answer. */
  datatype Run = Run(deleted: bool, set0: set<string>, set1: set<string>, flush0: set<string>, flush1: set<string>, send: bool)

  /** The emitted code's effect, category by category. */
  ghost predicate Ran(m: Maps, ms: seq<Field>, periodic: bool, st: SendType, cycle: nat, ans: Answers, run: Run) {
    && (forall f | f in ms :: PlainOk(f))
    && Classified(m, ms, periodic)
    && After(m, Touched(ms), st, cycle, ans, run.set0, run.flush0, run.set1, run.flush1)
    && (run.send <==> st != PeriodicLoad || run.deleted || AnyDue(m, Touched(ms), ans, run.set1))
  }

  /** The struct as loaded: the emitted code's whole effect, from the declarations alone. */
  ghost predicate Loaded(ms: seq<Field>, periodic: bool, st: SendType, cycle: nat, ans: Answers, run: Run) {
    && (forall f | f in ms && f.name != "deleted" ::
          f.name in run.set1 <==> Settles(f, periodic, st, cycle, ans, f.name in run.set0))
    && (forall n | n !in Touched(ms) :: n in run.set1 <==> n in run.set0)
    && (forall n :: n in run.flush1 <==> n in run.flush0 || exists f | f in ms ::
          f.name == n != "deleted" && st == PeriodicLoad && IsStat(f) && n in ans.results && Due(Period(periodic, f), cycle))
    && (run.send <==> st != PeriodicLoad || run.deleted || exists f | f in ms ::
          f.name != "deleted" && IsStat(f) && f.name in ans.results && !IsHidden(f) && Period(periodic, f) != 0 &&
          f.name in run.set1)
  }

  /** Classification and load together: the load runs iff no assert fails, and does what the declarations say. */
  method LoadStruct(ms: seq<Field>, periodic: bool, data: Data, st: SendType, cycle: nat, ans: Answers) returns (r: Option<bool>)
    requires DistinctNames(ms)
    modifies data`isset, data`flushed
    ensures r.Some? <==> (forall f | f in ms :: PlainOk(f)) && (forall f | f in ms && IsStat(f) :: StatOk(ms, periodic, f))
    ensures r.Some? ==> Loaded(ms, periodic, st, cycle, ans,
                               Run(data.deleted, old(data.isset), data.isset, old(data.flushed), data.flushed, r.value))
    ensures r.None? ==> data.isset == old(data.isset) && data.flushed == old(data.flushed)
  {
    hide StatOk, Classified, After, Loaded, Inverts, Counts;
    var c := Classify(ms, periodic);
    if c.None? {
      return None;
    }
    var send := data.Load(ms, periodic, c.value.0, st, cycle, ans);
    Declarative(c.value.0, ms, periodic, st, cycle, ans,
                Run(data.deleted, old(data.isset), data.isset, old(data.flushed), data.flushed, send));
    return Some(send);
  }

  /** The emitted code does what the declarations say. */
  lemma Declarative(m: Maps, ms: seq<Field>, periodic: bool, st: SendType, cycle: nat, ans: Answers, run: Run)
    requires Ran(m, ms, periodic, st, cycle, ans, run)
    ensures Loaded(ms, periodic, st, cycle, ans, run)
  {
    hide Flag, Flushes, Settles, Counts, Classified, Period, Due;
    forall f | f in ms
      ensures Flag(m, f.name, st, cycle, ans, f.name in run.set0) == Settles(f, periodic, st, cycle, ans, f.name in run.set0)
      ensures Flushes(m, f.name, st, cycle, ans) <==>
              st == PeriodicLoad && IsStat(f) && f.name in ans.results && Due(Period(periodic, f), cycle)
      ensures Counts(m, f.name, ans) <==> IsStat(f) && f.name in ans.results && !IsHidden(f) && Period(periodic, f) != 0
    {
      ByAnnotation(m, ms, periodic, f, st, cycle, ans, f.name in run.set0);
    }
    forall n | n in run.flush1 && n !in run.flush0
      ensures exists f | f in ms ::
                f.name == n != "deleted" && st == PeriodicLoad && IsStat(f) && n in ans.results && Due(Period(periodic, f), cycle)
    {
      var f :| f in ms && f.name == n;
    }
  }

  /**
   A periodic load leaves set, of the optional members, only statistics due this cycle, exactly
   when no other statistic was set without a result; and if none at all was, it asks for a send
   iff one of those is set or the object is deleted. Those statistics, hidden or not, are flushed.
   */
  lemma PeriodicLeaves(m: Maps, ms: seq<Field>, periodic: bool, cycle: nat, ans: Answers, run: Run)
    requires Ran(m, ms, periodic, PeriodicLoad, cycle, ans, run)
    ensures (forall f | f in ms && f.optional && f.name != "deleted" && f.name in run.set1 :: DueStat(f, periodic, cycle)) <==>
            (forall f | f in ms && f.optional && f.name != "deleted" && f.name in run.set0 ::
               IsStat(f) && f.name !in ans.results ==> DueStat(f, periodic, cycle))
    ensures Fresh(ms, ans, run.set0) ==>
            (run.send <==>
             run.deleted || exists f | f in ms && f.name != "deleted" :: DueStat(f, periodic, cycle) && f.name in run.set1)
    ensures forall f | f in ms && f.name != "deleted" ::
              f.name in run.set1 <==>
              if IsStat(f) && f.name in ans.results then
                f.name in ans.fills && "hidden" !in f.notes && Period(periodic, f) > 0 && cycle % Period(periodic, f) == 0
              else f.name in run.set0 && (IsStat(f) || !f.optional)
    ensures run.flush1 == run.flush0 + set f | f in ms && f.name != "deleted" && IsStat(f) && f.name in ans.results &&
                                              Period(periodic, f) > 0 && cycle % Period(periodic, f) == 0 :: f.name
  {
    hide Ran;
    Declarative(m, ms, periodic, PeriodicLoad, cycle, ans, run);
  }

  /**
   A sync load leaves no hidden and no periodic member set, exactly when none of them was a
   statistic set without a result. It flushes nothing.
   */
  lemma SyncLeaves(m: Maps, ms: seq<Field>, periodic: bool, cycle: nat, ans: Answers, run: Run)
    requires Ran(m, ms, periodic, Sync, cycle, ans, run)
    ensures (forall f | f in ms && f.name != "deleted" && f.name in run.set1 :: !IsHidden(f) && !Recurs(f, periodic)) <==>
            (forall f | f in ms && f.name != "deleted" && f.name in run.set0 ::
               IsStat(f) && f.name !in ans.results ==> !IsHidden(f) && !Recurs(f, periodic))
    ensures run.send && run.flush1 == run.flush0
  {
    assert forall f | f in ms :: PlainOk(f);
    hide Ran, Settles, Loaded, Period;
    SyncKeeps(m, ms, periodic, cycle, ans, run);
  }

  /** Member by member: visible members and statistics without a period keep or take their flags. */
  lemma SyncKeeps(m: Maps, ms: seq<Field>, periodic: bool, cycle: nat, ans: Answers, run: Run)
    requires Ran(m, ms, periodic, Sync, cycle, ans, run)
    ensures forall f | f in ms && f.name != "deleted" ::
              f.name in run.set1 <==>
              if IsStat(f) && f.name in ans.results then f.name in ans.fills && "hidden" !in f.notes && Period(periodic, f) == 0
              else f.name in run.set0 && (IsStat(f) || !f.optional || "hidden" !in f.notes)
    ensures run.send && run.flush1 == run.flush0
  {
    hide Ran, Period, Due;
    Declarative(m, ms, periodic, Sync, cycle, ans, run);
  }

  predicate Recurs(f: Field, periodic: bool) { IsStat(f) && Period(periodic, f) != 0 }

  /** An introspect load clears a member iff FillResult does, and flushes nothing. */
  lemma IntrospectKeeps(m: Maps, ms: seq<Field>, periodic: bool, cycle: nat, ans: Answers, run: Run)
    requires Ran(m, ms, periodic, Introspect, cycle, ans, run)
    ensures run.set0 <= run.set1 <==> forall f | f in ms && IsStat(f) && f.name != "deleted" && f.name in run.set0 ::
              f.name in ans.results ==> f.name in ans.fills
    ensures run.send && run.flush1 == run.flush0
    ensures forall f | f in ms && f.name != "deleted" ::
              f.name in run.set1 <==> if IsStat(f) && f.name in ans.results then f.name in ans.fills else f.name in run.set0
  {
    hide Ran;
    Declarative(m, ms, periodic, Introspect, cycle, ans, run);
  }

  /** A visible statistic declared without a period is due on every cycle of a periodic struct and on
      none of any other; one declared with period zero never is. */
  lemma DefaultPeriod(f: Field, cycle: nat)
    requires IsStat(f) && "hidden" !in f.notes
    ensures Declared(f).period == -1 ==> DueStat(f, true, cycle) && !DueStat(f, false, cycle)
    ensures forall periodic :: Declared(f).period == 0 ==> !DueStat(f, periodic, cycle)
    ensures forall periodic :: Declared(f).period > 0 ==> (DueStat(f, periodic, cycle) <==> cycle % Declared(f).period == 0)
  {
    hide Declared;
  }
}
