/**
 How the generator classifies the members of a UVE struct: plain members go to the cache map,
 members with a stats or mstats annotation to the derived-statistics map, and every raw
 attribute is mapped back to the statistics computed from it.
 */
module DerivedStats {
  import opened Wrappers
  import opened Search
  import opened Annotation

  datatype Ty = Prim(name: string) | Record(name: string, members: seq<Field>) | MapOf(name: string, val: Ty)
  datatype Field = Field(name: string, ty: Ty, optional: bool, notes: map<string, string>)

  /** CacheAttribute. */
  datatype Cat = Mandatory | Hidden | Inline | Periodic | HiddenPer

  datatype Metric = Dial | Agg | Diff

  datatype DSInfo = DSInfo(isMap: bool, period: int, cat: Cat, rawType: Ty, metric: Metric,
                           resultType: Ty, algo: string, args: string, comp: string, sub: string, prealgo: string)

  type RawMap = map<string, set<string>>

  predicate IsStat(f: Field) { "stats" in f.notes || "mstats" in f.notes }

  function StatNames(ms: seq<Field>): set<string> { set f | f in ms && IsStat(f) :: f.name }
  function PlainNames(ms: seq<Field>): set<string> { set f | f in ms && !IsStat(f) :: f.name }

  predicate DistinctNames(ms: seq<Field>) { forall i, j | 0 <= i < j < |ms| :: ms[i].name != ms[j].name }

  // ----- Plain members -----

  /** A mandatory member carries none of the three annotations. */
  predicate PlainOk(f: Field) { !f.optional ==> !IsStat(f) && "hidden" !in f.notes }

  predicate PlainCat(f: Field, c: Cat) {
    && c in {Mandatory, Hidden, Inline}
    && (c == Mandatory <==> !f.optional)
    && (c == Hidden <==> "hidden" in f.notes)
  }

  /** cache_attr_info; None is a failed assert. */
  method CacheAttrInfo(ms: seq<Field>) returns (r: Option<map<string, Cat>>)
    ensures r.Some? <==> forall f | f in ms :: PlainOk(f)
    ensures r.Some? <==>
            forall f | f in ms :: f.optional || ("hidden" !in f.notes && "stats" !in f.notes && "mstats" !in f.notes)
    ensures r.Some? ==> r.value.Keys == PlainNames(ms)
    ensures r.Some? && DistinctNames(ms) ==> forall f | f in ms && !IsStat(f) :: PlainCat(f, r.value[f.name])
  {
    var attrs: map<string, Cat> := map[];
    for i := 0 to |ms|
      invariant forall k | 0 <= k < i :: PlainOk(ms[k])
      invariant attrs.Keys == set k | 0 <= k < i && !IsStat(ms[k]) :: ms[k].name
      invariant DistinctNames(ms) ==> forall k | 0 <= k < i && !IsStat(ms[k]) :: PlainCat(ms[k], attrs[ms[k].name])
    {
      var f := ms[i];
      if !f.optional {
        if "hidden" in f.notes || "stats" in f.notes || "mstats" in f.notes {
          assert f in ms && !PlainOk(f);
          return None;
        }
        attrs := if f.name in attrs then attrs else attrs[f.name := Mandatory];
      } else if "stats" in f.notes || "mstats" in f.notes {
        // handled by DerivedStatsInfo
      } else if "hidden" in f.notes {
        attrs := if f.name in attrs then attrs else attrs[f.name := Hidden];
      } else {
        attrs := if f.name in attrs then attrs else attrs[f.name := Inline];
      }
    }
    return Some(attrs);
  }

  // ----- Derived statistics -----

  function NameOf(f: Field): string { f.name }

  /** The first member of that name. */
  function LookUp(ms: seq<Field>, name: string): (r: Option<Field>)
    ensures r.Some? ==> r.value in ms && r.value.name == name
    ensures r.None? ==> forall f | f in ms :: f.name != name
  {
    FirstNamed(NameOf, ms, name)
  }

  function Text(f: Field): string
    requires IsStat(f)
  {
    if "stats" in f.notes then f.notes["stats"] else f.notes["mstats"]
  }

  function Declared(f: Field): Anno
    requires IsStat(f)
  {
    ParseAnno(Text(f))
  }

  /** The type found under `t` by following the composite and sub-composite names. */
  function UnderPath(t: Ty, comp: string, sub: string): Option<Ty> {
    if comp == "" then Some(t)
    else if !t.Record? || LookUp(t.members, comp).None? then None
    else
      var c := LookUp(t.members, comp).value.ty;
      if sub == "" then Some(c)
      else if !c.Record? || LookUp(c.members, sub).None? then None
      else Some(LookUp(c.members, sub).value.ty)
  }

  /** The type of the raw attribute a statistic reads; for an mstats one, inside a map. */
  function RawType(ms: seq<Field>, isMap: bool, a: Anno): Option<Ty> {
    if LookUp(ms, a.raw).None? then None
    else
      var t := LookUp(ms, a.raw).value.ty;
      if !isMap then UnderPath(t, a.comp, a.sub) else if t.MapOf? then UnderPath(t.val, a.comp, a.sub) else None
  }

  /** Following a path of member names. */
  function Walk(t: Ty, path: seq<string>): Option<Ty>
    decreases |path|
  {
    if path == [] then Some(t)
    else if !t.Record? || LookUp(t.members, path[0]).None? then None
    else Walk(LookUp(t.members, path[0]).value.ty, path[1..])
  }

  function PathOf(a: Anno): seq<string> {
    if a.comp == "" then [] else if a.sub == "" then [a.comp] else [a.comp, a.sub]
  }

  /** The raw type is what the path raw, composite, sub-composite leads to; for an mstats statistic the
      raw attribute must be a map, and the rest of the path starts from its values. */
  lemma RawTypeWalks(ms: seq<Field>, a: Anno)
    ensures RawType(ms, false, a) == Walk(Record("", ms), [a.raw] + PathOf(a))
    ensures RawType(ms, true, a) ==
            var raw := Walk(Record("", ms), [a.raw]);
            if raw.Some? && raw.value.MapOf? then Walk(raw.value.val, PathOf(a)) else None
  {
    hide LookUp;
    assert ([a.raw] + PathOf(a))[1..] == PathOf(a) && [a.raw][1..] == [];
    var m := LookUp(ms, a.raw);
    if m.Some? {
      UnderWalks(m.value.ty, a);
      assert Walk(Record("", ms), [a.raw]) == Walk(m.value.ty, []) == Some(m.value.ty);
      if m.value.ty.MapOf? {
        UnderWalks(m.value.ty.val, a);
      }
    }
  }

  lemma UnderWalks(t: Ty, a: Anno)
    ensures UnderPath(t, a.comp, a.sub) == Walk(t, PathOf(a))
  {
    hide LookUp;
    assert [a.comp][1..] == [] && [a.comp, a.sub][1..] == [a.sub] && [a.sub][1..] == [];
    if a.comp != "" && t.Record? && LookUp(t.members, a.comp).Some? {
      var c := LookUp(t.members, a.comp).value.ty;
      assert Walk(t, PathOf(a)) == Walk(c, PathOf(a)[1..]);
      if a.sub != "" && c.Record? && LookUp(c.members, a.sub).Some? {
        assert Walk(c, [a.sub]) == Walk(LookUp(c.members, a.sub).value.ty, []);
      }
    }
  }

  /** What the asserts demand of a declaration. */
  predicate StatOk(ms: seq<Field>, periodic: bool, f: Field)
    requires IsStat(f)
  {
    && f.optional
    && !("stats" in f.notes && "mstats" in f.notes)
    && ("mstats" in f.notes ==> f.ty.MapOf?)
    && RawType(ms, "mstats" in f.notes, Declared(f)).Some?
    && (!periodic ==> Declared(f).period <= 0)
  }

  /** A missing period means 1 in a periodic struct and 0 elsewhere. */
  function Period(periodic: bool, f: Field): int
    requires IsStat(f)
  {
    var p := Declared(f).period;
    if p != -1 then p else if periodic then 1 else 0
  }

  /** The recorded statistic: hidden as annotated, and periodic exactly when its period is not zero. */
  predicate Describes(d: DSInfo, ms: seq<Field>, periodic: bool, f: Field)
    requires IsStat(f)
  {
    var a := Declared(f);
    && d.isMap == ("mstats" in f.notes)
    && d.period == (if a.period != -1 then a.period else if periodic then 1 else 0) >= 0
    && d.cat != Mandatory
    && (d.cat in {Hidden, HiddenPer} <==> "hidden" in f.notes)
    && (d.cat in {Periodic, HiddenPer} <==> d.period != 0)
    && Some(d.rawType) == RawType(ms, d.isMap, a)
    && d.resultType == (if d.isMap && f.ty.MapOf? then f.ty.val else f.ty)
    && (d.algo, d.args, d.comp, d.sub, d.prealgo) == (a.algo, a.args, a.comp, a.sub, a.prealgo)
    && (LookUp(ms, a.raw).Some? ==>
          var notes := LookUp(ms, a.raw).value.notes;
          && (d.metric == Agg <==> "metric" in notes && notes["metric"] == "agg")
          && (d.metric == Diff <==> "metric" in notes && notes["metric"] == "diff"))
  }

  function MetricOf(f: Field): Metric {
    if "metric" !in f.notes then Dial
    else if f.notes["metric"] == "agg" then Agg
    else if f.notes["metric"] == "diff" then Diff
    else Dial
  }

  method FindUnder(t: Ty, comp: string, sub: string) returns (r: Option<Ty>)
    ensures r == UnderPath(t, comp, sub)
  {
    if comp == "" {
      return Some(t);
    }
    if !t.Record? {
      return None;
    }
    var c := FindNamed(NameOf, t.members, comp);
    if c.None? {
      return None;
    }
    if sub == "" {
      return Some(c.value.ty);
    }
    if !c.value.ty.Record? {
      return None;
    }
    var u := FindNamed(NameOf, c.value.ty.members, sub);
    return if u.None? then None else Some(u.value.ty);
  }

  /** One turn of derived_stats_info's loop, with the raw attribute's name. */
  method StatInfo(ms: seq<Field>, periodic: bool, f: Field) returns (r: Option<(DSInfo, string)>)
    requires IsStat(f)
    ensures r.Some? <==> StatOk(ms, periodic, f)
    ensures r.Some? <==>
            && f.optional && ("stats" !in f.notes || "mstats" !in f.notes) && ("mstats" in f.notes ==> f.ty.MapOf?)
            && RawType(ms, "mstats" in f.notes, Declared(f)).Some? && (periodic || Declared(f).period in {-1, 0})
    ensures r.Some? ==> Describes(r.value.0, ms, periodic, f) && r.value.1 == Declared(f).raw
  {
    hide ParseAnno, FirstNamed;
    if !f.optional {
      return None;
    }
    var isMap := "mstats" in f.notes;
    if isMap && ("stats" in f.notes || !f.ty.MapOf?) {
      return None;
    }
    var a := ParseAnno(if "stats" in f.notes then f.notes["stats"] else f.notes["mstats"]);
    assert a == Declared(f);
    ParsedPeriod(Text(f));
    var m := FindNamed(NameOf, ms, a.raw);
    if m.None? || (isMap && !m.value.ty.MapOf?) {
      return None;
    }
    var raw := FindUnder(if isMap then m.value.ty.val else m.value.ty, a.comp, a.sub);
    if raw.None? {
      return None;
    }
    var cat, period := Inline, a.period;
    if periodic {
      if period == -1 {
        period := 1;
      }
      if "hidden" in f.notes {
        cat := if period != 0 then HiddenPer else Hidden;
      } else if period != 0 {
        cat := Periodic;
      }
    } else {
      if period == -1 {
        period := 0;
      }
      if "hidden" in f.notes {
        cat := Hidden;
      }
      if period != 0 {
        return None;
      }
    }
    return Some((DSInfo(isMap, period, cat, raw.value, MetricOf(m.value), if isMap then f.ty.val else f.ty,
                        a.algo, a.args, a.comp, a.sub, a.prealgo), a.raw));
  }

  /** The raw map is the inverse of the raw-attribute relation, with no empty entry. */
  ghost predicate Inverts(raws: RawMap, ms: seq<Field>) {
    && (forall f | f in ms && IsStat(f) :: Declared(f).raw in raws && f.name in raws[Declared(f).raw])
    && (forall a, d | a in raws && d in raws[a] :: exists f | f in ms :: IsStat(f) && f.name == d && Declared(f).raw == a)
    && forall a | a in raws :: raws[a] != {}
  }

  ghost predicate Recorded(ds: map<string, DSInfo>, ms: seq<Field>, seen: seq<Field>, periodic: bool) {
    && ds.Keys == StatNames(seen)
    && (DistinctNames(ms) ==> forall f | f in seen && IsStat(f) :: Describes(ds[f.name], ms, periodic, f))
  }

  lemma RecordMore(ds: map<string, DSInfo>, ms: seq<Field>, i: nat, periodic: bool, d: DSInfo)
    requires i < |ms| && Recorded(ds, ms, ms[..i], periodic) && IsStat(ms[i]) && Describes(d, ms, periodic, ms[i])
    ensures Recorded(if ms[i].name in ds then ds else ds[ms[i].name := d], ms, ms[..i + 1], periodic)
  {
    hide Describes;
    assert ms[..i + 1] == ms[..i] + [ms[i]];
    if DistinctNames(ms) {
      assert forall f | f in ms[..i] :: f.name != ms[i].name;
    }
  }

  lemma NotRecorded(ds: map<string, DSInfo>, ms: seq<Field>, i: nat, periodic: bool)
    requires i < |ms| && Recorded(ds, ms, ms[..i], periodic) && !IsStat(ms[i])
    ensures Recorded(ds, ms, ms[..i + 1], periodic)
  {
    hide Describes;
    assert ms[..i + 1] == ms[..i] + [ms[i]];
  }

  lemma NoneYet(ms: seq<Field>, periodic: bool)
    ensures Recorded(map[], ms, ms[..0], periodic) && Inverts(map[], ms[..0])
  {
  }

  lemma InvertMore(raws: RawMap, ms: seq<Field>, f: Field)
    requires Inverts(raws, ms) && IsStat(f)
    ensures var a := Declared(f).raw;
            Inverts(raws[a := (if a in raws then raws[a] else {}) + {f.name}], ms + [f])
  {
    hide Declared;
    var a := Declared(f).raw;
    var more := raws[a := (if a in raws then raws[a] else {}) + {f.name}];
    forall b, d | b in more && d in more[b]
      ensures exists g | g in ms + [f] :: IsStat(g) && g.name == d && Declared(g).raw == b
    {
      if b == a && d == f.name {
        assert f in ms + [f];
      } else {
        var g :| g in ms && IsStat(g) && g.name == d && Declared(g).raw == b;
        assert g in ms + [f];
      }
    }
  }

  lemma InvertSame(raws: RawMap, ms: seq<Field>, f: Field)
    requires Inverts(raws, ms) && !IsStat(f)
    ensures Inverts(raws, ms + [f])
  {
    hide Declared;
    forall b, d | b in raws && d in raws[b]
      ensures exists g | g in ms + [f] :: IsStat(g) && g.name == d && Declared(g).raw == b
    {
      var g :| g in ms && IsStat(g) && g.name == d && Declared(g).raw == b;
      assert g in ms + [f];
    }
  }

  /** derived_stats_info; None is a failed assert. */
  method DerivedStatsInfo(ms: seq<Field>, periodic: bool) returns (r: Option<(map<string, DSInfo>, RawMap)>)
    ensures r.Some? <==> forall f | f in ms && IsStat(f) :: StatOk(ms, periodic, f)
    ensures r.Some? ==> Recorded(r.value.0, ms, ms, periodic) && Inverts(r.value.1, ms)
  {
    hide StatOk, Describes, Recorded, Inverts, Declared;
    var ds: map<string, DSInfo> := map[];
    var raws: RawMap := map[];
    NoneYet(ms, periodic);
    for i := 0 to |ms|
      invariant forall k | 0 <= k < i && IsStat(ms[k]) :: StatOk(ms, periodic, ms[k])
      invariant Recorded(ds, ms, ms[..i], periodic)
      invariant Inverts(raws, ms[..i])
    {
      assert ms[..i + 1] == ms[..i] + [ms[i]];
      if "stats" in ms[i].notes || "mstats" in ms[i].notes {
        var info := StatInfo(ms, periodic, ms[i]);
        if info.None? {
          return None;
        }
        var (d, raw) := info.value;
        RecordMore(ds, ms, i, periodic, d);
        InvertMore(raws, ms[..i], ms[i]);
        ds := if ms[i].name in ds then ds else ds[ms[i].name := d];
        raws := raws[raw := (if raw in raws then raws[raw] else {}) + {ms[i].name}];
      } else {
        NotRecorded(ds, ms, i, periodic);
        InvertSame(raws, ms[..i], ms[i]);
      }
    }
    assert ms[..|ms|] == ms;
    return Some((ds, raws));
  }
}
