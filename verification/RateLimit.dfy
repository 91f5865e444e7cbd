/**
 The emitted IsRatelimitPass: a circular buffer of grant times decides whether one more
 message may go out in the current second.
 */
module RateLimit {

  /** boost::circular_buffer<time_t>, oldest first. */
  datatype Ring = Ring(items: seq<int>, cap: nat)

  function Zeros(n: nat): seq<int> { seq(n, _ => 0) }

  /** rresize then set_capacity to the same size: pads or removes at the front. */
  function Resize(r: Ring, n: nat): Ring {
    if n > |r.items| then Ring(Zeros(n - |r.items|) + r.items, n) else Ring(r.items[|r.items| - n..], n)
  }

  function PushBack(r: Ring, x: int): Ring
    requires r.cap > 0
  {
    if |r.items| == r.cap then r.(items := r.items[1..] + [x]) else r.(items := r.items + [x])
  }

  /** One call at time `now` under rate limit `limit`. */
  datatype Tick = Tick(limit: nat, now: int)

  function Sized(r: Ring, limit: nat): Ring {
    if r.cap != limit then Resize(r, limit) else r
  }

  predicate Passes(r: Ring, t: Tick) {
    t.limit != 0 &&
    var s := Sized(r, t.limit).items;
    !(|s| == t.limit && s[0] == t.now)
  }

  function Next(r: Ring, t: Tick): Ring {
    if t.limit == 0 then r
    else if Passes(r, t) then PushBack(Sized(r, t.limit), t.now)
    else Sized(r, t.limit)
  }

  // ----- Runs -----

  function After(cap: nat, ticks: seq<Tick>): Ring {
    if ticks == [] then Ring([], cap) else Next(After(cap, ticks[..|ticks| - 1]), ticks[|ticks| - 1])
  }

  /** Was the last call of the run granted? */
  predicate Granted(cap: nat, ticks: seq<Tick>)
    requires ticks != []
  {
    Passes(After(cap, ticks[..|ticks| - 1]), ticks[|ticks| - 1])
  }

  /** The times of the granted calls, in order. */
  function Times(cap: nat, ticks: seq<Tick>): seq<int> {
    if ticks == [] then []
    else
      var before := Times(cap, ticks[..|ticks| - 1]);
      if Granted(cap, ticks) then before + [ticks[|ticks| - 1].now] else before
  }

  /** How many of those the buffer still knows about. */
  function Kept(cap: nat, ticks: seq<Tick>): nat {
    if ticks == [] then 0
    else
      var k, limit := Kept(cap, ticks[..|ticks| - 1]), ticks[|ticks| - 1].limit;
      if limit == 0 then k
      else if Granted(cap, ticks) then Min(k + 1, limit) else Min(k, limit)
  }

  function Min(a: nat, b: nat): nat { if a < b then a else b }

  function Count(times: seq<int>, t: int): nat {
    if times == [] then 0 else Count(times[..|times| - 1], t) + if times[|times| - 1] == t then 1 else 0
  }

  /** time(0): positive and never going back. */
  predicate Clock(ticks: seq<Tick>) {
    && (forall i | 0 <= i < |ticks| :: ticks[i].now > 0)
    && (forall i, j | 0 <= i < j < |ticks| :: ticks[i].now <= ticks[j].now)
  }

  predicate UpTo(s: seq<int>, now: int) { forall i | 0 <= i < |s| :: 0 < s[i] <= now }

  predicate Ascending(s: seq<int>) { forall i, j | 0 <= i < j < |s| :: s[i] <= s[j] }

  // ----- What the buffer holds -----

  /** Padding, then the last `kept` grants; unless it is full, all of them and no padding. */
  ghost predicate Holds(r: Ring, times: seq<int>, kept: nat) {
    && kept <= |times| && kept <= |r.items| <= r.cap
    && r.items == Zeros(|r.items| - kept) + times[|times| - kept..]
    && (|r.items| < r.cap ==> kept == |r.items| == |times|)
  }

  lemma GrowHolds(r: Ring, times: seq<int>, kept: nat, n: nat)
    requires Holds(r, times, kept) && n > |r.items|
    ensures Holds(Resize(r, n), times, kept)
  {
    assert Zeros(n - |r.items|) + Zeros(|r.items| - kept) == Zeros(n - kept);
    var tail := times[|times| - kept..];
    assert Resize(r, n).items == Zeros(n - |r.items|) + (Zeros(|r.items| - kept) + tail) == Zeros(n - kept) + tail;
  }

  lemma ShrinkHolds(r: Ring, times: seq<int>, kept: nat, n: nat)
    requires Holds(r, times, kept) && n <= |r.items|
    ensures Holds(Resize(r, n), times, Min(kept, n))
  {
    var tail, z := times[|times| - kept..], |r.items| - kept;
    assert r.items == Zeros(z) + tail;
    if n <= kept {
      assert r.items[|r.items| - n..] == tail[kept - n..] == times[|times| - n..];
      assert Zeros(0) + times[|times| - n..] == times[|times| - n..];
    } else {
      assert r.items[|r.items| - n..] == Zeros(z)[z - (n - kept)..] + tail;
      assert Zeros(z)[z - (n - kept)..] == Zeros(n - kept);
    }
  }

  lemma SizedHolds(r: Ring, times: seq<int>, kept: nat, limit: nat)
    requires Holds(r, times, kept) && limit > 0
    ensures Holds(Sized(r, limit), times, Min(kept, limit)) && Sized(r, limit).cap == limit
  {
    hide Zeros;
    if r.cap != limit {
      if limit > |r.items| {
        GrowHolds(r, times, kept, limit);
      } else {
        ShrinkHolds(r, times, kept, limit);
      }
    }
  }

  lemma PushHolds(r: Ring, times: seq<int>, kept: nat, now: int)
    requires Holds(r, times, kept) && r.cap > 0
    ensures Holds(PushBack(r, now), times + [now], Min(kept + 1, r.cap))
  {
    var s, k, ts := PushBack(r, now).items, Min(kept + 1, r.cap), times + [now];
    if |r.items| == r.cap && kept == r.cap {
      assert s == ts[|ts| - k..];
    } else {
      assert s == Zeros(|s| - k) + ts[|ts| - k..];
    }
  }

  lemma {:induction false} RunHolds(cap: nat, ticks: seq<Tick>)
    ensures Holds(After(cap, ticks), Times(cap, ticks), Kept(cap, ticks))
  {
    if ticks != [] {
      var before, t := ticks[..|ticks| - 1], ticks[|ticks| - 1];
      RunHolds(cap, before);
      if t.limit > 0 {
        SizedHolds(After(cap, before), Times(cap, before), Kept(cap, before), t.limit);
        if Granted(cap, ticks) {
          PushHolds(Sized(After(cap, before), t.limit), Times(cap, before), Min(Kept(cap, before), t.limit), t.now);
        }
      }
    }
  }

  lemma {:induction false} TimesAscend(cap: nat, ticks: seq<Tick>, now: int)
    requires Clock(ticks) && forall i | 0 <= i < |ticks| :: ticks[i].now <= now
    ensures Ascending(Times(cap, ticks)) && UpTo(Times(cap, ticks), now)
  {
    if ticks != [] {
      TimesAscend(cap, ticks[..|ticks| - 1], ticks[|ticks| - 1].now);
    }
  }

  // ----- Counting the grants of the current second -----

  lemma {:induction false} CountTail(times: seq<int>, now: int, n: nat)
    requires Ascending(times) && UpTo(times, now) && 0 < n <= |times|
    ensures times[|times| - n] == now <==> Count(times, now) >= n
  {
    var m := |times| - 1;
    if times[m] != now {
      NoneBelow(times, now);
    } else if n > 1 {
      CountTail(times[..m], now, n - 1);
    }
  }

  lemma {:induction false} NoneBelow(times: seq<int>, now: int)
    requires forall i | 0 <= i < |times| :: times[i] < now
    ensures Count(times, now) == 0
  {
    if times != [] {
      NoneBelow(times[..|times| - 1], now);
    }
  }

  lemma {:induction false} CountBound(times: seq<int>, t: int)
    ensures Count(times, t) <= |times|
  {
    if times != [] {
      CountBound(times[..|times| - 1], t);
    }
  }

  /** The time stamps in the buffer that are not padding. */
  function Stamps(items: seq<int>): nat {
    if items == [] then 0 else Stamps(items[..|items| - 1]) + if items[|items| - 1] > 0 then 1 else 0
  }

  lemma {:induction false} StampsPadded(z: nat, times: seq<int>)
    requires forall i | 0 <= i < |times| :: times[i] > 0
    ensures Stamps(Zeros(z) + times) == |times|
    decreases z + |times|
  {
    var s := Zeros(z) + times;
    if times != [] {
      assert s[..|s| - 1] == Zeros(z) + times[..|times| - 1];
      StampsPadded(z, times[..|times| - 1]);
    } else if z > 0 {
      assert s[..|s| - 1] == Zeros(z - 1) + [];
      StampsPadded(z - 1, []);
    }
  }

  /** What the buffer still knows about can be read off it. */
  lemma KeptOnBuffer(cap: nat, ticks: seq<Tick>)
    requires Clock(ticks)
    ensures Kept(cap, ticks) == Stamps(After(cap, ticks).items)
  {
    hide Kept, Times, After, Zeros;
    var r, times, kept := After(cap, ticks), Times(cap, ticks), Kept(cap, ticks);
    RunHolds(cap, ticks);
    TimesAscend(cap, ticks, if ticks == [] then 1 else ticks[|ticks| - 1].now);
    StampsPadded(|r.items| - kept, times[|times| - kept..]);
  }

  /** The exact rule, for every run and every history of limits: a call passes unless the buffer
      still knows `limit` grants and `limit` calls were already granted in this second. */
  lemma GrantRule(cap: nat, ticks: seq<Tick>, t: Tick)
    requires Clock(ticks + [t])
    ensures Granted(cap, ticks + [t]) <==>
            t.limit > 0 && (Kept(cap, ticks) < t.limit || Count(Times(cap, ticks), t.now) < t.limit)
    ensures Kept(cap, ticks) == Stamps(After(cap, ticks).items)
  {
    var all := ticks + [t];
    assert all[..|all| - 1] == ticks && all[|ticks|] == t;
    ClockPrefix(ticks, t);
    KeptOnBuffer(cap, ticks);
    RunHolds(cap, ticks);
    TimesAscend(cap, ticks, t.now);
    var times, kept := Times(cap, ticks), Kept(cap, ticks);
    if t.limit > 0 {
      SizedHolds(After(cap, ticks), times, kept, t.limit);
      var r := Sized(After(cap, ticks), t.limit);
      if kept >= t.limit {
        assert r.items[0] == times[|times| - t.limit];
        CountTail(times, t.now, t.limit);
      } else if |r.items| == t.limit {
        assert r.items[0] == 0;
      }
    }
  }

  lemma ClockPrefix(ticks: seq<Tick>, t: Tick)
    requires Clock(ticks + [t])
    ensures Clock(ticks) && t.now > 0 && forall i | 0 <= i < |ticks| :: ticks[i].now <= t.now
  {
    var all := ticks + [t];
    assert forall i | 0 <= i < |ticks| :: all[i] == ticks[i];
    assert all[|ticks|] == t;
  }

  // ----- Limits that never go down -----

  /** The limits that are in force (zero blocks everything) never decrease. */
  predicate Rising(ticks: seq<Tick>) {
    forall i, j | 0 <= i < j < |ticks| :: 0 < ticks[i].limit && 0 < ticks[j].limit ==> ticks[i].limit <= ticks[j].limit
  }

  lemma OneMore(cap: nat, ticks: seq<Tick>, t: Tick)
    ensures After(cap, ticks + [t]) == Next(After(cap, ticks), t)
    ensures Granted(cap, ticks + [t]) <==> Passes(After(cap, ticks), t)
    ensures Times(cap, ticks + [t]) == Times(cap, ticks) + if Passes(After(cap, ticks), t) then [t.now] else []
    ensures Kept(cap, ticks + [t]) == if t.limit == 0 then Kept(cap, ticks)
                                      else Min(Kept(cap, ticks) + if Granted(cap, ticks + [t]) then 1 else 0, t.limit)
  {
    hide Next, Passes;
    assert (ticks + [t])[..|ticks|] == ticks && (ticks + [t])[|ticks|] == t;
  }

  lemma CountOne(times: seq<int>, now: int, t: int)
    ensures Count(times + [now], t) == Count(times, t) + if now == t then 1 else 0
  {
    assert (times + [now])[..|times|] == times;
  }

  /** Some limit seen so far was at least `k`. */
  ghost predicate Allows(ticks: seq<Tick>, k: nat) {
    k == 0 || exists i :: 0 <= i < |ticks| && k <= ticks[i].limit
  }

  /** The buffer never forgets a grant of a second that could still matter. */
  lemma {:induction false} RisingKeeps(cap: nat, ticks: seq<Tick>, second: int)
    requires Clock(ticks) && Rising(ticks)
    ensures Count(Times(cap, ticks), second) <= Kept(cap, ticks)
    ensures Allows(ticks, Kept(cap, ticks))
  {
    hide Granted, Kept, Times, Count, Clock, Rising, Allows, After, Passes;
    if ticks == [] {
      EmptyRun(cap, second);
    } else {
      var before, t := ticks[..|ticks| - 1], ticks[|ticks| - 1];
      assert ticks == before + [t];
      RunPrefix(before, t);
      RisingKeeps(cap, before, second);
      RisingKeeps(cap, before, t.now);
      GrantRule(cap, before, t);
      OneMore(cap, before, t);
      AllowsStep(before, t, Kept(cap, before), Kept(cap, ticks));
      CountOne(Times(cap, before), t.now, second);
      assert Times(cap, before) + [] == Times(cap, before);
    }
  }

  lemma RunPrefix(before: seq<Tick>, t: Tick)
    requires Clock(before + [t]) && Rising(before + [t])
    ensures Clock(before) && Rising(before)
  {
    assert forall i | 0 <= i < |before| :: (before + [t])[i] == before[i];
  }

  lemma AllowsStep(before: seq<Tick>, t: Tick, k: nat, k2: nat)
    requires Rising(before + [t]) && Allows(before, k)
    requires if t.limit == 0 then k2 == k else k2 <= t.limit
    ensures t.limit > 0 ==> k <= t.limit
    ensures Allows(before + [t], k2)
  {
    var ticks := before + [t];
    if k > 0 {
      var i :| 0 <= i < |before| && k <= before[i].limit;
      assert ticks[i] == before[i];
    }
    assert ticks[|before|] == t;
  }

  lemma EmptyRun(cap: nat, second: int)
    ensures Times(cap, []) == [] && Kept(cap, []) == 0 && Count([], second) == 0 && Allows([], 0)
  {
  }

  /** With limits that never decrease, a call is granted exactly when fewer calls than its limit
      were granted before it in the same second. */
  lemma RisingRule(cap: nat, ticks: seq<Tick>, t: Tick)
    requires Clock(ticks + [t]) && Rising(ticks + [t])
    ensures Granted(cap, ticks + [t]) <==> Count(Times(cap, ticks), t.now) < t.limit
  {
    GrantRule(cap, ticks, t);
    ClockPrefix(ticks, t);
    assert forall i | 0 <= i < |ticks| :: (ticks + [t])[i] == ticks[i];
    RisingKeeps(cap, ticks, t.now);
  }

  /** No second ever gets more grants than the limit of the call that was granted last in it. */
  lemma NoSecondExceeds(cap: nat, ticks: seq<Tick>, t: Tick)
    requires Clock(ticks + [t]) && Rising(ticks + [t]) && Granted(cap, ticks + [t])
    ensures Count(Times(cap, ticks + [t]), t.now) <= t.limit
  {
    RisingRule(cap, ticks, t);
    OneMore(cap, ticks, t);
    CountOne(Times(cap, ticks), t.now, t.now);
  }

  /** A limit that dips and recovers within one second lets an extra call through: three grants in
      second 1, although the limit was never above 2. */
  lemma DipLetsOneThrough()
    ensures var ticks := [Tick(2, 1), Tick(2, 1), Tick(1, 1)];
            Clock(ticks + [Tick(2, 1)]) && Granted(2, ticks + [Tick(2, 1)]) && Count(Times(2, ticks), 1) == 2
  {
    var t1, t2, t3 := [Tick(2, 1)], [Tick(2, 1), Tick(2, 1)], [Tick(2, 1), Tick(2, 1), Tick(1, 1)];
    DipAfterOne();
    OneMore(2, t1, Tick(2, 1));
    assert t1 + [Tick(2, 1)] == t2;
    assert After(2, t2) == Ring([1, 1], 2) && Times(2, t2) == [1, 1];
    OneMore(2, t2, Tick(1, 1));
    assert t2 + [Tick(1, 1)] == t3;
    assert After(2, t3) == Ring([1], 1);
    OneMore(2, t3, Tick(2, 1));
    assert Resize(Ring([1], 1), 2).items == [0, 1];
    CountOne([1], 1, 1);
    CountOne([], 1, 1);
    assert [1] + [1] == [1, 1] && [] + [1] == [1];
  }

  lemma DipAfterOne()
    ensures After(2, [Tick(2, 1)]) == Ring([1], 2) && Times(2, [Tick(2, 1)]) == [1]
  {
    OneMore(2, [], Tick(2, 1));
    assert [] + [Tick(2, 1)] == [Tick(2, 1)];
  }
}
