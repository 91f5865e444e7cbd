/**
 The emitted Send function of a system log: test hook, send switch, rate
 limiter, queue level, dispatch. One call after another; what holds over whole runs.
 */
module SendPath {
  import opened RateLimit

  const TWO32 := 0x1_0000_0000

  /** What one call sees of the world. */
  datatype Call = Call(test: bool, disabled: bool, tick: Tick, level: int, sendingLevel: int)

  datatype Reason = SendingDisabled | RatelimitDrop | QueueLevel

  datatype Outcome =
    | TestLogged
    | Dropped(reason: Reason, dropLog: bool)
    | Dispatched(seqnum: nat)

  /** The statics of one sandesh class, and the drop statistics it updates. */
  datatype State = State(ring: Ring, doDropLog: bool, lseqnum: nat, fails: multiset<Reason>)

  function Initial(cap: nat): State { State(Ring([], cap), true, 1, multiset{}) }

  /** The call reached the rate limiter and was let through. */
  predicate Admitted(o: Outcome) { o.Dispatched? || (o.Dropped? && o.reason == QueueLevel) }

  predicate RateRejected(o: Outcome) { o.Dropped? && o.reason == RatelimitDrop }

  predicate RateLogged(o: Outcome) { RateRejected(o) && o.dropLog }

  // ----- The code -----

  class Sender {
    var ring: Ring
    var doDropLog: bool
    var lseqnum: nat
    var fails: multiset<Reason>

    function View(): State
      reads this
    {
      State(ring, doDropLog, lseqnum, fails)
    }

    constructor (rateLimit: nat)
      ensures View() == Initial(rateLimit)
    {
      ring := Ring([], rateLimit);
      doDropLog := true;
      lseqnum := 1;
      fails := multiset{};
    }

    method IsRatelimitPass(t: Tick) returns (pass: bool)
      modifies this`ring, this`doDropLog
      ensures pass <==> Passes(old(ring), t)
      ensures ring == Next(old(ring), t)
      ensures doDropLog == (pass || old(doDropLog))
    {
      if t.limit == 0 {
        return false;
      }
      if ring.cap != t.limit {
        ring := Resize(ring, t.limit);
      }
      if ring.cap == |ring.items| {
        if ring.items[0] == t.now {
          return false;
        }
      }
      doDropLog := true;
      ring := PushBack(ring, t.now);
      return true;
    }

    method Send(c: Call) returns (o: Outcome)
      modifies this
      ensures (o, View()) == Step(old(View()), c)
    {
      if c.test {
        return TestLogged;
      }
      if c.disabled {
        fails := fails + multiset{SendingDisabled};
        return Dropped(SendingDisabled, false);
      }
      var pass := IsRatelimitPass(c.tick);
      if !pass {
        fails := fails + multiset{RatelimitDrop};
        o := Dropped(RatelimitDrop, doDropLog);
        if doDropLog {
          doDropLog := false;
        }
        return;
      }
      if c.level >= c.sendingLevel {
        fails := fails + multiset{QueueLevel};
        return Dropped(QueueLevel, true);
      }
      o := Dispatched(lseqnum);
      lseqnum := (lseqnum + 1) % TWO32;
    }
  }

  /** One call as a function of the state. */
  function Step(s: State, c: Call): (Outcome, State) {
    if c.test then (TestLogged, s)
    else if c.disabled then (Dropped(SendingDisabled, false), s.(fails := s.fails + multiset{SendingDisabled}))
    else
      var s' := s.(ring := Next(s.ring, c.tick));
      if !Passes(s.ring, c.tick) then
        (Dropped(RatelimitDrop, s.doDropLog), s'.(doDropLog := false, fails := s.fails + multiset{RatelimitDrop}))
      else if c.level >= c.sendingLevel then
        (Dropped(QueueLevel, true), s'.(doDropLog := true, fails := s.fails + multiset{QueueLevel}))
      else (Dispatched(s.lseqnum), s'.(doDropLog := true, lseqnum := (s.lseqnum + 1) % TWO32))
  }

  // ----- Runs -----

  function Run(s: State, calls: seq<Call>): (r: seq<Outcome>)
    ensures |r| == |calls|
    decreases |calls|
  {
    if calls == [] then [] else [Step(s, calls[0]).0] + Run(Step(s, calls[0]).1, calls[1..])
  }

  function End(s: State, calls: seq<Call>): State
    decreases |calls|
  {
    if calls == [] then s else End(Step(s, calls[0]).1, calls[1..])
  }

  function Tally(p: Outcome -> bool, os: seq<Outcome>): nat {
    if os == [] then 0 else (if p(os[0]) then 1 else 0) + Tally(p, os[1..])
  }

  /** The reasons of the dropped calls. */
  function Reasons(os: seq<Outcome>): multiset<Reason> {
    if os == [] then multiset{}
    else (if os[0].Dropped? then multiset{os[0].reason} else multiset{}) + Reasons(os[1..])
  }

  function Numbers(os: seq<Outcome>): seq<nat> {
    if os == [] then [] else (if os[0].Dispatched? then [os[0].seqnum] else []) + Numbers(os[1..])
  }

  /** The drop statistics hold exactly the reasons of the dropped calls. */
  lemma {:induction false} DropsAccounted(s: State, calls: seq<Call>)
    ensures End(s, calls).fails == s.fails + Reasons(Run(s, calls))
    decreases |calls|
  {
    hide Passes, Next;
    if calls != [] {
      var (o, s') := Step(s, calls[0]);
      DropsAccounted(s', calls[1..]);
      assert Run(s, calls)[1..] == Run(s', calls[1..]);
      assert s'.fails == s.fails + if o.Dropped? then multiset{o.reason} else multiset{};
    }
  }

  function Tests(calls: seq<Call>): nat {
    if calls == [] then 0 else (if calls[0].test then 1 else 0) + Tests(calls[1..])
  }

  /** Conservation, read off the counters: the calls that are not tests and did not enter the drop
      statistics are those that moved the sequence number on. */
  lemma {:induction false} CallsConserved(s: State, calls: seq<Call>)
    requires s.lseqnum < TWO32
    ensures var end := End(s, calls);
            var sent := |calls| - Tests(calls) - (|end.fails| - |s.fails|);
            && sent == |Numbers(Run(s, calls))| && end.lseqnum == (s.lseqnum + sent) % TWO32
    decreases |calls|
  {
    hide Passes, Next;
    if calls != [] {
      var (o, s') := Step(s, calls[0]);
      CallsConserved(s', calls[1..]);
      assert Run(s, calls)[1..] == Run(s', calls[1..]);
      if o.Dispatched? {
        WrapStep(s.lseqnum, 1 + |Numbers(Run(s', calls[1..]))|);
      }
    }
  }

  /** Dispatched messages are numbered without gaps, whatever was dropped between them. */
  lemma {:induction false} NumbersConsecutive(s: State, calls: seq<Call>, k: nat)
    requires s.lseqnum < TWO32 && k < |Numbers(Run(s, calls))|
    ensures Numbers(Run(s, calls))[k] == (s.lseqnum + k) % TWO32
    decreases |calls|
  {
    hide Passes, Next;
    var (o, s') := Step(s, calls[0]);
    assert Run(s, calls)[1..] == Run(s', calls[1..]);
    if !o.Dispatched? {
      NumbersConsecutive(s', calls[1..], k);
    } else if k > 0 {
      NumbersConsecutive(s', calls[1..], k - 1);
      WrapStep(s.lseqnum, k);
    }
  }

  lemma WrapStep(n: nat, k: nat)
    requires k > 0
    ensures ((n + 1) % TWO32 + (k - 1)) % TWO32 == (n + k) % TWO32
  {
  }

  /** From a fresh class, the k-th dispatched message carries k modulo 2^32. */
  lemma KthNumber(cap: nat, calls: seq<Call>, k: nat)
    requires 0 < k <= |Numbers(Run(Initial(cap), calls))|
    ensures Numbers(Run(Initial(cap), calls))[k - 1] == k % TWO32
  {
    NumbersConsecutive(Initial(cap), calls, k - 1);
  }

  /** While no call is admitted, the drop is logged once, and only if the flag was up. */
  lemma {:induction false} QuietStretch(s: State, calls: seq<Call>)
    requires forall o | o in Run(s, calls) :: !Admitted(o)
    ensures Tally(RateLogged, Run(s, calls)) == if s.doDropLog && Tally(RateRejected, Run(s, calls)) > 0 then 1 else 0
    decreases |calls|
  {
    hide Passes, Next;
    if calls != [] {
      var (o, s') := Step(s, calls[0]);
      var r := Run(s, calls);
      assert r[0] == o && o in r && r[1..] == Run(s', calls[1..]);
      QuietStretch(s', calls[1..]);
      LoggedBelowRejected(r[1..]);
    }
  }

  lemma {:induction false} LoggedBelowRejected(os: seq<Outcome>)
    ensures Tally(RateLogged, os) <= Tally(RateRejected, os)
  {
    if os != [] {
      LoggedBelowRejected(os[1..]);
    }
  }

  lemma {:induction false} RunSplit(s: State, a: seq<Call>, b: seq<Call>)
    ensures Run(s, a + b) == Run(s, a) + Run(End(s, a), b)
    ensures End(s, a + b) == End(End(s, a), b)
    decreases |a|
  {
    if a == [] {
      assert a + b == b;
    } else {
      assert (a + b)[0] == a[0] && (a + b)[1..] == a[1..] + b;
      RunSplit(Step(s, a[0]).1, a[1..], b);
    }
  }

  lemma EndOne(s: State, c: Call)
    ensures End(s, [c]) == Step(s, c).1
  {
    assert [c][1..] == [];
    assert End(Step(s, c).1, []) == Step(s, c).1;
  }

  /** Between two consecutive admissions there is exactly one rate-limit drop log if any call was
      rejected there, and none otherwise. */
  lemma OneLogBetweenGrants(s: State, before: seq<Call>, grant: Call, between: seq<Call>)
    requires Admitted(Step(End(s, before), grant).0)
    requires forall o | o in Run(Step(End(s, before), grant).1, between) :: !Admitted(o)
    ensures var stretch := Run(s, before + [grant] + between)[|before| + 1..];
            Tally(RateLogged, stretch) == if Tally(RateRejected, stretch) > 0 then 1 else 0
  {
    RunSplit(s, before + [grant], between);
    RunSplit(s, before, [grant]);
    EndOne(End(s, before), grant);
    QuietStretch(Step(End(s, before), grant).1, between);
  }

  /** The ticks that reach the limiter, in order. */
  function Ticks(calls: seq<Call>): seq<Tick> {
    if calls == [] then []
    else
      var n := |calls| - 1;
      if calls[n].test || calls[n].disabled then Ticks(calls[..n]) else Ticks(calls[..n]) + [calls[n].tick]
  }

  /** The limiter sees exactly the calls that are neither test-logged nor switched off. */
  lemma {:induction false} LimiterRun(cap: nat, calls: seq<Call>)
    ensures End(Initial(cap), calls).ring == After(cap, Ticks(calls))
  {
    hide Passes, Next;
    if calls != [] {
      var n := |calls| - 1;
      LimiterRun(cap, calls[..n]);
      assert calls == calls[..n] + [calls[n]];
      RunSplit(Initial(cap), calls[..n], [calls[n]]);
      EndOne(End(Initial(cap), calls[..n]), calls[n]);
      OneMore(cap, Ticks(calls[..n]), calls[n].tick);
    }
  }

  /** End to end, with limits that never decrease: a call that reaches the limiter is admitted
      exactly when its second has not used up the limit. */
  lemma AdmittedWithinLimit(cap: nat, calls: seq<Call>, c: Call)
    requires !c.test && !c.disabled
    requires Clock(Ticks(calls) + [c.tick]) && Rising(Ticks(calls) + [c.tick])
    ensures Admitted(Step(End(Initial(cap), calls), c).0)
        <==> Count(Times(cap, Ticks(calls)), c.tick.now) < c.tick.limit
  {
    LimiterRun(cap, calls);
    RisingRule(cap, Ticks(calls), c.tick);
    var all := Ticks(calls) + [c.tick];
    assert all[..|all| - 1] == Ticks(calls);
  }

  /** What becomes of every call, for every history of limits: the outcome and its one reason, from what
      the call sees, the stamps in the buffer and the grants of its second. */
  lemma OutcomeRule(cap: nat, calls: seq<Call>, c: Call)
    requires !c.test && !c.disabled ==> Clock(Ticks(calls) + [c.tick])
    ensures var s := End(Initial(cap), calls);
            var o := Step(s, c).0;
            var room := c.tick.limit > 0 &&
                        (Stamps(s.ring.items) < c.tick.limit || Count(Times(cap, Ticks(calls)), c.tick.now) < c.tick.limit);
            && (o == TestLogged <==> c.test)
            && (o == Dropped(SendingDisabled, false) <==> !c.test && c.disabled)
            && (o == Dropped(RatelimitDrop, s.doDropLog) <==> !c.test && !c.disabled && !room)
            && (o == Dropped(QueueLevel, true) <==> !c.test && !c.disabled && room && c.level >= c.sendingLevel)
            && (o == Dispatched(s.lseqnum) <==> !c.test && !c.disabled && room && c.level < c.sendingLevel)
  {
    hide Passes, Next, Stamps, Count;
    if !c.test && !c.disabled {
      LimiterRun(cap, calls);
      GrantRule(cap, Ticks(calls), c.tick);
      OneMore(cap, Ticks(calls), c.tick);
    }
  }

  /** With limits that never decrease, a call is dispatched iff it is neither a test nor switched off, its
      second has room, and its level is below the sending level. */
  lemma DispatchedRule(cap: nat, calls: seq<Call>, c: Call)
    requires !c.test && !c.disabled ==> Clock(Ticks(calls) + [c.tick]) && Rising(Ticks(calls) + [c.tick])
    ensures Step(End(Initial(cap), calls), c).0.Dispatched? <==>
            && !c.test && !c.disabled
            && Count(Times(cap, Ticks(calls)), c.tick.now) < c.tick.limit && c.level < c.sendingLevel
  {
    hide Passes, Next, Count;
    if !c.test && !c.disabled {
      AdmittedWithinLimit(cap, calls, c);
    }
  }
}
