/** Deduplication of background pulls of one model, for every interleaving of callers, finishing pulls
    and inventory reconciles, one map operation at a time. */
module PullProtocol {
  import opened Options

  /** Where a caller, or the goroutine it started, stands. `seen` counts the pulls that had been started
      when the caller looked at the time of the last one. */
  datatype Phase = Idle | Checked(seen: nat) | Claimed(seen: nat) | Pulling | Closing

  /** One entry each of the in-flight and recent maps, the callers, and the times pulls were started at. */
  datatype State = State(now: int, inFlight: bool, recent: Option<int>, callers: seq<Phase>, starts: seq<int>)

  const COOLDOWN := 30

  datatype Event =
    | Tick(seconds: nat)          // time passes
    | Check(who: nat)             // pullRecent.Load
    | Claim(who: nat)             // pullInFlight.LoadOrStore
    | Start(who: nat)             // pullRecent.Store, and the goroutine starts pulling
    | Finish(who: nat)            // PullModel returns
    | Release(who: nat)           // the deferred pullInFlight.Delete
    | Reconcile(listed: bool)     // clearResolvedInFlight, with or without the model in the listing
    | Trigger(who: nat)           // Check, Claim and Start as one step

  predicate Cooling(s: State) {
    s.recent.Some? && s.now - s.recent.value < COOLDOWN
  }

  function Move(s: State, who: nat, phase: Phase): State
    requires who < |s.callers|
  {
    s.(callers := s.callers[who := phase])
  }

  function DoStart(s: State, who: nat): State
    requires who < |s.callers|
  {
    Move(s, who, Pulling).(recent := Some(s.now), starts := s.starts + [s.now])
  }

  /** One step; an event that is not enabled changes nothing. */
  function Step(s: State, e: Event): State {
    match e
    case Tick(seconds) => s.(now := s.now + seconds)
    case Check(who) =>
      if who < |s.callers| && s.callers[who].Idle? && !Cooling(s) then Move(s, who, Checked(|s.starts|)) else s
    case Claim(who) =>
      if who < |s.callers| && s.callers[who].Checked? then
        if s.inFlight then Move(s, who, Idle)
        else Move(s, who, Claimed(s.callers[who].seen)).(inFlight := true)
      else s
    case Start(who) =>
      if who < |s.callers| && s.callers[who].Claimed? then DoStart(s, who) else s
    case Finish(who) =>
      if who < |s.callers| && s.callers[who].Pulling? then Move(s, who, Closing) else s
    case Release(who) =>
      if who < |s.callers| && s.callers[who].Closing? then Move(s, who, Idle).(inFlight := false) else s
    case Reconcile(listed) => if listed then s.(inFlight := false) else s
    case Trigger(who) =>
      if who < |s.callers| && s.callers[who].Idle? && !Cooling(s) && !s.inFlight
      then DoStart(s.(inFlight := true), who) else s
  }

  function Run(s: State, events: seq<Event>): State {
    if events == [] then s else Step(Run(s, events[..|events| - 1]), events[|events| - 1])
  }

  predicate Initial(s: State) {
    !s.inFlight && s.recent == None && s.starts == [] && forall i :: 0 <= i < |s.callers| ==> s.callers[i] == Idle
  }

  // ----- At most one pull at a time

  predicate Holds(p: Phase) {
    p.Claimed? || p.Pulling? || p.Closing?
  }

  /** The in-flight entry is set exactly while one caller holds it, and never by two. */
  ghost predicate Exclusive(s: State) {
    && (s.inFlight <==> exists i :: 0 <= i < |s.callers| && Holds(s.callers[i]))
    && (forall i, j :: 0 <= i < j < |s.callers| ==> !(Holds(s.callers[i]) && Holds(s.callers[j])))
  }

  lemma ExclusiveStep(s: State, e: Event)
    requires Exclusive(s) && e != Reconcile(true)
    ensures Exclusive(Step(s, e))
  {
    var t := Step(s, e);
    if t != s && !e.Tick? && !e.Reconcile? {
      var who := e.who;
      assert forall i :: 0 <= i < |s.callers| && i != who ==> t.callers[i] == s.callers[i];
      assert Holds(s.callers[who]) ==> s.inFlight;
      assert Holds(t.callers[who]) ==> t.inFlight;
    }
  }

  /** Claiming succeeds exactly when the entry is not set; a caller that comes too late has to look again. */
  lemma ClaimExactly(s: State, who: nat)
    requires who < |s.callers| && s.callers[who].Checked?
    ensures var t := Step(s, Claim(who));
            if s.inFlight then t == s.(callers := s.callers[who := Idle])
            else t.inFlight && Holds(t.callers[who]) && t.callers[who].seen == s.callers[who].seen
                 && t.starts == s.starts && t.recent == s.recent
  {
  }

  /** A reconcile whose listing names the model while somebody holds its entry. */
  predicate Lifts(s: State, e: Event) {
    e == Reconcile(true) && s.inFlight
  }

  lemma LiftingEndsExclusion(s: State, e: Event)
    requires Exclusive(s)
    ensures Exclusive(Step(s, e)) <==> !Lifts(s, e)
  {
    if Lifts(s, e) {
      var i :| 0 <= i < |s.callers| && Holds(s.callers[i]);
      assert Step(s, e).callers[i] == s.callers[i];
    } else if e == Reconcile(true) {
      assert Step(s, e) == s;
    } else {
      ExclusiveStep(s, e);
    }
  }

  /** The entry keeps its meaning throughout a run exactly when no reconcile lists the model while it is set. */
  lemma {:induction false} EntryExactly(s: State, events: seq<Event>)
    requires Initial(s)
    ensures (forall k :: 0 <= k <= |events| ==> Exclusive(Run(s, events[..k])))
        <==> (forall k :: 0 <= k < |events| ==> !Lifts(Run(s, events[..k]), events[k]))
  {
    hide *;
    StartsExclusive(s);
    assert events[..0] == [];
    if forall k :: 0 <= k < |events| ==> !Lifts(Run(s, events[..k]), events[k]) {
      var n := 0;
      while n < |events|
        invariant 0 <= n <= |events|
        invariant forall k :: 0 <= k <= n ==> Exclusive(Run(s, events[..k]))
      {
        assert Exclusive(Run(s, events[..n])) && !Lifts(Run(s, events[..n]), events[n]);
        ExclusiveNext(s, events, n);
        n := n + 1;
      }
    }
    if forall k :: 0 <= k <= |events| ==> Exclusive(Run(s, events[..k])) {
      forall k | 0 <= k < |events| ensures !Lifts(Run(s, events[..k]), events[k]) {
        assert Exclusive(Run(s, events[..k])) && Exclusive(Run(s, events[..k + 1]));
        ExclusiveNext(s, events, k);
      }
    }
  }

  lemma ExclusiveNext(s: State, events: seq<Event>, k: nat)
    requires k < |events| && Exclusive(Run(s, events[..k]))
    ensures Exclusive(Run(s, events[..k + 1])) <==> !Lifts(Run(s, events[..k]), events[k])
  {
    hide *;
    RunNext(s, events, k);
    LiftingEndsExclusion(Run(s, events[..k]), events[k]);
  }

  lemma StartsExclusive(s: State)
    requires Initial(s)
    ensures Exclusive(Run(s, []))
  {
  }

  lemma RunNext(s: State, events: seq<Event>, k: nat)
    requires k < |events|
    ensures Run(s, events[..k + 1]) == Step(Run(s, events[..k]), events[k])
  {
    assert events[..k + 1][..k] == events[..k];
  }

  lemma RunSnoc(s: State, events: seq<Event>, e: Event)
    ensures Run(s, events + [e]) == Step(Run(s, events), e)
  {
    assert (events + [e])[..|events|] == events;
  }

  /** As long as no reconcile lists the model while its entry is set, at most one pull of it runs, in every
      interleaving. */
  lemma {:induction false} OnePullAtATime(s: State, events: seq<Event>)
    requires Initial(s)
    requires forall k :: 0 <= k < |events| ==> !Lifts(Run(s, events[..k]), events[k])
    ensures Exclusive(Run(s, events))
    ensures AtMostOnePulling(Run(s, events))
  {
    hide Run, Step, Initial, Lifts;
    EntryExactly(s, events);
    assert events[..|events|] == events;
  }

  ghost predicate AtMostOnePulling(s: State) {
    forall i, j :: 0 <= i < |s.callers| && 0 <= j < |s.callers| && s.callers[i].Pulling? && s.callers[j].Pulling? ==>
      i == j
  }

  // ----- The cool-down between starts

  /** The recent entry is the time of the last start, and nobody claims to have seen later starts. */
  ghost predicate Timed(s: State) {
    && s.recent == (if s.starts == [] then None else Some(s.starts[|s.starts| - 1]))
    && (s.starts != [] ==> s.starts[|s.starts| - 1] <= s.now)
    && (forall i :: 0 <= i < |s.callers| && (s.callers[i].Checked? || s.callers[i].Claimed?) ==>
          && s.callers[i].seen <= |s.starts|
          && (s.callers[i].seen > 0 ==> s.now - s.starts[s.callers[i].seen - 1] >= COOLDOWN))
  }

  lemma TimedStep(s: State, e: Event)
    requires Timed(s)
    ensures Timed(Step(s, e))
  {
    var t := Step(s, e);
    assert forall i :: 0 <= i < |s.starts| ==> t.starts[i] == s.starts[i];
    if t != s && !e.Tick? && !e.Reconcile? {
      assert forall i :: 0 <= i < |s.callers| && i != e.who ==> t.callers[i] == s.callers[i];
    }
  }

  lemma {:induction false} AlwaysTimed(s: State, events: seq<Event>)
    requires Initial(s)
    ensures Timed(Run(s, events))
  {
    if events != [] {
      AlwaysTimed(s, events[..|events| - 1]);
      TimedStep(Run(s, events[..|events| - 1]), events[|events| - 1]);
    }
  }

  /** In every interleaving a caller keeps 30 seconds from every start it could have seen when it looked;
      only a start that slipped in between its look and its own start can be closer. */
  lemma StartKeepsDistance(s: State, events: seq<Event>, who: nat)
    requires Initial(s)
    requires var t := Run(s, events); who < |t.callers| && t.callers[who].Claimed?
    ensures var t := Run(s, events);
            var u := Step(t, Start(who));
            && u.starts == t.starts + [t.now]
            && t.callers[who].seen <= |t.starts|
            && (t.callers[who].seen == |t.starts| > 0 ==> u.starts[|t.starts|] - u.starts[|t.starts| - 1] >= 30)
  {
    AlwaysTimed(s, events);
  }

  predicate Spaced(starts: seq<int>) {
    forall i, j :: 0 <= i < j < |starts| ==> starts[j] - starts[i] >= 30
  }

  predicate AtomicEvent(e: Event) {
    !e.Check? && !e.Claim? && !e.Start?
  }

  /** With the trigger as one step, any two pulls started over a whole run are at least 30 seconds apart,
      whatever the reconciles list. */
  lemma {:induction false} AtomicTriggersAreSpaced(s: State, events: seq<Event>)
    requires Initial(s) && forall i :: 0 <= i < |events| ==> AtomicEvent(events[i])
    ensures Spaced(Run(s, events).starts)
  {
    if events != [] {
      var init, e := events[..|events| - 1], events[|events| - 1];
      AtomicTriggersAreSpaced(s, init);
      AlwaysTimed(s, init);
      assert AtomicEvent(e);
      var t, u := Run(s, init), Step(Run(s, init), e);
      if u.starts != t.starts {
        forall i | 0 <= i < |t.starts| ensures t.now - t.starts[i] >= 30 {
          assert i == |t.starts| - 1 || t.starts[|t.starts| - 1] - t.starts[i] >= 30;
        }
      }
    }
  }

  /** Event `e` starts a pull in `s`. */
  predicate Starts(s: State, e: Event) {
    Step(s, e).starts != s.starts
  }

  /** A caller starts a pull although others were started since it looked. */
  predicate Stale(s: State, e: Event) {
    e.Start? && e.who < |s.callers| && s.callers[e.who].Claimed? && s.callers[e.who].seen < |s.starts|
  }

  /** Whoever looked after the last start does not start while the model is cooling. */
  lemma FreshStartsWait(s: State, e: Event)
    requires Timed(s) && Starts(s, e) && !Stale(s, e)
    ensures !Cooling(s)
  {
  }

  /** No caller whose look is out of date starts while the model is cooling. */
  ghost predicate NoStaleStartWhileCooling(s: State, events: seq<Event>) {
    forall k :: 0 <= k < |events| && Stale(Run(s, events[..k]), events[k]) ==> !Cooling(Run(s, events[..k]))
  }

  /** For every interleaving: the starts of a run keep 30 seconds from each other exactly when no caller with
      an outdated look starts while the model is cooling. All other starts are far enough apart anyway. */
  lemma {:induction false} SpacedExactly(s: State, events: seq<Event>)
    requires Initial(s)
    ensures Spaced(Run(s, events).starts) <==> NoStaleStartWhileCooling(s, events)
  {
    hide *;
    if events == [] {
      NothingStarted(s);
    } else {
      var n := |events| - 1;
      SpacedExactly(s, events[..n]);
      AlwaysTimed(s, events[..n]);
      SpacedStep(Run(s, events[..n]), events[n]);
      RunNext(s, events, n);
      assert events[..n + 1] == events;
      NoStaleStartNext(s, events, n);
    }
  }

  lemma NothingStarted(s: State)
    requires Initial(s)
    ensures Spaced(Run(s, []).starts) && NoStaleStartWhileCooling(s, [])
  {
  }

  lemma NoStaleStartNext(s: State, events: seq<Event>, n: nat)
    requires n == |events| - 1
    ensures NoStaleStartWhileCooling(s, events) <==>
            NoStaleStartWhileCooling(s, events[..n])
            && (Stale(Run(s, events[..n]), events[n]) ==> !Cooling(Run(s, events[..n])))
  {
    hide Run, Stale, Cooling;
    assert forall k :: 0 <= k < n ==> events[..n][..k] == events[..k];
  }

  lemma SpacedStep(s: State, e: Event)
    requires Timed(s)
    ensures Spaced(Step(s, e).starts) <==> Spaced(s.starts) && (Stale(s, e) ==> !Cooling(s))
  {
    var t := Step(s, e);
    if Starts(s, e) {
      var n := |s.starts|;
      assert t.starts == s.starts + [s.now];
      assert forall i :: 0 <= i < n ==> t.starts[i] == s.starts[i];
      if Spaced(s.starts) && !Cooling(s) && n > 0 {
        assert forall i :: 0 <= i < n ==> s.starts[n - 1] - s.starts[i] >= 0;
      }
      if Spaced(t.starts) && n > 0 {
        assert t.starts[n] - t.starts[n - 1] >= 30;
      }
    }
  }

  /** One map operation at a time that can fail: two callers that both looked before either started can
      pull one right after the other, although no reconcile ever listed the model. */
  lemma InterleavedTriggersAreNotSpaced(s: State, looks: seq<Event>)
    requires s == State(0, false, None, [Idle, Idle], [])
    requires looks == [] + [Check(0)] + [Check(1)]
    ensures Initial(s)
    ensures !Spaced(Run(s, looks + [Claim(0)] + [Start(0)] + [Finish(0)] + [Release(0)]
                           + [Claim(1)] + [Start(1)]).starts)
  {
    assert Run(s, []) == s;
    hide Run;
    var e1: seq<Event> := [] + [Check(0)];
    RunSnoc(s, [], Check(0));
    RunSnoc(s, e1, Check(1));
    var e3 := looks + [Claim(0)];
    var e4 := e3 + [Start(0)];
    var e5 := e4 + [Finish(0)];
    var e6 := e5 + [Release(0)];
    var e7 := e6 + [Claim(1)];
    RunSnoc(s, looks, Claim(0));
    RunSnoc(s, e3, Start(0));
    RunSnoc(s, e4, Finish(0));
    RunSnoc(s, e5, Release(0));
    RunSnoc(s, e6, Claim(1));
    RunSnoc(s, e7, Start(1));
    var starts := Run(s, e7 + [Start(1)]).starts;
    assert starts[1] - starts[0] == 0;
  }

  // ----- When two pulls can overlap

  predicate Unlisted(events: seq<Event>) {
    forall i :: 0 <= i < |events| ==> events[i] != Reconcile(true)
  }

  /** However the callers interleave from here on, as long as no further reconcile lists the model at most
      one pull of it runs. */
  ghost predicate Safe(s: State) {
    forall events: seq<Event> :: Unlisted(events) ==> AtMostOnePulling(Run(s, events))
  }

  /** A set entry has a holder: whoever sets it holds it, and whoever stops holding it clears it. */
  ghost predicate Held(s: State) {
    s.inFlight ==> exists i :: 0 <= i < |s.callers| && Holds(s.callers[i])
  }

  lemma HeldStep(s: State, e: Event)
    requires Held(s)
    ensures Held(Step(s, e)) && |Step(s, e).callers| == |s.callers|
  {
    var t := Step(s, e);
    if t.inFlight && s.inFlight {
      var i :| 0 <= i < |s.callers| && Holds(s.callers[i]);
      assert Holds(t.callers[i]);
    } else if t.inFlight {
      assert Holds(t.callers[e.who]);
    }
  }

  lemma {:induction false} AlwaysHeld(s: State, events: seq<Event>)
    requires Initial(s)
    ensures Held(Run(s, events)) && |Run(s, events).callers| == |s.callers|
  {
    if events != [] {
      AlwaysHeld(s, events[..|events| - 1]);
      HeldStep(Run(s, events[..|events| - 1]), events[|events| - 1]);
    }
  }

  lemma {:induction false} RunConcat(s: State, a: seq<Event>, b: seq<Event>)
    ensures Run(s, a + b) == Run(Run(s, a), b)
  {
    hide Step;
    if b == [] {
      assert a + b == a;
    } else {
      RunConcat(s, a, b[..|b| - 1]);
      RunSnoc(s, a + b[..|b| - 1], b[|b| - 1]);
      assert a + b[..|b| - 1] + [b[|b| - 1]] == a + b;
    }
  }

  /** Exclusive states stay exclusive without a listing. */
  lemma {:induction false} ExclusiveIsSafe(s: State, events: seq<Event>)
    requires Exclusive(s) && Unlisted(events)
    ensures Exclusive(Run(s, events))
  {
    hide Step, Exclusive;
    if events != [] {
      ExclusiveIsSafe(s, events[..|events| - 1]);
      ExclusiveStep(Run(s, events[..|events| - 1]), events[|events| - 1]);
    }
  }

  /** Two different callers, one of whom holds the entry although it is clear or the other holds it too. */
  ghost predicate Loose(s: State, i: nat, j: nat) {
    && i < |s.callers| && j < |s.callers| && i != j
    && Holds(s.callers[i]) && (Holds(s.callers[j]) || !s.inFlight)
  }

  lemma NotExclusiveIsLoose(s: State) returns (i: nat, j: nat)
    requires Held(s) && !Exclusive(s) && |s.callers| >= 2
    ensures Loose(s, i, j)
  {
    if k, l :| 0 <= k < l < |s.callers| && Holds(s.callers[k]) && Holds(s.callers[l]) {
      i, j := k, l;
    } else {
      i :| i < |s.callers| && Holds(s.callers[i]);
      j := if i == 0 then 1 else 0;
    }
  }

  /** A way to two overlapping pulls. */
  ghost predicate Overlaps(s: State, events: seq<Event>) {
    Unlisted(events) && !AtMostOnePulling(Run(s, events))
  }

  lemma OverlapsNow(s: State, i: nat, j: nat)
    requires i < |s.callers| && j < |s.callers| && i != j
    requires s.callers[i].Pulling? && s.callers[j].Pulling?
    ensures Overlaps(s, [])
  {
  }

  lemma OverlapsAfter(s: State, e: Event, events: seq<Event>)
    requires e != Reconcile(true) && Overlaps(Step(s, e), events)
    ensures Overlaps(s, [e] + events)
  {
    hide Step, AtMostOnePulling;
    RunConcat(s, [e], events);
    assert Run(s, [e]) == Step(s, e) by {
      RunSnoc(s, [], e);
      assert [] + [e] == [e];
    }
  }

  /** One caller pulls, and the other can be brought to pull as well. */
  lemma SecondPull(s: State, i: nat, j: nat) returns (events: seq<Event>)
    requires Timed(s) && Loose(s, i, j) && s.callers[i].Pulling?
    ensures Overlaps(s, events)
    decreases Distance(s.callers[j]), 1
  {
    match s.callers[j]
    case Pulling =>
      OverlapsNow(s, i, j);
      events := [];
    case Claimed(_) =>
      events := SecondAfter(s, Start(j), i, j);
    case Checked(_) =>
      events := SecondAfter(s, Claim(j), i, j);
    case Closing =>
      events := SecondAfter(s, Release(j), i, j);
    case Idle =>
      var later := Step(s, Tick(30));
      TimedStep(s, Tick(30));
      events := SecondAfter(later, Trigger(j), i, j);
      OverlapsAfter(s, Tick(30), events);
      events := [Tick(30)] + events;
  }

  function Distance(p: Phase): nat {
    match p case Closing => 4 case Idle => 3 case Checked(_) => 2 case Claimed(_) => 1 case Pulling => 0
  }

  lemma SecondAfter(s: State, e: Event, i: nat, j: nat) returns (events: seq<Event>)
    requires Timed(s) && e != Reconcile(true)
    requires Loose(Step(s, e), i, j) && Step(s, e).callers[i].Pulling?
    requires |s.callers| == |Step(s, e).callers| && Distance(Step(s, e).callers[j]) < Distance(s.callers[j])
    ensures Overlaps(s, events)
    decreases Distance(s.callers[j]), 0
  {
    hide *;
    TimedStep(s, e);
    events := SecondPull(Step(s, e), i, j);
    OverlapsAfter(s, e, events);
    events := [e] + events;
  }

  /** From every loose state some interleaving without a listing leads to two pulls at once. */
  lemma LooseOverlaps(s: State, i: nat, j: nat) returns (events: seq<Event>)
    requires Timed(s) && Loose(s, i, j)
    ensures Overlaps(s, events)
    decreases Distance(s.callers[i]) + Distance(s.callers[j])
  {
    hide Timed, Overlaps;
    match s.callers[i] {
      case Pulling =>
        events := SecondPull(s, i, j);
      case Claimed(_) =>
        events := PullAfter(s, Start(i), i, j);
      case Closing =>
        match s.callers[j] {
          case Pulling =>
            events := SecondPull(s, j, i);
          case Claimed(_) =>
            events := PullAfter(s, Start(j), j, i);
          case Closing =>
            TimedStep(s, Release(i));
            events := LooseOverlaps(Step(s, Release(i)), j, i);
            OverlapsAfter(s, Release(i), events);
            events := [Release(i)] + events;
          case Checked(_) =>
            TimedStep(s, Claim(j));
            events := LooseOverlaps(Step(s, Claim(j)), j, i);
            OverlapsAfter(s, Claim(j), events);
            events := [Claim(j)] + events;
          case Idle =>
            NotCoolingLater(s);
            events := PullAfter(Step(s, Tick(30)), Trigger(j), j, i);
            OverlapsAfter(s, Tick(30), events);
            events := [Tick(30)] + events;
        }
    }
  }

  lemma NotCoolingLater(s: State)
    requires Timed(s)
    ensures Timed(Step(s, Tick(30))) && !Cooling(Step(s, Tick(30)))
  {
    TimedStep(s, Tick(30));
  }

  lemma PullAfter(s: State, e: Event, i: nat, j: nat) returns (events: seq<Event>)
    requires Timed(s) && e != Reconcile(true)
    requires Loose(Step(s, e), i, j) && Step(s, e).callers[i].Pulling?
    ensures Overlaps(s, events)
  {
    hide *;
    TimedStep(s, e);
    events := SecondPull(Step(s, e), i, j);
    OverlapsAfter(s, e, events);
    events := [e] + events;
  }

  /** The exact condition, in every state a run can reach: no interleaving without a further listing can
      lead to two pulls at once exactly when the entry is set just while one caller holds it. */
  lemma SafeExactly(s: State, past: seq<Event>)
    requires Initial(s) && |s.callers| >= 2
    ensures Exclusive(Run(s, past)) <==> Safe(Run(s, past))
  {
    hide Step, Run, Initial, Timed, Held, Unlisted;
    var t := Run(s, past);
    AlwaysTimed(s, past);
    AlwaysHeld(s, past);
    if Exclusive(t) {
      forall events: seq<Event> | Unlisted(events) ensures AtMostOnePulling(Run(t, events)) {
        ExclusiveIsSafe(t, events);
      }
    } else {
      var i, j := NotExclusiveIsLoose(t);
      var events := LooseOverlaps(t, i, j);
      assert Overlaps(t, events);
    }
  }

  /** So a run is safe at every moment exactly when no reconcile lists the model while its entry is set. */
  lemma SafeThroughout(s: State, events: seq<Event>)
    requires Initial(s) && |s.callers| >= 2
    ensures (forall k :: 0 <= k <= |events| ==> Safe(Run(s, events[..k])))
        <==> (forall k :: 0 <= k < |events| ==> !Lifts(Run(s, events[..k]), events[k]))
  {
    hide *;
    EntryExactly(s, events);
    forall k | 0 <= k <= |events| ensures Exclusive(Run(s, events[..k])) <==> Safe(Run(s, events[..k])) {
      SafeExactly(s, events[..k]);
    }
  }

  /** Two pulls overlap after a listing of a model that is still being pulled. */
  lemma ListingBreaksExclusion(s: State)
    requires s == State(0, false, None, [Idle, Idle], [])
    ensures Initial(s)
    ensures !AtMostOnePulling(Run(s, [] + [Trigger(0)] + [Reconcile(true)] + [Tick(30)] + [Trigger(1)]))
  {
    assert Run(s, []) == s;
    hide Run;
    var e1: seq<Event> := [] + [Trigger(0)];
    var e2 := e1 + [Reconcile(true)];
    var e3 := e2 + [Tick(30)];
    RunSnoc(s, [], Trigger(0));
    RunSnoc(s, e1, Reconcile(true));
    RunSnoc(s, e2, Tick(30));
    RunSnoc(s, e3, Trigger(1));
    var t := Run(s, e3 + [Trigger(1)]);
    assert t.callers[0].Pulling? && t.callers[1].Pulling?;
  }

  /** No pull has to be running when the model is listed: the reconcile at the end of an ordinary pull is
      enough, if another caller starts before the first one deletes the entry, which then is the other's. */
  lemma OrdinaryListingBreaksExclusion(s: State, listed: seq<Event>)
    requires s == State(0, false, None, [Idle, Idle], [])
    requires listed == [] + [Trigger(0)] + [Tick(600)] + [Finish(0)]
    ensures Initial(s) && forall p :: p in Run(s, listed).callers ==> !p.Pulling?
    ensures !AtMostOnePulling(
              Run(s, listed + [Reconcile(true)] + [Trigger(1)] + [Release(0)] + [Tick(30)] + [Trigger(0)]))
  {
    assert Run(s, []) == s;
    hide Run;
    var e1: seq<Event> := [] + [Trigger(0)];
    RunSnoc(s, [], Trigger(0));
    RunSnoc(s, e1, Tick(600));
    RunSnoc(s, e1 + [Tick(600)], Finish(0));
    assert Run(s, listed) == State(600, true, Some(0), [Closing, Idle], [0]);
    var e4 := listed + [Reconcile(true)];
    var e5 := e4 + [Trigger(1)];
    var e6 := e5 + [Release(0)];
    var e7 := e6 + [Tick(30)];
    RunSnoc(s, listed, Reconcile(true));
    RunSnoc(s, e4, Trigger(1));
    RunSnoc(s, e5, Release(0));
    assert Run(s, e6) == State(600, false, Some(600), [Idle, Pulling], [0, 600]);
    RunSnoc(s, e6, Tick(30));
    RunSnoc(s, e7, Trigger(0));
    var t := Run(s, e7 + [Trigger(0)]);
    assert t.callers[0].Pulling? && t.callers[1].Pulling?;
  }
}
