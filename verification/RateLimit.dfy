/** The per-key token bucket in front of the API: a mutable limiter, the pure step it takes, and what
    that step guarantees over whole runs. Times are seconds of one clock that never runs backwards. */
module RateLimit {
  import opened Options

  datatype Bucket = Bucket(tokens: real, lastRefill: real)

  datatype Settings = Settings(rpm: int, burst: int) {
    predicate Valid() {
      rpm >= 1 && burst >= 1
    }

    function PerSecond(): real {
      (rpm as real) / 60.0
    }

    /** Tokens that flow in over some seconds. */
    function Inflow(seconds: real): real {
      seconds * PerSecond()
    }

    function Refill(b: Bucket, now: real): Bucket {
      var tokens := b.tokens + Inflow(now - b.lastRefill);
      Bucket(if tokens > burst as real then burst as real else tokens, now)
    }

    /** The decision about one call, and the bucket it leaves. */
    function Decide(b: Option<Bucket>, now: real): (bool, Bucket) {
      match b
      case None => (true, Bucket((burst - 1) as real, now))
      case Some(bucket) =>
        var filled := Refill(bucket, now);
        if filled.tokens < 1.0 then (false, filled) else (true, filled.(tokens := filled.tokens - 1.0))
    }
  }

  function Lookup(buckets: map<string, Bucket>, key: string): Option<Bucket> {
    if key in buckets then Some(buckets[key]) else None
  }

  class Limiter {
    const settings: Settings
    var buckets: map<string, Bucket>

    constructor (rpm: int, burst: int)
      ensures settings.Valid() && buckets == map[]
      ensures rpm > 0 ==> settings.rpm == rpm
      ensures burst > 0 ==> settings.burst == burst
      ensures rpm <= 0 ==> settings.rpm == 60
      ensures burst <= 0 ==> settings.burst == if settings.rpm < 2 then 1 else settings.rpm / 2
    {
      var r, b := rpm, burst;
      if r <= 0 {
        r := 60;
      }
      if b <= 0 {
        b := r / 2;
        if b < 1 {
          b := 1;
        }
      }
      settings := Settings(r, b);
      buckets := map[];
    }

    method Allow(key: string, now: real) returns (ok: bool)
      modifies this
      ensures key in buckets && (ok, buckets[key]) == settings.Decide(Lookup(old(buckets), key), now)
      ensures buckets == old(buckets)[key := buckets[key]]
    {
      if key !in buckets {
        buckets := buckets[key := Bucket((settings.burst - 1) as real, now)];
        return true;
      }
      var b := buckets[key];
      var perSec := (settings.rpm as real) / 60.0;
      var elapsed := now - b.lastRefill;
      assert elapsed * perSec == settings.Inflow(elapsed);
      b := b.(tokens := b.tokens + elapsed * perSec);
      if b.tokens > settings.burst as real {
        b := b.(tokens := settings.burst as real);
      }
      b := b.(lastRefill := now);
      if b.tokens < 1.0 {
        buckets := buckets[key := b];
        return false;
      }
      b := b.(tokens := b.tokens - 1.0);
      buckets := buckets[key := b];
      return true;
    }
  }

  // ----- Whole runs

  datatype Call = Call(key: string, time: real)

  function After(s: Settings, calls: seq<Call>): map<string, Bucket> {
    if calls == [] then map[]
    else
      var before, call := After(s, calls[..|calls| - 1]), calls[|calls| - 1];
      before[call.key := s.Decide(Lookup(before, call.key), call.time).1]
  }

  /** Was call number `i` of the run accepted? */
  predicate Accepted(s: Settings, calls: seq<Call>, i: nat)
    requires i < |calls|
  {
    s.Decide(Lookup(After(s, calls[..i]), calls[i].key), calls[i].time).0
  }

  ghost predicate Chronological(calls: seq<Call>) {
    forall i, j :: 0 <= i < j < |calls| ==> calls[i].time <= calls[j].time
  }

  /** Calls on `key` accepted between the instants `from` and `to`. */
  function AcceptedIn(s: Settings, calls: seq<Call>, key: string, from: real, to: real): nat {
    if calls == [] then 0
    else
      var last := |calls| - 1;
      AcceptedIn(s, calls[..last], key, from, to) +
      if calls[last].key == key && from <= calls[last].time <= to && Accepted(s, calls, last) then 1 else 0
  }

  function CallsOn(calls: seq<Call>, key: string): seq<Call> {
    if calls == [] then []
    else
      var rest := CallsOn(calls[..|calls| - 1], key);
      if calls[|calls| - 1].key == key then rest + [calls[|calls| - 1]] else rest
  }

  lemma InflowNonNegative(s: Settings, seconds: real)
    requires s.Valid() && seconds >= 0.0
    ensures s.Inflow(seconds) >= 0.0
  {
    assert s.PerSecond() > 0.0;
  }

  lemma InflowAdds(s: Settings, a: real, b: real)
    ensures s.Inflow(a + b) == s.Inflow(a) + s.Inflow(b)
  {
  }

  /** Refilling once is the same as refilling at any instant in between as well. */
  lemma LazyRefill(s: Settings, b: Bucket, between: real, now: real)
    requires s.Valid() && b.tokens <= s.burst as real && b.lastRefill <= between <= now
    ensures s.Refill(s.Refill(b, between), now) == s.Refill(b, now)
  {
    InflowAdds(s, between - b.lastRefill, now - between);
    InflowNonNegative(s, now - between);
    assert (between - b.lastRefill) + (now - between) == now - b.lastRefill;
  }

  /** Every bucket holds between 0 and `burst` tokens and remembers the last call on its key. */
  lemma {:induction false} BucketsStayInRange(s: Settings, calls: seq<Call>, key: string)
    requires s.Valid() && Chronological(calls)
    ensures var b := Lookup(After(s, calls), key);
            && (b == None <==> CallsOn(calls, key) == [])
            && (b.Some? ==> 0.0 <= b.value.tokens <= s.burst as real)
            && (b.Some? ==> b.value.lastRefill == CallsOn(calls, key)[|CallsOn(calls, key)| - 1].time)
            && (b.Some? && calls != [] ==> b.value.lastRefill <= calls[|calls| - 1].time)
  {
    if calls != [] {
      var init, call := calls[..|calls| - 1], calls[|calls| - 1];
      BucketsStayInRange(s, init, key);
      var b := Lookup(After(s, init), key);
      if call.key == key && b.Some? {
        InflowNonNegative(s, call.time - b.value.lastRefill);
      }
    }
  }

  /** The bucket of a key after a run, as the accepted calls of a window determine it: what was accepted,
      plus what is left, never exceeds the burst plus the inflow since the window opened. */
  lemma {:induction false} WindowInvariant(s: Settings, calls: seq<Call>, key: string, from: real, to: real)
    requires s.Valid() && Chronological(calls) && from <= to
    ensures var n := AcceptedIn(s, calls, key, from, to) as real;
            var b := Lookup(After(s, calls), key);
            && (b == None || b.value.lastRefill < from ==> n == 0.0)
            && (b.Some? && from <= b.value.lastRefill <= to ==>
                  n + b.value.tokens <= s.burst as real + s.Inflow(b.value.lastRefill - from))
            && n <= s.burst as real + s.Inflow(to - from)
  {
    InflowNonNegative(s, to - from);
    if calls != [] {
      var init, call := calls[..|calls| - 1], calls[|calls| - 1];
      WindowInvariant(s, init, key, from, to);
      BucketsStayInRange(s, init, key);
      BucketsStayInRange(s, calls, key);
      if call.key == key {
        WindowStep(s, Lookup(After(s, init), key), AcceptedIn(s, init, key, from, to), call.time, from, to);
      }
    }
  }

  lemma WindowStep(s: Settings, b: Option<Bucket>, n: nat, now: real, from: real, to: real)
    requires s.Valid() && from <= to
    requires b.Some? ==> 0.0 <= b.value.tokens <= s.burst as real && b.value.lastRefill <= now
    requires b == None || b.value.lastRefill < from ==> n == 0
    requires b.Some? && from <= b.value.lastRefill <= to ==>
               n as real + b.value.tokens <= s.burst as real + s.Inflow(b.value.lastRefill - from)
    requires n as real <= s.burst as real + s.Inflow(to - from)
    ensures var (ok, after) := s.Decide(b, now);
            var m := n + (if from <= now <= to && ok then 1 else 0);
            && after.lastRefill == now
            && (now < from ==> m == 0)
            && (from <= now <= to ==> m as real + after.tokens <= s.burst as real + s.Inflow(now - from))
            && m as real <= s.burst as real + s.Inflow(to - from)
  {
    var (ok, after) := s.Decide(b, now);
    if from <= now <= to {
      InflowNonNegative(s, now - from);
      InflowNonNegative(s, to - now);
      InflowAdds(s, now - from, to - now);
      assert (now - from) + (to - now) == to - from;
      if b.Some? {
        InflowNonNegative(s, now - b.value.lastRefill);
        InflowAdds(s, b.value.lastRefill - from, now - b.value.lastRefill);
        assert (b.value.lastRefill - from) + (now - b.value.lastRefill) == now - from;
      }
      assert 0.0 <= after.tokens;
    }
  }

  /** The rate bound: in any window of `length` seconds a key gets at most `burst + length * rpm / 60`
      requests accepted, whatever calls it and the other keys make. */
  lemma RateBound(s: Settings, calls: seq<Call>, key: string, from: real, length: real)
    requires s.Valid() && Chronological(calls) && length >= 0.0
    ensures AcceptedIn(s, calls, key, from, from + length) as real <=
            s.burst as real + length * (s.rpm as real) / 60.0
  {
    WindowInvariant(s, calls, key, from, from + length);
    assert from + length - from == length;
    InflowIs(s, length);
  }

  lemma InflowIs(s: Settings, seconds: real)
    ensures s.Inflow(seconds) == seconds * (s.rpm as real) / 60.0
  {
  }

  /** A call at least `60 / rpm` seconds after the key's previous one, or the key's first, is accepted. */
  lemma SpacedCallsPass(s: Settings, calls: seq<Call>, i: nat)
    requires s.Valid() && Chronological(calls) && i < |calls|
    requires forall j :: 0 <= j < i && calls[j].key == calls[i].key ==>
               calls[i].time - calls[j].time >= 60.0 / (s.rpm as real)
    ensures Accepted(s, calls, i)
  {
    var init, key := calls[..i], calls[i].key;
    BucketsStayInRange(s, init, key);
    var b := Lookup(After(s, init), key);
    if b.Some? {
      var j := LastCallOn(init, key);
      assert calls[j] == init[j];
      SpacingPays(s, calls[i].time - calls[j].time);
    }
  }

  lemma SpacingPays(s: Settings, seconds: real)
    requires s.Valid() && seconds >= 60.0 / (s.rpm as real)
    ensures s.Inflow(seconds) >= 1.0
  {
    var r := s.rpm as real;
    assert (60.0 / r) * r == 60.0;
    assert (seconds - 60.0 / r) * r >= 0.0;
    assert seconds * r >= 60.0;
    assert seconds * (r / 60.0) == seconds * r / 60.0;
  }

  lemma {:induction false} LastCallOn(calls: seq<Call>, key: string) returns (j: nat)
    requires CallsOn(calls, key) != []
    ensures j < |calls| && calls[j].key == key && calls[j] == CallsOn(calls, key)[|CallsOn(calls, key)| - 1]
  {
    j := |calls| - 1;
    if calls[j].key != key {
      j := LastCallOn(calls[..j], key);
    }
  }

  /** Calls on one key never affect another: a bucket depends on the calls on its own key alone. */
  lemma {:induction false} KeysAreIsolated(s: Settings, calls: seq<Call>, key: string)
    ensures Lookup(After(s, calls), key) == Lookup(After(s, CallsOn(calls, key)), key)
  {
    if calls != [] {
      var init, call := calls[..|calls| - 1], calls[|calls| - 1];
      KeysAreIsolated(s, init, key);
      if call.key == key {
        var own := CallsOn(init, key);
        assert (own + [call])[..|own|] == own;
      }
    }
  }

  /** At one instant a fresh key gets exactly `burst` requests through. */
  lemma {:induction false} BurstAtOnce(s: Settings, key: string, now: real, calls: seq<Call>)
    requires s.Valid() && forall i :: 0 <= i < |calls| ==> calls[i] == Call(key, now)
    ensures calls != [] ==>
              Lookup(After(s, calls), key) ==
              Some(Bucket(if |calls| <= s.burst then (s.burst - |calls|) as real else 0.0, now))
    ensures forall i :: 0 <= i < |calls| ==> (Accepted(s, calls, i) <==> i < s.burst)
  {
    if calls != [] {
      var init := calls[..|calls| - 1];
      assert calls == init + [calls[|calls| - 1]];
      assert s.Inflow(now - now) == 0.0;
      BurstAtOnce(s, key, now, init);
      assert calls[|calls| - 1] == Call(key, now);
      forall i | 0 <= i < |init| ensures Accepted(s, calls, i) <==> i < s.burst {
        assert calls[..i] == init[..i] && Accepted(s, init, i) == Accepted(s, calls, i);
      }
    }
  }

  // ----- Exactly which calls are refused

  lemma {:induction false} LongerWindowAcceptsMore(s: Settings, calls: seq<Call>, key: string,
                                                   from: real, to: real, later: real)
    requires to <= later
    ensures AcceptedIn(s, calls, key, from, to) <= AcceptedIn(s, calls, key, from, later)
  {
    if calls != [] {
      LongerWindowAcceptsMore(s, calls[..|calls| - 1], key, from, to, later);
    }
  }

  /** Since some call on the key, accepted calls and tokens left together are all there was to give: the burst
      and the inflow from that call on. It is the last call that found the bucket full. */
  lemma {:induction false} FullSince(s: Settings, calls: seq<Call>, key: string) returns (j: nat)
    requires s.Valid() && Chronological(calls) && Lookup(After(s, calls), key).Some?
    ensures j < |calls| && calls[j].key == key
    ensures var b := Lookup(After(s, calls), key).value;
            && calls[j].time <= b.lastRefill
            && AcceptedIn(s, calls, key, calls[j].time, b.lastRefill) as real + b.tokens
               >= s.burst as real + s.Inflow(b.lastRefill - calls[j].time)
  {
    var last := |calls| - 1;
    var init, call := calls[..last], calls[last];
    var b := Lookup(After(s, init), key);
    BucketsStayInRange(s, calls, key);
    BucketsStayInRange(s, init, key);
    if call.key != key {
      j := FullSince(s, init, key);
    } else if b.Some? && s.Refill(b.value, call.time).tokens < s.burst as real {
      j := FullSince(s, init, key);
      LongerWindowAcceptsMore(s, init, key, calls[j].time, b.value.lastRefill, call.time);
      InflowAdds(s, b.value.lastRefill - calls[j].time, call.time - b.value.lastRefill);
      assert (b.value.lastRefill - calls[j].time) + (call.time - b.value.lastRefill) == call.time - calls[j].time;
    } else {
      j := last;
      NoTimeNoInflow(s, call.time);
    }
  }

  lemma NoTimeNoInflow(s: Settings, now: real)
    ensures s.Inflow(now - now) == 0.0
  {
  }

  /** Call `i` comes too early: with it, the calls accepted since call `j` would exceed the burst and the
      inflow since then. */
  ghost predicate TooMany(s: Settings, calls: seq<Call>, j: nat, i: nat)
    requires j < i < |calls|
  {
    AcceptedIn(s, calls[..i], calls[i].key, calls[j].time, calls[i].time) as real + 1.0
    > s.burst as real + (calls[i].time - calls[j].time) * (s.rpm as real) / 60.0
  }

  /** The converse of the rate bound: a call is refused exactly when accepting it would break the bound for the
      time since some earlier call on its key. */
  lemma RefusedExactly(s: Settings, calls: seq<Call>, i: nat)
    requires s.Valid() && Chronological(calls) && i < |calls|
    ensures !Accepted(s, calls, i) <==>
            exists j :: 0 <= j < i && calls[j].key == calls[i].key && TooMany(s, calls, j, i)
  {
    if Accepted(s, calls, i) {
      forall j | 0 <= j < i && calls[j].key == calls[i].key ensures !TooMany(s, calls, j, i) {
        AcceptedFitsBound(s, calls, j, i);
      }
    } else {
      var j := RefusedBreaksBound(s, calls, i);
    }
  }

  lemma AcceptedFitsBound(s: Settings, calls: seq<Call>, j: nat, i: nat)
    requires s.Valid() && Chronological(calls) && j < i < |calls| && Accepted(s, calls, i)
    ensures !TooMany(s, calls, j, i)
  {
    var run := calls[..i + 1];
    assert run[..i] == calls[..i] && Accepted(s, run, i);
    WindowInvariant(s, run, calls[i].key, calls[j].time, calls[i].time);
    TooManyIs(s, calls, j, i);
    hide Settings.Inflow, TooMany, Settings.Decide, After;
  }

  lemma RefusedBreaksBound(s: Settings, calls: seq<Call>, i: nat) returns (j: nat)
    requires s.Valid() && Chronological(calls) && i < |calls| && !Accepted(s, calls, i)
    ensures j < i && calls[j].key == calls[i].key && TooMany(s, calls, j, i)
  {
    var key, now, init := calls[i].key, calls[i].time, calls[..i];
    var b := Lookup(After(s, init), key).value;
    BucketsStayInRange(s, init, key);
    RefusedHasTooLittle(s, b, now);
    assert i > 0 ==> init[i - 1].time <= now;
    hide *;
    j := FullSince(s, init, key);
    LongerWindowAcceptsMore(s, init, key, calls[j].time, b.lastRefill, now);
    InflowAdds(s, b.lastRefill - calls[j].time, now - b.lastRefill);
    assert (b.lastRefill - calls[j].time) + (now - b.lastRefill) == now - calls[j].time;
    TooManyIs(s, calls, j, i);
  }

  lemma TooManyIs(s: Settings, calls: seq<Call>, j: nat, i: nat)
    requires j < i < |calls|
    ensures TooMany(s, calls, j, i) <==>
            AcceptedIn(s, calls[..i], calls[i].key, calls[j].time, calls[i].time) as real + 1.0
            > s.burst as real + s.Inflow(calls[i].time - calls[j].time)
  {
    hide AcceptedIn;
    InflowIs(s, calls[i].time - calls[j].time);
  }

  lemma RefusedHasTooLittle(s: Settings, b: Bucket, now: real)
    requires s.Valid() && !s.Decide(Some(b), now).0
    ensures b.tokens + s.Inflow(now - b.lastRefill) < 1.0
  {
  }

  // ----- Refused calls leave no trace

  /** Two buckets that decide alike from `now` on: the same, or one of them refilled at `now`. */
  ghost predicate Alike(s: Settings, x: Option<Bucket>, y: Option<Bucket>, now: real) {
    x == y || (x.Some? && y.Some? && y.value.tokens <= s.burst as real && y.value.lastRefill <= now
               && x.value == s.Refill(y.value, now))
  }

  lemma AlikeDecideAlike(s: Settings, x: Option<Bucket>, y: Option<Bucket>, now: real, later: real)
    requires s.Valid() && Alike(s, x, y, now) && now <= later
    ensures s.Decide(x, later) == s.Decide(y, later)
  {
    if x != y {
      LazyRefill(s, y.value, now, later);
    }
  }

  lemma {:induction false} AlikeAfter(s: Settings, before: seq<Call>, c: Call, after: seq<Call>, key: string)
    requires s.Valid() && Chronological(before + [c] + after)
    requires !s.Decide(Lookup(After(s, before), c.key), c.time).0
    ensures Alike(s, Lookup(After(s, before + [c] + after), key), Lookup(After(s, before + after), key), c.time)
  {
    hide *;
    if after == [] {
      assert before + [c] + after == before + [c] && before + after == before;
      AlikeAtFirst(s, before, c, key);
    } else {
      var init, last := after[..|after| - 1], after[|after| - 1];
      EarlierIsChronological(before + [c] + after);
      assert (before + [c] + after)[..|before + [c] + after| - 1] == before + [c] + init;
      AlikeAfter(s, before, c, init, key);
      OneMoreCall(s, before + [c] + init, last, key);
      OneMoreCall(s, before + init, last, key);
      assert before + [c] + init + [last] == before + [c] + after && before + init + [last] == before + after;
      if last.key == key {
        TimesInOrder(before, c, after);
        AlikeDecideAlike(s, Lookup(After(s, before + [c] + init), key), Lookup(After(s, before + init), key),
                         c.time, last.time);
        SameAreAlike(s, Lookup(After(s, before + after), key), c.time);
      }
    }
  }

  lemma SameAreAlike(s: Settings, x: Option<Bucket>, now: real)
    ensures Alike(s, x, x, now)
  {
  }

  lemma EarlierIsChronological(calls: seq<Call>)
    requires Chronological(calls) && calls != []
    ensures Chronological(calls[..|calls| - 1])
  {
  }

  lemma TimesInOrder(before: seq<Call>, c: Call, after: seq<Call>)
    requires Chronological(before + [c] + after) && after != []
    ensures c.time <= after[|after| - 1].time
  {
    var all := before + [c] + after;
    assert all[|before|] == c && all[|all| - 1] == after[|after| - 1];
  }

  lemma OneMoreCall(s: Settings, calls: seq<Call>, c: Call, key: string)
    ensures Lookup(After(s, calls + [c]), key)
         == if c.key == key then Some(s.Decide(Lookup(After(s, calls), key), c.time).1)
            else Lookup(After(s, calls), key)
  {
    hide Settings.Decide;
    assert (calls + [c])[..|calls|] == calls;
  }

  lemma AlikeAtFirst(s: Settings, before: seq<Call>, c: Call, key: string)
    requires s.Valid() && Chronological(before + [c])
    requires !s.Decide(Lookup(After(s, before), c.key), c.time).0
    ensures Alike(s, Lookup(After(s, before + [c]), key), Lookup(After(s, before), key), c.time)
  {
    assert before == [] ==> Lookup(After(s, before), c.key) == None;
    hide After, Settings.Inflow, CallsOn;
    OneMoreCall(s, before, c, key);
    var all := before + [c];
    assert forall i :: 0 <= i < |before| ==> all[i] == before[i];
    assert before != [] ==> all[|before| - 1].time <= all[|before|].time;
    BucketsStayInRange(s, before, c.key);
  }

  /** Leaving a refused call out of a run leaves the decision on every later call as it is. */
  lemma RefusedLeavesNoTrace(s: Settings, before: seq<Call>, c: Call, after: seq<Call>, i: nat)
    requires s.Valid() && Chronological(before + [c] + after) && i < |after|
    requires !Accepted(s, before + [c] + after, |before|)
    ensures Accepted(s, before + [c] + after, |before| + 1 + i) <==> Accepted(s, before + after, |before| + i)
  {
    hide Settings.Decide, After;
    var with, without := before + [c] + after, before + after;
    assert with[..|before|] == before && with[|before|] == c;
    assert with[..|before| + 1 + i] == before + [c] + after[..i] && without[..|before| + i] == before + after[..i];
    assert with[|before|].time <= with[|before| + 1 + i].time;
    AlikeAfter(s, before, c, after[..i], after[i].key);
    AlikeDecideAlike(s, Lookup(After(s, before + [c] + after[..i]), after[i].key),
                     Lookup(After(s, before + after[..i]), after[i].key), c.time, after[i].time);
  }
}
