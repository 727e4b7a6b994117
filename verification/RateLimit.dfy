/**
  The per-IP token bucket of internal/api/ratelimit.go. Instants are seconds and tokens are counts,
  both real numbers: rounding of floating-point values is not modelled. A call holds the bucket's
  lock while it refills and spends; `prune` tests and deletes one key in one step.
 */
module RateLimit {

  /** A bucket is idle, and pruned, when it was last refilled more than half an hour ago. */
  const IDLE: real := 1800.0

  datatype Bucket = Bucket(tokens: real, lastFill: real)

  function Min(a: real, b: real): real {
    if a < b then a else b
  }

  /** The tokens added over a stretch of time. */
  function Refill(rate: real, seconds: real): real {
    rate * seconds
  }

  /** The tokens a call by `ip` finds, after the refill. An unknown address finds a full bucket. */
  function Available(rate: real, burst: real, state: map<string, Bucket>, ip: string, now: real): real {
    if ip in state then Min(state[ip].tokens + Refill(rate, now - state[ip].lastFill), burst) else burst
  }

  /** The buckets after a call by `ip`: one token is spent if there is one. */
  function AfterCall(rate: real, burst: real, state: map<string, Bucket>, ip: string, now: real): map<string, Bucket> {
    var found := Available(rate, burst, state, ip, now);
    state[ip := Bucket(if found < 1.0 then found else found - 1.0, now)]
  }

  function AfterPrune(state: map<string, Bucket>, now: real): map<string, Bucket> {
    map ip | ip in state && state[ip].lastFill >= now - IDLE :: state[ip]
  }

  class IpLimiter {
    var state: map<string, Bucket>
    const rate: real
    const burst: real

    constructor (ratePerSec: real, burst: real)
      ensures this.rate == ratePerSec && this.burst == burst && state == map[]
    {
      this.rate, this.burst, state := ratePerSec, burst, map[];
    }

    /** allow: `created` is the clock reading for a fresh bucket, `now` the one taken under the lock. */
    method Allow(ip: string, created: real, now: real) returns (admitted: bool)
      requires 0.0 <= rate && created <= now
      modifies this`state
      ensures admitted <==> Available(rate, burst, old(state), ip, now) >= 1.0
      ensures state == AfterCall(rate, burst, old(state), ip, now)
    {
      if ip !in state {
        state := state[ip := Bucket(burst, created)];
      }
      var s := state[ip];
      var elapsed := now - s.lastFill;
      assert elapsed * rate == Refill(rate, elapsed);
      if ip !in old(state) {
        assert Refill(rate, 0.0) == 0.0;
        RefillGrows(rate, 0.0, elapsed);
      }
      var tokens := s.tokens + elapsed * rate;
      if tokens > burst {
        tokens := burst;
      }
      if tokens < 1.0 {
        state := state[ip := Bucket(tokens, now)];
        return false;
      }
      state := state[ip := Bucket(tokens - 1.0, now)];
      return true;
    }

    /** prune: drops every idle bucket. */
    method Prune(now: real)
      modifies this`state
      ensures state == AfterPrune(old(state), now)
      ensures forall ip :: ip in state <==> ip in old(state) && now - old(state)[ip].lastFill <= 1800.0
      ensures forall ip :: ip in state ==> state[ip] == old(state)[ip]
    {
      var cutoff := now - IDLE;
      var todo := state.Keys;
      while todo != {}
        invariant todo <= state.Keys <= old(state).Keys
        invariant forall ip :: ip in state ==> state[ip] == old(state)[ip]
        invariant forall ip :: ip in old(state) && ip !in todo ==>
                                 (ip in state <==> old(state)[ip].lastFill >= cutoff)
        decreases |todo|
      {
        var ip :| ip in todo;
        if state[ip].lastFill < cutoff {
          state := state - {ip};
        }
        todo := todo - {ip};
      }
    }
  }

  // ----- one address -----

  ghost predicate Nondecreasing(times: seq<real>) {
    forall i, j :: 0 <= i <= j < |times| ==> times[i] <= times[j]
  }

  /** The tokens call `n` of a single address finds, from its call times alone. */
  ghost function Tokens(rate: real, burst: real, times: seq<real>, n: nat): real
    requires n < |times|
    decreases n, 0
  {
    if n == 0 then burst
    else Min(burst, Tokens(rate, burst, times, n - 1) - Spent(rate, burst, times, n - 1) as real
                    + Refill(rate, times[n] - times[n - 1]))
  }

  ghost predicate Admitted(rate: real, burst: real, times: seq<real>, n: nat)
    requires n < |times|
    decreases n, 1
  {
    Tokens(rate, burst, times, n) >= 1.0
  }

  ghost function Spent(rate: real, burst: real, times: seq<real>, n: nat): nat
    requires n < |times|
    decreases n, 2
  {
    if Admitted(rate, burst, times, n) then 1 else 0
  }

  /** How many of the calls numbered k, ..., n - 1 were admitted. */
  ghost function Count(rate: real, burst: real, times: seq<real>, k: nat, n: nat): nat
    requires k <= n <= |times|
    decreases n
  {
    if k == n then 0 else Count(rate, burst, times, k, n - 1) + Spent(rate, burst, times, n - 1)
  }

  /** What call `k` onwards leaves for call `n` if the bucket was full at call `k`. */
  ghost function Allowance(rate: real, burst: real, times: seq<real>, k: nat, n: nat): real
    requires k <= n < |times|
  {
    burst + Refill(rate, times[n] - times[k]) - Count(rate, burst, times, k, n) as real
  }

  lemma RefillAdds(rate: real, x: real, y: real, z: real)
    ensures Refill(rate, z - x) == Refill(rate, y - x) + Refill(rate, z - y)
  {
    assert rate * (z - x) == rate * (y - x) + rate * (z - y);
  }

  lemma RefillGrows(rate: real, x: real, y: real)
    requires 0.0 <= rate && x <= y
    ensures Refill(rate, x) <= Refill(rate, y)
  {
    assert rate * (y - x) >= 0.0;
    assert rate * y == rate * x + rate * (y - x);
  }

  /** The bucket holds exactly the tightest allowance over all earlier calls. */
  lemma {:induction false} TokensAreTightestAllowance(rate: real, burst: real, times: seq<real>, n: nat) returns (tight: nat)
    requires n < |times|
    ensures forall k :: 0 <= k <= n ==> Tokens(rate, burst, times, n) <= Allowance(rate, burst, times, k, n)
    ensures tight <= n && Tokens(rate, burst, times, n) == Allowance(rate, burst, times, tight, n)
  {
    assert Allowance(rate, burst, times, n, n) == burst;
    if n == 0 {
      tight := 0;
    } else {
      tight := TokensAreTightestAllowance(rate, burst, times, n - 1);
      forall k | 0 <= k < n
        ensures Allowance(rate, burst, times, k, n)
                == Allowance(rate, burst, times, k, n - 1) - Spent(rate, burst, times, n - 1) as real
                   + Refill(rate, times[n] - times[n - 1])
      {
        RefillAdds(rate, times[k], times[n - 1], times[n]);
      }
      if Tokens(rate, burst, times, n) == burst {
        tight := n;
      }
    }
  }

  /**
    Exact admission: call n is admitted iff, for every call k up to it, what was admitted since k
    and this call together fit into a full bucket plus the refill since k.
   */
  lemma AdmissionIsExact(rate: real, burst: real, times: seq<real>, n: nat)
    requires n < |times|
    ensures Admitted(rate, burst, times, n) <==>
            forall k :: 0 <= k <= n ==>
              Count(rate, burst, times, k, n) as real + 1.0 <= burst + Refill(rate, times[n] - times[k])
  {
    var tight := TokensAreTightestAllowance(rate, burst, times, n);
    assert Allowance(rate, burst, times, tight, n) >= 1.0 <==>
           Count(rate, burst, times, tight, n) as real + 1.0 <= burst + Refill(rate, times[n] - times[tight]);
    forall k | 0 <= k <= n
      ensures Allowance(rate, burst, times, k, n) >= 1.0 <==>
              Count(rate, burst, times, k, n) as real + 1.0 <= burst + Refill(rate, times[n] - times[k])
    {
    }
  }

  /** No window of calls k, ..., n admits more than the burst plus the refill over its length. */
  lemma {:induction false} WindowIsBounded(rate: real, burst: real, times: seq<real>, k: nat, n: nat)
    requires 0.0 <= rate && 0.0 <= burst && Nondecreasing(times)
    requires k <= n < |times|
    ensures Count(rate, burst, times, k, n + 1) as real <= burst + Refill(rate, times[n] - times[k])
  {
    if Admitted(rate, burst, times, n) {
      AdmissionIsExact(rate, burst, times, n);
      assert Count(rate, burst, times, k, n) as real + 1.0 <= burst + Refill(rate, times[n] - times[k]);
    } else if k < n {
      WindowIsBounded(rate, burst, times, k, n - 1);
      RefillAdds(rate, times[k], times[n - 1], times[n]);
      assert Refill(rate, 0.0) == 0.0;
      RefillGrows(rate, 0.0, times[n] - times[n - 1]);
    } else {
      assert Count(rate, burst, times, k, k) == 0;
      assert times[n] - times[k] == 0.0 && Refill(rate, 0.0) == 0.0;
    }
  }

  lemma {:induction false} TokensStayInRange(rate: real, burst: real, times: seq<real>, n: nat)
    requires 0.0 <= rate && 0.0 <= burst && Nondecreasing(times)
    requires n < |times|
    ensures 0.0 <= Tokens(rate, burst, times, n) <= burst
    ensures 0.0 <= Tokens(rate, burst, times, n) - Spent(rate, burst, times, n) as real
  {
    if n > 0 {
      TokensStayInRange(rate, burst, times, n - 1);
      assert times[n - 1] <= times[n];
      assert Refill(rate, 0.0) == 0.0;
      RefillGrows(rate, 0.0, times[n] - times[n - 1]);
    }
  }

  // ----- many addresses, with pruning -----

  datatype Event = Call(ip: string, at: real) | Prune(at: real)

  ghost predicate Chronological(history: seq<Event>) {
    forall i, j :: 0 <= i <= j < |history| ==> history[i].at <= history[j].at
  }

  ghost function StateAfter(rate: real, burst: real, history: seq<Event>): map<string, Bucket> {
    if history == [] then map[]
    else
      var before := StateAfter(rate, burst, history[..|history| - 1]);
      match history[|history| - 1]
      case Call(ip, at) => AfterCall(rate, burst, before, ip, at)
      case Prune(at) => AfterPrune(before, at)
  }

  /** The instants of one address's calls. */
  ghost function TimesOf(ip: string, history: seq<Event>): seq<real> {
    if history == [] then []
    else
      var last := history[|history| - 1];
      TimesOf(ip, history[..|history| - 1]) + if last.Call? && last.ip == ip then [last.at] else []
  }

  ghost function WithoutPrunes(history: seq<Event>): seq<Event> {
    if history == [] then []
    else
      var last := history[|history| - 1];
      WithoutPrunes(history[..|history| - 1]) + if last.Call? then [last] else []
  }

  lemma {:induction false} TokensReadOnlyThePast(rate: real, burst: real, times: seq<real>, more: seq<real>, n: nat)
    requires n < |times|
    ensures Tokens(rate, burst, times + more, n) == Tokens(rate, burst, times, n)
    ensures Spent(rate, burst, times + more, n) == Spent(rate, burst, times, n)
  {
    if n > 0 {
      TokensReadOnlyThePast(rate, burst, times, more, n - 1);
    }
  }

  /** What the last call of a nonempty sequence leaves in the bucket. */
  ghost function Left(rate: real, burst: real, times: seq<real>): Bucket
    requires times != []
  {
    var n := |times| - 1;
    Bucket(Tokens(rate, burst, times, n) - Spent(rate, burst, times, n) as real, times[n])
  }

  /** A missing bucket says as much as the one it stands for: that one is full from `now` on. */
  ghost predicate Represents(rate: real, burst: real, state: map<string, Bucket>, ip: string, times: seq<real>, now: real) {
    if times == [] then ip !in state
    else if ip in state then state[ip] == Left(rate, burst, times)
    else Left(rate, burst, times).tokens + Refill(rate, now - Left(rate, burst, times).lastFill) >= burst
  }

  lemma RepresentsLater(rate: real, burst: real, state: map<string, Bucket>, ip: string, times: seq<real>, now: real, later: real)
    requires 0.0 <= rate && now <= later && Represents(rate, burst, state, ip, times, now)
    ensures Represents(rate, burst, state, ip, times, later)
  {
    if times != [] && ip !in state {
      RefillAdds(rate, Left(rate, burst, times).lastFill, now, later);
      RefillGrows(rate, 0.0, later - now);
    }
  }

  /** A call reads the same number of tokens from the state as from the address's own call times. */
  lemma CallReadsOwnTimes(rate: real, burst: real, state: map<string, Bucket>, ip: string, times: seq<real>, now: real)
    requires Represents(rate, burst, state, ip, times, now)
    ensures Available(rate, burst, state, ip, now) == Tokens(rate, burst, times + [now], |times|)
    ensures AfterCall(rate, burst, state, ip, now)[ip] == Left(rate, burst, times + [now])
  {
    var all := times + [now];
    assert all[..|times|] == times;
    if times != [] {
      var n := |times| - 1;
      TokensReadOnlyThePast(rate, burst, times, [now], n);
      if ip !in state {
        assert Tokens(rate, burst, all, n + 1) == burst;
      }
    }
    assert Available(rate, burst, state, ip, now) == Tokens(rate, burst, all, |times|);
    assert Left(rate, burst, all).tokens == Tokens(rate, burst, all, |times|) - Spent(rate, burst, all, |times|) as real;
  }

  lemma {:induction false} TimesAreChronological(ip: string, history: seq<Event>)
    requires Chronological(history)
    ensures Nondecreasing(TimesOf(ip, history))
    ensures forall t :: t in TimesOf(ip, history) ==> t <= history[|history| - 1].at
  {
    if history != [] {
      var before := history[..|history| - 1];
      TimesAreChronological(ip, before);
      var times := TimesOf(ip, before);
      forall i | 0 <= i < |times|
        ensures times[i] <= history[|history| - 1].at
      {
        assert times[i] in times;
        assert before[|before| - 1] == history[|history| - 2];
      }
    }
  }

  /** A pruned bucket was full again: half an hour refills any bucket of the configured limiters. */
  lemma PruneKeepsMeaning(rate: real, burst: real, state: map<string, Bucket>, ip: string, times: seq<real>, now: real)
    requires 0.0 <= rate && 0.0 <= burst <= Refill(rate, IDLE) && Nondecreasing(times)
    requires Represents(rate, burst, state, ip, times, now)
    ensures Represents(rate, burst, AfterPrune(state, now), ip, times, now)
  {
    if times != [] && ip in state && ip !in AfterPrune(state, now) {
      var left := Left(rate, burst, times);
      TokensStayInRange(rate, burst, times, |times| - 1);
      assert left.tokens >= 0.0;
      assert now - left.lastFill >= IDLE;
      RefillGrows(rate, IDLE, now - left.lastFill);
    }
  }

  lemma {:induction false} StateRepresentsTimes(rate: real, burst: real, history: seq<Event>, ip: string)
    requires 0.0 <= rate && 0.0 <= burst <= Refill(rate, IDLE)
    requires Chronological(history) && history != []
    ensures Represents(rate, burst, StateAfter(rate, burst, history), ip, TimesOf(ip, history), history[|history| - 1].at)
  {
    var before := history[..|history| - 1];
    var last := history[|history| - 1];
    var times := TimesOf(ip, before);
    var state := StateAfter(rate, burst, before);
    if before == [] {
      assert Represents(rate, burst, state, ip, times, last.at);
    } else {
      StateRepresentsTimes(rate, burst, before, ip);
      RepresentsLater(rate, burst, state, ip, times, before[|before| - 1].at, last.at);
    }
    TimesAreChronological(ip, before);
    match last
    case Call(caller, at) =>
      if caller == ip {
        CallReadsOwnTimes(rate, burst, state, ip, times, at);
      } else {
        assert times + [] == times;
      }
    case Prune(at) =>
      PruneKeepsMeaning(rate, burst, state, ip, times, at);
      assert times + [] == times;
  }

  /** Whatever happened before on any address, a call is answered from its own address's calls alone. */
  lemma AnswerIsOwn(rate: real, burst: real, history: seq<Event>, ip: string, now: real)
    requires 0.0 <= rate && 0.0 <= burst <= Refill(rate, IDLE)
    requires Chronological(history + [Call(ip, now)])
    ensures Available(rate, burst, StateAfter(rate, burst, history), ip, now)
            == Tokens(rate, burst, TimesOf(ip, history) + [now], |TimesOf(ip, history)|)
  {
    var all := history + [Call(ip, now)];
    var state := StateAfter(rate, burst, history);
    if history == [] {
      assert Represents(rate, burst, state, ip, TimesOf(ip, history), now);
    } else {
      assert history == all[..|all| - 1];
      assert forall i :: 0 <= i < |history| ==> history[i] == all[i];
      StateRepresentsTimes(rate, burst, history, ip);
      assert all[|all| - 2].at <= all[|all| - 1].at;
      RepresentsLater(rate, burst, state, ip, TimesOf(ip, history), history[|history| - 1].at, now);
    }
    CallReadsOwnTimes(rate, burst, state, ip, TimesOf(ip, history), now);
  }

  lemma {:induction false} PrunesLeaveTimes(ip: string, history: seq<Event>)
    ensures TimesOf(ip, WithoutPrunes(history)) == TimesOf(ip, history)
  {
    if history != [] {
      var before := history[..|history| - 1];
      var last := history[|history| - 1];
      PrunesLeaveTimes(ip, before);
      var kept := WithoutPrunes(before);
      if last.Call? {
        assert (kept + [last])[..|kept|] == kept;
      } else {
        assert kept + [] == kept;
      }
    }
  }

  lemma {:induction false} WithoutPrunesIsChronological(history: seq<Event>)
    requires Chronological(history)
    ensures Chronological(WithoutPrunes(history))
    ensures forall e :: e in WithoutPrunes(history) ==> e.at <= history[|history| - 1].at
  {
    if history != [] {
      WithoutPrunesIsChronological(history[..|history| - 1]);
    }
  }

  /** Every call is answered as if the limiter had never pruned. */
  lemma PruningIsUnobservable(rate: real, burst: real, history: seq<Event>, ip: string, now: real)
    requires 0.0 <= rate && 0.0 <= burst <= Refill(rate, IDLE)
    requires Chronological(history + [Call(ip, now)])
    ensures Available(rate, burst, StateAfter(rate, burst, history), ip, now)
            == Available(rate, burst, StateAfter(rate, burst, WithoutPrunes(history)), ip, now)
  {
    AnswerIsOwn(rate, burst, history, ip, now);
    var all := history + [Call(ip, now)];
    assert all[..|all| - 1] == history;
    WithoutPrunesIsChronological(all);
    assert WithoutPrunes(all) == WithoutPrunes(history) + [Call(ip, now)];
    AnswerIsOwn(rate, burst, WithoutPrunes(history), ip, now);
    PrunesLeaveTimes(ip, history);
  }

  /** The whole limiter, with every address and every prune, admits exactly by the window rule. */
  lemma LimiterIsExact(rate: real, burst: real, history: seq<Event>, ip: string, now: real)
    requires 0.0 <= rate && 0.0 <= burst <= Refill(rate, IDLE)
    requires Chronological(history + [Call(ip, now)])
    ensures var times := TimesOf(ip, history) + [now];
            var n := |times| - 1;
            Available(rate, burst, StateAfter(rate, burst, history), ip, now) >= 1.0 <==>
            forall k :: 0 <= k <= n ==>
              Count(rate, burst, times, k, n) as real + 1.0 <= burst + Refill(rate, now - times[k])
  {
    AnswerIsOwn(rate, burst, history, ip, now);
    AdmissionIsExact(rate, burst, TimesOf(ip, history) + [now], |TimesOf(ip, history)|);
  }

  /** Both limiters of internal/api/server.go refill completely within the idle period. */
  lemma ConfiguredLimitersRefill()
    ensures 5.0 <= Refill(1.0 / 12.0, IDLE) && 20.0 <= Refill(2.0, IDLE)
  {
  }

  // ----- exactly which limiters may prune -----

  ghost predicate Admits(rate: real, burst: real, history: seq<Event>, ip: string, now: real) {
    Available(rate, burst, StateAfter(rate, burst, history), ip, now) >= 1.0
  }

  ghost predicate NeverShows(rate: real, burst: real) {
    forall history, ip, now :: Chronological(history + [Call(ip, now)]) ==>
      (Admits(rate, burst, history, ip, now) <==> Admits(rate, burst, WithoutPrunes(history), ip, now))
  }

  function Calls(n: nat, at: real): seq<Event> {
    seq(n, _ => Call("a", at))
  }

  ghost predicate EndsBy(history: seq<Event>, t: real) {
    Chronological(history) && forall e :: e in history ==> e.at <= t
  }

  lemma OneMoreCall(history: seq<Event>, n: nat, at: real)
    ensures history + Calls(n + 1, at) == history + Calls(n, at) + [Call("a", at)]
  {
    assert Calls(n + 1, at) == Calls(n, at) + [Call("a", at)];
  }

  lemma {:induction false} CallsDropOut(history: seq<Event>, n: nat, at: real)
    ensures WithoutPrunes(history + Calls(n, at)) == WithoutPrunes(history) + Calls(n, at)
  {
    var all := history + Calls(n, at);
    if n == 0 {
      assert all == history;
    } else {
      CallsDropOut(history, n - 1, at);
      OneMoreCall(history, n - 1, at);
      OneMoreCall(WithoutPrunes(history), n - 1, at);
      assert all[..|all| - 1] == history + Calls(n - 1, at);
    }
  }

  lemma EndsByLater(history: seq<Event>, t: real, more: seq<Event>, later: real)
    requires EndsBy(history, t) && t <= later && forall e :: e in more ==> e.at == later
    ensures EndsBy(history + more, later)
  {
    forall i, j | 0 <= i <= j < |history + more|
      ensures (history + more)[i].at <= (history + more)[j].at
    {
      assert j < |history| ==> history[i].at <= history[j].at;
      assert |history| <= j ==> (history + more)[j] in more;
      assert (history + more)[i] in history + more;
    }
  }

  lemma OneCallSpends(rate: real, burst: real, history: seq<Event>, at: real)
    requires 1.0 <= Available(rate, burst, StateAfter(rate, burst, history), "a", at)
    ensures var left := Available(rate, burst, StateAfter(rate, burst, history), "a", at) - 1.0;
            var state := StateAfter(rate, burst, history + [Call("a", at)]);
            Available(rate, burst, state, "a", at) == left && "a" in state && state["a"] == Bucket(left, at)
  {
    assert (history + [Call("a", at)])[..|history|] == history;
    assert Refill(rate, at - at) == 0.0;
  }

  /** Calls at one instant spend one token each while there are any. */
  lemma {:induction false} CallsSpend(rate: real, burst: real, history: seq<Event>, at: real, n: nat)
    requires n as real <= Available(rate, burst, StateAfter(rate, burst, history), "a", at)
    ensures var left := Available(rate, burst, StateAfter(rate, burst, history), "a", at) - n as real;
            var state := StateAfter(rate, burst, history + Calls(n, at));
            && Available(rate, burst, state, "a", at) == left
            && (n > 0 ==> "a" in state && state["a"] == Bucket(left, at))
  {
    if n == 0 {
      assert history + Calls(0, at) == history;
    } else {
      CallsSpend(rate, burst, history, at, n - 1);
      OneMoreCall(history, n - 1, at);
      OneCallSpends(rate, burst, history + Calls(n - 1, at), at);
    }
  }

  lemma RefillTime(rate: real, tokens: real)
    requires rate > 0.0
    ensures Refill(rate, tokens / rate) == tokens
  {
  }

  /** After `history` the bucket was last used at `at` and holds `left`. */
  ghost predicate Leaves(rate: real, burst: real, history: seq<Event>, left: real, at: real) {
    && EndsBy(history, at) && WithoutPrunes(history) == history
    && "a" in StateAfter(rate, burst, history)
    && StateAfter(rate, burst, history)["a"] == Bucket(left, at)
  }

  lemma MoreCallsLeave(rate: real, burst: real, history: seq<Event>, t: real, at: real, n: nat)
    requires EndsBy(history, t) && WithoutPrunes(history) == history && t <= at
    requires 0 < n && n as real <= Available(rate, burst, StateAfter(rate, burst, history), "a", at)
    ensures Leaves(rate, burst, history + Calls(n, at),
                   Available(rate, burst, StateAfter(rate, burst, history), "a", at) - n as real, at)
  {
    CallsSpend(rate, burst, history, at, n);
    CallsDropOut(history, n, at);
    EndsByLater(history, t, Calls(n, at), at);
  }

  /** As many calls at once as the burst admits. */
  lemma SpendBurst(rate: real, burst: real)
    requires 1.0 <= burst
    ensures Leaves(rate, burst, Calls(burst.Floor, 0.0), burst - burst.Floor as real, 0.0)
  {
    MoreCallsLeave(rate, burst, [], 0.0, 0.0, burst.Floor);
    assert [] + Calls(burst.Floor, 0.0) == Calls(burst.Floor, 0.0);
  }

  /** If the bucket refills, waiting for one token and spending it leaves none. */
  lemma SpendRest(rate: real, burst: real, history: seq<Event>, left: real, at: real) returns (later: real)
    requires 0.0 < rate && 1.0 <= burst && Leaves(rate, burst, history, left, at) && 0.0 <= left < 1.0
    ensures Leaves(rate, burst, history + Calls(1, later), 0.0, later)
  {
    var wait := (1.0 - left) / rate;
    later := at + wait;
    assert Refill(rate, wait) == 1.0 - left && wait >= 0.0 by {
      RefillTime(rate, 1.0 - left);
    }
    assert later - at == wait;
    assert Available(rate, burst, StateAfter(rate, burst, history), "a", later) == 1.0;
    MoreCallsLeave(rate, burst, history, at, later, 1);
  }

  /** Calls that leave less than a token, and none at all if the bucket refills. */
  lemma Drain(rate: real, burst: real) returns (history: seq<Event>, at: real, left: real)
    requires 0.0 <= rate && 1.0 <= burst
    ensures Leaves(rate, burst, history, left, at)
    ensures 0.0 <= left < 1.0 && (rate > 0.0 ==> left == 0.0)
  {
    SpendBurst(rate, burst);
    history, at, left := Calls(burst.Floor, 0.0), 0.0, burst - burst.Floor as real;
    if rate > 0.0 {
      var later := SpendRest(rate, burst, history, left, at);
      history, at, left := history + Calls(1, later), later, 0.0;
    }
  }

  /** A wait of more than half an hour that does not fill the bucket. */
  lemma ShortOfFull(rate: real, burst: real, left: real) returns (wait: real)
    requires 0.0 <= rate && Refill(rate, IDLE) < burst && 1.0 <= burst
    requires 0.0 <= left < 1.0 && (rate > 0.0 ==> left == 0.0)
    ensures wait > IDLE && 0.0 <= left + Refill(rate, wait) < burst
    ensures rate > 0.0 || left + Refill(rate, wait) < 1.0
  {
    if rate == 0.0 {
      wait := IDLE + 1.0;
    } else {
      var missing := burst - Refill(rate, IDLE);
      wait := IDLE + missing / 2.0 / rate;
      RefillTime(rate, missing / 2.0);
      RefillAdds(rate, 0.0, IDLE, wait);
      assert wait > IDLE by {
        assert missing / 2.0 / rate > 0.0;
      }
      RefillGrows(rate, 0.0, wait);
    }
  }

  /** Calls can tell a fuller bucket from an emptier one. */
  lemma CallsTell(rate: real, burst: real, full: seq<Event>, less: seq<Event>, at: real)
    returns (n: nat, now: real)
    requires 0.0 <= rate && 1.0 <= burst
    requires Available(rate, burst, StateAfter(rate, burst, full), "a", at) == burst
    requires var a := Available(rate, burst, StateAfter(rate, burst, less), "a", at);
             0.0 <= a < burst && (rate > 0.0 || a < 1.0)
    ensures at <= now && Admits(rate, burst, full + Calls(n, at), "a", now)
    ensures !Admits(rate, burst, less + Calls(n, at), "a", now)
  {
    var a := Available(rate, burst, StateAfter(rate, burst, less), "a", at);
    n, now := a.Floor, at;
    CallsSpend(rate, burst, full, at, n);
    CallsSpend(rate, burst, less, at, n);
    if n == burst.Floor {
      var missing := 1.0 - (burst - n as real);
      now := at + missing / rate;
      RefillTime(rate, missing);
      assert missing / rate >= 0.0;
    }
  }

  /** A prune after more than half an hour makes the bucket full. */
  lemma PruneFillsBucket(rate: real, burst: real, before: seq<Event>, left: real, at: real, wait: real)
    requires Leaves(rate, burst, before, left, at) && wait > IDLE && left + Refill(rate, wait) < burst
    ensures var pruned := before + [Prune(at + wait)];
            && WithoutPrunes(pruned) == before
            && Available(rate, burst, StateAfter(rate, burst, pruned), "a", at + wait) == burst
            && Available(rate, burst, StateAfter(rate, burst, before), "a", at + wait) == left + Refill(rate, wait)
  {
    var pruned := before + [Prune(at + wait)];
    assert pruned[..|pruned| - 1] == before;
    assert before + [] == before;
    assert at + wait - at == wait;
  }

  lemma PruneThenCalls(before: seq<Event>, t: real, at: real, n: nat, now: real)
    requires EndsBy(before, t) && t <= at <= now
    ensures Chronological(before + [Prune(at)] + Calls(n, at) + [Call("a", now)])
  {
    EndsByLater(before, t, [Prune(at)], at);
    EndsByLater(before + [Prune(at)], at, Calls(n, at), at);
    EndsByLater(before + [Prune(at)] + Calls(n, at), at, [Call("a", now)], now);
  }

  /** A slow limiter, and calls after which a prune at `at` leaves more tokens than no prune. */
  lemma PruneMakesDifference(rate: real, burst: real) returns (before: seq<Event>, t: real, at: real)
    requires 0.0 <= rate && 1.0 <= burst && Refill(rate, IDLE) < burst
    ensures EndsBy(before, t) && t <= at && WithoutPrunes(before + [Prune(at)]) == before
    ensures Available(rate, burst, StateAfter(rate, burst, before + [Prune(at)]), "a", at) == burst
    ensures var a := Available(rate, burst, StateAfter(rate, burst, before), "a", at);
            0.0 <= a < burst && (rate > 0.0 || a < 1.0)
  {
    var left;
    before, t, left := Drain(rate, burst);
    var wait := ShortOfFull(rate, burst, left);
    at := t + wait;
    PruneFillsBucket(rate, burst, before, left, t, wait);
  }

  /** Calls around a prune that a slow limiter answers differently than without the prune. */
  lemma SlowRefillShowsPruning(rate: real, burst: real) returns (history: seq<Event>, now: real)
    requires 0.0 <= rate && 1.0 <= burst && Refill(rate, IDLE) < burst
    ensures Chronological(history + [Call("a", now)])
    ensures Admits(rate, burst, history, "a", now) && !Admits(rate, burst, WithoutPrunes(history), "a", now)
  {
    var before, t, at := PruneMakesDifference(rate, burst);
    var n;
    n, now := CallsTell(rate, burst, before + [Prune(at)], before, at);
    history := before + [Prune(at)] + Calls(n, at);
    CallsDropOut(before + [Prune(at)], n, at);
    PruneThenCalls(before, t, at, n, now);
  }

  /** Pruning never shows in an answer iff no call is ever admitted or half an hour refills the bucket. */
  lemma PruningNeverShowsIff(rate: real, burst: real)
    requires 0.0 <= rate && 0.0 <= burst
    ensures NeverShows(rate, burst) <==> burst < 1.0 || burst <= Refill(rate, IDLE)
  {
    if burst <= Refill(rate, IDLE) {
      forall history, ip, now | Chronological(history + [Call(ip, now)])
        ensures Admits(rate, burst, history, ip, now) <==> Admits(rate, burst, WithoutPrunes(history), ip, now)
      {
        PruningIsUnobservable(rate, burst, history, ip, now);
      }
    } else if burst >= 1.0 {
      var history, now := SlowRefillShowsPruning(rate, burst);
    }
  }
}
