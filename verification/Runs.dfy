/**
  Whole runs of the scanning service: scans, results reported by proxies, and exceptions being added
  and deleted, one at a time. What the tables make visible over time is proved here; the history does
  not influence any answer and is treated separately.
 */
module Runs {
  import opened Shield
  import opened Store
  import opened Pipelines

  datatype State = State(cache: Cache, exceptions: Exceptions)

  /** A report is a successful SaveResult by handleReport; the exception events are successful too. */
  datatype Event =
    | Scan(call: Call)
    | Report(r: ScanResult)
    | AddException(e: Exception)
    | DeleteException(id: string)

  ghost function Next(cfg: Config, s: State, e: Event): State {
    match e
    case Scan(call) => s.(cache := CacheAfter(cfg, s.cache, s.exceptions, call))
    case Report(r) => s.(cache := Put(s.cache, r))
    case AddException(x) => s.(exceptions := s.exceptions[x.exceptionId := x])
    case DeleteException(id) => s.(exceptions := s.exceptions - {id})
  }

  ghost function After(cfg: Config, s: State, events: seq<Event>): State
    decreases |events|
  {
    if events == [] then s else After(cfg, Next(cfg, s, events[0]), events[1..])
  }

  ghost function AnswerIn(cfg: Config, s: State, call: Call): ScanResult {
    Answer(cfg, s.cache, s.exceptions, call)
  }

  lemma {:induction false} AfterConcat(cfg: Config, s: State, xs: seq<Event>, ys: seq<Event>)
    ensures After(cfg, s, xs + ys) == After(cfg, After(cfg, s, xs), ys)
    decreases |xs|
  {
    if xs == [] {
      assert xs + ys == ys;
    } else {
      assert (xs + ys)[1..] == xs[1..] + ys;
      AfterConcat(cfg, Next(cfg, s, xs[0]), xs[1..], ys);
    }
  }

  // ----- outside enforce mode nothing is blocked -----

  ghost predicate NoBlockCached(cache: Cache) {
    forall key :: key in cache ==> !cache[key].result.verdict.Block?
  }

  ghost predicate NoBlockReported(events: seq<Event>) {
    forall r :: Report(r) in events ==> !r.verdict.Block?
  }

  lemma FreshNeverBlocks(cfg: Config, call: Call)
    ensures cfg.mode != "enforce" ==> !FreshResult(cfg, call).verdict.Block?
  {
  }

  lemma {:induction false} NoBlockStaysOut(cfg: Config, s: State, events: seq<Event>)
    requires cfg.mode != "enforce" && NoBlockCached(s.cache) && NoBlockReported(events)
    ensures NoBlockCached(After(cfg, s, events).cache)
    decreases |events|
  {
    if events != [] {
      assert forall e :: e in events[1..] ==> e in events;
      assert events[0] in events;
      NoBlockStaysOut(cfg, Next(cfg, s, events[0]), events[1..]);
    }
  }

  /** In warn and audit mode no scan of any run returns block. */
  lemma WarnModeNeverBlocks(cfg: Config, s: State, events: seq<Event>, call: Call)
    requires cfg.mode != "enforce" && NoBlockCached(s.cache) && NoBlockReported(events)
    ensures !AnswerIn(cfg, After(cfg, s, events), call).verdict.Block?
  {
    NoBlockStaysOut(cfg, s, events);
    FreshNeverBlocks(cfg, call);
  }

  // ----- how soon an exception works -----

  /** Rows expire as SaveResult sets them to. */
  ghost predicate ExpireByTtl(cache: Cache) {
    forall key :: key in cache ==>
                    cache[key].expiresAt == cache[key].result.scannedAt + Ttl(cache[key].result.verdict)
  }

  /** Rows stem from scans made up to `t`. */
  ghost predicate CacheSane(cache: Cache, t: Time) {
    ExpireByTtl(cache) && forall key :: key in cache ==> cache[key].result.scannedAt <= t
  }

  ghost predicate NotLaterThan(events: seq<Event>, t: Time) {
    forall e :: e in events ==> (e.Scan? ==> e.call.now <= t) && (e.Report? ==> e.r.scannedAt <= t)
  }

  lemma {:induction false} CacheStaysSane(cfg: Config, s: State, events: seq<Event>, t: Time)
    requires CacheSane(s.cache, t) && NotLaterThan(events, t)
    ensures CacheSane(After(cfg, s, events).cache, t)
    decreases |events|
  {
    if events != [] {
      assert events[0] in events && forall e :: e in events[1..] ==> e in events;
      CacheStaysSane(cfg, Next(cfg, s, events[0]), events[1..], t);
    }
  }

  /** A standing exception: it matches the package, never expires and is not deleted. */
  ghost predicate Standing(e: Exception, pkg: PackageRef) {
    Matches(e, pkg.ecosystem, pkg.name, pkg.version) && e.expiresAt.None?
  }

  /**
    Events that leave the package alone: they neither delete nor replace the exception, no report
    lands on the package's cache row, and scans on that row are of the package itself, with
    exception lookups that work.
   */
  ghost predicate LeavesAlone(events: seq<Event>, e: Exception, pkg: PackageRef) {
    forall ev :: ev in events ==>
                   match ev
                   case Scan(call) => KeyOf(call.pkg) == KeyOf(pkg) ==> call.pkg == pkg && !call.exceptionsFail
                   case Report(r) => KeyOf(r.package) != KeyOf(pkg)
                   case AddException(x) => x.exceptionId != e.exceptionId
                   case DeleteException(id) => id != e.exceptionId
  }

  ghost predicate SameRow(a: Cache, b: Cache, key: string) {
    (key in a <==> key in b) && (key in a ==> a[key] == b[key])
  }

  /** While the exception stands, the package's cache row is never rewritten. */
  lemma {:induction false} RowIsFrozen(cfg: Config, s: State, events: seq<Event>, e: Exception, pkg: PackageRef)
    requires e.exceptionId in s.exceptions && s.exceptions[e.exceptionId] == e && Standing(e, pkg)
    requires LeavesAlone(events, e, pkg)
    ensures var t := After(cfg, s, events);
            && SameRow(s.cache, t.cache, KeyOf(pkg))
            && e.exceptionId in t.exceptions && t.exceptions[e.exceptionId] == e
    decreases |events|
  {
    if events != [] {
      var ev := events[0];
      assert ev in events && forall x :: x in events[1..] ==> x in events;
      if ev.Scan? && ev.call.pkg == pkg {
        assert Candidate(s.exceptions, e.exceptionId, pkg.ecosystem, pkg.name, pkg.version, ev.call.now);
      }
      RowIsFrozen(cfg, Next(cfg, s, ev), events[1..], e, pkg);
    }
  }

  /** What a single scan answers under a standing exception: allow, unless a live flagged row comes first. */
  lemma ExceptionYieldsToCache(cfg: Config, s: State, e: Exception, call: Call)
    requires e.exceptionId in s.exceptions && s.exceptions[e.exceptionId] == e && Standing(e, call.pkg)
    requires !call.exceptionsFail
    ensures AnswerIn(cfg, s, call).verdict == Allow <==>
            !(Cached(s.cache, call).Some? && Cached(s.cache, call).value.verdict != Allow)
  {
    assert Candidate(s.exceptions, e.exceptionId, call.pkg.ecosystem, call.pkg.name, call.pkg.version, call.now);
  }

  /**
    Bounded staleness: once a standing exception was added at `t`, every scan of the package from one
    hour later on answers allow, although the cache is consulted first.
   */
  lemma ExceptionHoldsWithinTheHour(cfg: Config, s: State, before: seq<Event>, e: Exception, t: Time,
                                    after: seq<Event>, call: Call)
    requires CacheSane(s.cache, t) && NotLaterThan(before, t)
    requires Standing(e, call.pkg) && LeavesAlone(after, e, call.pkg)
    requires !call.exceptionsFail && t + HOUR <= call.now
    ensures AnswerIn(cfg, After(cfg, s, before + [AddException(e)] + after), call).verdict == Allow
  {
    AfterConcat(cfg, s, before + [AddException(e)], after);
    AfterConcat(cfg, s, before, [AddException(e)]);
    CacheStaysSane(cfg, s, before, t);
    var added := Next(cfg, After(cfg, s, before), AddException(e));
    assert After(cfg, After(cfg, s, before), [AddException(e)]) == After(cfg, added, [AddException(e)][1..]) == added;
    RowIsFrozen(cfg, added, after, e, call.pkg);
    var last := After(cfg, added, after);
    ExceptionYieldsToCache(cfg, last, e, call);
  }

  /**
    Not "immediately", and the hour is exact: a package flagged just before the exception was added at
    time 0 is still blocked in the last nanosecond of that hour.
   */
  lemma ExceptionBoundIsTight()
    ensures var pkg := PackageRef(NPM, "left-pad", "1.0.0");
            var bad := Finding("known-bad", Critical, "", "", 0.0);
            var first := Call(pkg, false, "scan-1", 0, Ran([bad]), Absent, NoHeuristic, NoClaude, false, false, true);
            var e := Exception("x", NPM, "left-pad", "1.0.0", "reviewed", "", 0, None);
            var cfg := Config(30, 7.0, "enforce");
            var s := After(cfg, State(map[], map[]), [Scan(first), AddException(e)]);
            Standing(e, pkg) && AnswerIn(cfg, s, first.(now := HOUR - 1)).verdict == Block
  {
    var pkg := PackageRef(NPM, "left-pad", "1.0.0");
    var bad := Finding("known-bad", Critical, "", "", 0.0);
    var first := Call(pkg, false, "scan-1", 0, Ran([bad]), Absent, NoHeuristic, NoClaude, false, false, true);
    var e := Exception("x", NPM, "left-pad", "1.0.0", "reviewed", "", 0, None);
    var cfg := Config(30, 7.0, "enforce");
    var s0 := State(map[], map[]);
    var s1 := Next(cfg, s0, Scan(first));
    var s2 := Next(cfg, s1, AddException(e));
    assert bad in [bad];
    assert AllFindings(cfg, first) == [bad];
    assert s1.cache == Put(map[], FreshResult(cfg, first));
    var run := [Scan(first), AddException(e)];
    assert run[1..] == [AddException(e)] && run[1..][1..] == [];
    assert After(cfg, s1, run[1..]) == s2;
    assert After(cfg, s0, run) == s2;
  }
}
