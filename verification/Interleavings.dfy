/**
  Scans that overlap: Analyze of internal/pipeline/pipeline.go looks in the cache, then for an exception,
  runs the tiers, and saves, and anything can happen between these steps. A scan that is past the
  exception lookup saves its result however many exceptions are added meanwhile.
 */
module Interleavings {
  import opened Shield
  import opened Store
  import opened Pipelines
  import Runs

  /** An unfinished scan: it missed the cache, and then possibly also found no exception. */
  datatype Open = Open(call: Call, analyzing: bool)

  datatype System = System(tables: Runs.State, open: map<nat, Open>)

  /** Each step carries its clock reading; a lookup in the cache takes the call's. */
  datatype Step =
    | LookInCache(id: nat, call: Call)
    | LookForException(id: nat, at: Time)
    | Save(id: nat, at: Time)
    | Outside(e: Runs.Event)

  /** The step's effect; a scan whose lookup has an answer is over, and a step of no open scan does nothing. */
  ghost function Next(cfg: Config, s: System, step: Step): System {
    match step
    case LookInCache(id, call) =>
      if Cached(s.tables.cache, call).Some? then s else s.(open := s.open[id := Open(call, false)])
    case LookForException(id, at) =>
      if id !in s.open || s.open[id].analyzing then s
      else if Excepted(s.tables.exceptions, s.open[id].call.(now := at)) then s.(open := s.open - {id})
      else s.(open := s.open[id := Open(s.open[id].call, true)])
    case Save(id, at) =>
      if id !in s.open || !s.open[id].analyzing then s
      else
        var call := s.open[id].call;
        System(if call.saves then s.tables.(cache := Put(s.tables.cache, FreshResult(cfg, call.(now := at)))) else s.tables,
               s.open - {id})
    case Outside(e) => s.(tables := Runs.Next(cfg, s.tables, e))
  }

  ghost function After(cfg: Config, s: System, steps: seq<Step>): System
    decreases |steps|
  {
    if steps == [] then s else After(cfg, Next(cfg, s, steps[0]), steps[1..])
  }

  /** The answer of a scan that looks in the cache in one state and for an exception in a later one. */
  ghost function AnswerAcross(cfg: Config, s: System, call: Call, t: System, at: Time): ScanResult {
    if Cached(s.tables.cache, call).Some? then Cached(s.tables.cache, call).value
    else if Excepted(t.tables.exceptions, call.(now := at)) then ExceptedResult(call.(now := at))
    else FreshResult(cfg, call.(now := at))
  }

  /** With nothing in between, the three steps are the atomic scan of whole runs. */
  lemma StepsMakeAScan(cfg: Config, s: System, id: nat, call: Call)
    requires id !in s.open
    ensures After(cfg, s, [LookInCache(id, call), LookForException(id, call.now), Save(id, call.now)])
            == s.(tables := Runs.Next(cfg, s.tables, Runs.Scan(call)))
    ensures AnswerAcross(cfg, s, call, s, call.now) == Runs.AnswerIn(cfg, s.tables, call)
  {
    var steps := [LookInCache(id, call), LookForException(id, call.now), Save(id, call.now)];
    var s1 := Next(cfg, s, steps[0]);
    var s2 := Next(cfg, s1, steps[1]);
    var s3 := Next(cfg, s2, steps[2]);
    assert steps[1..] == [LookForException(id, call.now), Save(id, call.now)];
    assert steps[1..][1..] == [Save(id, call.now)] && steps[1..][1..][1..] == [];
    assert After(cfg, s2, steps[1..][1..]) == After(cfg, s3, []) == s3;
    assert After(cfg, s1, steps[1..]) == s3;
    assert s3.open == s.open;
  }

  // ----- how soon an exception works -----

  /** The scans that will save to the row `key` whatever exceptions are added. */
  ghost predicate Committed(s: System, id: nat, key: string) {
    id in s.open && s.open[id].analyzing && KeyOf(s.open[id].call.pkg) == key
  }

  /** Scans on the package's row are of the package itself, with exception lookups that work. */
  ghost predicate Regular(call: Call, pkg: PackageRef) {
    KeyOf(call.pkg) == KeyOf(pkg) ==> call.pkg == pkg && !call.exceptionsFail
  }

  /** The steps neither delete nor replace the exception, nor report to the package's row. */
  ghost predicate LeaveAlone(steps: seq<Step>, e: Exception, pkg: PackageRef) {
    forall step :: step in steps ==>
                     match step
                     case LookInCache(id, call) => Regular(call, pkg)
                     case LookForException(id, at) => true
                     case Save(id, at) => true
                     case Outside(Scan(call)) => false
                     case Outside(Report(r)) => KeyOf(r.package) != KeyOf(pkg)
                     case Outside(AddException(x)) => x.exceptionId != e.exceptionId
                     case Outside(DeleteException(id)) => id != e.exceptionId
  }

  /** The committed scans of `ids` save by `u`. */
  ghost predicate SavedBy(steps: seq<Step>, ids: set<nat>, u: Time) {
    forall step :: step in steps ==>
                     && (step.Save? && step.id in ids ==> step.at <= u)
                     && (step.LookInCache? ==> step.id !in ids)
  }

  ghost predicate RowSane(cache: Cache, key: string, u: Time) {
    key in cache ==>
      && cache[key].result.scannedAt <= u
      && cache[key].expiresAt == cache[key].result.scannedAt + Ttl(cache[key].result.verdict)
  }

  /**
    While the exception stands: only the scans of `ids` are committed to the package's row, and the row
    stems from a scan made by `u`.
   */
  ghost predicate Settling(s: System, e: Exception, pkg: PackageRef, ids: set<nat>, u: Time) {
    && e.exceptionId in s.tables.exceptions && s.tables.exceptions[e.exceptionId] == e
    && (forall id :: id in s.open && !s.open[id].analyzing ==> Regular(s.open[id].call, pkg))
    && (forall id :: Committed(s, id, KeyOf(pkg)) ==> id in ids)
    && RowSane(s.tables.cache, KeyOf(pkg), u)
  }

  lemma StepKeepsSettling(cfg: Config, s: System, step: Step, e: Exception, pkg: PackageRef, ids: set<nat>, u: Time)
    requires Settling(s, e, pkg, ids, u) && Runs.Standing(e, pkg)
    requires LeaveAlone([step], e, pkg) && SavedBy([step], ids, u)
    ensures Settling(Next(cfg, s, step), e, pkg, ids, u)
  {
    assert step in [step];
    var t := Next(cfg, s, step);
    match step
    case LookForException(id, at) =>
      if id in s.open && !s.open[id].analyzing && KeyOf(s.open[id].call.pkg) == KeyOf(pkg) {
        assert Candidate(s.tables.exceptions, e.exceptionId, pkg.ecosystem, pkg.name, pkg.version, at);
        assert id !in t.open;
      }
      assert forall i :: i in t.open && i != id ==> t.open[i] == s.open[i];
    case Save(id, at) =>
      assert Committed(s, id, KeyOf(pkg)) ==> at <= u;
    case _ =>
  }

  lemma {:induction false} StepsKeepSettling(cfg: Config, s: System, steps: seq<Step>, e: Exception, pkg: PackageRef,
                                             ids: set<nat>, u: Time)
    requires Settling(s, e, pkg, ids, u) && Runs.Standing(e, pkg)
    requires LeaveAlone(steps, e, pkg) && SavedBy(steps, ids, u)
    ensures Settling(After(cfg, s, steps), e, pkg, ids, u)
    decreases |steps|
  {
    if steps != [] {
      assert steps[0] in steps && forall step :: step in steps[1..] ==> step in steps;
      StepKeepsSettling(cfg, s, steps[0], e, pkg, ids, u);
      StepsKeepSettling(cfg, Next(cfg, s, steps[0]), steps[1..], e, pkg, ids, u);
    }
  }

  ghost function CommittedIds(s: System, key: string): set<nat> {
    set id | id in s.open && Committed(s, id, key)
  }

  /**
    Bounded staleness without atomic scans: let a standing exception be added, and let the scans of the
    package that were past the exception lookup by then save by `u`. Then every scan that looks in the
    cache one hour after `u` or later answers allow, whatever steps lie between its two lookups.
   */
  lemma ExceptionHoldsAnHourAfterLastSave(cfg: Config, s: System, e: Exception, u: Time, steps: seq<Step>, call: Call,
                                          between: seq<Step>, at: Time)
    requires Runs.Standing(e, call.pkg) && !call.exceptionsFail
    requires RowSane(s.tables.cache, KeyOf(call.pkg), u)
    requires forall id :: id in s.open && !s.open[id].analyzing ==> Regular(s.open[id].call, call.pkg)
    requires LeaveAlone(steps, e, call.pkg) && LeaveAlone(between, e, call.pkg)
    requires SavedBy(steps, CommittedIds(s, KeyOf(call.pkg)), u) && SavedBy(between, CommittedIds(s, KeyOf(call.pkg)), u)
    requires u + HOUR <= call.now
    ensures var added := Next(cfg, s, Outside(Runs.AddException(e)));
            var looked := After(cfg, added, steps);
            AnswerAcross(cfg, looked, call, After(cfg, looked, between), at).verdict == Allow
  {
    var ids := CommittedIds(s, KeyOf(call.pkg));
    var added := Next(cfg, s, Outside(Runs.AddException(e)));
    assert forall id :: Committed(added, id, KeyOf(call.pkg)) <==> Committed(s, id, KeyOf(call.pkg));
    assert Settling(added, e, call.pkg, ids, u);
    var looked := After(cfg, added, steps);
    StepsKeepSettling(cfg, added, steps, e, call.pkg, ids, u);
    StepsKeepSettling(cfg, looked, between, e, call.pkg, ids, u);
    var t := After(cfg, looked, between);
    assert Candidate(t.tables.exceptions, e.exceptionId, call.pkg.ecosystem, call.pkg.name, call.pkg.version, at);
  }

  /**
    The hour counts from the save, not from the exception: a scan that found no exception at 0 and saves
    at `late` blocks the package until the last nanosecond of the hour after that.
   */
  lemma LateSaveOutlastsTheHour(late: Time)
    ensures var pkg := PackageRef(NPM, "left-pad", "1.0.0");
            var bad := Finding("known-bad", Critical, "", "", 0.0);
            var call := Call(pkg, false, "scan-1", 0, Ran([bad]), Absent, NoHeuristic, NoClaude, false, false, true);
            var e := Exception("x", NPM, "left-pad", "1.0.0", "reviewed", "", 0, None);
            var cfg := Config(30, 7.0, "enforce");
            var steps := [LookInCache(1, call), LookForException(1, 0), Outside(Runs.AddException(e)), Save(1, late)];
            var s := After(cfg, System(Runs.State(map[], map[]), map[]), steps);
            Runs.Standing(e, pkg) && AnswerAcross(cfg, s, call.(now := late + HOUR - 1), s, late + HOUR - 1).verdict == Block
  {
    var pkg := PackageRef(NPM, "left-pad", "1.0.0");
    var bad := Finding("known-bad", Critical, "", "", 0.0);
    var call := Call(pkg, false, "scan-1", 0, Ran([bad]), Absent, NoHeuristic, NoClaude, false, false, true);
    var e := Exception("x", NPM, "left-pad", "1.0.0", "reviewed", "", 0, None);
    var cfg := Config(30, 7.0, "enforce");
    var steps := [LookInCache(1, call), LookForException(1, 0), Outside(Runs.AddException(e)), Save(1, late)];
    var s0 := System(Runs.State(map[], map[]), map[]);
    var s1, rest1 := Next(cfg, s0, steps[0]), steps[1..];
    var s2, rest2 := Next(cfg, s1, rest1[0]), rest1[1..];
    var s3, rest3 := Next(cfg, s2, rest2[0]), rest2[1..];
    var s4, rest4 := Next(cfg, s3, rest3[0]), rest3[1..];
    assert s2.open[1] == Open(call, true);
    assert bad in [bad] && AllFindings(cfg, call.(now := late)) == [bad];
    assert s4.tables.cache == Put(map[], FreshResult(cfg, call.(now := late)));
    assert After(cfg, s4, rest4) == s4;
    assert After(cfg, s0, steps) == After(cfg, s1, rest1) == After(cfg, s2, rest2) == After(cfg, s3, rest3) == s4;
  }
}
