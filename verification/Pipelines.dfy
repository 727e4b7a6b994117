/**
  The tiered scan of internal/pipeline/pipeline.go over the store. What the tiers answer is an input
  of each call; so are the scan id, the clock and which store operations fail. A call is atomic and
  reads the clock once.
 */
module Pipelines {
  import opened Shield
  import opened Store

  datatype Config = Config(claudeTriggerScore: int, blockCvssThreshold: real, mode: string)

  /** New: zero values mean the defaults. */
  function WithDefaults(cfg: Config): Config {
    Config(
      if cfg.claudeTriggerScore == 0 then 30 else cfg.claudeTriggerScore,
      if cfg.blockCvssThreshold == 0.0 then 7.0 else cfg.blockCvssThreshold,
      if cfg.mode == "" then "enforce" else cfg.mode)
  }

  /** A pipeline configured with nothing is the default one; what is set stays as it is. */
  lemma DefaultsFillIn(cfg: Config)
    ensures WithDefaults(Config(0, 0.0, "")) == Config(30, 7.0, "enforce")
    ensures WithDefaults(WithDefaults(cfg)) == WithDefaults(cfg)
    ensures cfg.claudeTriggerScore != 0 && cfg.blockCvssThreshold != 0.0 && cfg.mode != "" ==> WithDefaults(cfg) == cfg
  {
  }

  /** Tiers 1 and 2: what they return is used whether or not an error comes with it. */
  datatype Tier = Absent | Ran(findings: seq<Finding>)

  /** Tier 3: after an error nothing is used. */
  datatype HeuristicTier = NoHeuristic | HeuristicError | Scored(findings: seq<Finding>, score: int)

  /** Tier 4: not configured, in error or without analyzable content, or answering. */
  datatype ClaudeTier = NoClaude | ClaudeError | Answered(findings: seq<Finding>)

  datatype Call = Call(
    pkg: PackageRef,
    hasTarball: bool,
    scanId: string,
    now: Time,
    badlist: Tier,
    cve: Tier,
    heuristic: HeuristicTier,
    claude: ClaudeTier,
    cacheFails: bool,
    exceptionsFail: bool,
    saves: bool)

  // ----- verdicts -----

  predicate AnyMedium(findings: seq<Finding>) {
    exists f :: f in findings && f.severity.Medium?
  }

  /** The verdict the findings deserve. */
  function VerdictOf(mode: string, findings: seq<Finding>): Verdict {
    if AnySerious(findings) then (if mode == "enforce" then Block else Warn)
    else if AnyMedium(findings) then Warn
    else Allow
  }

  method ComputeVerdict(mode: string, findings: seq<Finding>) returns (verdict: Verdict)
    ensures verdict == VerdictOf(mode, findings)
    ensures verdict == Block <==> mode == "enforce" && exists f :: f in findings && f.severity in {Critical, High}
    ensures verdict == Allow <==> forall f :: f in findings ==> f.severity in {Low, Info}
  {
    verdict := Allow;
    for i := 0 to |findings|
      invariant verdict == VerdictOf(mode, findings[..i]) && !verdict.Block?
    {
      var f := findings[i];
      assert findings[..i + 1] == findings[..i] + [f];
      VerdictIsJoin(mode, findings[..i], [f]);
      assert f in [f];
      if f.severity.Critical? || f.severity.High? {
        if mode == "enforce" {
          assert f in findings;
          return Block;
        }
        verdict := Warn;
      } else if f.severity.Medium? {
        if verdict == Allow {
          verdict := Warn;
        }
      }
    }
    assert findings[..|findings|] == findings;
  }

  /** The verdict on findings taken together is the worse of the two verdicts. */
  lemma VerdictIsJoin(mode: string, xs: seq<Finding>, ys: seq<Finding>)
    ensures VerdictOf(mode, xs + ys) == VerdictOf(mode, xs).Join(VerdictOf(mode, ys))
  {
    assert forall f :: f in xs + ys <==> f in xs || f in ys;
  }

  lemma VerdictIgnoresOrder(mode: string, xs: seq<Finding>, ys: seq<Finding>)
    requires multiset(xs) == multiset(ys)
    ensures VerdictOf(mode, xs) == VerdictOf(mode, ys)
  {
    assert forall f :: f in xs <==> f in multiset(xs);
    assert forall f :: f in ys <==> f in multiset(ys);
  }

  predicate HighCvss(findings: seq<Finding>, threshold: real) {
    exists f :: f in findings && f.cve != "" && f.cvss >= threshold
  }

  // ----- one scan -----

  function Found(tier: Tier): seq<Finding> {
    if tier.Ran? then tier.findings else []
  }

  /** Some earlier tier asks for a second opinion. */
  predicate ClaudeNeeded(cfg: Config, call: Call) {
    || AnySerious(Found(call.badlist))
    || HighCvss(Found(call.cve), cfg.blockCvssThreshold)
    || (call.hasTarball && call.heuristic.Scored? && call.heuristic.score >= cfg.claudeTriggerScore)
  }

  predicate ClaudeRuns(cfg: Config, call: Call) {
    ClaudeNeeded(cfg, call) && call.hasTarball && call.claude.Answered?
  }

  function AllFindings(cfg: Config, call: Call): seq<Finding> {
    Found(call.badlist) + Found(call.cve)
    + (if call.hasTarball && call.heuristic.Scored? then call.heuristic.findings else [])
    + (if ClaudeRuns(cfg, call) then call.claude.findings else [])
  }

  /** Claude answers: it is asked for a serious known-bad finding, a high CVSS score or a high heuristic score. */
  ghost predicate ClaudeAnswers(cfg: Config, call: Call) {
    && call.hasTarball && call.claude.Answered?
    && (|| (call.badlist.Ran? && exists f :: f in call.badlist.findings && f.severity in {Critical, High})
        || (call.cve.Ran? && exists f :: f in call.cve.findings && f.cve != "" && cfg.blockCvssThreshold <= f.cvss)
        || (call.heuristic.Scored? && cfg.claudeTriggerScore <= call.heuristic.score))
  }

  /** Some tier that ran and answered has the finding; tiers 3 and 4 need a tarball. */
  ghost predicate SomeTierFinds(cfg: Config, call: Call, f: Finding) {
    || (call.badlist.Ran? && f in call.badlist.findings)
    || (call.cve.Ran? && f in call.cve.findings)
    || (call.hasTarball && call.heuristic.Scored? && f in call.heuristic.findings)
    || (ClaudeAnswers(cfg, call) && f in call.claude.findings)
  }

  /** The result of running the tiers. */
  function FreshResult(cfg: Config, call: Call): ScanResult {
    ScanResult(call.scanId, call.pkg, VerdictOf(cfg.mode, AllFindings(cfg, call)), AllFindings(cfg, call),
               ClaudeRuns(cfg, call), call.now, None)
  }

  function ExceptedResult(call: Call): ScanResult {
    ScanResult(call.scanId, call.pkg, Allow, [], false, call.now, None)
  }

  /** What the call's cache lookup yields. */
  function Cached(cache: Cache, call: Call): Option<ScanResult> {
    if call.cacheFails then None else Fetch(cache, KeyOf(call.pkg), call.now)
  }

  ghost predicate Excepted(exceptions: Exceptions, call: Call) {
    !call.exceptionsFail && HasException(exceptions, call.pkg.ecosystem, call.pkg.name, call.pkg.version, call.now)
  }

  /** The answer to a call: from the cache, else by exception, else from the tiers. */
  ghost function Answer(cfg: Config, cache: Cache, exceptions: Exceptions, call: Call): ScanResult {
    if Cached(cache, call).Some? then Cached(cache, call).value
    else if Excepted(exceptions, call) then ExceptedResult(call)
    else FreshResult(cfg, call)
  }

  /** Only results of the tiers are saved. */
  ghost predicate Saves(cache: Cache, exceptions: Exceptions, call: Call) {
    Cached(cache, call).None? && !Excepted(exceptions, call) && call.saves
  }

  ghost function CacheAfter(cfg: Config, cache: Cache, exceptions: Exceptions, call: Call): Cache {
    if Saves(cache, exceptions, call) then Put(cache, FreshResult(cfg, call)) else cache
  }

  /** A lookup that fails is a lookup that finds nothing, and a save that fails leaves no trace. */
  lemma FailuresAreMisses(cfg: Config, cache: Cache, exceptions: Exceptions, call: Call)
    ensures Answer(cfg, cache, exceptions, call.(cacheFails := true)) == Answer(cfg, map[], exceptions, call)
    ensures Answer(cfg, cache, exceptions, call.(exceptionsFail := true)) == Answer(cfg, cache, map[], call)
    ensures CacheAfter(cfg, cache, exceptions, call.(saves := false)) == cache
  {
  }

  class Pipeline {
    const cfg: Config
    const store: SqlStore

    constructor (store: SqlStore, cfg: Config)
      ensures this.store == store && this.cfg == WithDefaults(cfg)
    {
      this.store := store;
      this.cfg := WithDefaults(cfg);
    }

    method Analyze(call: Call) returns (result: ScanResult)
      modifies store
      ensures store.exceptions == old(store.exceptions)
      ensures result == Answer(cfg, old(store.cache), store.exceptions, call)
      ensures store.cache == CacheAfter(cfg, old(store.cache), store.exceptions, call)
      ensures if Saves(old(store.cache), store.exceptions, call)
              then Newest(Record(old(store.history), result), store.history, HISTORY_LIMIT)
              else store.history == old(store.history)
      ensures Cached(old(store.cache), call).None? && !Excepted(store.exceptions, call) ==>
                && (forall f :: f in result.findings <==> SomeTierFinds(cfg, call, f))
                && (result.verdict == Block <==>
                    cfg.mode == "enforce" && exists f :: SomeTierFinds(cfg, call, f) && f.severity in {Critical, High})
    {
      var pkg := call.pkg;
      if !call.cacheFails {
        var cached := store.GetCachedResult(pkg.ecosystem, pkg.name, pkg.version, call.now);
        if cached.Some? {
          return cached.value;
        }
      }
      if !call.exceptionsFail {
        var exc := store.GetException(pkg.ecosystem, pkg.name, pkg.version, call.now);
        if exc.Some? {
          return ScanResult(call.scanId, pkg, Allow, [], false, call.now, None);
        }
      }
      var allFindings, claudeRan := RunTiers(call);
      var verdict := ComputeVerdict(cfg.mode, allFindings);
      result := ScanResult(call.scanId, pkg, verdict, allFindings, claudeRan, call.now, None);
      var _ := store.SaveResult(result, call.saves);
    }

    /** The four tiers of Analyze, each adding its findings. */
    method RunTiers(call: Call) returns (allFindings: seq<Finding>, claudeRan: bool)
      ensures allFindings == AllFindings(cfg, call) && claudeRan == ClaudeRuns(cfg, call)
      ensures claudeRan <==> ClaudeAnswers(cfg, call)
      ensures forall f :: f in allFindings <==> SomeTierFinds(cfg, call, f)
    {
      allFindings := [];
      var claudeNeeded := false;
      if call.badlist.Ran? {
        allFindings := allFindings + call.badlist.findings;
        if AnySerious(call.badlist.findings) {
          claudeNeeded := true;
        }
      }
      if call.cve.Ran? {
        allFindings := allFindings + call.cve.findings;
        if HighCvss(call.cve.findings, cfg.blockCvssThreshold) {
          claudeNeeded := true;
        }
      }
      if call.hasTarball && call.heuristic.Scored? {
        if call.heuristic.score >= cfg.claudeTriggerScore {
          claudeNeeded := true;
        }
        allFindings := allFindings + call.heuristic.findings;
      }
      claudeRan := false;
      if claudeNeeded && call.claude.Answered? && call.hasTarball {
        claudeRan := true;
        allFindings := allFindings + call.claude.findings;
      }
    }
  }

  /** What any tier finds reaches the result, and nothing else does. */
  lemma FreshFindingsIff(cfg: Config, call: Call)
    ensures FreshResult(cfg, call).claudeUsed <==> ClaudeAnswers(cfg, call)
    ensures forall f :: f in FreshResult(cfg, call).findings <==> SomeTierFinds(cfg, call, f)
  {
  }

  /** Each finding is there as often as the tiers that ran and answered have it. */
  lemma FreshFindingsAreCounted(cfg: Config, call: Call)
    ensures multiset(FreshResult(cfg, call).findings)
            == multiset(if call.badlist.Ran? then call.badlist.findings else [])
               + multiset(if call.cve.Ran? then call.cve.findings else [])
               + multiset(if call.hasTarball && call.heuristic.Scored? then call.heuristic.findings else [])
               + multiset(if ClaudeAnswers(cfg, call) then call.claude.findings else [])
  {
  }

  /** In enforce mode a critical or high finding of any of the four tiers blocks, and nothing else does. */
  lemma FreshBlocksIff(cfg: Config, call: Call)
    ensures FreshResult(cfg, call).verdict == Block <==>
            cfg.mode == "enforce" && exists f :: SomeTierFinds(cfg, call, f) && f.severity in {Critical, High}
    ensures FreshResult(cfg, call).verdict == Allow <==>
            forall f :: SomeTierFinds(cfg, call, f) ==> f.severity in {Low, Info}
  {
    FreshFindingsIff(cfg, call);
    var fs := FreshResult(cfg, call).findings;
    assert forall f: Finding :: f.severity in {Low, Info} <==> !f.severity.Serious() && !f.severity.Medium?;
  }

  /** The tiers' findings come in the order of the tiers: a blocked client is shown the first of the earliest. */
  lemma FindingsComeInTierOrder(cfg: Config, call: Call)
    ensures var fs := FreshResult(cfg, call).findings;
            && Found(call.badlist) <= fs
            && Found(call.badlist) + Found(call.cve) <= fs
            && (call.hasTarball && call.heuristic.Scored? ==>
                  Found(call.badlist) + Found(call.cve) + call.heuristic.findings <= fs)
  {
  }

  /** Looking into the tarball as well never softens a verdict. */
  lemma TarballNeverSoftens(cfg: Config, call: Call)
    ensures FreshResult(cfg, call.(hasTarball := false)).verdict.AtMost(FreshResult(cfg, call).verdict)
  {
    var bare := call.(hasTarball := false);
    var base := Found(call.badlist) + Found(call.cve);
    assert AllFindings(cfg, bare) == base;
    var scored := if call.hasTarball && call.heuristic.Scored? then call.heuristic.findings else [];
    var extra := scored + if ClaudeRuns(cfg, call) then call.claude.findings else [];
    assert AllFindings(cfg, call) == base + extra;
    VerdictIsJoin(cfg.mode, base, extra);
  }

  /**
    A trigger above every score does not switch Claude off, whatever the comment on the setting says:
    known-bad hits and high CVSS scores still ask for it, and nothing else does.
   */
  lemma UnreachableTriggerStillRunsClaude(cfg: Config, call: Call)
    requires call.heuristic.Scored? ==> call.heuristic.score < cfg.claudeTriggerScore
    ensures FreshResult(cfg, call).claudeUsed <==>
            call.hasTarball && call.claude.Answered?
            && (AnySerious(Found(call.badlist)) || HighCvss(Found(call.cve), cfg.blockCvssThreshold))
  {
  }

  /**
    The CVSS threshold blocks nothing by itself, whatever its comment says: it only decides whether
    Claude is asked, so without an answer from Claude the result does not depend on it.
   */
  lemma ThresholdOnlyAsksClaude(cfg: Config, call: Call, threshold: real)
    requires !ClaudeRuns(cfg, call) && !ClaudeRuns(cfg.(blockCvssThreshold := threshold), call)
    ensures FreshResult(cfg.(blockCvssThreshold := threshold), call) == FreshResult(cfg, call)
  {
  }
}
