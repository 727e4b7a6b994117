/**
  Tier 2, the findings internal/analyzer/cve/osv.go makes of OSV advisories, and what the CVSS threshold
  of internal/pipeline/pipeline.go makes of those findings.
 */
module Cve {
  import opened Shield
  import opened Text
  import opened Pipelines

  /** An advisory under its CVE name; `score` is its numeric score, or 0 if it only gives vectors. */
  datatype Advisory = Advisory(id: string, summary: string, severity: string, score: real)

  /** What decoding and parseCVSS yield: OSV ids are not empty, scores are at most 10. */
  predicate Decoded(a: Advisory) {
    a.id != "" && 0.0 <= a.score <= 10.0
  }

  /** The severity the database names, if it is one the analyzer knows. */
  function Named(severity: string): Option<Severity> {
    if EqualFold(severity, "critical") then Some(Critical)
    else if EqualFold(severity, "high") then Some(High)
    else if EqualFold(severity, "medium") || EqualFold(severity, "moderate") then Some(Medium)
    else if EqualFold(severity, "low") then Some(Low)
    else None
  }

  /** cvssFromSeverity */
  function Representative(severity: string): real {
    match Named(severity)
    case Some(Critical) => 9.5
    case Some(High) => 8.0
    case Some(Medium) => 5.0
    case Some(Low) => 2.0
    case _ => 0.0
  }

  function Cvss(a: Advisory): real {
    if a.score == 0.0 then Representative(a.severity) else a.score
  }

  /** mapSeverity: the database's word, else the score's range. */
  function SeverityOf(severity: string, cvss: real): Severity {
    if Named(severity).Some? then Named(severity).value
    else if cvss >= 9.0 then Critical
    else if cvss >= 7.0 then High
    else if cvss >= 4.0 then Medium
    else if cvss > 0.0 then Low
    else Info
  }

  /** The severities a database may name, in any case, and the scores that stand for them. */
  lemma NamedSeverities(s: string, cvss: real)
    ensures EqualFold(s, "CRITICAL") ==> SeverityOf(s, cvss) == Critical && Representative(s) == 9.5
    ensures EqualFold(s, "HIGH") ==> SeverityOf(s, cvss) == High && Representative(s) == 8.0
    ensures EqualFold(s, "MODERATE") || EqualFold(s, "MEDIUM") ==> SeverityOf(s, cvss) == Medium && Representative(s) == 5.0
    ensures EqualFold(s, "LOW") ==> SeverityOf(s, cvss) == Low && Representative(s) == 2.0
    ensures ToLower(s) !in {"critical", "high", "moderate", "medium", "low"} ==>
              Representative(s) == 0.0 && SeverityOf(s, cvss) == SeverityOf("", cvss)
  {
    assert ToLower("CRITICAL") == ToLower("critical") == "critical";
    assert ToLower("HIGH") == ToLower("high") == "high";
    assert ToLower("MODERATE") == ToLower("moderate") == "moderate";
    assert ToLower("MEDIUM") == ToLower("medium") == "medium";
    assert ToLower("LOW") == ToLower("low") == "low";
    assert ToLower("") == "" && |"critical"| == 8 && |"moderate"| == 8 && "critical"[0] == 'c' && "moderate"[1] == 'o';
  }

  /**
    The two ways to a severity agree: the score that stands for a named severity is in that severity's
    range. A higher score never gives a milder severity, and Critical, Low and Info have their bounds at 9.0,
    at 4.0 and at 0.0.
   */
  lemma ScoresAgreeWithNames(s: string, low: real, high: real)
    ensures Named(s).Some? ==> SeverityOf("", Representative(s)) == Named(s).value
    ensures low <= high ==> Mildness(SeverityOf("", high)) <= Mildness(SeverityOf("", low))
    ensures SeverityOf("", low) == Critical <==> 9.0 <= low
    ensures SeverityOf("", low) in {Low, Info} <==> low < 4.0
    ensures SeverityOf("", low) == Info <==> low <= 0.0
  {
    assert Named("").None?;
  }

  function Mildness(severity: Severity): nat {
    match severity
    case Critical => 0
    case High => 1
    case Medium => 2
    case Low => 3
    case Info => 4
  }

  function FindingOf(a: Advisory): Finding {
    Finding("cve", SeverityOf(a.severity, Cvss(a)), a.id + ": " + a.summary, a.id, Cvss(a))
  }

  function Findings(advisories: seq<Advisory>): seq<Finding> {
    seq(|advisories|, i requires 0 <= i < |advisories| => FindingOf(advisories[i]))
  }

  // ----- the documented rule -----

  /** The score and the named severity do not stem from different sources. */
  predicate OneSource(a: Advisory) {
    Decoded(a) && (a.score == 0.0 || Named(a.severity).None?)
  }

  ghost predicate AllOneSource(advisories: seq<Advisory>) {
    forall a :: a in advisories ==> OneSource(a)
  }

  /** "The minimum CVSS score that causes a block verdict." */
  ghost predicate BlocksFrom(threshold: real) {
    forall advisories :: AllOneSource(advisories) ==>
      (VerdictOf("enforce", Findings(advisories)) == Block <==> HighCvss(Findings(advisories), threshold))
  }

  /** "Findings below this threshold produce warn instead." */
  ghost predicate WarnsBelow(threshold: real) {
    forall a :: OneSource(a) && Cvss(a) < threshold ==> VerdictOf("enforce", Findings([a])) == Warn
  }

  /** Fixed bounds decide: 7.0 and up blocks, 4.0 and up warns, whatever the threshold. */
  lemma ScoreDecides(a: Advisory)
    requires OneSource(a)
    ensures FindingOf(a).severity.Serious() <==> 7.0 <= Cvss(a)
    ensures VerdictOf("enforce", Findings([a])) == if 7.0 <= Cvss(a) then Block else if 4.0 <= Cvss(a) then Warn else Allow
    ensures forall t: real :: HighCvss(Findings([a]), t) <==> t <= Cvss(a)
  {
    assert Findings([a]) == [FindingOf(a)];
    assert FindingOf(a) in Findings([a]);
  }

  lemma FindingsStemFromAdvisories(advisories: seq<Advisory>)
    ensures forall f :: f in Findings(advisories) <==> exists a :: a in advisories && f == FindingOf(a)
  {
    forall a | a in advisories
      ensures FindingOf(a) in Findings(advisories)
    {
      var i :| 0 <= i < |advisories| && advisories[i] == a;
      assert Findings(advisories)[i] == FindingOf(a);
    }
  }

  lemma SevenBlocks(advisories: seq<Advisory>)
    requires AllOneSource(advisories)
    ensures VerdictOf("enforce", Findings(advisories)) == Block <==> HighCvss(Findings(advisories), 7.0)
  {
    FindingsStemFromAdvisories(advisories);
    forall a | a in advisories
      ensures FindingOf(a).severity.Serious() <==> FindingOf(a).cve != "" && FindingOf(a).cvss >= 7.0
    {
      ScoreDecides(a);
    }
  }

  function Scored(score: real): Advisory {
    Advisory("CVE-2024-0001", "", "", score)
  }

  /** The documented block rule holds at the default threshold, and at no other. */
  lemma BlocksFromIff(threshold: real)
    ensures BlocksFrom(threshold) <==> threshold == 7.0
  {
    if threshold == 7.0 {
      forall advisories | AllOneSource(advisories)
        ensures VerdictOf("enforce", Findings(advisories)) == Block <==> HighCvss(Findings(advisories), threshold)
      {
        SevenBlocks(advisories);
      }
    } else {
      var a := Scored(if threshold > 7.0 then 7.0 else if threshold > 0.0 then threshold else 0.0);
      assert Named("").None?;
      ScoreDecides(a);
      assert AllOneSource([a]);
    }
  }

  /** The documented warn rule holds at no threshold that anything can be below of. */
  lemma WarnsBelowIff(threshold: real)
    ensures WarnsBelow(threshold) <==> threshold <= 0.0
  {
    forall a | OneSource(a)
      ensures 0.0 <= Cvss(a)
    {
    }
    if threshold > 0.0 {
      assert Named("").None?;
      ScoreDecides(Scored(0.0));
      assert OneSource(Scored(0.0)) && Cvss(Scored(0.0)) < threshold;
    }
  }

  /** The rule for single advisories, each with a database severity and a score of its own. */
  ghost predicate BlocksAlone(a: Advisory, threshold: real) {
    VerdictOf("enforce", Findings([a])) == Block <==> HighCvss(Findings([a]), threshold)
  }

  /** With both given, the severity decides the verdict and the score the threshold. */
  lemma BlocksAloneIff(a: Advisory, threshold: real)
    requires Decoded(a) && Named(a.severity).Some? && a.score > 0.0
    ensures BlocksAlone(a, threshold) <==> (Named(a.severity).value.Serious() <==> threshold <= a.score)
  {
    assert Findings([a]) == [FindingOf(a)];
    assert FindingOf(a) in Findings([a]);
  }

  /** Two advisories whose severities and scores are in opposite order break the rule at every threshold. */
  lemma DisagreementBreaksEveryThreshold(a: Advisory, b: Advisory, threshold: real)
    requires Decoded(a) && Decoded(b) && Named(a.severity).Some? && Named(b.severity).Some?
    requires Named(a.severity).value.Serious() && !Named(b.severity).value.Serious() && 0.0 < a.score <= b.score
    ensures !BlocksAlone(a, threshold) || !BlocksAlone(b, threshold)
  {
    BlocksAloneIff(a, threshold);
    BlocksAloneIff(b, threshold);
  }

  lemma NamesAreKnown()
    ensures Named("HIGH") == Some(High) && Named("LOW") == Some(Low)
  {
    assert ToLower("HIGH") == ToLower("high") == "high";
    assert ToLower("LOW") == ToLower("low") == "low";
    assert ToLower("critical")[0] == 'c' && ToLower("medium")[0] == 'm' && ToLower("moderate")[0] == 'm';
  }

  /** Threshold 9.0 and one advisory of severity HIGH without a numeric score, hence 8.0: blocked all the same. */
  lemma ThresholdOf9BlocksAt8()
    ensures var a := Advisory("CVE-2024-0001", "", "HIGH", 0.0);
            var call := Call(PackageRef(NPM, "left-pad", "1.0.0"), false, "scan-1", 0, Absent, Ran(Findings([a])),
                             NoHeuristic, NoClaude, false, false, true);
            Cvss(a) == 8.0 && FreshResult(Config(30, 9.0, "enforce"), call).verdict == Block
  {
    var a := Advisory("CVE-2024-0001", "", "HIGH", 0.0);
    NamesAreKnown();
    ScoreDecides(a);
    var call := Call(PackageRef(NPM, "left-pad", "1.0.0"), false, "scan-1", 0, Absent, Ran(Findings([a])),
                     NoHeuristic, NoClaude, false, false, true);
    assert AllFindings(Config(30, 9.0, "enforce"), call) == Findings([a]);
  }

  /** A LOW advisory with score 10.0 against a HIGH one with score 8.0: no threshold fits both. */
  lemma NoThresholdFitsBoth(threshold: real)
    ensures !BlocksAlone(Advisory("CVE-2024-0001", "", "HIGH", 8.0), threshold)
            || !BlocksAlone(Advisory("CVE-2024-0002", "", "LOW", 10.0), threshold)
  {
    NamesAreKnown();
    DisagreementBreaksEveryThreshold(Advisory("CVE-2024-0001", "", "HIGH", 8.0),
                                     Advisory("CVE-2024-0002", "", "LOW", 10.0), threshold);
  }

  /** The loop over the advisories of one answer. */
  method Analyze(advisories: seq<Advisory>) returns (findings: seq<Finding>)
    ensures findings == Findings(advisories)
    ensures |findings| == |advisories|
    ensures forall i :: 0 <= i < |findings| ==>
              var a, f := advisories[i], findings[i];
              && f.kind == "cve" && f.cve == a.id && f.title == a.id + ": " + a.summary
              && (a.score != 0.0 ==> f.cvss == a.score) && (a.score == 0.0 ==> f.cvss == Representative(a.severity))
              && f.severity == SeverityOf(a.severity, f.cvss)
  {
    findings := [];
    for i := 0 to |advisories|
      invariant findings == Findings(advisories[..i])
    {
      var a := advisories[i];
      var cvss := a.score;
      if cvss == 0.0 {
        cvss := Representative(a.severity);
      }
      findings := findings + [Finding("cve", SeverityOf(a.severity, cvss), a.id + ": " + a.summary, a.id, cvss)];
    }
    assert advisories[..|advisories|] == advisories;
  }
}
