/** The values cipher-shield's components exchange, after internal/types.go. */
module Shield {

  datatype Option<+T> = None | Some(value: T)

  /** Instants and durations, in nanoseconds. */
  type Time = int

  const MINUTE: Time := 60_000_000_000
  const HOUR: Time := 60 * MINUTE
  const DAY: Time := 24 * HOUR

  const NPM := "npm"
  const PYPI := "pypi"

  datatype Verdict = Allow | Warn | Block {
    /** Allow is below Warn, Warn below Block. */
    function Rank(): nat {
      match this
      case Allow => 0
      case Warn => 1
      case Block => 2
    }

    predicate AtMost(other: Verdict) {
      Rank() <= other.Rank()
    }

    function Join(other: Verdict): Verdict {
      if AtMost(other) then other else this
    }
  }

  datatype Severity = Critical | High | Medium | Low | Info {
    predicate Serious() {
      Critical? || High?
    }
  }

  datatype PackageRef = PackageRef(ecosystem: string, name: string, version: string)

  datatype Finding = Finding(kind: string, severity: Severity, title: string, cve: string, cvss: real)

  datatype ScanResult = ScanResult(
    scanId: string,
    package: PackageRef,
    verdict: Verdict,
    findings: seq<Finding>,
    claudeUsed: bool,
    scannedAt: Time,
    cachedAt: Option<Time>)

  /** A stored exception; an empty version stands for every version. */
  datatype Exception = Exception(
    exceptionId: string,
    ecosystem: string,
    name: string,
    version: string,
    reason: string,
    createdBy: string,
    createdAt: Time,
    expiresAt: Option<Time>)

  /** Some finding is critical or high. */
  predicate AnySerious(findings: seq<Finding>) {
    exists f :: f in findings && f.severity.Serious()
  }
}
