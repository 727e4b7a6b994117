/**
  Tier 1, the known-bad list with its typosquat check: internal/analyzer/badlist/badlist.go and
  typosquatTarget of internal/analyzer/badlist/typosquat.go.
 */
module Badlist {
  import opened Shield
  import opened Text
  import opened Levenshtein

  datatype BadEntry = BadEntry(name: string, version: string, reason: string, severity: string)

  // ----- typosquatting -----

  /** The name at `i` is the first of the nearest ones among the first `n`, at distance `dist`. */
  ghost predicate FirstNearestAt(name: string, popular: seq<string>, n: nat, i: nat, dist: int)
    requires n <= |popular|
  {
    && i < n && dist == Distance(name, popular[i])
    && (forall j :: 0 <= j < i ==> dist < Distance(name, popular[j]))
    && (forall j :: i <= j < n ==> dist <= Distance(name, popular[j]))
  }

  ghost predicate FirstNearest(name: string, popular: seq<string>, target: string, dist: int) {
    exists i: nat :: FirstNearestAt(name, popular, |popular|, i, dist) && popular[i] == target
  }

  /** What typosquatTarget answers about a list of popular names. */
  ghost predicate TargetOf(name: string, popular: seq<string>, target: string, dist: int) {
    if name in popular || forall p :: p in popular ==> 99 <= Distance(name, p) then target == "" && dist == 99
    else dist < 99 && FirstNearest(name, popular, target, dist)
  }

  /** The scan after `n` names: nothing below 99 yet, or the first nearest of them, at index `i`. */
  ghost predicate BestSoFar(name: string, popular: seq<string>, n: nat, i: nat, best: string, bestDist: int)
    requires n <= |popular|
  {
    && name !in popular[..n]
    && if bestDist == 99 then best == "" && forall j :: 0 <= j < n ==> 99 <= Distance(name, popular[j])
       else bestDist < 99 && FirstNearestAt(name, popular, n, i, bestDist) && popular[i] == best
  }

  lemma ConsiderNext(name: string, popular: seq<string>, n: nat, i: nat, best: string, bestDist: int)
    requires n < |popular| && popular[n] != name && BestSoFar(name, popular, n, i, best, bestDist)
    ensures var d := Distance(name, popular[n]);
            if d < bestDist then BestSoFar(name, popular, n + 1, n, popular[n], d)
            else BestSoFar(name, popular, n + 1, i, best, bestDist)
  {
    assert popular[..n + 1] == popular[..n] + [popular[n]];
  }

  lemma ScanEnds(name: string, popular: seq<string>, i: nat, best: string, bestDist: int)
    requires BestSoFar(name, popular, |popular|, i, best, bestDist)
    ensures TargetOf(name, popular, best, bestDist)
  {
    assert popular[..|popular|] == popular;
    if bestDist < 99 {
      assert popular[i] in popular && Distance(name, popular[i]) < 99;
    }
  }

  /** The scan of typosquatTarget: keeps the best candidate, and gives up on an exact match. */
  method Nearest(name: string, popular: seq<string>) returns (target: string, dist: int)
    ensures TargetOf(name, popular, target, dist)
    ensures dist == 99 <==> name in popular || forall p :: p in popular ==> 99 <= Distance(name, p)
    ensures dist != 99 ==>
              exists i :: 0 <= i < |popular| && popular[i] == target && dist == Distance(name, target) < 99
                && (forall j :: 0 <= j < |popular| ==> dist <= Distance(name, popular[j]))
                && (forall j :: 0 <= j < i ==> dist < Distance(name, popular[j]))
  {
    var best, bestDist := "", 99;
    ghost var at := 0;
    for i := 0 to |popular|
      invariant BestSoFar(name, popular, i, at, best, bestDist)
    {
      var p := popular[i];
      if name == p {
        return "", 99;
      }
      var d := EditDistance(name, p);
      ConsiderNext(name, popular, i, at, best, bestDist);
      if d < bestDist {
        bestDist := d;
        best := p;
        at := i;
      }
    }
    ScanEnds(name, popular, at, best, bestDist);
    return best, bestDist;
  }

  /** A name is suspected: long enough, not itself popular, and close to a popular name. */
  ghost predicate Suspected(name: string, popular: seq<string>) {
    && 5 <= |name| && name !in popular
    && exists p :: p in popular && Distance(name, p) <= if |name| < 8 then 1 else 2
  }

  /** The answer of typosquatTarget, tested against the length-dependent bound, is exactly suspicion. */
  lemma SuspicionIsExact(name: string, popular: seq<string>, target: string, dist: int)
    requires TargetOf(name, popular, target, dist) && 5 <= |name|
    ensures dist <= (if |name| < 8 then 1 else 2) && target != "" <==> Suspected(name, popular)
    ensures Suspected(name, popular) ==> FirstNearest(name, popular, target, dist) && 0 < dist
  {
    if name !in popular && dist < 99 {
      assert target in popular;
      DistanceZero(name, target);
      DistanceBounds(name, target);
    }
    if Suspected(name, popular) {
      var p :| p in popular && Distance(name, p) <= if |name| < 8 then 1 else 2;
      var j :| 0 <= j < |popular| && popular[j] == p;
      assert dist <= Distance(name, popular[j]);
    }
  }

  /** At most `n` single-byte edits turn one into the other. */
  ghost predicate WithinEdits(a: string, b: string, n: nat) {
    exists edits :: Chain(a, edits, b) && |edits| <= n
  }

  lemma DistanceCountsEdits(a: string, b: string, n: nat)
    ensures Distance(a, b) <= n <==> WithinEdits(a, b, n)
  {
    DistanceIsShortestChain(a, b);
    if Distance(a, b) <= n {
      var edits :| Chain(a, edits, b) && |edits| == Distance(a, b);
    }
  }

  /** In terms of edits: one makes the name of a popular one, or two if it has 8 bytes or more. */
  lemma SuspectedIffFewEdits(name: string, popular: seq<string>)
    ensures Suspected(name, popular) <==>
            && 5 <= |name| && name !in popular
            && exists p :: p in popular && WithinEdits(name, p, if 8 <= |name| then 2 else 1)
  {
    forall p
      ensures Distance(name, p) <= (if |name| < 8 then 1 else 2) <==> WithinEdits(name, p, if 8 <= |name| then 2 else 1)
    {
      DistanceCountsEdits(name, p, if 8 <= |name| then 2 else 1);
    }
  }

  /** Two neighbouring bytes the wrong way round. */
  function Swapped(front: string, a: char, b: char, back: string): string {
    front + [b, a] + back
  }

  /** No single edit swaps two different bytes: it would have to change both. */
  lemma OneEditSwapsNothing(front: string, a: char, b: char, back: string, e: Edit)
    requires a != b && e.Fits(Swapped(front, b, a, back))
    ensures e.Apply(Swapped(front, b, a, back)) != Swapped(front, a, b, back)
  {
    var s, t := Swapped(front, b, a, back), Swapped(front, a, b, back);
    var i := |front|;
    assert s[i] == a && s[i + 1] == b && t[i] == b && t[i + 1] == a;
    if e.Substitute? {
      assert e.at != i ==> e.Apply(s)[i] == s[i];
      assert e.at != i + 1 ==> e.Apply(s)[i + 1] == s[i + 1];
    } else {
      assert |e.Apply(s)| != |t|;
    }
  }

  lemma OneChain(a: string, e: Edit, b: string)
    requires e.Fits(a)
    ensures Chain(a, [e], b) <==> e.Apply(a) == b
  {
    assert [e][1..] == [];
  }

  /** Two substitutions swap. */
  lemma TwoEditsSwap(front: string, a: char, b: char, back: string)
    ensures WithinEdits(Swapped(front, b, a, back), Swapped(front, a, b, back), 2)
  {
    var s, t, i := Swapped(front, b, a, back), Swapped(front, a, b, back), |front|;
    var first, second := Substitute(i, b), Substitute(i + 1, a);
    var half := front + [b, b] + back;
    assert s[..i] == front && s[i + 1..] == [b] + back && first.Apply(s) == half;
    assert half[..i + 1] == front + [b] && half[i + 2..] == back && second.Apply(half) == t;
    OneChain(half, second, t);
    assert [first, second][1..] == [second];
    assert Chain(s, [first, second], t);
  }

  lemma OneEditIsNoSwap(front: string, a: char, b: char, back: string)
    requires a != b
    ensures !WithinEdits(Swapped(front, b, a, back), Swapped(front, a, b, back), 1)
  {
    var s, t := Swapped(front, b, a, back), Swapped(front, a, b, back);
    assert s[|front|] != t[|front|];
    forall edits: seq<Edit> | |edits| <= 1
      ensures !Chain(s, edits, t)
    {
      if |edits| == 1 && edits[0].Fits(s) {
        assert edits == [edits[0]];
        OneChain(s, edits[0], t);
        OneEditSwapsNothing(front, a, b, back, edits[0]);
      }
    }
  }

  /** Swapping is two edits away: the table knows no transpositions. */
  lemma SwapIsTwoEdits(front: string, a: char, b: char, back: string)
    requires a != b
    ensures Distance(Swapped(front, b, a, back), Swapped(front, a, b, back)) == 2
  {
    var s, t := Swapped(front, b, a, back), Swapped(front, a, b, back);
    TwoEditsSwap(front, a, b, back);
    OneEditIsNoSwap(front, a, b, back);
    DistanceCountsEdits(s, t, 2);
    DistanceCountsEdits(s, t, 1);
  }

  /**
    A popular name with two neighbouring bytes the wrong way round is suspected iff it has 8 bytes or more, or
    is one edit away from some other popular name.
   */
  lemma SwappedNameIff(front: string, a: char, b: char, back: string, popular: seq<string>)
    requires a != b && Swapped(front, b, a, back) in popular && Swapped(front, a, b, back) !in popular
    requires 5 <= |Swapped(front, a, b, back)|
    ensures var name := Swapped(front, a, b, back);
            Suspected(name, popular) <==> 8 <= |name| || exists p :: p in popular && WithinEdits(name, p, 1)
  {
    var name, p := Swapped(front, a, b, back), Swapped(front, b, a, back);
    SwapIsTwoEdits(front, b, a, back);
    SuspectedIffFewEdits(name, popular);
    DistanceCountsEdits(name, p, 2);
  }

  /**
    Of the misspellings that are to be caught, reqeusts is, and lodahs, which is shorter, is not, as long as no
    other popular name is closer to it.
   */
  lemma LodahsIsMissed(popular: seq<string>)
    requires "requests" in popular && "reqeusts" !in popular
    requires "lodash" in popular && "lodahs" !in popular && forall p :: p in popular && p != "lodash" ==> !WithinEdits("lodahs", p, 1)
    ensures Suspected("reqeusts", popular)
    ensures !Suspected("lodahs", popular) && Reports([], popular, PackageRef(NPM, "lodahs", "1.0.0"), [])
  {
    assert "reqeusts" == Swapped("req", 'u', 'e', "sts") && "requests" == Swapped("req", 'e', 'u', "sts");
    assert "lodahs" == Swapped("loda", 's', 'h', "") && "lodash" == Swapped("loda", 'h', 's', "");
    SwappedNameIff("req", 'u', 'e', "sts", popular);
    SwappedNameIff("loda", 's', 'h', "", popular);
    SwapIsTwoEdits("loda", 'h', 's', "");
    DistanceCountsEdits("lodahs", "lodash", 1);
  }

  // ----- the known-bad index -----

  /** The entries of the list under a name, in list order, by a linear scan that ignores case. */
  ghost function Scan(entries: seq<BadEntry>, name: string): seq<BadEntry> {
    if entries == [] then []
    else
      var last := entries[|entries| - 1];
      Scan(entries[..|entries| - 1], name) + if EqualFold(last.name, name) then [last] else []
  }

  /** Go's map lookup: nothing for an absent key. */
  function Lookup(index: map<string, seq<BadEntry>>, key: string): seq<BadEntry> {
    if key in index then index[key] else []
  }

  ghost predicate Indexes(index: map<string, seq<BadEntry>>, entries: seq<BadEntry>) {
    forall name :: Lookup(index, ToLower(name)) == Scan(entries, name)
  }

  method BuildIndex(entries: seq<BadEntry>) returns (index: map<string, seq<BadEntry>>)
    ensures Indexes(index, entries)
  {
    index := map[];
    for i := 0 to |entries|
      invariant Indexes(index, entries[..i])
    {
      var e := entries[i];
      assert entries[..i + 1][..i] == entries[..i];
      index := index[ToLower(e.name) := Lookup(index, ToLower(e.name)) + [e]];
    }
    assert entries[..|entries|] == entries;
  }

  function MapSeverity(s: string): Severity {
    var lower := ToLower(s);
    if lower == "critical" then Critical
    else if lower == "high" then High
    else if lower == "medium" then Medium
    else if lower == "low" then Low
    else Info
  }

  /** Severities are told apart by their names, in any case; every other word stands for Info. */
  lemma SeverityNames(s: string)
    ensures MapSeverity(s) == Critical <==> EqualFold(s, "critical")
    ensures MapSeverity(s) == High <==> EqualFold(s, "HIGH")
    ensures MapSeverity(s) == Medium <==> EqualFold(s, "Medium")
    ensures MapSeverity(s) == Low <==> EqualFold(s, "low")
    ensures MapSeverity(s) != Info <==> ToLower(s) in {"critical", "high", "medium", "low"}
  {
    assert ToLower("critical") == "critical" && ToLower("HIGH") == "high";
    assert ToLower("Medium") == "medium" && ToLower("low") == "low";
    assert "critical"[0] == 'c' && "high"[0] == 'h' && "medium"[0] == 'm' && "low"[0] == 'l';
  }

  /** An entry speaks about the requested version; an empty request is about the name alone. */
  predicate Applies(e: BadEntry, version: string) {
    version == "" || e.version == "*" || e.version == "" || e.version == version
  }

  function KnownBadFinding(name: string, e: BadEntry): Finding {
    Finding("known-bad", MapSeverity(e.severity), "Known malicious package: " + name, "", 0.0)
  }

  function TyposquatFinding(target: string): Finding {
    Finding("typosquat", High, "Possible typosquatting of '" + target + "'", "", 0.0)
  }

  /** The known-bad findings for a version: one per applicable entry, in order. */
  ghost function KnownBad(name: string, entries: seq<BadEntry>, version: string): seq<Finding> {
    if entries == [] then []
    else
      var last := entries[|entries| - 1];
      KnownBad(name, entries[..|entries| - 1], version) + if Applies(last, version) then [KnownBadFinding(name, last)] else []
  }

  /** An entry of the list is about the package: the name agrees up to case, and the version if both sides give one. */
  predicate IsAbout(e: BadEntry, pkg: PackageRef) {
    ToLower(e.name) == ToLower(pkg.name) && (pkg.version == "" || e.version in {"", "*", pkg.version})
  }

  /** The findings are one for each entry about the package; `at` are the positions of these entries, in list order. */
  ghost predicate OnePerEntry(list: seq<BadEntry>, pkg: PackageRef, findings: seq<Finding>, at: seq<int>) {
    && |at| == |findings|
    && (forall k, l :: 0 <= k < l < |at| ==> at[k] < at[l])
    && (forall i :: i in at <==> 0 <= i < |list| && IsAbout(list[i], pkg))
    && forall k :: 0 <= k < |at| ==>
         0 <= at[k] < |list| && findings[k] == Finding("known-bad", MapSeverity(list[at[k]].severity), "Known malicious package: " + pkg.name, "", 0.0)
  }

  /** One entry more in the list is one finding more iff it is about the package. */
  lemma OneEntryMore(list: seq<BadEntry>, pkg: PackageRef, findings: seq<Finding>, at: seq<int>)
    requires list != [] && OnePerEntry(list[..|list| - 1], pkg, findings, at)
    ensures var n := |list| - 1;
            if IsAbout(list[n], pkg) then OnePerEntry(list, pkg, findings + [KnownBadFinding(pkg.name, list[n])], at + [n])
            else OnePerEntry(list, pkg, findings, at)
  {
    var n := |list| - 1;
    assert forall k :: 0 <= k < |at| ==> at[k] in at;
    assert forall i :: i in at + [n] <==> i in at || i == n;
    assert forall i :: 0 <= i < n ==> list[i] == list[..n][i];
  }

  lemma {:induction false} KnownBadIsOnePerEntry(list: seq<BadEntry>, pkg: PackageRef) returns (at: seq<int>)
    ensures OnePerEntry(list, pkg, KnownBad(pkg.name, Scan(list, pkg.name), pkg.version), at)
  {
    if list == [] {
      at := [];
    } else {
      var n := |list| - 1;
      var init, e := list[..n], list[n];
      at := KnownBadIsOnePerEntry(init, pkg);
      OneEntryMore(list, pkg, KnownBad(pkg.name, Scan(init, pkg.name), pkg.version), at);
      var entries := Scan(init, pkg.name);
      assert (entries + [e])[..|entries|] == entries && entries + [] == entries;
      var known := KnownBad(pkg.name, entries, pkg.version);
      assert known + [] == known;
      if IsAbout(e, pkg) {
        at := at + [n];
      }
    }
  }

  /** What tier 1 reports as known-bad, said of the list: something iff an entry is about the package. */
  lemma KnownBadIff(list: seq<BadEntry>, popular: seq<string>, pkg: PackageRef, findings: seq<Finding>)
    requires Reports(list, popular, pkg, findings)
    ensures (exists f :: f in findings && f.kind == "known-bad") <==> exists e :: e in list && IsAbout(e, pkg)
    ensures (exists e :: e in list && IsAbout(e, pkg)) ==> exists at :: OnePerEntry(list, pkg, findings, at)
    ensures (forall e :: e in list ==> !IsAbout(e, pkg)) && Suspected(pkg.name, popular) ==>
              exists target, dist :: FirstNearest(pkg.name, popular, target, dist)
                && findings == [Finding("typosquat", High, "Possible typosquatting of '" + target + "'", "", 0.0)]
    ensures (forall e :: e in list ==> !IsAbout(e, pkg)) && !Suspected(pkg.name, popular) ==> findings == []
  {
    var known := KnownBad(pkg.name, Scan(list, pkg.name), pkg.version);
    var at := KnownBadIsOnePerEntry(list, pkg);
    if known != [] {
      assert at[0] in at && list[at[0]] in list;
      assert findings[0] in findings && findings[0].kind == "known-bad";
    } else {
      forall e | e in list
        ensures !IsAbout(e, pkg)
      {
        var i :| 0 <= i < |list| && list[i] == e;
        assert i !in at;
      }
      assert "typosquat"[0] == 't' && "known-bad"[0] == 'k';
    }
  }

  class BadlistAnalyzer {
    var npm: map<string, seq<BadEntry>>
    var pypi: map<string, seq<BadEntry>>
    const popularNpm: seq<string>
    const popularPypi: seq<string>
    ghost var npmList: seq<BadEntry>
    ghost var pypiList: seq<BadEntry>

    ghost predicate Valid()
      reads this
    {
      Indexes(npm, npmList) && Indexes(pypi, pypiList)
    }

    ghost function List(ecosystem: string): seq<BadEntry>
      reads this
    {
      if ecosystem == NPM then npmList else if ecosystem == PYPI then pypiList else []
    }

    /** The popular names of an ecosystem; none for an unknown one. */
    function Popular(ecosystem: string): seq<string> {
      if ecosystem == NPM then popularNpm else if ecosystem == PYPI then popularPypi else []
    }

    /** newBadlistFromBytes, from the decoded lists and the built-in popular names. */
    constructor (npmEntries: seq<BadEntry>, pypiEntries: seq<BadEntry>, popularNpm: seq<string>, popularPypi: seq<string>)
      ensures Valid() && npmList == npmEntries && pypiList == pypiEntries
      ensures this.popularNpm == popularNpm && this.popularPypi == popularPypi
    {
      this.popularNpm, this.popularPypi := popularNpm, popularPypi;
      var npmIndex := BuildIndex(npmEntries);
      var pypiIndex := BuildIndex(pypiEntries);
      npm, pypi := npmIndex, pypiIndex;
      npmList, pypiList := npmEntries, pypiEntries;
    }

    /** typosquatTarget: an unknown ecosystem has no popular names to be close to. */
    method TyposquatTarget(name: string, ecosystem: string) returns (target: string, dist: int)
      ensures TargetOf(name, Popular(ecosystem), target, dist)
    {
      if ecosystem != NPM && ecosystem != PYPI {
        return "", 99;
      }
      target, dist := Nearest(name, Popular(ecosystem));
    }

    /** The applicable known-bad entries, in order. */
    method Hits(pkg: PackageRef) returns (findings: seq<Finding>)
      requires Valid()
      ensures findings == KnownBad(pkg.name, Scan(List(pkg.ecosystem), pkg.name), pkg.version)
      ensures exists at :: OnePerEntry(List(pkg.ecosystem), pkg, findings, at)
    {
      var entries := [];
      if pkg.ecosystem == NPM {
        entries := Lookup(npm, ToLower(pkg.name));
      } else if pkg.ecosystem == PYPI {
        entries := Lookup(pypi, ToLower(pkg.name));
      }
      findings := [];
      for i := 0 to |entries|
        invariant findings == KnownBad(pkg.name, entries[..i], pkg.version)
      {
        var e := entries[i];
        assert entries[..i + 1][..i] == entries[..i];
        if pkg.version != "" && e.version != "*" && e.version != "" && e.version != pkg.version {
          continue;
        }
        findings := findings + [KnownBadFinding(pkg.name, e)];
      }
      assert entries[..|entries|] == entries;
      ghost var at := KnownBadIsOnePerEntry(List(pkg.ecosystem), pkg);
    }

    /**
      Analyze: the applicable known-bad entries; if there is none, a typosquat finding exactly for a
      suspected name, about the first nearest popular one.
     */
    method Analyze(pkg: PackageRef) returns (findings: seq<Finding>)
      requires Valid()
      ensures Reports(List(pkg.ecosystem), Popular(pkg.ecosystem), pkg, findings)
      ensures (exists f :: f in findings && f.kind == "known-bad") <==> exists e :: e in List(pkg.ecosystem) && IsAbout(e, pkg)
      ensures (exists e :: e in List(pkg.ecosystem) && IsAbout(e, pkg)) ==>
                exists at :: OnePerEntry(List(pkg.ecosystem), pkg, findings, at)
    {
      findings := Hits(pkg);
      if findings == [] && |pkg.name| >= 5 {
        var target, dist := TyposquatTarget(pkg.name, pkg.ecosystem);
        SuspicionIsExact(pkg.name, Popular(pkg.ecosystem), target, dist);
        var maxDist := 2;
        if |pkg.name| < 8 {
          maxDist := 1;
        }
        if dist <= maxDist && target != "" {
          findings := findings + [TyposquatFinding(target)];
        }
      }
      KnownBadIff(List(pkg.ecosystem), Popular(pkg.ecosystem), pkg, findings);
    }
  }

  /** What tier 1 makes of a package, given its ecosystem's known-bad list and popular names. */
  ghost predicate Reports(list: seq<BadEntry>, popular: seq<string>, pkg: PackageRef, findings: seq<Finding>) {
    var known := KnownBad(pkg.name, Scan(list, pkg.name), pkg.version);
    if known != [] then findings == known
    else if Suspected(pkg.name, popular) then
      exists target, dist :: FirstNearest(pkg.name, popular, target, dist) && findings == [TyposquatFinding(target)]
    else findings == []
  }
}
