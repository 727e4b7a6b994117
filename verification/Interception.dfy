/**
  The two places where the proxy stops a package (internal/proxy/proxy.go): at metadata, by name, and
  at the tarball, by version. The proxy's copy of the server's exceptions is that of
  internal/reporter/exceptions.go.
 */
module Interception {
  import opened Shield
  import opened Text
  import opened Badlist
  import opened Store
  import opened Paths
  import Pipelines

  /** Ecosystem, name up to case, and version agree; an empty version, on either side, agrees with any. */
  predicate Covers(e: Exception, ecosystem: string, name: string, version: string) {
    e.ecosystem == ecosystem && EqualFold(e.name, name) && (e.version == "" || version == "" || e.version == version)
  }

  ghost predicate AnyCovers(list: seq<Exception>, ecosystem: string, name: string, version: string) {
    exists i :: 0 <= i < |list| && Covers(list[i], ecosystem, name, version)
  }

  class ExceptionCache {
    var exceptions: seq<Exception>

    constructor ()
      ensures exceptions == []
    {
      exceptions := [];
    }

    /** refresh: takes over the server's list as a whole, or keeps the stale one when there is none. */
    method Refresh(fetched: Option<seq<Exception>>)
      modifies this
      ensures exceptions == if fetched.Some? then fetched.value else old(exceptions)
    {
      if fetched.None? {
        return;
      }
      exceptions := fetched.value;
    }

    method IsExcepted(ecosystem: string, name: string, version: string) returns (excepted: bool)
      ensures excepted <==> AnyCovers(exceptions, ecosystem, name, version)
      ensures excepted <==> exists e :: e in exceptions && e.ecosystem == ecosystem && ToLower(e.name) == ToLower(name)
                                          && (version != "" ==> e.version in {"", version})
    {
      for i := 0 to |exceptions|
        invariant forall k :: 0 <= k < i ==> !Covers(exceptions[k], ecosystem, name, version)
      {
        var e := exceptions[i];
        if e.ecosystem != ecosystem || !EqualFold(e.name, name) {
          continue;
        }
        if e.version == "" || version == "" || e.version == version {
          return true;
        }
      }
      return false;
    }
  }

  /** A name is stopped in enforce mode for a critical or high finding, unless some exception covers the name. */
  ghost predicate NameBlocked(enforce: bool, findings: seq<Finding>, exceptions: seq<Exception>, ecosystem: string, name: string) {
    enforce && AnySerious(findings) && !AnyCovers(exceptions, ecosystem, name, "")
  }

  /** shouldBlockName: `check` is the answer of the name check, nothing if there is none or it failed. */
  method ShouldBlockName(enforce: bool, check: Option<seq<Finding>>, cache: ExceptionCache, ecosystem: string, name: string)
    returns (block: bool)
    ensures block <==> check.Some? && NameBlocked(enforce, check.value, cache.exceptions, ecosystem, name)
    ensures block <==>
            && enforce && check.Some? && (exists f :: f in check.value && f.severity in {Critical, High})
            && forall e :: e in cache.exceptions && e.ecosystem == ecosystem ==> ToLower(e.name) != ToLower(name)
  {
    if check.None? || check.value == [] {
      return false;
    }
    var findings := check.value;
    for i := 0 to |findings|
      invariant forall k :: 0 <= k < i ==> !findings[k].severity.Serious()
    {
      var f := findings[i];
      if !f.severity.Critical? && !f.severity.High? {
        continue;
      }
      assert f in findings;
      var excepted := cache.IsExcepted(ecosystem, name, "");
      if excepted {
        return false;
      }
      return enforce;
    }
    return false;
  }

  /** A covered version is a covered name. */
  lemma VersionCoverIsNameCover(list: seq<Exception>, ecosystem: string, name: string, version: string)
    requires AnyCovers(list, ecosystem, name, version)
    ensures AnyCovers(list, ecosystem, name, "")
  {
    var i :| 0 <= i < |list| && Covers(list[i], ecosystem, name, version);
    assert Covers(list[i], ecosystem, name, "");
  }

  // ----- the tarball -----

  /** How far the download from upstream got. */
  datatype Fetch = Unreachable | NotOk | Unreadable | Buffered

  /** What the client gets: upstream's own answer, the tarball, or one of three errors. */
  datatype Reply = BadGateway | UpstreamAnswer | TheTarball | Unavailable | Forbidden

  /** handleTarball: `scan` is the answer of the pipeline, nothing if it fails. */
  method HandleTarball(fetch: Fetch, enforce: bool, scan: Option<ScanResult>, cache: ExceptionCache, pkg: PackageRef)
    returns (reply: Reply)
    ensures reply == BadGateway <==> fetch == Unreachable || fetch == Unreadable
    ensures reply == UpstreamAnswer <==> fetch == NotOk
    ensures reply == Unavailable <==> fetch == Buffered && enforce && scan == None
    ensures reply == TheTarball <==> fetch == Buffered && LetsPass(enforce, scan, cache.exceptions, pkg)
  {
    if fetch.Unreachable? {
      return BadGateway;
    }
    if fetch.NotOk? {
      return UpstreamAnswer;
    }
    if fetch.Unreadable? {
      return BadGateway;
    }
    if scan.None? {
      if !enforce {
        return TheTarball;
      }
      return Unavailable;
    }
    if scan.value.verdict == Block && enforce {
      var excepted := cache.IsExcepted(pkg.ecosystem, pkg.name, pkg.version);
      if excepted {
        return TheTarball;
      }
      return Forbidden;
    }
    return TheTarball;
  }

  /** Outside enforce mode everything passes; in it, what was scanned and is not blocked, or is excepted here. */
  ghost predicate LetsPass(enforce: bool, scan: Option<ScanResult>, exceptions: seq<Exception>, pkg: PackageRef) {
    enforce ==> scan.Some? && (scan.value.verdict == Block ==> AnyCovers(exceptions, pkg.ecosystem, pkg.name, pkg.version))
  }

  /**
    End to end: a tarball that is scanned anew in enforce mode passes iff an exception covers it, on the
    server or in the proxy, or no tier that ran and answered has a critical or high finding.
   */
  lemma TarballPassesIff(cfg: Pipelines.Config, cache: Cache, exceptions: Exceptions, call: Pipelines.Call, list: seq<Exception>)
    requires cfg.mode == "enforce" && Pipelines.Cached(cache, call).None?
    ensures LetsPass(true, Some(Pipelines.Answer(cfg, cache, exceptions, call)), list, call.pkg) <==>
            || (!call.exceptionsFail
                && Granted(exceptions, call.pkg.ecosystem, call.pkg.name, call.pkg.version, call.now) != {})
            || (exists e :: e in list && e.ecosystem == call.pkg.ecosystem && ToLower(e.name) == ToLower(call.pkg.name)
                            && (call.pkg.version != "" ==> e.version in {"", call.pkg.version}))
            || (forall f :: Pipelines.SomeTierFinds(cfg, call, f) ==> f.severity !in {Critical, High})
  {
    var pkg := call.pkg;
    Pipelines.FreshBlocksIff(cfg, call);
    CandidatesAreGranted(exceptions, pkg.ecosystem, pkg.name, pkg.version, call.now);
    CoversIff(list, pkg.ecosystem, pkg.name, pkg.version);
  }

  /** What the proxy's exceptions cover. */
  lemma CoversIff(list: seq<Exception>, ecosystem: string, name: string, version: string)
    ensures AnyCovers(list, ecosystem, name, version) <==>
            exists e :: e in list && e.ecosystem == ecosystem && ToLower(e.name) == ToLower(name)
                        && (version != "" ==> e.version in {"", version})
  {
    if AnyCovers(list, ecosystem, name, version) {
      var i :| 0 <= i < |list| && Covers(list[i], ecosystem, name, version);
      assert list[i] in list;
    }
    if e :| e in list && e.ecosystem == ecosystem && ToLower(e.name) == ToLower(name) && (version != "" ==> e.version in {"", version}) {
      var i :| 0 <= i < |list| && list[i] == e;
      assert Covers(list[i], ecosystem, name, version);
    }
  }

  // ----- the name check sees every version's known-bad findings -----

  /** `small` is what remains of `large` when some elements are dropped. */
  ghost predicate Subsequence<T>(small: seq<T>, large: seq<T>) {
    if small == [] then true
    else if large == [] then false
    else
      var init := large[..|large| - 1];
      Subsequence(small, init)
      || (small[|small| - 1] == large[|large| - 1] && Subsequence(small[..|small| - 1], init))
  }

  lemma SubsequenceSnoc<T>(small: seq<T>, large: seq<T>, x: T)
    requires Subsequence(small, large)
    ensures Subsequence(small, large + [x]) && Subsequence(small + [x], large + [x])
  {
    assert (large + [x])[..|large|] == large && (small + [x])[..|small|] == small;
  }

  lemma {:induction false} VersionFindingsAreNameFindings(name: string, entries: seq<BadEntry>, version: string)
    ensures Subsequence(KnownBad(name, entries, version), KnownBad(name, entries, ""))
  {
    if entries != [] {
      var init := entries[..|entries| - 1];
      VersionFindingsAreNameFindings(name, init, version);
      var small, large := KnownBad(name, init, version), KnownBad(name, init, "");
      SubsequenceSnoc(small, large, KnownBadFinding(name, entries[|entries| - 1]));
      assert small + [] == small;
    }
  }

  lemma {:induction false} SubsequenceElement<T>(small: seq<T>, large: seq<T>, x: T)
    requires Subsequence(small, large) && x in small
    ensures x in large
  {
    var init := large[..|large| - 1];
    if Subsequence(small, init) {
      SubsequenceElement(small, init, x);
    } else if x != small[|small| - 1] {
      assert x in small[..|small| - 1];
      SubsequenceElement(small[..|small| - 1], init, x);
    }
  }

  /**
    A name that passes the metadata check in enforce mode, with no exception covering it, has no
    critical or high known-bad version: a tarball checked under the same name would have none either.
   */
  lemma PassedNameHasNoBadVersion(list: seq<BadEntry>, popular: seq<string>, exceptions: seq<Exception>,
                                                     ecosystem: string, name: string, version: string, findings: seq<Finding>)
    requires Reports(list, popular, PackageRef(ecosystem, name, ""), findings)
    requires !NameBlocked(true, findings, exceptions, ecosystem, name) && !AnyCovers(exceptions, ecosystem, name, "")
    ensures !AnySerious(KnownBad(name, Scan(list, name), version))
  {
    var entries := Scan(list, name);
    VersionFindingsAreNameFindings(name, entries, version);
    forall f | f in KnownBad(name, entries, version)
      ensures !f.severity.Serious()
    {
      SubsequenceElement(KnownBad(name, entries, version), KnownBad(name, entries, ""), f);
    }
  }

  // ----- from the metadata check to the tarball check -----

  /**
    Whatever the lists, passing the metadata check under `name` in enforce mode, with no exception
    covering it, means that no version of `detected` is critical or high known-bad.
   */
  ghost predicate MetadataGuards(ecosystem: string, name: string, detected: string) {
    forall list, popular, exceptions, findings, version ::
      && Reports(list, popular, PackageRef(ecosystem, name, ""), findings)
      && !NameBlocked(true, findings, exceptions, ecosystem, name) && !AnyCovers(exceptions, ecosystem, name, "")
      ==> !AnySerious(KnownBad(detected, Scan(list, detected), version))
  }

  lemma {:induction false} ScanIgnoresCase(list: seq<BadEntry>, name: string, other: string)
    requires EqualFold(name, other)
    ensures Scan(list, name) == Scan(list, other)
  {
    if list != [] {
      ScanIgnoresCase(list[..|list| - 1], name, other);
    }
  }

  lemma {:induction false} NameOnlyNamesFindings(name: string, other: string, entries: seq<BadEntry>, version: string)
    ensures AnySerious(KnownBad(name, entries, version)) <==> AnySerious(KnownBad(other, entries, version))
  {
    if entries != [] {
      var init, last := entries[..|entries| - 1], entries[|entries| - 1];
      NameOnlyNamesFindings(name, other, init, version);
      assert forall f :: f in KnownBad(name, entries, version) <==>
                           f in KnownBad(name, init, version) || (Applies(last, version) && f == KnownBadFinding(name, last));
      assert forall f :: f in KnownBad(other, entries, version) <==>
                           f in KnownBad(other, init, version) || (Applies(last, version) && f == KnownBadFinding(other, last));
      assert KnownBadFinding(name, last).severity == KnownBadFinding(other, last).severity;
    }
  }

  lemma OneBadEntry(name: string, detected: string, e: BadEntry, version: string)
    requires e.name == detected && e.version == "*" && MapSeverity(e.severity).Serious() && !EqualFold(name, detected)
    ensures Scan([e], name) == [] && KnownBad(name, Scan([e], name), "") == []
    ensures AnySerious(KnownBad(detected, Scan([e], detected), version))
  {
    assert [e][..0] == [];
    assert Scan([e], detected) == [e];
    assert KnownBad(detected, [e], version) == [KnownBadFinding(detected, e)];
    assert KnownBadFinding(detected, e) in [KnownBadFinding(detected, e)];
  }

  /** The metadata check under a name speaks for a tarball's name iff the two agree up to case. */
  lemma MetadataGuardsIff(ecosystem: string, name: string, detected: string)
    ensures MetadataGuards(ecosystem, name, detected) <==> EqualFold(name, detected)
  {
    if EqualFold(name, detected) {
      forall list, popular, exceptions, findings, version |
        && Reports(list, popular, PackageRef(ecosystem, name, ""), findings)
        && !NameBlocked(true, findings, exceptions, ecosystem, name) && !AnyCovers(exceptions, ecosystem, name, "")
        ensures !AnySerious(KnownBad(detected, Scan(list, detected), version))
      {
        PassedNameHasNoBadVersion(list, popular, exceptions, ecosystem, name, version, findings);
        ScanIgnoresCase(list, name, detected);
        NameOnlyNamesFindings(name, detected, Scan(list, name), version);
      }
    } else {
      var e := BadEntry(detected, "*", "", "critical");
      assert ToLower("critical") == "critical";
      OneBadEntry(name, detected, e, "");
      assert Reports([e], [], PackageRef(ecosystem, name, ""), []);
      assert !NameBlocked(true, [], [], ecosystem, name) && !AnyCovers([], ecosystem, name, "");
      assert AnySerious(KnownBad(detected, Scan([e], detected), ""));
    }
  }

  /** npm: the metadata check speaks for the tarball the printed path names. */
  lemma NpmTarballIsGuarded(name: string, version: string)
    requires NpmName(name) && Printable(version)
    ensures forall hasPipeline :: Dispatch("GET", "/" + name, hasPipeline) == Metadata(name)
    ensures var detected := DetectTarball(NpmTarballPath(name, version));
            detected.Some? && MetadataGuards(NPM, name, detected.value.name)
  {
    forall hasPipeline
      ensures Dispatch("GET", "/" + name, hasPipeline) == Metadata(name)
    {
      PackagePageIsMetadata(name, hasPipeline);
    }
    BothPointsSeeTheSameName(name, version);
    MetadataGuardsIff(NPM, name, name);
  }

  /** PyPI: the metadata check on a page speaks for a file iff the names agree up to case after normalizing the file's. */
  lemma PypiFileIsGuardedIff(page: string, front: string, a: string, b: string, c: string, written: string,
                             version: string, tags: string, extension: string)
    requires Element(page) && Element(a) && Element(b) && Element(c)
    requires Element(written) && Free(written, '-') && Element(version) && Free(version, '-')
    requires tags == "" || (1 < |tags| && tags[0] == '-' && Free(tags, '/'))
    requires extension == ".tar.gz" || extension == ".whl"
    ensures SimpleName("/simple/" + page + "/") == Some(page)
    ensures var detected := DetectTarball(PypiPath(front, a, b, c, written + "-" + version + tags + extension));
            && detected == Some(PackageRef(PYPI, NormalizePyPI(written), version))
            && (MetadataGuards(PYPI, page, detected.value.name) <==> EqualFold(page, NormalizePyPI(written)))
  {
    SimplePageNames(page);
    FileIsDetectedIff(front, a, b, c, written, version, tags, extension);
    MetadataGuardsIff(PYPI, page, NormalizePyPI(written));
  }

  /** For a page and a file of the same package: iff the page's name has neither underscore nor dot. */
  lemma PypiPageGuardsItsFilesIff(page: string, written: string)
    requires NormalizePyPI(page) == NormalizePyPI(written)
    ensures MetadataGuards(PYPI, page, NormalizePyPI(written)) <==> Free(page, '_') && Free(page, '.')
  {
    NormalizationKeepsCaseIff(page);
    MetadataGuardsIff(PYPI, page, NormalizePyPI(written));
  }

  lemma SqliteNormalizes()
    ensures NormalizePyPI("python_sqlite") == "python-sqlite"
  {
    var page, normal := "python_sqlite", NormalizePyPI("python_sqlite");
    assert forall i :: 0 <= i < 13 ==> normal[i] == NormalizeChar(page[i]);
    assert forall i :: 0 <= i < 13 && i != 6 ==> NormalizeChar(page[i]) == page[i];
    assert normal[..6] == page[..6] && normal[6] == '-' && normal[7..] == page[7..];
    assert normal == "python" + "-" + "sqlite";
  }

  lemma SqliteDiffers()
    ensures !EqualFold("python_sqlite", "python-sqlite")
  {
    SqliteNormalizes();
    assert "python_sqlite"[6] == '_' && "python_sqlite"[6] in "python_sqlite";
    NormalizationKeepsCaseIff("python_sqlite");
  }

  lemma HighIsSerious()
    ensures MapSeverity("high") == High
  {
    assert ToLower("high") == "high" && "critical"[0] == 'c';
  }

  lemma SqliteParts()
    ensures Element("python_sqlite") && Free("python_sqlite", '-') && Element("1.0") && Free("1.0", '-')
    ensures Element("a") && Element("b") && Element("c")
  {
  }

  /**
    The known-bad package python-sqlite, asked for as python_sqlite: its page passes the metadata check,
    and its tarball is then detected as python-sqlite and is known-bad.
   */
  lemma UnderscorePassesMetadata(popular: seq<string>)
    requires !Suspected("python_sqlite", popular)
    ensures var page, name := "python_sqlite", "python-sqlite";
            var list := [BadEntry(name, "*", "", "high")];
            && SimpleName("/simple/" + page + "/") == Some(page)
            && Reports(list, popular, PackageRef(PYPI, page, ""), [])
            && DetectTarball(PypiPath("", "a", "b", "c", page + "-" + "1.0" + "" + ".tar.gz")) == Some(PackageRef(PYPI, name, "1.0"))
            && AnySerious(KnownBad(name, Scan(list, name), "1.0"))
  {
    var page, name := "python_sqlite", "python-sqlite";
    SqliteNormalizes();
    SqliteDiffers();
    SqliteParts();
    HighIsSerious();
    OneBadEntry(page, name, BadEntry(name, "*", "", "high"), "1.0");
    PypiFileIsGuardedIff(page, "", "a", "b", "c", page, "1.0", "", ".tar.gz");
  }

  // ----- server and proxy on exceptions -----

  /** The list is a full listing of the table. */
  ghost predicate SyncedFrom(list: seq<Exception>, exceptions: Exceptions) {
    forall e :: e in list <==> e in exceptions.Values
  }

  /** Whatever the server excepts, a synced proxy excepts. */
  lemma ServerExceptionReachesProxy(list: seq<Exception>, exceptions: Exceptions, ecosystem: string, name: string, version: string, now: Time)
    requires SyncedFrom(list, exceptions) && HasException(exceptions, ecosystem, name, version, now)
    ensures AnyCovers(list, ecosystem, name, version)
  {
    var id :| Candidate(exceptions, id, ecosystem, name, version, now);
    assert exceptions[id] in exceptions.Values;
    var i :| 0 <= i < |list| && list[i] == exceptions[id];
    assert Covers(list[i], ecosystem, name, version);
  }

  /**
    The proxy excepts more than the server only through rows that have expired, that differ in case, or
    because no version was asked for.
   */
  lemma ProxyExceptsBeyondServerIff(list: seq<Exception>, exceptions: Exceptions, ecosystem: string, name: string, version: string, now: Time)
    requires SyncedFrom(list, exceptions)
    ensures AnyCovers(list, ecosystem, name, version) && !HasException(exceptions, ecosystem, name, version, now) <==>
            && (exists e :: e in list && Covers(e, ecosystem, name, version))
            && (forall e :: e in list && Covers(e, ecosystem, name, version) ==>
                  || (e.expiresAt.Some? && e.expiresAt.value <= now)
                  || (e.name != name && EqualFold(e.name, name))
                  || (version == "" && e.version != ""))
  {
    if HasException(exceptions, ecosystem, name, version, now) {
      var id :| Candidate(exceptions, id, ecosystem, name, version, now);
      assert exceptions[id] in exceptions.Values && Covers(exceptions[id], ecosystem, name, version);
    } else {
      forall e | e in list && Covers(e, ecosystem, name, version)
        ensures (e.expiresAt.Some? && e.expiresAt.value <= now) || (e.name != name && EqualFold(e.name, name))
                || (version == "" && e.version != "")
      {
        var id :| id in exceptions && exceptions[id] == e;
        assert !Candidate(exceptions, id, ecosystem, name, version, now);
      }
    }
  }
}
