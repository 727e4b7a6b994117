/**
  The two passes of handleScanLockfile (internal/api/handlers_scan.go): every package is scanned
  without a tarball, then the flagged ones are to be scanned again with one. The calls of each pass,
  with the tiers' answers and the clock, are inputs; a package whose tarball cannot be fetched has no
  second call.
 */
module ScanLockfile {
  import opened Shield
  import opened Store
  import opened Pipelines
  import opened Runs

  datatype Entry = Entry(package: PackageRef, result: ScanResult)

  /** The tables after some calls were served. */
  ghost function Served(cfg: Config, s: State, calls: seq<Call>): State {
    if calls == [] then s
    else Next(cfg, Served(cfg, s, calls[..|calls| - 1]), Scan(calls[|calls| - 1]))
  }

  /** The second-pass calls made for the first `n` packages: those flagged and fetched. */
  ghost function Rescans(firstPass: seq<ScanResult>, second: seq<Option<Call>>, n: nat): seq<Call>
    requires n <= |firstPass| && n <= |second|
  {
    if n == 0 then []
    else
      Rescans(firstPass, second, n - 1)
      + if Rescanned(firstPass[n - 1], second[n - 1]) then [second[n - 1].value] else []
  }

  predicate Rescanned(r: ScanResult, second: Option<Call>) {
    r.verdict != Allow && second.Some?
  }

  /** The answers to some calls, served in order. */
  ghost function Answers(cfg: Config, s: State, calls: seq<Call>): (answers: seq<ScanResult>)
    ensures |answers| == |calls|
  {
    if calls == [] then []
    else
      var before := calls[..|calls| - 1];
      Answers(cfg, s, before) + [AnswerIn(cfg, Served(cfg, s, before), calls[|calls| - 1])]
  }

  /** The results of the first `n` packages after both passes: a rescanned package gets its second answer. */
  ghost function Final(cfg: Config, s: State, firstPass: seq<ScanResult>, second: seq<Option<Call>>, n: nat): (results: seq<ScanResult>)
    requires n <= |firstPass| && n <= |second|
    ensures |results| == n
  {
    if n == 0 then []
    else
      Final(cfg, s, firstPass, second, n - 1)
      + [if Rescanned(firstPass[n - 1], second[n - 1]) then
           AnswerIn(cfg, Served(cfg, s, Rescans(firstPass, second, n - 1)), second[n - 1].value)
         else firstPass[n - 1]]
  }

  /** The second pass at package i overwrites one result or none. */
  lemma FinalStep(cfg: Config, s: State, firstPass: seq<ScanResult>, second: seq<Option<Call>>, i: nat)
    requires i < |firstPass| && i < |second|
    ensures var now := Final(cfg, s, firstPass, second, i) + firstPass[i..];
            Final(cfg, s, firstPass, second, i + 1) + firstPass[i + 1..] ==
            if Rescanned(firstPass[i], second[i]) then
              now[i := AnswerIn(cfg, Served(cfg, s, Rescans(firstPass, second, i)), second[i].value)]
            else now
  {
    assert firstPass[i..] == [firstPass[i]] + firstPass[i + 1..];
  }

  /** The calls the handler makes: without a tarball first, with the fetched one in the second pass. */
  predicate CallsFor(refs: seq<PackageRef>, first: seq<Call>, second: seq<Option<Call>>) {
    && |first| == |refs| == |second|
    && forall i :: 0 <= i < |refs| ==>
                     && first[i].pkg == refs[i] && !first[i].hasTarball
                     && (second[i].Some? ==> second[i].value.pkg == refs[i] && second[i].value.hasTarball)
  }

  function Entries(refs: seq<PackageRef>, results: seq<ScanResult>): seq<Entry>
    requires |refs| == |results|
  {
    seq(|refs|, i requires 0 <= i < |refs| => Entry(refs[i], results[i]))
  }

  method HandleScanLockfile(p: Pipeline, refs: seq<PackageRef>, first: seq<Call>, second: seq<Option<Call>>)
    returns (results: seq<Entry>)
    requires CallsFor(refs, first, second)
    modifies p.store
    ensures var s := State(old(p.store.cache), old(p.store.exceptions));
            results == Entries(refs, Final(p.cfg, Served(p.cfg, s, first), Answers(p.cfg, s, first), second, |refs|))
    ensures |results| == |refs|
    ensures forall i :: 0 <= i < |refs| ==> results[i].package == refs[i]
    ensures var answers := Answers(p.cfg, State(old(p.store.cache), old(p.store.exceptions)), first);
            forall i :: 0 <= i < |refs| && (answers[i].verdict == Allow || second[i] == None) ==> results[i].result == answers[i]
  {
    ghost var s := State(p.store.cache, p.store.exceptions);
    var scanned := ScanAll(p, refs, first);
    results := RescanFlagged(p, refs, second, scanned, Answers(p.cfg, s, first));
    forall i | 0 <= i < |refs| && (Answers(p.cfg, s, first)[i].verdict == Allow || second[i] == None)
      ensures Final(p.cfg, Served(p.cfg, s, first), Answers(p.cfg, s, first), second, |refs|)[i] == Answers(p.cfg, s, first)[i]
    {
      OnlyFlaggedAreRescanned(p.cfg, Served(p.cfg, s, first), Answers(p.cfg, s, first), second, |refs|, i);
    }
  }

  method ScanOne(p: Pipeline, call: Call, ghost s: State) returns (result: ScanResult)
    requires s == State(p.store.cache, p.store.exceptions)
    modifies p.store
    ensures State(p.store.cache, p.store.exceptions) == Next(p.cfg, s, Scan(call))
    ensures result == AnswerIn(p.cfg, s, call)
  {
    result := p.Analyze(call);
  }

  lemma OneMoreAnswer(cfg: Config, s: State, calls: seq<Call>, i: nat)
    requires i < |calls|
    ensures Served(cfg, s, calls[..i + 1]) == Next(cfg, Served(cfg, s, calls[..i]), Scan(calls[i]))
    ensures Answers(cfg, s, calls[..i + 1]) == Answers(cfg, s, calls[..i]) + [AnswerIn(cfg, Served(cfg, s, calls[..i]), calls[i])]
  {
    assert calls[..i + 1][..i] == calls[..i];
  }

  lemma OneMoreEntry(refs: seq<PackageRef>, results: seq<ScanResult>, ref: PackageRef, result: ScanResult)
    requires |refs| == |results|
    ensures Entries(refs + [ref], results + [result]) == Entries(refs, results) + [Entry(ref, result)]
  {
    var all := Entries(refs + [ref], results + [result]);
    forall i | 0 <= i < |refs|
      ensures all[i] == Entries(refs, results)[i]
    {
      assert (refs + [ref])[i] == refs[i] && (results + [result])[i] == results[i];
    }
  }

  /** Pass 1. */
  method ScanAll(p: Pipeline, refs: seq<PackageRef>, first: seq<Call>) returns (results: seq<Entry>)
    requires |first| == |refs|
    modifies p.store
    ensures var s := State(old(p.store.cache), old(p.store.exceptions));
            && State(p.store.cache, p.store.exceptions) == Served(p.cfg, s, first)
            && results == Entries(refs, Answers(p.cfg, s, first))
  {
    ghost var s := State(p.store.cache, p.store.exceptions);
    results := [];
    for i := 0 to |refs|
      invariant State(p.store.cache, p.store.exceptions) == Served(p.cfg, s, first[..i])
      invariant results == Entries(refs[..i], Answers(p.cfg, s, first[..i]))
    {
      OneMoreAnswer(p.cfg, s, first, i);
      var result := ScanOne(p, first[i], Served(p.cfg, s, first[..i]));
      OneMoreEntry(refs[..i], Answers(p.cfg, s, first[..i]), refs[i], result);
      assert refs[..i + 1] == refs[..i] + [refs[i]];
      results := results + [Entry(refs[i], result)];
    }
    assert first[..|refs|] == first && refs[..|refs|] == refs;
  }

  /** Pass 2, overwriting results in place. */
  method RescanFlagged(p: Pipeline, refs: seq<PackageRef>, second: seq<Option<Call>>, scanned: seq<Entry>,
                       ghost firstPass: seq<ScanResult>)
    returns (results: seq<Entry>)
    requires |refs| == |second| == |firstPass| && scanned == Entries(refs, firstPass)
    modifies p.store
    ensures var s := State(old(p.store.cache), old(p.store.exceptions));
            results == Entries(refs, Final(p.cfg, s, firstPass, second, |refs|))
  {
    ghost var s := State(p.store.cache, p.store.exceptions);
    results := scanned;
    for i := 0 to |results|
      invariant |results| == |refs|
      invariant State(p.store.cache, p.store.exceptions) == Served(p.cfg, s, Rescans(firstPass, second, i))
      invariant results == Entries(refs, Final(p.cfg, s, firstPass, second, i) + firstPass[i..])
    {
      ghost var done := Rescans(firstPass, second, i);
      FinalStep(p.cfg, s, firstPass, second, i);
      assert results[i] == Entry(refs[i], firstPass[i]);
      if results[i].result.verdict == Allow || second[i].None? {
        assert done + [] == done;
        continue;
      }
      var result := ScanOne(p, second[i].value, Served(p.cfg, s, done));
      assert (done + [second[i].value])[..|done|] == done;
      results := results[i := results[i].(result := result)];
    }
    assert Final(p.cfg, s, firstPass, second, |refs|) + firstPass[|refs|..] == Final(p.cfg, s, firstPass, second, |refs|);
  }

  // ----- the second pass repeats the first -----

  /** The cache row under `key` is where a lookup finds `r` again, until `r` expires. */
  ghost predicate Backed(cache: Cache, key: string, r: ScanResult) {
    && key in cache
    && cache[key].result.(cachedAt := r.cachedAt) == r
    && cache[key].expiresAt == r.scannedAt + Ttl(r.verdict)
  }

  lemma {:induction false} ServedConcat(cfg: Config, s: State, xs: seq<Call>, ys: seq<Call>)
    ensures Served(cfg, s, xs + ys) == Served(cfg, Served(cfg, s, xs), ys)
  {
    if ys == [] {
      assert xs + ys == xs;
    } else {
      assert (xs + ys)[..|xs + ys| - 1] == xs + ys[..|ys| - 1];
      ServedConcat(cfg, s, xs, ys[..|ys| - 1]);
    }
  }

  lemma {:induction false} RowsKeepTtl(cfg: Config, s: State, calls: seq<Call>)
    requires ExpireByTtl(s.cache)
    ensures ExpireByTtl(Served(cfg, s, calls).cache)
  {
    if calls != [] {
      RowsKeepTtl(cfg, s, calls[..|calls| - 1]);
    }
  }

  /** Calls on the cache row `key` look it up successfully while `r` lives. */
  ghost predicate Undisturbed(calls: seq<Call>, key: string, r: ScanResult) {
    forall c :: c in calls && KeyOf(c.pkg) == key ==> !c.cacheFails && c.now < r.scannedAt + Ttl(r.verdict)
  }

  lemma {:induction false} BackedUntilExpiry(cfg: Config, s: State, calls: seq<Call>, key: string, r: ScanResult)
    requires Backed(s.cache, key, r) && Undisturbed(calls, key, r)
    ensures Backed(Served(cfg, s, calls).cache, key, r)
  {
    if calls != [] {
      var init, last := calls[..|calls| - 1], calls[|calls| - 1];
      assert last in calls && forall c :: c in init ==> c in calls;
      BackedUntilExpiry(cfg, s, init, key, r);
    }
  }

  /** The answer was saved, or came from the cache in the first place. */
  predicate InCache(call: Call, r: ScanResult) {
    r.verdict != Allow && (call.saves || r.cachedAt.Some?)
  }

  /** Such a flagged answer is in the cache once its call has been served. */
  lemma FlaggedAnswerIsBacked(cfg: Config, s: State, call: Call)
    requires ExpireByTtl(s.cache) && InCache(call, AnswerIn(cfg, s, call))
    ensures Backed(Next(cfg, s, Scan(call)).cache, KeyOf(call.pkg), AnswerIn(cfg, s, call))
  {
  }

  lemma {:induction false} RescansAreSecondCalls(firstPass: seq<ScanResult>, second: seq<Option<Call>>, n: nat)
    requires n <= |firstPass| && n <= |second|
    ensures forall c :: c in Rescans(firstPass, second, n) ==> Some(c) in second[..n]
  {
    if n > 0 {
      RescansAreSecondCalls(firstPass, second, n - 1);
      assert second[..n] == second[..n - 1] + [second[n - 1]];
    }
  }

  lemma {:induction false} AnswerAt(cfg: Config, s: State, calls: seq<Call>, i: nat)
    requires i < |calls|
    ensures Answers(cfg, s, calls)[i] == AnswerIn(cfg, Served(cfg, s, calls[..i]), calls[i])
  {
    var before := calls[..|calls| - 1];
    if i < |before| {
      AnswerAt(cfg, s, before, i);
      assert before[..i] == calls[..i];
    }
  }

  lemma {:induction false} FinalAt(cfg: Config, s: State, firstPass: seq<ScanResult>, second: seq<Option<Call>>, n: nat, i: nat)
    requires i < n <= |firstPass| && n <= |second|
    ensures Final(cfg, s, firstPass, second, n)[i] ==
            if Rescanned(firstPass[i], second[i]) then
              AnswerIn(cfg, Served(cfg, s, Rescans(firstPass, second, i)), second[i].value)
            else firstPass[i]
  {
    if i < n - 1 {
      FinalAt(cfg, s, firstPass, second, n - 1, i);
    }
  }

  /**
    Only the packages whose first result warns or blocks, and whose tarball was fetched, are scanned again:
    these get the answer to that scan, all others keep their first result.
   */
  lemma OnlyFlaggedAreRescanned(cfg: Config, s: State, firstPass: seq<ScanResult>, second: seq<Option<Call>>, n: nat, i: nat)
    requires i < n <= |firstPass| && n <= |second|
    ensures Final(cfg, s, firstPass, second, n)[i] ==
            if firstPass[i].verdict in {Warn, Block} && second[i] != None then
              AnswerIn(cfg, Served(cfg, s, Rescans(firstPass, second, i)), second[i].value)
            else firstPass[i]
  {
    FinalAt(cfg, s, firstPass, second, n, i);
  }

  /** The calls of the second pass are those, in order of the packages. */
  lemma {:induction false} RescansIff(firstPass: seq<ScanResult>, second: seq<Option<Call>>, n: nat, c: Call)
    requires n <= |firstPass| && n <= |second|
    ensures c in Rescans(firstPass, second, n) <==>
            exists i :: 0 <= i < n && firstPass[i].verdict in {Warn, Block} && second[i] == Some(c)
  {
    if n > 0 {
      RescansIff(firstPass, second, n - 1, c);
    }
  }

  /** What a call with a working cache lookup would answer without the cache row. */
  ghost function Anew(cfg: Config, s: State, call: Call): ScanResult {
    if Excepted(s.exceptions, call) then ExceptedResult(call) else FreshResult(cfg, call)
  }

  /**
    `answer` repeats `r`, marked as cached, iff the call's lookup works and r's time to live is not over.
    Otherwise it is given anew, and stems from all tiers iff no exception says otherwise.
   */
  ghost predicate RepeatsWhileLive(cfg: Config, s: State, call: Call, r: ScanResult, answer: ScanResult) {
    var repeats := !call.cacheFails && call.now < r.scannedAt + Ttl(r.verdict);
    && (answer == r.(cachedAt := Some(call.now)) <==> repeats)
    && (!repeats ==> answer == Anew(cfg, s, call))
    && (answer == FreshResult(cfg, call) <==>
        !repeats && (Excepted(s.exceptions, call) ==> FreshResult(cfg, call) == ExceptedResult(call)))
  }

  lemma BackedAnswerRepeats(cfg: Config, s: State, call: Call, r: ScanResult)
    requires Backed(s.cache, KeyOf(call.pkg), r)
    ensures RepeatsWhileLive(cfg, s, call, r, AnswerIn(cfg, s, call))
  {
  }

  /** Answer `i` is flagged and in the cache, and the later calls of the pass leave it there. */
  ghost predicate StaysInCache(cfg: Config, s: State, first: seq<Call>, i: nat) {
    && i < |first| && InCache(first[i], Answers(cfg, s, first)[i])
    && Undisturbed(first[i + 1..], KeyOf(first[i].pkg), Answers(cfg, s, first)[i])
  }

  ghost predicate BackedAfter(cfg: Config, s: State, first: seq<Call>, n: nat, i: nat) {
    i < n <= |first| && Backed(Served(cfg, s, first[..n]).cache, KeyOf(first[i].pkg), Answers(cfg, s, first)[i])
  }

  lemma OwnCallBacksAnswer(cfg: Config, s: State, first: seq<Call>, i: nat)
    requires ExpireByTtl(s.cache) && StaysInCache(cfg, s, first, i)
    ensures BackedAfter(cfg, s, first, i + 1, i)
  {
    var before := first[..i];
    AnswerAt(cfg, s, first, i);
    RowsKeepTtl(cfg, s, before);
    FlaggedAnswerIsBacked(cfg, Served(cfg, s, before), first[i]);
    assert first[..i + 1][..i] == before;
  }

  lemma BackedLater(cfg: Config, s: State, calls: seq<Call>, more: seq<Call>, key: string, r: ScanResult)
    requires Backed(Served(cfg, s, calls).cache, key, r) && Undisturbed(more, key, r)
    ensures Backed(Served(cfg, s, calls + more).cache, key, r)
  {
    BackedUntilExpiry(cfg, Served(cfg, s, calls), more, key, r);
    ServedConcat(cfg, s, calls, more);
  }

  lemma PassOneBacksAnswer(cfg: Config, s: State, first: seq<Call>, i: nat)
    requires ExpireByTtl(s.cache) && StaysInCache(cfg, s, first, i)
    ensures BackedAfter(cfg, s, first, |first|, i)
  {
    OwnCallBacksAnswer(cfg, s, first, i);
    BackedLater(cfg, s, first[..i + 1], first[i + 1..], KeyOf(first[i].pkg), Answers(cfg, s, first)[i]);
    assert first[..i + 1] + first[i + 1..] == first[..|first|];
  }

  /** The tables when the second call for package `i` is made. */
  ghost function BeforeRescan(cfg: Config, s: State, first: seq<Call>, second: seq<Option<Call>>, i: nat): State
    requires i <= |first| && i <= |second|
  {
    Served(cfg, Served(cfg, s, first), Rescans(Answers(cfg, s, first), second, i))
  }

  /** The calls that use package `i`'s cache row between its two scans find it. */
  ghost predicate RowIsFound(first: seq<Call>, second: seq<Option<Call>>, i: nat, r: ScanResult)
    requires i < |first| && i < |second|
  {
    && Undisturbed(first[i + 1..], KeyOf(first[i].pkg), r)
    && forall c :: Some(c) in second[..i] && KeyOf(c.pkg) == KeyOf(first[i].pkg) ==>
                     !c.cacheFails && c.now < r.scannedAt + Ttl(r.verdict)
  }

  lemma RescanIsBacked(cfg: Config, s: State, first: seq<Call>, second: seq<Option<Call>>, i: nat)
    requires ExpireByTtl(s.cache) && i < |first| == |second| && InCache(first[i], Answers(cfg, s, first)[i])
    requires RowIsFound(first, second, i, Answers(cfg, s, first)[i])
    ensures Backed(BeforeRescan(cfg, s, first, second, i).cache, KeyOf(first[i].pkg), Answers(cfg, s, first)[i])
  {
    PassOneBacksAnswer(cfg, s, first, i);
    assert first[..|first|] == first;
    RescansAreSecondCalls(Answers(cfg, s, first), second, i);
    BackedUntilExpiry(cfg, Served(cfg, s, first), Rescans(Answers(cfg, s, first), second, i), KeyOf(first[i].pkg),
                      Answers(cfg, s, first)[i]);
  }

  /**
    The tarball pass, when the first result of a flagged package is in the cache and the calls in between
    left its row alone: scanning it again returns that very result, marked as cached, iff its lookup
    works and its time to live is not over. Otherwise the second scan answers by exception or from all
    tiers, and from these iff no exception says otherwise.
   */
  lemma TarballPassRepeatsIff(cfg: Config, s: State, refs: seq<PackageRef>, first: seq<Call>,
                              second: seq<Option<Call>>, i: nat)
    requires CallsFor(refs, first, second) && ExpireByTtl(s.cache)
    requires i < |first| && second[i].Some? && InCache(first[i], Answers(cfg, s, first)[i])
    requires RowIsFound(first, second, i, Answers(cfg, s, first)[i])
    ensures RepeatsWhileLive(cfg, BeforeRescan(cfg, s, first, second, i), second[i].value, Answers(cfg, s, first)[i],
                             Final(cfg, Served(cfg, s, first), Answers(cfg, s, first), second, |refs|)[i])
  {
    RescanIsBacked(cfg, s, first, second, i);
    FinalAt(cfg, Served(cfg, s, first), Answers(cfg, s, first), second, |refs|, i);
    BackedAnswerRepeats(cfg, BeforeRescan(cfg, s, first, second, i), second[i].value, Answers(cfg, s, first)[i]);
  }

  lemma {:induction false} OtherKeysKeepRow(cfg: Config, s: State, calls: seq<Call>, key: string)
    requires forall c :: c in calls ==> KeyOf(c.pkg) != key
    ensures SameRow(s.cache, Served(cfg, s, calls).cache, key)
  {
    if calls != [] {
      var init, last := calls[..|calls| - 1], calls[|calls| - 1];
      assert last in calls && forall c :: c in init ==> c in calls;
      OtherKeysKeepRow(cfg, s, init, key);
    }
  }

  /** A call that is answered afresh and cannot save leaves its row as it was: absent or expired. */
  lemma UnsavedLeavesRow(cfg: Config, s: State, first: seq<Call>, i: nat)
    requires i < |first| && !first[i].saves && forall c :: c in first[i + 1..] ==> KeyOf(c.pkg) != KeyOf(first[i].pkg)
    ensures SameRow(Served(cfg, s, first[..i]).cache, Served(cfg, s, first).cache, KeyOf(first[i].pkg))
  {
    var upTo, rest := first[..i + 1], first[i + 1..];
    assert upTo[..i] == first[..i] && upTo + rest == first;
    ServedConcat(cfg, s, upTo, rest);
    OtherKeysKeepRow(cfg, Served(cfg, s, upTo), rest, KeyOf(first[i].pkg));
  }

  /**
    The tarball pass, when saving the first result failed: if that result was not a cached one, and no
    other call uses its row in between, the second scan answers by exception or from all tiers.
   */
  lemma UnsavedFirstIsScannedAgain(cfg: Config, s: State, refs: seq<PackageRef>, first: seq<Call>,
                                   second: seq<Option<Call>>, i: nat)
    requires CallsFor(refs, first, second) && i < |first| && second[i].Some?
    requires !first[i].saves && !first[i].cacheFails && first[i].now <= second[i].value.now
    requires var r := Answers(cfg, s, first)[i]; r.verdict != Allow && r.cachedAt.None?
    requires forall c :: c in first[i + 1..] || Some(c) in second[..i] ==> KeyOf(c.pkg) != KeyOf(first[i].pkg)
    ensures Final(cfg, Served(cfg, s, first), Answers(cfg, s, first), second, |refs|)[i]
            == Anew(cfg, BeforeRescan(cfg, s, first, second, i), second[i].value)
  {
    var firstPass, middle := Answers(cfg, s, first), Served(cfg, s, first);
    AnswerAt(cfg, s, first, i);
    UnsavedLeavesRow(cfg, s, first, i);
    RescansAreSecondCalls(firstPass, second, i);
    OtherKeysKeepRow(cfg, middle, Rescans(firstPass, second, i), KeyOf(first[i].pkg));
    FinalAt(cfg, middle, firstPass, second, |refs|, i);
    assert Cached(Served(cfg, s, first[..i]).cache, first[i]).None?;
  }

  /**
    So the pass changes nothing in time: if the clock does not run backwards and the lookups of the
    package's row work, a rescan within the time to live of the first result returns that result.
   */
  lemma TarballPassRepeatsFirst(cfg: Config, s: State, refs: seq<PackageRef>, first: seq<Call>,
                                                  second: seq<Option<Call>>, i: nat)
    requires CallsFor(refs, first, second) && ExpireByTtl(s.cache)
    requires i < |first| && first[i].saves && second[i].Some? && !second[i].value.cacheFails
    requires var r := Answers(cfg, s, first)[i];
             r.verdict != Allow && second[i].value.now < r.scannedAt + Ttl(r.verdict)
    requires forall c :: (c in first[i + 1..] || Some(c) in second[..i]) && KeyOf(c.pkg) == KeyOf(first[i].pkg) ==>
                           !c.cacheFails && c.now <= second[i].value.now
    ensures var r := Answers(cfg, s, first)[i];
            Final(cfg, Served(cfg, s, first), Answers(cfg, s, first), second, |refs|)[i]
            == r.(cachedAt := Some(second[i].value.now))
  {
    TarballPassRepeatsIff(cfg, s, refs, first, second, i);
  }

  /** A known-bad package whose tarball also pipes remote code to a shell: the answer says nothing of it. */
  lemma TarballFindingIsDropped()
    ensures var pkg := PackageRef(NPM, "left-pad", "1.0.0");
            var bad, remote := Finding("known-bad", Critical, "", "", 0.0), Finding("remote-script", Critical, "", "", 0.0);
            var first := Call(pkg, false, "scan-1", 0, Ran([bad]), Absent, NoHeuristic, NoClaude, false, false, true);
            var second := first.(hasTarball := true, scanId := "scan-2", now := 1, heuristic := Scored([remote], 25));
            var cfg, s := Config(30, 7.0, "enforce"), State(map[], map[]);
            var final := Final(cfg, Served(cfg, s, [first]), Answers(cfg, s, [first]), [Some(second)], 1)[0];
            final.findings == [bad] && remote in FreshResult(cfg, second).findings
  {
    var pkg := PackageRef(NPM, "left-pad", "1.0.0");
    var bad, remote := Finding("known-bad", Critical, "", "", 0.0), Finding("remote-script", Critical, "", "", 0.0);
    var first := Call(pkg, false, "scan-1", 0, Ran([bad]), Absent, NoHeuristic, NoClaude, false, false, true);
    var second := first.(hasTarball := true, scanId := "scan-2", now := 1, heuristic := Scored([remote], 25));
    var cfg, s := Config(30, 7.0, "enforce"), State(map[], map[]);
    assert [first][..0] == [];
    assert AllFindings(cfg, first) == [bad] && bad in [bad];
    assert Answers(cfg, s, [first])[0] == FreshResult(cfg, first);
    TarballPassRepeatsFirst(cfg, s, [pkg], [first], [Some(second)], 0);
    assert remote in [remote];
  }
}
