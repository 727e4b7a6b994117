/**
  Tier 3 scoring, analyzeFiles of internal/analyzer/heuristic/heuristic.go. The regular expressions are
  an input: `re(p, text)` says whether pattern p occurs in a text. The decoded `scripts` of a
  package.json come with the file, and a finding is named by the rule that emits it.
 */
module Heuristic {
  import opened Shield
  import opened Text
  import opened Pipelines
  import opened Paths

  datatype Pattern =
    | NetworkInScript | RemoteScriptPipe | ChildProc | Base64 | EvalAtob | EnvThenNetwork
    | NewFunction | FromCharCode | HexNames | WebhookUrl | StagingUrl

  datatype Rule =
    | NetworkInInstall | RemoteScript | ChildProcess | ManyInstallHooks | Base64Exec | Obfuscation | EnvExfil
    | FunctionCtor | CharCodeObfusc | JSObfuscator | WebhookExfil | StagingDomain | NativeBinary | NoReadme
  {
    function Weight(): nat {
      match this
      case NetworkInInstall => 40
      case RemoteScript => 25
      case ChildProcess => 20
      case ManyInstallHooks => 15
      case Base64Exec => 35
      case Obfuscation => 30
      case EnvExfil => 35
      case FunctionCtor => 30
      case CharCodeObfusc => 25
      case JSObfuscator => 25
      case WebhookExfil => 40
      case StagingDomain => 20
      case NativeBinary => 15
      case NoReadme => 5
    }

    function Severity(): Severity {
      match this
      case RemoteScript | WebhookExfil => Critical
      case NetworkInInstall | Base64Exec | Obfuscation | FunctionCtor | CharCodeObfusc | StagingDomain => High
      case ChildProcess | ManyInstallHooks | EnvExfil | JSObfuscator | NativeBinary => Medium
      case NoReadme => Info
    }
  }

  datatype File = File(path: string, content: string, scripts: map<string, string>)

  type Matcher = (Pattern, string) -> bool

  const HOOKS: seq<string> := ["preinstall", "install", "postinstall"]

  const HOOK_RULES: seq<(Pattern, Rule)> :=
    [(NetworkInScript, NetworkInInstall), (RemoteScriptPipe, RemoteScript), (ChildProc, ChildProcess)]

  const INSTALL_RULES: seq<(Pattern, Rule)> := [(NetworkInScript, NetworkInInstall), (RemoteScriptPipe, RemoteScript)]

  const SOURCE_RULES: seq<(Pattern, Rule)> :=
    [(Base64, Base64Exec), (EvalAtob, Obfuscation), (EnvThenNetwork, EnvExfil), (NewFunction, FunctionCtor),
     (FromCharCode, CharCodeObfusc), (HexNames, JSObfuscator), (WebhookUrl, WebhookExfil), (StagingUrl, StagingDomain)]

  /** filepath.Base: the last path element, without trailing slashes. */
  function Base(path: string): string {
    if path == "" then "."
    else if path[|path| - 1] == '/' then (if |path| == 1 then "/" else Base(path[..|path| - 1]))
    else path[LastIndexOf(path, '/') + 1..]
  }

  predicate IsManifest(f: File) {
    ToLower(Base(f.path)) == "package.json"
  }

  /** setup.py, or any file whose name ends in install.js (postinstall.js and preinstall.js do). */
  predicate IsInstallScript(f: File) {
    ToLower(Base(f.path)) == "setup.py" || HasSuffix(ToLower(Base(f.path)), "install.js")
  }

  // ----- specification -----

  /** The rules of a table whose pattern occurs in the text, in table order. */
  ghost function Select(re: Matcher, table: seq<(Pattern, Rule)>, text: string): seq<Rule> {
    if table == [] then []
    else
      var last := table[|table| - 1];
      Select(re, table[..|table| - 1], text) + if re(last.0, text) then [last.1] else []
  }

  /** The rules the lifecycle scripts named by `hooks` emit. */
  ghost function ScriptRules(re: Matcher, scripts: map<string, string>, hooks: seq<string>): seq<Rule> {
    if hooks == [] then []
    else
      var last := hooks[|hooks| - 1];
      ScriptRules(re, scripts, hooks[..|hooks| - 1])
      + if last in scripts then Select(re, HOOK_RULES, scripts[last]) else []
  }

  ghost function CountHooks(scripts: map<string, string>, hooks: seq<string>): nat {
    if hooks == [] then 0
    else CountHooks(scripts, hooks[..|hooks| - 1]) + if hooks[|hooks| - 1] in scripts then 1 else 0
  }

  /** All that a file brings to the scan: whether it is a manifest, its install hooks, and the rules it trips. */
  datatype Share = Share(manifest: bool, hooks: nat, scriptRules: seq<Rule>, contentRules: seq<Rule>)

  ghost function ContentRules(re: Matcher, f: File): seq<Rule> {
    (if IsInstallScript(f) then Select(re, INSTALL_RULES, f.content) else []) + Select(re, SOURCE_RULES, f.content)
  }

  ghost function ShareOf(re: Matcher, f: File): Share {
    if IsManifest(f) then
      Share(true, CountHooks(f.scripts, HOOKS), ScriptRules(re, f.scripts, HOOKS), ContentRules(re, f))
    else Share(false, 0, [], ContentRules(re, f))
  }

  ghost function Shares(re: Matcher, files: seq<File>): seq<Share> {
    seq(|files|, i requires 0 <= i < |files| => ShareOf(re, files[i]))
  }

  /** A manifest that trips the hook count earlier manifests started. */
  ghost predicate TooManyHooks(f: Share, before: nat) {
    f.manifest && before + f.hooks > 2
  }

  /** The rules one file emits when `before` hooks were counted so far. */
  ghost function FileRules(f: Share, before: nat): seq<Rule> {
    f.scriptRules + (if TooManyHooks(f, before) then [ManyInstallHooks] else []) + f.contentRules
  }

  ghost function TotalHooks(files: seq<Share>): nat {
    if files == [] then 0 else TotalHooks(files[..|files| - 1]) + files[|files| - 1].hooks
  }

  ghost function Rules(files: seq<Share>, before: nat): seq<Rule> {
    if files == [] then []
    else
      var init := files[..|files| - 1];
      Rules(init, before) + FileRules(files[|files| - 1], before + TotalHooks(init))
  }

  ghost function PackageRules(files: seq<Share>, hasReadme: bool, hasBinary: bool): seq<Rule> {
    Rules(files, 0) + (if hasBinary then [NativeBinary] else []) + (if !hasReadme && files != [] then [NoReadme] else [])
  }

  ghost function Sum(rules: seq<Rule>): nat {
    if rules == [] then 0 else Sum(rules[..|rules| - 1]) + rules[|rules| - 1].Weight()
  }

  function Cap(score: nat): nat {
    if score > 100 then 100 else score
  }

  // ----- the scan -----

  /** What a scan has found so far; the score is always the sum of the findings' weights. */
  class Result {
    var score: nat
    var findings: seq<Rule>

    ghost predicate Valid()
      reads this
    {
      score == Sum(findings)
    }

    constructor ()
      ensures Valid() && findings == []
    {
      score, findings := 0, [];
    }

    /** addFinding */
    method AddFinding(rule: Rule)
      requires Valid()
      modifies this
      ensures Valid() && findings == old(findings) + [rule]
    {
      score := score + rule.Weight();
      findings := findings + [rule];
    }

    /** Adds one finding per pattern of the table that occurs in the text. */
    method Apply(re: Matcher, table: seq<(Pattern, Rule)>, text: string)
      requires Valid()
      modifies this
      ensures Valid() && findings == old(findings) + Select(re, table, text)
    {
      for i := 0 to |table|
        invariant Valid() && findings == old(findings) + Select(re, table[..i], text)
      {
        assert table[..i + 1][..i] == table[..i];
        if re(table[i].0, text) {
          AddFinding(table[i].1);
        }
      }
      assert table[..|table|] == table;
    }

    /** The lifecycle scripts of one package.json. */
    method ApplyToScripts(re: Matcher, scripts: map<string, string>, hooks: seq<string>, before: nat)
      returns (installScriptCount: nat)
      requires Valid()
      modifies this
      ensures Valid() && findings == old(findings) + ScriptRules(re, scripts, hooks)
      ensures installScriptCount == before + CountHooks(scripts, hooks)
    {
      installScriptCount := before;
      for i := 0 to |hooks|
        invariant Valid() && findings == old(findings) + ScriptRules(re, scripts, hooks[..i])
        invariant installScriptCount == before + CountHooks(scripts, hooks[..i])
      {
        var hook := hooks[i];
        assert hooks[..i + 1][..i] == hooks[..i];
        if hook in scripts {
          installScriptCount := installScriptCount + 1;
          Apply(re, HOOK_RULES, scripts[hook]);
        }
      }
      assert hooks[..|hooks|] == hooks;
    }
  }

  /** The package.json part of the loop body. */
  method ScanManifest(res: Result, re: Matcher, f: File, before: nat) returns (installScriptCount: nat)
    requires res.Valid()
    modifies res
    ensures res.Valid()
    ensures var f := ShareOf(re, f);
            && installScriptCount == before + f.hooks
            && res.findings == old(res.findings) + (f.scriptRules + if TooManyHooks(f, before) then [ManyInstallHooks] else [])
  {
    installScriptCount := before;
    if IsManifest(f) {
      installScriptCount := res.ApplyToScripts(re, f.scripts, HOOKS, before);
      if installScriptCount > 2 {
        res.AddFinding(ManyInstallHooks);
      }
    }
  }

  /** The part of the loop body that reads the file's content. */
  method ScanContent(res: Result, re: Matcher, f: File)
    requires res.Valid()
    modifies res
    ensures res.Valid() && res.findings == old(res.findings) + ContentRules(re, f)
  {
    ghost var found := res.findings;
    ghost var install := if IsInstallScript(f) then Select(re, INSTALL_RULES, f.content) else [];
    if IsInstallScript(f) {
      res.Apply(re, INSTALL_RULES, f.content);
    }
    assert res.findings == found + install;
    res.Apply(re, SOURCE_RULES, f.content);
    RulesAssociate(found, install, Select(re, SOURCE_RULES, f.content));
  }

  lemma FileRulesFollow(found: seq<Rule>, re: Matcher, f: File, before: nat)
    ensures var s := ShareOf(re, f);
            found + (s.scriptRules + if TooManyHooks(s, before) then [ManyInstallHooks] else []) + ContentRules(re, f)
            == found + FileRules(s, before)
  {
    var s := ShareOf(re, f);
    assert s.contentRules == ContentRules(re, f);
    RulesAssociate(found, s.scriptRules + if TooManyHooks(s, before) then [ManyInstallHooks] else [], s.contentRules);
  }

  lemma RulesAssociate(a: seq<Rule>, b: seq<Rule>, c: seq<Rule>)
    ensures a + b + c == a + (b + c)
  {
  }

  /** The body of the loop over files. */
  method ScanFile(res: Result, re: Matcher, f: File, before: nat) returns (installScriptCount: nat)
    requires res.Valid()
    modifies res
    ensures res.Valid() && res.findings == old(res.findings) + FileRules(ShareOf(re, f), before)
    ensures installScriptCount == before + ShareOf(re, f).hooks
  {
    ghost var found := res.findings;
    installScriptCount := ScanManifest(res, re, f, before);
    ScanContent(res, re, f);
    FileRulesFollow(found, re, f, before);
  }

  lemma SharesSoFar(shares: seq<Share>, i: nat)
    requires i < |shares|
    ensures TotalHooks(shares[..i + 1]) == TotalHooks(shares[..i]) + shares[i].hooks
    ensures Rules(shares[..i + 1], 0) == Rules(shares[..i], 0) + FileRules(shares[i], TotalHooks(shares[..i]))
  {
    assert shares[..i + 1][..i] == shares[..i];
  }

  /** The loop over files. */
  method ScanFiles(re: Matcher, files: seq<File>) returns (res: Result)
    ensures fresh(res) && res.Valid() && res.findings == Rules(Shares(re, files), 0)
  {
    res := new Result();
    var installScriptCount := 0;
    ghost var shares := Shares(re, files);
    for i := 0 to |files|
      invariant fresh(res) && res.Valid()
      invariant installScriptCount == TotalHooks(shares[..i])
      invariant res.findings == Rules(shares[..i], 0)
    {
      SharesSoFar(shares, i);
      installScriptCount := ScanFile(res, re, files[i], installScriptCount);
    }
    assert shares[..|files|] == shares;
  }

  /** analyzeFiles: the findings in order, and the sum of their weights, capped at 100. */
  method AnalyzeFiles(re: Matcher, files: seq<File>, hasReadme: bool, hasBinary: bool) returns (score: nat, findings: seq<Rule>)
    ensures findings == PackageRules(Shares(re, files), hasReadme, hasBinary)
    ensures score == Cap(Sum(findings))
  {
    var res := ScanFiles(re, files);
    if hasBinary {
      res.AddFinding(NativeBinary);
    }
    if !hasReadme && |files| > 0 {
      res.AddFinding(NoReadme);
    }
    findings := res.findings;
    score := if res.score > 100 then 100 else res.score;
  }

  // ----- what the score means -----

  ghost function Score(files: seq<Share>, hasReadme: bool, hasBinary: bool): nat {
    Cap(Sum(PackageRules(files, hasReadme, hasBinary)))
  }

  lemma {:induction false} SumConcat(xs: seq<Rule>, ys: seq<Rule>)
    ensures Sum(xs + ys) == Sum(xs) + Sum(ys)
  {
    if ys == [] {
      assert xs + ys == xs;
    } else {
      assert (xs + ys)[..|xs + ys| - 1] == xs + ys[..|ys| - 1];
      SumConcat(xs, ys[..|ys| - 1]);
    }
  }

  /** The weight a file adds, and the weight of a list of files: `Sum` of the rules, without the rules. */
  ghost function FilePoints(f: Share, before: nat): nat {
    Sum(f.scriptRules) + Sum(f.contentRules) + if TooManyHooks(f, before) then ManyInstallHooks.Weight() else 0
  }

  ghost function Points(files: seq<Share>, before: nat): nat {
    if files == [] then 0
    else
      var init := files[..|files| - 1];
      Points(init, before) + FilePoints(files[|files| - 1], before + TotalHooks(init))
  }

  lemma {:induction false} SumIsPoints(files: seq<Share>, before: nat)
    ensures Sum(Rules(files, before)) == Points(files, before)
  {
    if files != [] {
      var init, f := files[..|files| - 1], files[|files| - 1];
      var n := before + TotalHooks(init);
      SumIsPoints(init, before);
      SumConcat(Rules(init, before), FileRules(f, n));
      var flag := if TooManyHooks(f, n) then [ManyInstallHooks] else [];
      SumConcat(f.scriptRules + flag, f.contentRules);
      SumConcat(f.scriptRules, flag);
    }
  }

  lemma {:induction false} PointsConcat(xs: seq<Share>, ys: seq<Share>, before: nat)
    ensures TotalHooks(xs + ys) == TotalHooks(xs) + TotalHooks(ys)
    ensures Points(xs + ys, before) == Points(xs, before) + Points(ys, before + TotalHooks(xs))
  {
    if ys == [] {
      assert xs + ys == xs;
    } else {
      assert (xs + ys)[..|xs + ys| - 1] == xs + ys[..|ys| - 1];
      PointsConcat(xs, ys[..|ys| - 1], before);
    }
  }

  /** Hooks counted earlier can only add to what later files score. */
  lemma {:induction false} EarlierHooksOnlyAdd(files: seq<Share>, n: nat, m: nat)
    requires n <= m
    ensures Points(files, n) <= Points(files, m)
  {
    if files != [] {
      EarlierHooksOnlyAdd(files[..|files| - 1], n, m);
    }
  }

  lemma SumIf(b: bool, rule: Rule)
    ensures Sum(if b then [rule] else []) == if b then rule.Weight() else 0
  {
    assert [rule][..0] == [];
  }

  lemma SumOfThree(a: seq<Rule>, b: seq<Rule>, c: seq<Rule>)
    ensures Sum(a + b + c) == Sum(a) + Sum(b) + Sum(c)
  {
    SumConcat(a + b, c);
    SumConcat(a, b);
  }

  lemma PackageSum(files: seq<Share>, hasReadme: bool, hasBinary: bool)
    ensures Sum(PackageRules(files, hasReadme, hasBinary)) ==
            Points(files, 0) + (if hasBinary then 15 else 0) + (if !hasReadme && files != [] then 5 else 0)
  {
    var rules := Rules(files, 0);
    SumIsPoints(files, 0);
    SumOfThree(rules, if hasBinary then [NativeBinary] else [], if !hasReadme && files != [] then [NoReadme] else []);
    SumIf(hasBinary, NativeBinary);
    SumIf(!hasReadme && files != [], NoReadme);
  }

  /** The points of `whole` are those of three parts, each scored after the hooks before it. */
  ghost predicate AddsUp(whole: seq<Share>, xs: seq<Share>, middle: seq<Share>, ys: seq<Share>) {
    Points(whole, 0) == Points(xs, 0) + Points(middle, TotalHooks(xs)) + Points(ys, TotalHooks(xs) + TotalHooks(middle))
  }

  ghost predicate AddsTwo(whole: seq<Share>, front: seq<Share>, back: seq<Share>) {
    && TotalHooks(whole) == TotalHooks(front) + TotalHooks(back)
    && Points(whole, 0) == Points(front, 0) + Points(back, TotalHooks(front))
  }

  lemma ThreeParts(whole: seq<Share>, front: seq<Share>, xs: seq<Share>, middle: seq<Share>, ys: seq<Share>)
    requires AddsTwo(whole, front, ys) && AddsTwo(front, xs, middle)
    ensures AddsUp(whole, xs, middle, ys)
  {
  }

  lemma PointsOfTwo(xs: seq<Share>, ys: seq<Share>)
    ensures AddsTwo(xs + ys, xs, ys)
  {
    PointsConcat(xs, ys, 0);
  }

  lemma PointsOfMiddle(xs: seq<Share>, middle: seq<Share>, ys: seq<Share>)
    ensures AddsUp(xs + middle + ys, xs, middle, ys)
  {
    PointsOfTwo(xs, middle);
    PointsOfTwo(xs + middle, ys);
    ThreeParts(xs + middle + ys, xs + middle, xs, middle, ys);
  }

  lemma MoreAddsMore(less: seq<Share>, more: seq<Share>, xs: seq<Share>, middle: seq<Share>, ys: seq<Share>)
    requires AddsUp(less, xs, [], ys) && AddsUp(more, xs, middle, ys)
    ensures Points(less, 0) <= Points(more, 0)
  {
    EarlierHooksOnlyAdd(ys, TotalHooks(xs) + TotalHooks([]), TotalHooks(xs) + TotalHooks(middle));
  }

  lemma MoreNeverLowers(xs: seq<Share>, more: seq<Share>, ys: seq<Share>)
    ensures Points(xs + ys, 0) <= Points(xs + more + ys, 0)
  {
    PointsOfMiddle(xs, [], ys);
    PointsOfMiddle(xs, more, ys);
    assert xs + [] + ys == xs + ys;
    MoreAddsMore(xs + ys, xs + more + ys, xs, more, ys);
  }

  /** One more file, wherever it is put, never lowers the score. */
  lemma InsertionNeverLowers(xs: seq<Share>, f: Share, ys: seq<Share>, hasReadme: bool, hasBinary: bool)
    ensures Score(xs + ys, hasReadme, hasBinary) <= Score(xs + [f] + ys, hasReadme, hasBinary)
  {
    PackageSum(xs + ys, hasReadme, hasBinary);
    PackageSum(xs + [f] + ys, hasReadme, hasBinary);
    MoreNeverLowers(xs, [f], ys);
  }

  /** The score of a package's files. */
  ghost function FilesScore(re: Matcher, files: seq<File>, hasReadme: bool, hasBinary: bool): nat {
    Score(Shares(re, files), hasReadme, hasBinary)
  }

  lemma SharesConcat(re: Matcher, xs: seq<File>, ys: seq<File>)
    ensures Shares(re, xs + ys) == Shares(re, xs) + Shares(re, ys)
  {
    var all, parts := Shares(re, xs + ys), Shares(re, xs) + Shares(re, ys);
    assert |all| == |parts|;
    forall i | 0 <= i < |all|
      ensures all[i] == parts[i]
    {
      assert (xs + ys)[i] == if i < |xs| then xs[i] else ys[i - |xs|];
    }
  }

  lemma SharesOfMiddle(re: Matcher, xs: seq<File>, middle: seq<File>, ys: seq<File>)
    ensures Shares(re, xs + middle + ys) == Shares(re, xs) + Shares(re, middle) + Shares(re, ys)
  {
    SharesConcat(re, xs, middle);
    SharesConcat(re, xs + middle, ys);
  }

  /** A file added anywhere to a package never lowers its score. */
  lemma AddedFileNeverLowers(re: Matcher, xs: seq<File>, f: File, ys: seq<File>, hasReadme: bool, hasBinary: bool)
    ensures FilesScore(re, xs + ys, hasReadme, hasBinary) <= FilesScore(re, xs + [f] + ys, hasReadme, hasBinary)
  {
    SharesConcat(re, xs, ys);
    SharesOfMiddle(re, xs, [f], ys);
    assert Shares(re, [f]) == [ShareOf(re, f)];
    InsertionNeverLowers(Shares(re, xs), ShareOf(re, f), Shares(re, ys), hasReadme, hasBinary);
  }

  lemma PointsOfPair(f: Share, g: Share, n: nat)
    ensures TotalHooks([f, g]) == f.hooks + g.hooks
    ensures Points([f, g], n) == FilePoints(f, n) + FilePoints(g, n + f.hooks)
  {
    assert [f, g] == [f] + [g] && [f][..0] == [] && [g][..0] == [];
    PointsConcat([f], [g], n);
  }

  ghost predicate SameHooks(a: seq<Share>, b: seq<Share>) {
    TotalHooks(a) == TotalHooks(b)
  }

  /** After the files `xs`, `a` and `b` score the same. */
  ghost predicate SamePointsAfter(xs: seq<Share>, a: seq<Share>, b: seq<Share>) {
    Points(a, TotalHooks(xs)) == Points(b, TotalHooks(xs))
  }

  lemma MiddleDecides(v: seq<Share>, w: seq<Share>, xs: seq<Share>, a: seq<Share>, b: seq<Share>, ys: seq<Share>)
    requires AddsUp(v, xs, a, ys) && AddsUp(w, xs, b, ys) && SameHooks(a, b)
    ensures SamePointsAfter([], v, w) <==> SamePointsAfter(xs, a, b)
  {
  }

  lemma PairIsNeutralIff(f: Share, g: Share, n: nat)
    requires (f.manifest || f.hooks == 0) && (g.manifest || g.hooks == 0)
    ensures Points([f, g], n) == Points([g, f], n) <==>
            !(f.manifest && g.manifest) || (TooManyHooks(f, n) <==> TooManyHooks(g, n))
  {
    PointsOfPair(f, g, n);
    PointsOfPair(g, f, n);
  }

  /**
    The order of files matters only through the running hook count: two neighbours can be swapped
    without changing the sum iff they are not both manifests, or would trip the count alike when first.
   */
  lemma SwapIsNeutralIff(xs: seq<Share>, f: Share, g: Share, ys: seq<Share>)
    requires (f.manifest || f.hooks == 0) && (g.manifest || g.hooks == 0)
    ensures Sum(Rules(xs + [f, g] + ys, 0)) == Sum(Rules(xs + [g, f] + ys, 0)) <==>
            !(f.manifest && g.manifest) || (TooManyHooks(f, TotalHooks(xs)) <==> TooManyHooks(g, TotalHooks(xs)))
  {
    SumIsPoints(xs + [f, g] + ys, 0);
    SumIsPoints(xs + [g, f] + ys, 0);
    PointsOfPair(f, g, 0);
    PointsOfPair(g, f, 0);
    PointsOfMiddle(xs, [f, g], ys);
    PointsOfMiddle(xs, [g, f], ys);
    MiddleDecides(xs + [f, g] + ys, xs + [g, f] + ys, xs, [f, g], [g, f], ys);
    PairIsNeutralIff(f, g, TotalHooks(xs));
  }

  /** The same for two neighbouring files of a package. */
  lemma FileSwapIsNeutralIff(re: Matcher, xs: seq<File>, f: File, g: File, ys: seq<File>)
    ensures var n := TotalHooks(Shares(re, xs));
            Sum(Rules(Shares(re, xs + [f, g] + ys), 0)) == Sum(Rules(Shares(re, xs + [g, f] + ys), 0)) <==>
            !(IsManifest(f) && IsManifest(g)) || (TooManyHooks(ShareOf(re, f), n) <==> TooManyHooks(ShareOf(re, g), n))
  {
    SharesOfMiddle(re, xs, [f, g], ys);
    SharesOfMiddle(re, xs, [g, f], ys);
    assert Shares(re, [f, g]) == [ShareOf(re, f), ShareOf(re, g)];
    assert Shares(re, [g, f]) == [ShareOf(re, g), ShareOf(re, f)];
    SwapIsNeutralIff(Shares(re, xs), ShareOf(re, f), ShareOf(re, g), Shares(re, ys));
  }

  /** Capping the score at 100 never changes whether Claude is asked, for any trigger up to 100. */
  lemma CapKeepsTrigger(cfg: Config, call: Call, score: nat)
    requires call.heuristic.Scored? && cfg.claudeTriggerScore <= 100
    ensures ClaudeNeeded(cfg, call.(heuristic := Scored(call.heuristic.findings, Cap(score))))
            <==> ClaudeNeeded(cfg, call.(heuristic := Scored(call.heuristic.findings, score)))
  {
  }

  // ----- from the text of the files to findings, score and verdict -----

  /** filepath.Base drops what precedes the last element, and a trailing slash. */
  lemma BaseIs(front: string, element: string, path: string)
    requires element != "" && Free(element, '/')
    ensures Base(element) == element && Base(front + "/" + element) == element
    ensures path != "" ==> Base(path + "/") == Base(path)
  {
    LastSlash(front, element);
    assert element[|element| - 1] in element;
    assert LastIndexOf(element, '/') == -1 by {
      assert forall i :: 0 <= i < |element| ==> element[i] in element;
    }
    assert (path + "/")[..|path|] == path;
  }

  /** The three names of install scripts come down to one suffix. */
  lemma InstallScriptNames(f: File)
    ensures var base := ToLower(Base(f.path));
            IsInstallScript(f) <==>
            base == "setup.py" || HasSuffix(base, "install.js") || HasSuffix(base, "postinstall.js") || HasSuffix(base, "preinstall.js")
  {
    var base := ToLower(Base(f.path));
    assert "postinstall.js"[4..] == "install.js" && "preinstall.js"[3..] == "install.js";
    assert HasSuffix(base, "postinstall.js") ==> base[|base| - 14..][4..] == base[|base| - 10..];
    assert HasSuffix(base, "preinstall.js") ==> base[|base| - 13..][3..] == base[|base| - 10..];
  }

  /** What one lifecycle script scores. */
  ghost function HookPoints(re: Matcher, scripts: map<string, string>, hook: string): nat {
    if hook !in scripts then 0
    else
      (if re(NetworkInScript, scripts[hook]) then 40 else 0)
      + (if re(RemoteScriptPipe, scripts[hook]) then 25 else 0)
      + (if re(ChildProc, scripts[hook]) then 20 else 0)
  }

  /** What running hidden code, reading the environment and building functions score. */
  ghost function CodePoints(re: Matcher, text: string): nat {
    (if re(Base64, text) then 35 else 0) + (if re(EvalAtob, text) then 30 else 0)
    + (if re(EnvThenNetwork, text) then 35 else 0) + (if re(NewFunction, text) then 30 else 0)
  }

  /** What hidden strings and names and suspicious addresses score. */
  ghost function TextualPoints(re: Matcher, text: string): nat {
    (if re(FromCharCode, text) then 25 else 0) + (if re(HexNames, text) then 25 else 0)
    + (if re(WebhookUrl, text) then 40 else 0) + (if re(StagingUrl, text) then 20 else 0)
  }

  /** What a file's text scores as source, whatever the file is called. */
  ghost function SourcePoints(re: Matcher, text: string): nat {
    CodePoints(re, text) + TextualPoints(re, text)
  }

  /** A rule is selected iff its pattern, or one of them, occurs. */
  lemma {:induction false} SelectedIff(re: Matcher, table: seq<(Pattern, Rule)>, text: string, rule: Rule)
    ensures rule in Select(re, table, text) <==> exists i :: 0 <= i < |table| && re(table[i].0, text) && table[i].1 == rule
  {
    if table != [] {
      var n := |table| - 1;
      SelectedIff(re, table[..n], text, rule);
      assert forall i :: 0 <= i < n ==> table[..n][i] == table[i];
    }
  }

  /** What an entry of a table adds. */
  ghost function EntryPoints(re: Matcher, table: seq<(Pattern, Rule)>, n: nat, text: string): nat
    requires n < |table|
  {
    if re(table[n].0, text) then table[n].1.Weight() else 0
  }

  /** What the first n entries select, summed up. */
  ghost function FirstPoints(re: Matcher, table: seq<(Pattern, Rule)>, n: nat, text: string): nat
    requires n <= |table|
  {
    Sum(Select(re, table[..n], text))
  }

  lemma OneEntryMore(re: Matcher, table: seq<(Pattern, Rule)>, n: nat, text: string)
    requires n < |table|
    ensures FirstPoints(re, table, n + 1, text) == FirstPoints(re, table, n, text) + EntryPoints(re, table, n, text)
  {
    var selected := Select(re, table[..n], text);
    var last := if re(table[n].0, text) then [table[n].1] else [];
    assert table[..n + 1][..n] == table[..n];
    assert Select(re, table[..n + 1], text) == selected + last;
    SumConcat(selected, last);
    SumIf(re(table[n].0, text), table[n].1);
  }

  lemma TwoEntriesMore(re: Matcher, table: seq<(Pattern, Rule)>, n: nat, text: string)
    requires n + 1 < |table|
    ensures FirstPoints(re, table, n + 2, text)
            == FirstPoints(re, table, n, text) + EntryPoints(re, table, n, text) + EntryPoints(re, table, n + 1, text)
  {
    OneEntryMore(re, table, n, text);
    OneEntryMore(re, table, n + 1, text);
  }

  lemma FirstEntries(re: Matcher, table: seq<(Pattern, Rule)>, text: string)
    ensures FirstPoints(re, table, 0, text) == 0 && FirstPoints(re, table, |table|, text) == Sum(Select(re, table, text))
  {
    assert table[..0] == [] && table[..|table|] == table;
  }

  lemma TwoEntriesScore(re: Matcher, table: seq<(Pattern, Rule)>, text: string)
    requires |table| == 2
    ensures Sum(Select(re, table, text)) == EntryPoints(re, table, 0, text) + EntryPoints(re, table, 1, text)
  {
    FirstEntries(re, table, text);
    TwoEntriesMore(re, table, 0, text);
  }

  lemma ThreeEntriesScore(re: Matcher, table: seq<(Pattern, Rule)>, text: string)
    requires |table| == 3
    ensures Sum(Select(re, table, text))
            == EntryPoints(re, table, 0, text) + EntryPoints(re, table, 1, text) + EntryPoints(re, table, 2, text)
  {
    FirstEntries(re, table, text);
    TwoEntriesMore(re, table, 0, text);
    OneEntryMore(re, table, 2, text);
  }

  lemma FourEntriesScore(re: Matcher, table: seq<(Pattern, Rule)>, text: string)
    requires |table| == 4
    ensures Sum(Select(re, table, text))
            == EntryPoints(re, table, 0, text) + EntryPoints(re, table, 1, text) + EntryPoints(re, table, 2, text)
               + EntryPoints(re, table, 3, text)
  {
    FirstEntries(re, table, text);
    TwoEntriesMore(re, table, 0, text);
    TwoEntriesMore(re, table, 2, text);
  }

  lemma {:induction false} SelectConcat(re: Matcher, xs: seq<(Pattern, Rule)>, ys: seq<(Pattern, Rule)>, text: string)
    ensures Select(re, xs + ys, text) == Select(re, xs, text) + Select(re, ys, text)
  {
    if ys == [] {
      assert xs + ys == xs;
    } else {
      assert (xs + ys)[..|xs + ys| - 1] == xs + ys[..|ys| - 1];
      SelectConcat(re, xs, ys[..|ys| - 1], text);
    }
  }

  lemma JoinedTablesScore(re: Matcher, xs: seq<(Pattern, Rule)>, ys: seq<(Pattern, Rule)>, text: string)
    ensures Sum(Select(re, xs + ys, text)) == Sum(Select(re, xs, text)) + Sum(Select(re, ys, text))
  {
    SelectConcat(re, xs, ys, text);
    SumConcat(Select(re, xs, text), Select(re, ys, text));
  }

  lemma HookTableScores(re: Matcher, text: string)
    ensures Sum(Select(re, HOOK_RULES, text))
            == (if re(NetworkInScript, text) then 40 else 0) + (if re(RemoteScriptPipe, text) then 25 else 0)
               + (if re(ChildProc, text) then 20 else 0)
  {
    ThreeEntriesScore(re, HOOK_RULES, text);
  }

  lemma InstallTableScores(re: Matcher, text: string)
    ensures Sum(Select(re, INSTALL_RULES, text))
            == (if re(NetworkInScript, text) then 40 else 0) + (if re(RemoteScriptPipe, text) then 25 else 0)
  {
    TwoEntriesScore(re, INSTALL_RULES, text);
  }

  lemma FirstSourceRulesScore(re: Matcher, text: string)
    ensures Sum(Select(re, SOURCE_RULES[..4], text)) == CodePoints(re, text)
  {
    FourEntriesScore(re, SOURCE_RULES[..4], text);
  }

  lemma LastSourceRulesScore(re: Matcher, text: string)
    ensures Sum(Select(re, SOURCE_RULES[4..], text)) == TextualPoints(re, text)
  {
    FourEntriesScore(re, SOURCE_RULES[4..], text);
  }

  lemma SourceTableScores(re: Matcher, text: string)
    ensures Sum(Select(re, SOURCE_RULES, text)) == SourcePoints(re, text)
  {
    FirstSourceRulesScore(re, text);
    LastSourceRulesScore(re, text);
    JoinedTablesScore(re, SOURCE_RULES[..4], SOURCE_RULES[4..], text);
    assert SOURCE_RULES == SOURCE_RULES[..4] + SOURCE_RULES[4..];
  }

  /** What one lifecycle script emits. */
  ghost predicate HookTrips(re: Matcher, text: string, rule: Rule) {
    || (rule == NetworkInInstall && re(NetworkInScript, text))
    || (rule == RemoteScript && re(RemoteScriptPipe, text))
    || (rule == ChildProcess && re(ChildProc, text))
  }

  /** The text has what the source rule is about. */
  ghost predicate SourceTrips(re: Matcher, text: string, rule: Rule) {
    match rule
    case Base64Exec => re(Base64, text)
    case Obfuscation => re(EvalAtob, text)
    case EnvExfil => re(EnvThenNetwork, text)
    case FunctionCtor => re(NewFunction, text)
    case CharCodeObfusc => re(FromCharCode, text)
    case JSObfuscator => re(HexNames, text)
    case WebhookExfil => re(WebhookUrl, text)
    case StagingDomain => re(StagingUrl, text)
    case _ => false
  }

  /** Where the table of source rules has a rule. */
  function SourceIndex(rule: Rule): nat {
    match rule
    case Base64Exec => 0
    case Obfuscation => 1
    case EnvExfil => 2
    case FunctionCtor => 3
    case CharCodeObfusc => 4
    case JSObfuscator => 5
    case WebhookExfil => 6
    case StagingDomain => 7
    case _ => 8
  }

  lemma SourceRuleAt(re: Matcher, text: string, i: nat)
    requires i < |SOURCE_RULES|
    ensures SourceTrips(re, text, SOURCE_RULES[i].1) <==> re(SOURCE_RULES[i].0, text)
    ensures SourceIndex(SOURCE_RULES[i].1) == i
  {
  }

  lemma SourceTableTrips(re: Matcher, text: string, rule: Rule)
    ensures rule in Select(re, SOURCE_RULES, text) <==> SourceTrips(re, text, rule)
  {
    SelectedIff(re, SOURCE_RULES, text, rule);
    forall i | 0 <= i < |SOURCE_RULES|
      ensures SourceTrips(re, text, SOURCE_RULES[i].1) <==> re(SOURCE_RULES[i].0, text)
    {
      SourceRuleAt(re, text, i);
    }
    if SourceTrips(re, text, rule) {
      assert SourceIndex(rule) < 8 && SOURCE_RULES[SourceIndex(rule)].1 == rule;
    }
  }

  lemma HookTableTrips(re: Matcher, text: string, rule: Rule)
    ensures rule in Select(re, HOOK_RULES, text) <==> HookTrips(re, text, rule)
  {
    SelectedIff(re, HOOK_RULES, text, rule);
    assert HOOK_RULES[0] == (NetworkInScript, NetworkInInstall);
    assert HOOK_RULES[1] == (RemoteScriptPipe, RemoteScript);
    assert HOOK_RULES[2] == (ChildProc, ChildProcess);
  }

  lemma InstallTableTrips(re: Matcher, text: string, rule: Rule)
    ensures rule in Select(re, INSTALL_RULES, text) <==> rule != ChildProcess && HookTrips(re, text, rule)
  {
    SelectedIff(re, INSTALL_RULES, text, rule);
    assert INSTALL_RULES[0] == (NetworkInScript, NetworkInInstall);
    assert INSTALL_RULES[1] == (RemoteScriptPipe, RemoteScript);
  }

  lemma ScriptMore(re: Matcher, scripts: map<string, string>, hooks: seq<string>, n: nat)
    requires n < |hooks|
    ensures Sum(ScriptRules(re, scripts, hooks[..n + 1]))
            == Sum(ScriptRules(re, scripts, hooks[..n])) + HookPoints(re, scripts, hooks[n])
    ensures CountHooks(scripts, hooks[..n + 1]) == CountHooks(scripts, hooks[..n]) + if hooks[n] in scripts then 1 else 0
  {
    assert hooks[..n + 1][..n] == hooks[..n];
    if hooks[n] in scripts {
      SumConcat(ScriptRules(re, scripts, hooks[..n]), Select(re, HOOK_RULES, scripts[hooks[n]]));
      HookTableScores(re, scripts[hooks[n]]);
    } else {
      assert ScriptRules(re, scripts, hooks[..n]) + [] == ScriptRules(re, scripts, hooks[..n]);
    }
  }

  lemma {:induction false} ScriptRulesIff(re: Matcher, scripts: map<string, string>, hooks: seq<string>, rule: Rule)
    ensures rule in ScriptRules(re, scripts, hooks) <==>
            exists hook :: hook in hooks && hook in scripts && HookTrips(re, scripts[hook], rule)
  {
    if hooks != [] {
      var init, last := hooks[..|hooks| - 1], hooks[|hooks| - 1];
      ScriptRulesIff(re, scripts, init, rule);
      assert forall hook :: hook in hooks <==> hook in init || hook == last;
      if last in scripts {
        HookTableTrips(re, scripts[last], rule);
      }
    }
  }

  lemma ThreeHooks(re: Matcher, scripts: map<string, string>, hooks: seq<string>)
    requires |hooks| == 3
    ensures Sum(ScriptRules(re, scripts, hooks))
            == HookPoints(re, scripts, hooks[0]) + HookPoints(re, scripts, hooks[1]) + HookPoints(re, scripts, hooks[2])
    ensures CountHooks(scripts, hooks) == (if hooks[0] in scripts then 1 else 0) + (if hooks[1] in scripts then 1 else 0)
                                          + (if hooks[2] in scripts then 1 else 0)
  {
    ScriptMore(re, scripts, hooks, 0);
    ScriptMore(re, scripts, hooks, 1);
    ScriptMore(re, scripts, hooks, 2);
    assert hooks[..0] == [] && hooks[..3] == hooks;
  }

  /** How many of the three install hooks a package.json has; other files have none. */
  function HooksOf(f: File): nat {
    if ToLower(Base(f.path)) != "package.json" then 0
    else (if "preinstall" in f.scripts then 1 else 0) + (if "install" in f.scripts then 1 else 0)
         + (if "postinstall" in f.scripts then 1 else 0)
  }

  /** What the content of a setup.py or install script scores on top of its source rules. */
  ghost function InstallPoints(re: Matcher, f: File): nat {
    var base := ToLower(Base(f.path));
    if base == "setup.py" || HasSuffix(base, "install.js") then
      (if re(NetworkInScript, f.content) then 40 else 0) + (if re(RemoteScriptPipe, f.content) then 25 else 0)
    else 0
  }

  /**
    What a file scores, weight by weight: each lifecycle script of a package.json, 15 if that makes three
    install hooks so far, an install script's content, and the source rules for any file.
   */
  ghost function TextPoints(re: Matcher, f: File, before: nat): nat {
    (if ToLower(Base(f.path)) == "package.json" then
       HookPoints(re, f.scripts, "preinstall") + HookPoints(re, f.scripts, "install")
       + HookPoints(re, f.scripts, "postinstall") + (if before + HooksOf(f) >= 3 then 15 else 0)
     else 0)
    + InstallPoints(re, f) + SourcePoints(re, f.content)
  }

  lemma ContentPointsAre(re: Matcher, f: File)
    ensures Sum(ContentRules(re, f)) == InstallPoints(re, f) + SourcePoints(re, f.content)
  {
    var install := if IsInstallScript(f) then Select(re, INSTALL_RULES, f.content) else [];
    SumConcat(install, Select(re, SOURCE_RULES, f.content));
    InstallTableScores(re, f.content);
    SourceTableScores(re, f.content);
    assert Sum(install) == InstallPoints(re, f);
  }

  lemma ScriptPointsAre(re: Matcher, f: File)
    ensures IsManifest(f) ==>
              Sum(ShareOf(re, f).scriptRules) == HookPoints(re, f.scripts, "preinstall") + HookPoints(re, f.scripts, "install")
                                                 + HookPoints(re, f.scripts, "postinstall")
    ensures !IsManifest(f) ==> Sum(ShareOf(re, f).scriptRules) == 0
  {
    ThreeHooks(re, f.scripts, HOOKS);
  }

  lemma FilePointsAre(re: Matcher, f: File, before: nat)
    ensures FilePoints(ShareOf(re, f), before) == TextPoints(re, f, before)
  {
    ContentPointsAre(re, f);
    ScriptPointsAre(re, f);
    HooksAreCounted(re, f);
  }

  ghost function AllTextPoints(re: Matcher, files: seq<File>): nat {
    if files == [] then 0
    else
      var init := files[..|files| - 1];
      AllTextPoints(re, init) + TextPoints(re, files[|files| - 1], HooksIn(init))
  }

  lemma {:induction false} PointsAreTextPoints(re: Matcher, files: seq<File>)
    ensures Points(Shares(re, files), 0) == AllTextPoints(re, files)
  {
    if files != [] {
      var n := |files| - 1;
      PointsAreTextPoints(re, files[..n]);
      assert Shares(re, files)[..n] == Shares(re, files[..n]);
      TotalHooksAre(re, files[..n]);
      FilePointsAre(re, files[n], HooksIn(files[..n]));
    }
  }

  /** The score of a package, computed from the text of its files: at most 100, 15 for a binary, 5 for no README. */
  lemma ScoreIsWeightedSum(re: Matcher, files: seq<File>, hasReadme: bool, hasBinary: bool)
    ensures var total := AllTextPoints(re, files) + (if hasBinary then 15 else 0) + (if !hasReadme && files != [] then 5 else 0);
            FilesScore(re, files, hasReadme, hasBinary) == if total < 100 then total else 100
  {
    PackageSum(Shares(re, files), hasReadme, hasBinary);
    PointsAreTextPoints(re, files);
    assert |Shares(re, files)| == |files|;
  }

  /** The file has what the rule is about, in its text, or in a lifecycle script if it is a package.json. */
  ghost predicate Trips(re: Matcher, f: File, rule: Rule) {
    var base := ToLower(Base(f.path));
    || SourceTrips(re, f.content, rule)
    || ((base == "setup.py" || HasSuffix(base, "install.js")) && rule != ChildProcess && HookTrips(re, f.content, rule))
    || (base == "package.json" && exists hook :: hook in {"preinstall", "install", "postinstall"} && hook in f.scripts
                                                  && HookTrips(re, f.scripts[hook], rule))
  }

  lemma ContentEmitsIff(re: Matcher, f: File, rule: Rule)
    ensures var base := ToLower(Base(f.path));
            rule in ContentRules(re, f) <==>
            || SourceTrips(re, f.content, rule)
            || ((base == "setup.py" || HasSuffix(base, "install.js")) && rule != ChildProcess && HookTrips(re, f.content, rule))
  {
    SourceTableTrips(re, f.content, rule);
    InstallTableTrips(re, f.content, rule);
  }

  lemma ScriptsEmitIff(re: Matcher, scripts: map<string, string>, rule: Rule)
    ensures rule in ScriptRules(re, scripts, HOOKS) <==>
            exists hook :: hook in {"preinstall", "install", "postinstall"} && hook in scripts && HookTrips(re, scripts[hook], rule)
  {
    ScriptRulesIff(re, scripts, HOOKS, rule);
    assert HOOKS == ["preinstall", "install", "postinstall"];
    assert forall hook :: hook in HOOKS <==> hook in {"preinstall", "install", "postinstall"};
  }

  lemma InThree(rule: Rule, a: seq<Rule>, b: seq<Rule>, c: seq<Rule>)
    ensures rule in a + b + c <==> rule in a || rule in b || rule in c
  {
  }

  /** The rules a file emits: those it trips, and the hook count if it completes three hooks. */
  lemma FileEmitsIff(re: Matcher, f: File, before: nat, rule: Rule)
    ensures rule in FileRules(ShareOf(re, f), before) <==>
            || Trips(re, f, rule)
            || (rule == ManyInstallHooks && ToLower(Base(f.path)) == "package.json" && before + HooksOf(f) >= 3)
  {
    var share := ShareOf(re, f);
    var flag := if TooManyHooks(share, before) then [ManyInstallHooks] else [];
    InThree(rule, share.scriptRules, flag, share.contentRules);
    ContentEmitsIff(re, f, rule);
    ScriptsEmitIff(re, f.scripts, rule);
    HooksAreCounted(re, f);
  }

  lemma HooksAreCounted(re: Matcher, f: File)
    ensures ShareOf(re, f).hooks == HooksOf(f)
  {
    ThreeHooks(re, f.scripts, HOOKS);
  }

  /** How many install hooks the package.json files among these have together. */
  ghost function HooksIn(files: seq<File>): nat {
    if files == [] then 0 else HooksIn(files[..|files| - 1]) + HooksOf(files[|files| - 1])
  }

  lemma {:induction false} TotalHooksAre(re: Matcher, files: seq<File>)
    ensures TotalHooks(Shares(re, files)) == HooksIn(files)
  {
    if files != [] {
      var n := |files| - 1;
      TotalHooksAre(re, files[..n]);
      assert Shares(re, files)[..n] == Shares(re, files[..n]);
      HooksAreCounted(re, files[n]);
    }
  }

  /** Some file makes three hooks of those before it and its own. */
  ghost predicate HooksPileUp(files: seq<File>) {
    exists i :: 0 <= i < |files| && HooksPileUpAt(files, i)
  }

  ghost predicate HooksPileUpAt(files: seq<File>, i: nat)
    requires i < |files|
  {
    ToLower(Base(files[i].path)) == "package.json" && HooksIn(files[..i]) + HooksOf(files[i]) >= 3
  }

  lemma PilesUpMore(files: seq<File>)
    requires files != []
    ensures var n := |files| - 1;
            HooksPileUp(files) <==> HooksPileUp(files[..n]) || HooksPileUpAt(files, n)
  {
    var n := |files| - 1;
    forall i | 0 <= i < n
      ensures HooksPileUpAt(files, i) <==> HooksPileUpAt(files[..n], i)
    {
      assert files[..i] == files[..n][..i];
    }
  }

  ghost predicate SomeTrips(re: Matcher, files: seq<File>, rule: Rule) {
    exists f :: f in files && Trips(re, f, rule)
  }

  lemma TripsMore(re: Matcher, files: seq<File>, rule: Rule)
    requires files != []
    ensures SomeTrips(re, files, rule) <==> SomeTrips(re, files[..|files| - 1], rule) || Trips(re, files[|files| - 1], rule)
  {
    var init, last := files[..|files| - 1], files[|files| - 1];
    assert forall f :: f in files <==> f in init || f == last;
  }

  /** The last file adds what it emits after the hooks before it. */
  lemma LastFileEmits(re: Matcher, files: seq<File>, rule: Rule)
    requires files != []
    ensures var init, last := files[..|files| - 1], files[|files| - 1];
            rule in Rules(Shares(re, files), 0) <==>
            rule in Rules(Shares(re, init), 0) || rule in FileRules(ShareOf(re, last), HooksIn(init))
  {
    var n := |files| - 1;
    SharesSoFar(Shares(re, files), n);
    assert Shares(re, files)[..n] == Shares(re, files[..n]) && Shares(re, files)[..n + 1] == Shares(re, files);
    TotalHooksAre(re, files[..n]);
  }

  lemma {:induction false} FilesEmitIff(re: Matcher, files: seq<File>, rule: Rule)
    ensures rule in Rules(Shares(re, files), 0) <==>
            SomeTrips(re, files, rule) || (rule == ManyInstallHooks && HooksPileUp(files))
  {
    if files != [] {
      var n := |files| - 1;
      FilesEmitIff(re, files[..n], rule);
      LastFileEmits(re, files, rule);
      FileEmitsIff(re, files[n], HooksIn(files[..n]), rule);
      PilesUpMore(files);
      TripsMore(re, files, rule);
    }
  }

  /** Which findings a package gets: for every rule, exactly if some file trips it. */
  lemma PackageEmitsIff(re: Matcher, files: seq<File>, hasReadme: bool, hasBinary: bool, rule: Rule)
    ensures rule in PackageRules(Shares(re, files), hasReadme, hasBinary) <==>
            || SomeTrips(re, files, rule)
            || (rule == ManyInstallHooks && HooksPileUp(files))
            || (rule == NativeBinary && hasBinary)
            || (rule == NoReadme && !hasReadme && files != [])
  {
    FilesEmitIff(re, files, rule);
    var binary := if hasBinary then [NativeBinary] else [];
    assert rule in Rules(Shares(re, files), 0) + binary <==> rule in Rules(Shares(re, files), 0) || rule in binary;
  }

  /** Findings with the severities of the rules; their types, titles and descriptions may be any. */
  ghost predicate Describes(findings: seq<Finding>, rules: seq<Rule>) {
    && |findings| == |rules|
    && forall i :: 0 <= i < |rules| ==>
         findings[i].severity == rules[i].Severity() && findings[i].cve == ""
  }

  /** A severity among the findings is that of a rule among the rules. */
  lemma SeveritiesOfRules(findings: seq<Finding>, rules: seq<Rule>, severity: Severity)
    requires Describes(findings, rules)
    ensures (exists f :: f in findings && f.severity == severity) <==> exists rule :: rule in rules && rule.Severity() == severity
  {
    forall f | f in findings
      ensures exists rule :: rule in rules && rule.Severity() == f.severity
    {
      var i :| 0 <= i < |findings| && findings[i] == f;
      assert rules[i] in rules;
    }
    forall rule | rule in rules
      ensures exists f :: f in findings && f.severity == rule.Severity()
    {
      var i :| 0 <= i < |rules| && rules[i] == rule;
      assert findings[i] in findings;
    }
  }

  /** The text of the file has something that gets a critical or high finding. */
  ghost predicate Alarming(re: Matcher, f: File) {
    var base := ToLower(Base(f.path));
    || (exists p :: p in {Base64, EvalAtob, NewFunction, FromCharCode, WebhookUrl, StagingUrl} && re(p, f.content))
    || ((base == "setup.py" || HasSuffix(base, "install.js")) && (re(NetworkInScript, f.content) || re(RemoteScriptPipe, f.content)))
    || (base == "package.json" && exists hook :: hook in {"preinstall", "install", "postinstall"} && hook in f.scripts
                                    && (re(NetworkInScript, f.scripts[hook]) || re(RemoteScriptPipe, f.scripts[hook])))
  }

  lemma TrippingIsAlarming(re: Matcher, f: File, rule: Rule)
    requires Trips(re, f, rule) && rule.Severity().Serious()
    ensures Alarming(re, f)
  {
  }

  lemma AlarmingTrips(re: Matcher, f: File) returns (rule: Rule)
    requires Alarming(re, f)
    ensures Trips(re, f, rule) && rule.Severity().Serious()
  {
    var base, text := ToLower(Base(f.path)), f.content;
    if re(Base64, text) {
      rule := Base64Exec;
    } else if re(EvalAtob, text) {
      rule := Obfuscation;
    } else if re(NewFunction, text) {
      rule := FunctionCtor;
    } else if re(FromCharCode, text) {
      rule := CharCodeObfusc;
    } else if re(WebhookUrl, text) {
      rule := WebhookExfil;
    } else if re(StagingUrl, text) {
      rule := StagingDomain;
    } else if base == "setup.py" || HasSuffix(base, "install.js") {
      rule := if re(NetworkInScript, text) then NetworkInInstall else RemoteScript;
    } else {
      var hook :| hook in {"preinstall", "install", "postinstall"} && hook in f.scripts
                  && (re(NetworkInScript, f.scripts[hook]) || re(RemoteScriptPipe, f.scripts[hook]));
      rule := if re(NetworkInScript, f.scripts[hook]) then NetworkInInstall else RemoteScript;
      assert HookTrips(re, f.scripts[hook], rule);
    }
  }

  /** Critical and high findings stem from alarming files. */
  lemma SeriousRulesIff(re: Matcher, files: seq<File>, hasReadme: bool, hasBinary: bool)
    ensures (exists rule :: rule in PackageRules(Shares(re, files), hasReadme, hasBinary) && rule.Severity().Serious())
            <==> exists f :: f in files && Alarming(re, f)
  {
    var rules := PackageRules(Shares(re, files), hasReadme, hasBinary);
    if rule :| rule in rules && rule.Severity().Serious() {
      PackageEmitsIff(re, files, hasReadme, hasBinary, rule);
      var f :| f in files && Trips(re, f, rule);
      TrippingIsAlarming(re, f, rule);
    }
    if f :| f in files && Alarming(re, f) {
      var rule := AlarmingTrips(re, f);
      assert SomeTrips(re, files, rule);
      PackageEmitsIff(re, files, hasReadme, hasBinary, rule);
    }
  }

  /**
    The heuristic tier blocks by itself, whatever the score and whether or not Claude is asked: in enforce
    mode its findings block iff some file's text is alarming.
   */
  lemma HeuristicBlocksIff(re: Matcher, files: seq<File>, hasReadme: bool, hasBinary: bool, findings: seq<Finding>)
    requires Describes(findings, PackageRules(Shares(re, files), hasReadme, hasBinary))
    ensures VerdictOf("enforce", findings) == Block <==> exists f :: f in files && Alarming(re, f)
  {
    var rules := PackageRules(Shares(re, files), hasReadme, hasBinary);
    SeriousFindingsIff(findings, rules);
    SeriousRulesIff(re, files, hasReadme, hasBinary);
  }

  lemma SeriousFindingsIff(findings: seq<Finding>, rules: seq<Rule>)
    requires Describes(findings, rules)
    ensures VerdictOf("enforce", findings) == Block <==> exists rule :: rule in rules && rule.Severity().Serious()
  {
    SeveritiesOfRules(findings, rules, Critical);
    SeveritiesOfRules(findings, rules, High);
  }

  /** Anything but a missing README shows in the verdict. */
  lemma OnlyReadmeIsHarmless(findings: seq<Finding>, rules: seq<Rule>, mode: string)
    requires Describes(findings, rules)
    ensures VerdictOf(mode, findings) == Allow <==> forall rule :: rule in rules ==> rule == NoReadme
  {
    SeveritiesOfRules(findings, rules, Critical);
    SeveritiesOfRules(findings, rules, High);
    SeveritiesOfRules(findings, rules, Medium);
    assert forall rule: Rule :: rule != NoReadme <==>
        rule.Severity() == Critical || rule.Severity() == High || rule.Severity() == Medium;
  }

  lemma HarmfulRulesIff(re: Matcher, files: seq<File>, hasReadme: bool, hasBinary: bool, rule: Rule)
    ensures rule in PackageRules(Shares(re, files), hasReadme, hasBinary) && rule != NoReadme <==>
            || SomeTrips(re, files, rule)
            || (rule == ManyInstallHooks && HooksPileUp(files))
            || (rule == NativeBinary && hasBinary)
  {
    PackageEmitsIff(re, files, hasReadme, hasBinary, rule);
    NoTextTripsReadme(re, files);
  }

  lemma NoTextTripsReadme(re: Matcher, files: seq<File>)
    ensures !SomeTrips(re, files, NoReadme)
  {
  }

  /** It allows a package, in any mode, iff at most the README is missing. */
  lemma HeuristicAllowsIff(re: Matcher, files: seq<File>, hasReadme: bool, hasBinary: bool, mode: string, findings: seq<Finding>)
    requires Describes(findings, PackageRules(Shares(re, files), hasReadme, hasBinary))
    ensures VerdictOf(mode, findings) == Allow <==>
            !hasBinary && !HooksPileUp(files) && forall rule :: !SomeTrips(re, files, rule)
  {
    OnlyReadmeIsHarmless(findings, PackageRules(Shares(re, files), hasReadme, hasBinary), mode);
    forall rule: Rule
      ensures rule in PackageRules(Shares(re, files), hasReadme, hasBinary) && rule != NoReadme <==>
              || SomeTrips(re, files, rule)
              || (rule == ManyInstallHooks && HooksPileUp(files))
              || (rule == NativeBinary && hasBinary)
    {
      HarmfulRulesIff(re, files, hasReadme, hasBinary, rule);
    }
    HarmfulRulesIff(re, files, hasReadme, hasBinary, NativeBinary);
    HarmfulRulesIff(re, files, hasReadme, hasBinary, ManyInstallHooks);
  }

  // ----- a trigger above every score -----

  /** With these patterns, no package whatsoever makes the heuristic tier ask for Claude. */
  ghost predicate NeverAsks(re: Matcher, trigger: int) {
    forall files, hasReadme, hasBinary :: FilesScore(re, files, hasReadme, hasBinary) < trigger
  }

  lemma ScoreIsCapped(re: Matcher, files: seq<File>, hasReadme: bool, hasBinary: bool)
    ensures FilesScore(re, files, hasReadme, hasBinary) <= 100
  {
  }

  /** A rule whose pattern occurs in the text is selected, and every source rule weighs at least 20. */
  lemma {:induction false} SelectedRuleCounts(re: Matcher, table: seq<(Pattern, Rule)>, text: string, i: nat)
    requires i < |table| && re(table[i].0, text)
    ensures Sum(Select(re, table, text)) >= table[i].1.Weight()
  {
    var init, last := table[..|table| - 1], table[|table| - 1];
    SumConcat(Select(re, init, text), [last.1]);
    assert Select(re, init, text) + [] == Select(re, init, text);
    if i < |init| {
      SelectedRuleCounts(re, init, text, i);
    }
  }

  lemma SourceRulesWeigh(i: nat)
    requires i < |SOURCE_RULES|
    ensures SOURCE_RULES[i].1.Weight() >= 20
  {
  }

  lemma ContentCounts(re: Matcher, f: File, i: nat)
    requires i < |SOURCE_RULES| && re(SOURCE_RULES[i].0, f.content)
    ensures Sum(ShareOf(re, f).contentRules) >= 20
  {
    SelectedRuleCounts(re, SOURCE_RULES, f.content, i);
    SourceRulesWeigh(i);
    SumConcat(if IsInstallScript(f) then Select(re, INSTALL_RULES, f.content) else [], Select(re, SOURCE_RULES, f.content));
  }

  /** The same file n times over. */
  lemma {:induction false} CopiesAddUp(share: Share, n: nat)
    requires Sum(share.contentRules) >= 20
    ensures Points(seq(n, i => share), 0) >= 20 * n
  {
    if n > 0 {
      assert seq(n, i => share)[..n - 1] == seq(n - 1, i => share);
      CopiesAddUp(share, n - 1);
    }
  }

  lemma HundredPointsReachCap(files: seq<Share>)
    requires Points(files, 0) >= 100
    ensures Score(files, true, false) == 100
  {
    PackageSum(files, true, false);
  }

  /** Five copies of a file in which some source pattern occurs reach the cap. */
  lemma CopiesReachCap(re: Matcher, f: File, i: nat)
    requires i < |SOURCE_RULES| && re(SOURCE_RULES[i].0, f.content)
    ensures FilesScore(re, seq(5, k => f), true, false) == 100
  {
    ContentCounts(re, f, i);
    CopiesAddUp(ShareOf(re, f), 5);
    assert Shares(re, seq(5, k => f)) == seq(5, k => ShareOf(re, f));
    HundredPointsReachCap(seq(5, k => ShareOf(re, f)));
  }

  /**
    Whatever the patterns, as long as one source pattern occurs in some text: 101 is the smallest trigger
    that keeps the heuristic tier from ever asking for Claude.
   */
  lemma NeverAsksIff(re: Matcher, i: nat, text: string, trigger: int)
    requires i < |SOURCE_RULES| && re(SOURCE_RULES[i].0, text)
    ensures NeverAsks(re, trigger) <==> 101 <= trigger
  {
    if 101 <= trigger {
      HighTriggerNeverAsks(re, trigger);
    } else {
      var f := File("index.js", text, map[]);
      CopiesReachCap(re, f, i);
      assert !(FilesScore(re, seq(5, k => f), true, false) < trigger);
    }
  }

  lemma HighTriggerNeverAsks(re: Matcher, trigger: int)
    requires 101 <= trigger
    ensures NeverAsks(re, trigger)
  {
    forall files, hasReadme, hasBinary
      ensures FilesScore(re, files, hasReadme, hasBinary) < trigger
    {
      ScoreIsCapped(re, files, hasReadme, hasBinary);
    }
  }

  /** The heuristic tier's score is that of some files. */
  ghost predicate ScoredByScan(re: Matcher, tier: HeuristicTier) {
    tier.Scored? ==> exists files, hasReadme, hasBinary :: tier.score == FilesScore(re, files, hasReadme, hasBinary)
  }

  /**
    From 101 on the trigger silences the heuristic tier, not Claude, whatever the comment on the setting
    says: Claude still runs exactly on known-bad hits and high CVSS scores.
   */
  lemma HighTriggerRunsClaudeIff(re: Matcher, cfg: Config, call: Call)
    requires 101 <= cfg.claudeTriggerScore && ScoredByScan(re, call.heuristic)
    ensures FreshResult(cfg, call).claudeUsed <==>
            call.hasTarball && call.claude.Answered?
            && (AnySerious(Found(call.badlist)) || HighCvss(Found(call.cve), cfg.blockCvssThreshold))
  {
    HighTriggerNeverAsks(re, cfg.claudeTriggerScore);
    UnreachableTriggerStillRunsClaude(cfg, call);
  }

  /** Trigger 101, a known-bad package, its tarball, and a Claude that answers: it is asked. */
  lemma TriggerOf101RunsClaude()
    ensures var bad := Finding("known-bad", Critical, "", "", 0.0);
            var call := Call(PackageRef(NPM, "left-pad", "1.0.0"), true, "scan-1", 0, Ran([bad]), Absent,
                             Scored([], 0), Answered([]), false, false, true);
            FreshResult(Config(101, 7.0, "enforce"), call).claudeUsed
  {
    var bad := Finding("known-bad", Critical, "", "", 0.0);
    assert bad in [bad];
  }
}
