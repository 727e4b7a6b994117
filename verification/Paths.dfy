/**
  How npm tarball paths are written (FetchTarball of internal/registry/tarball.go) and how the proxy
  reads them back and dispatches on them (internal/proxy/proxy.go).
 */
module Paths {
  import opened Shield
  import opened Text

  // ----- the npm grammar -----

  /** (@[^/]+/[^/]+|[^@/][^/]*) */
  predicate NpmName(name: string) {
    if name == "" then false
    else if name[0] == '@' then
      var slash := IndexFrom(name, '/', 1);
      1 < slash && slash + 1 < |name| && Free(name[slash + 1..], '/')
    else Free(name, '/')
  }

  /** The expression for names, alternative by alternative. */
  lemma NpmNameIff(name: string)
    ensures NpmName(name) <==>
            || (name != "" && name[0] != '@' && '/' !in name)
            || exists scope, bare :: name == "@" + scope + "/" + bare && scope != "" && bare != "" && '/' !in scope && '/' !in bare
  {
    if NpmName(name) && name[0] == '@' {
      var slash := IndexFrom(name, '/', 1);
      var scope, bare := name[1..slash], name[slash + 1..];
      assert name == "@" + scope + "/" + bare;
      assert forall k :: 0 <= k < |scope| ==> scope[k] == name[k + 1];
    }
    forall scope, bare | name == "@" + scope + "/" + bare && scope != "" && bare != "" && '/' !in scope && '/' !in bare
      ensures NpmName(name)
    {
      assert name == "@" + scope + ("/" + bare);
      IndexSkips("@", scope, "/" + bare, '/');
      assert name[1 + |scope| + 1..] == bare;
    }
  }

  /** The name, /-/, and [^/]+-(\d[^/]*)\.tgz with the hyphen that was chosen. */
  ghost predicate NpmShape(path: string, name: string, file: string, version: string) {
    && path == "/" + name + "/-/" + file + "-" + version + ".tgz"
    && NpmName(name)
    && file != "" && Free(file, '/')
    && version != "" && Digit(version[0]) && Free(version, '/')
  }

  predicate DashDigitAt(s: string, i: int) {
    0 <= i && i + 1 < |s| && s[i] == '-' && Digit(s[i + 1])
  }

  /** The last hyphen-digit below `n` that leaves something in front of it, or -1. */
  function LastDashDigit(s: string, n: nat): (i: int)
    ensures i == -1 || (1 <= i < n && DashDigitAt(s, i))
    ensures forall k :: i < k < n && 1 <= k ==> !DashDigitAt(s, k)
  {
    if n <= 1 then -1
    else if DashDigitAt(s, n - 1) then n - 1
    else LastDashDigit(s, n - 1)
  }

  /** Where the name that starts at position 1 would end. */
  function NameEnd(path: string): (end: nat)
    requires path != ""
    ensures 1 <= end <= |path|
  {
    if 1 < |path| && path[1] == '@' then
      var scope := IndexFrom(path, '/', 1);
      if scope < |path| then IndexFrom(path, '/', scope + 1) else scope
    else IndexFrom(path, '/', 1)
  }

  datatype NpmMatch = NpmMatch(name: string, version: string)

  /** The version in a file name, after the last hyphen that a digit follows. */
  function MatchFile(file: string): Option<string> {
    if !HasSuffix(file, ".tgz") || !Free(file, '/') then None
    else
      var stem := file[..|file| - 4];
      var dash := LastDashDigit(stem, |stem|);
      if dash < 0 then None else Some(stem[dash + 1..])
  }

  /** npmTarballRe.FindStringSubmatch: groups 1 and 2. */
  function MatchNpm(path: string): Option<NpmMatch> {
    if path == "" || path[0] != '/' then None
    else
      var end := NameEnd(path);
      var name, rest := path[1..end], path[end..];
      if !NpmName(name) || !HasPrefix(rest, "/-/") || MatchFile(rest[3..]).None? then None
      else Some(NpmMatch(name, MatchFile(rest[3..]).value))
  }

  lemma ScopedNameParts(name: string) returns (scope: string, bare: string)
    requires NpmName(name) && name[0] == '@'
    ensures name == scope + "/" + bare && scope != "" && Free(scope, '/') && Free(bare, '/')
  {
    var slash := IndexFrom(name, '/', 1);
    scope, bare := name[..slash], name[slash + 1..];
    assert forall k :: 0 <= k < |scope| ==> scope[k] == name[k];
  }

  lemma ScopedNameEndsThere(name: string, rest: string)
    requires NpmName(name) && name[0] == '@' && (rest == "" || rest[0] == '/')
    ensures NameEnd("/" + name + rest) == 1 + |name|
  {
    var path := "/" + name + rest;
    var scope, bare := ScopedNameParts(name);
    var front, back := "/" + scope + "/", "/" + bare + rest;
    assert "/" + scope + back == path && front + bare + rest == path;
    IndexSkips("/", scope, back, '/');
    IndexSkips(front, bare, rest, '/');
    assert path[1] == name[0];
  }

  lemma NameEndsThere(name: string, rest: string)
    requires NpmName(name) && (rest == "" || rest[0] == '/')
    ensures NameEnd("/" + name + rest) == 1 + |name|
  {
    assert ("/" + name + rest)[1] == name[0];
    if name[0] == '@' {
      ScopedNameEndsThere(name, rest);
    } else {
      IndexSkips("/", name, rest, '/');
    }
  }

  lemma FileMatches(file: string, version: string)
    requires file != "" && version != "" && Digit(version[0])
    ensures Free(file, '/') && Free(version, '/') <==> MatchFile(file + "-" + version + ".tgz").Some?
    ensures var stem := file + "-" + version;
            var dash := LastDashDigit(stem, |stem|);
            |file| <= dash
            && (Free(file, '/') && Free(version, '/') ==> MatchFile(stem + ".tgz") == Some(stem[dash + 1..]))
  {
    var stem := file + "-" + version;
    assert DashDigitAt(stem, |file|);
    var all := stem + ".tgz";
    assert all[|all| - 4..] == ".tgz" && all[..|all| - 4] == stem;
    FreeParts(file, "-", '/');
    FreeParts(file + "-", version, '/');
    FreeParts(stem, ".tgz", '/');
  }

  lemma MatchedFile(file: string) returns (before: string)
    requires MatchFile(file).Some?
    ensures var version := MatchFile(file).value;
            file == before + "-" + version + ".tgz" && before != "" && Free(before, '/')
            && version != "" && Digit(version[0]) && Free(version, '/')
  {
    var stem := file[..|file| - 4];
    var dash := LastDashDigit(stem, |stem|);
    before := stem[..dash];
    var version := stem[dash + 1..];
    assert stem == before + "-" + version;
    assert file == stem + ".tgz";
    FreeParts(stem, ".tgz", '/');
    FreeParts(before + "-", version, '/');
    FreeParts(before, "-", '/');
  }

  lemma PathSplits(name: string, file: string)
    requires NpmName(name)
    ensures MatchNpm("/" + name + "/-/" + file) ==
            if MatchFile(file).None? then None else Some(NpmMatch(name, MatchFile(file).value))
  {
    var rest := "/-/" + file;
    var path := "/" + name + rest;
    assert path == "/" + name + "/-/" + file;
    NameEndsThere(name, rest);
    assert path[1..1 + |name|] == name && path[1 + |name|..] == rest && rest[3..] == file;
  }

  lemma ShapeAssociates(front: string, file: string, version: string)
    ensures front + "/-/" + (file + "-" + version + ".tgz") == front + "/-/" + file + "-" + version + ".tgz"
  {
  }

  lemma MatchOfShape(path: string, name: string, file: string, version: string)
    requires NpmShape(path, name, file, version)
    ensures MatchNpm(path).Some? && MatchNpm(path).value.name == name
    ensures |MatchNpm(path).value.version| <= |version|
  {
    var all := file + "-" + version + ".tgz";
    ShapeAssociates("/" + name, file, version);
    assert MatchFile(all).Some? && |MatchFile(all).value| <= |version| by {
      FileMatches(file, version);
    }
    PathSplits(name, all);
  }

  lemma SplitAt(s: string, i: nat, mid: string)
    requires i <= |s| && HasPrefix(s[i..], mid)
    ensures s == s[..i] + mid + s[i + |mid|..]
  {
  }

  lemma ShapeOfMatch(path: string) returns (file: string)
    requires MatchNpm(path).Some?
    ensures NpmShape(path, MatchNpm(path).value.name, file, MatchNpm(path).value.version)
  {
    var end := NameEnd(path);
    var name, tail := path[1..end], path[end..][3..];
    file := MatchedFile(tail);
    var version := MatchFile(tail).value;
    SplitAt(path, end, "/-/");
    assert path[..end] == "/" + name && path[end + 3..] == tail;
    ShapeAssociates("/" + name, file, version);
  }

  /** The matcher finds a shape iff there is one, and then the one with the longest file part: greedily. */
  lemma MatchIsGreedy(path: string)
    ensures MatchNpm(path).None? <==> !exists name, file, version :: NpmShape(path, name, file, version)
    ensures MatchNpm(path).Some? ==>
              var m := MatchNpm(path).value;
              exists file ::
                && NpmShape(path, m.name, file, m.version)
                && forall n, f, v :: NpmShape(path, n, f, v) ==> n == m.name && |f| <= |file|
  {
    forall name, file, version | NpmShape(path, name, file, version)
      ensures MatchNpm(path).Some? && name == MatchNpm(path).value.name
      ensures |file| + 1 + |version| == |path| - |name| - 8
      ensures |MatchNpm(path).value.version| <= |version|
    {
      MatchOfShape(path, name, file, version);
    }
    if MatchNpm(path).Some? {
      var m := MatchNpm(path).value;
      var file := ShapeOfMatch(path);
      assert NpmShape(path, m.name, file, m.version);
    }
  }

  // ----- printing and detecting -----

  /** FetchTarball: a scoped package's file is named after the part behind the scope. */
  function BareName(name: string): string {
    if HasPrefix(name, "@") && IndexFrom(name, '/', 1) < |name| then name[IndexFrom(name, '/', 1) + 1..] else name
  }

  function NpmTarballPath(name: string, version: string): string {
    "/" + name + "/-/" + BareName(name) + "-" + version + ".tgz"
  }

  /** The paths of unscoped and scoped packages, written out. */
  lemma TarballPathIs(scope: string, bare: string, version: string)
    requires NpmName(bare) && bare[0] != '@' && scope != "" && Free(scope, '/')
    ensures NpmTarballPath(bare, version) == "/" + bare + "/-/" + bare + "-" + version + ".tgz"
    ensures NpmTarballPath("@" + scope + "/" + bare, version)
            == "/@" + scope + "/" + bare + "/-/" + bare + "-" + version + ".tgz"
  {
    var name := "@" + scope + "/" + bare;
    assert name == "@" + scope + ("/" + bare);
    IndexSkips("@", scope, "/" + bare, '/');
    assert name[1 + |scope| + 1..] == bare && name[..1] == "@";
    assert "/" + name == "/@" + scope + "/" + bare;
  }

  /** The npm half of detectTarball. */
  function DetectNpm(path: string): Option<PackageRef> {
    if MatchNpm(path).Some? then
      Some(PackageRef(NPM, MatchNpm(path).value.name, TrimSuffix(MatchNpm(path).value.version, ".tgz")))
    else None
  }

  /** A version whose path can be printed. */
  predicate Printable(version: string) {
    version != "" && Digit(version[0]) && Free(version, '/') && !HasSuffix(version, ".tgz")
  }

  /** What follows the last hyphen-digit of the version: the whole version if it has none. */
  function AfterLastDashDigit(version: string): string {
    version[LastDashDigit(version, |version|) + 1..]
  }

  lemma DashesOfStem(file: string, version: string, k: int)
    requires version != "" && Digit(version[0])
    ensures var stem := file + "-" + version;
            && DashDigitAt(stem, |file|)
            && (|file| < k ==> (DashDigitAt(stem, k) <==> DashDigitAt(version, k - |file| - 1)))
  {
  }

  lemma {:induction false} LastDashBelow(file: string, version: string, n: nat)
    requires file != "" && version != "" && Digit(version[0]) && n <= |version|
    ensures LastDashDigit(file + "-" + version, |file| + 1 + n) == |file| + 1 + LastDashDigit(version, n)
  {
    DashesOfStem(file, version, |file| + n);
    if n > 0 {
      LastDashBelow(file, version, n - 1);
    }
  }

  lemma LastDashOfStem(file: string, version: string)
    requires file != "" && version != "" && Digit(version[0])
    ensures var stem := file + "-" + version;
            stem[LastDashDigit(stem, |stem|) + 1..] == AfterLastDashDigit(version)
  {
    LastDashBelow(file, version, |version|);
  }

  lemma SuffixOfRest(s: string, i: nat, suffix: string)
    requires i <= |s|
    ensures HasSuffix(s[i..], suffix) ==> HasSuffix(s, suffix)
  {
    assert HasSuffix(s[i..], suffix) ==> s[i..][|s[i..]| - |suffix|..] == s[|s| - |suffix|..];
  }

  /**
    Round trip: the path printed for a package is detected with the same name, and with what follows
    the version's last hyphen-digit.
   */
  lemma PrintedPathIsDetected(name: string, version: string)
    requires NpmName(name) && Printable(version)
    ensures DetectNpm(NpmTarballPath(name, version)) == Some(PackageRef(NPM, name, AfterLastDashDigit(version)))
  {
    var bare := BareName(name);
    var file := bare + "-" + version + ".tgz";
    assert Free(bare, '/') && bare != "";
    assert NpmTarballPath(name, version) == "/" + name + "/-/" + file;
    PathSplits(name, file);
    FileMatches(bare, version);
    LastDashOfStem(bare, version);
    SuffixOfRest(version, LastDashDigit(version, |version|) + 1, ".tgz");
  }

  lemma ExtensionHasNoDash(version: string)
    requires version != ""
    ensures AfterLastDashDigit(version + ".tgz") == AfterLastDashDigit(version) + ".tgz"
  {
    var longer := version + ".tgz";
    assert longer[|version|..] == ".tgz";
    assert forall k :: |version| <= k < |longer| ==> longer[k] == ".tgz"[k - |version|] && longer[k] != '-';
    assert longer[|version|] == '.';
    assert forall k :: DashDigitAt(longer, k) <==> DashDigitAt(version, k);
    var i := LastDashDigit(version, |version|);
    assert LastDashDigit(longer, |longer|) == i;
    assert longer[i + 1..] == version[i + 1..] + ".tgz";
  }

  lemma DetectedByFile(name: string, file: string)
    requires NpmName(name) && MatchFile(file).Some?
    ensures DetectNpm("/" + name + "/-/" + file) == Some(PackageRef(NPM, name, TrimSuffix(MatchFile(file).value, ".tgz")))
  {
    PathSplits(name, file);
  }

  lemma ExtraExtensionInFile(bare: string, version: string)
    requires bare != "" && Free(bare, '/') && Printable(version)
    ensures MatchFile(bare + "-" + (version + ".tgz") + ".tgz") == Some(AfterLastDashDigit(version) + ".tgz")
  {
    FreeParts(version, ".tgz", '/');
    FileMatches(bare, version + ".tgz");
    LastDashOfStem(bare, version + ".tgz");
    ExtensionHasNoDash(version);
  }

  lemma SuffixIsTrimmed(s: string, suffix: string)
    ensures TrimSuffix(s + suffix, suffix) == s
  {
    assert (s + suffix)[|s|..] == suffix && (s + suffix)[..|s|] == s;
  }

  /** An extension too many does not matter: the path is detected as the package at the version without it. */
  lemma ExtraExtensionIsDropped(name: string, version: string)
    requires NpmName(name) && Printable(version)
    ensures DetectNpm(NpmTarballPath(name, version + ".tgz")) == DetectNpm(NpmTarballPath(name, version))
  {
    var bare := BareName(name);
    var file := bare + "-" + (version + ".tgz") + ".tgz";
    assert NpmTarballPath(name, version + ".tgz") == "/" + name + "/-/" + file;
    assert bare != "" && Free(bare, '/');
    ExtraExtensionInFile(bare, version);
    DetectedByFile(name, file);
    SuffixIsTrimmed(AfterLastDashDigit(version), ".tgz");
    PrintedPathIsDetected(name, version);
  }

  lemma NothingCutIff(version: string)
    requires version != "" && Digit(version[0])
    ensures AfterLastDashDigit(version) == version <==> !exists k :: DashDigitAt(version, k)
  {
    var j := LastDashDigit(version, |version|);
    assert !DashDigitAt(version, 0);
    if j >= 1 {
      assert DashDigitAt(version, j);
      assert |AfterLastDashDigit(version)| < |version|;
    } else {
      assert AfterLastDashDigit(version) == version;
    }
  }

  /** The whole version comes back iff no hyphen in it is followed by a digit. */
  lemma VersionSurvivesIff(name: string, version: string)
    requires NpmName(name) && Printable(version)
    ensures DetectNpm(NpmTarballPath(name, version)) == Some(PackageRef(NPM, name, version))
            <==> !exists k :: DashDigitAt(version, k)
  {
    PrintedPathIsDetected(name, version);
    NothingCutIff(version);
  }

  lemma NumericPreRelease()
    ensures Printable("1.0.0-0.3.7") && AfterLastDashDigit("1.0.0-0.3.7") == "0.3.7"
  {
    var version := "1.0.0-0.3.7";
    assert version[|version| - 1] == '7' && ".tgz"[3] == 'z';
    assert DashDigitAt(version, 5);
    assert forall k :: 5 < k ==> !DashDigitAt(version, k);
  }

  /** A pre-release whose identifier starts with a digit comes back without its release part. */
  lemma NumericPreReleaseIsCut(name: string)
    requires NpmName(name)
    ensures DetectNpm(NpmTarballPath(name, "1.0.0-0.3.7")) == Some(PackageRef(NPM, name, "0.3.7"))
  {
    NumericPreRelease();
    PrintedPathIsDetected(name, "1.0.0-0.3.7");
  }

  // ----- PyPI files -----

  function NormalizeChar(c: char): char {
    if c == '_' || c == '.' then '-' else LowerChar(c)
  }

  /** normalizePyPI: lower case, with underscores and dots turned into hyphens. */
  function NormalizePyPI(name: string): (n: string)
    ensures |n| == |name|
  {
    seq(|name|, i requires 0 <= i < |name| => NormalizeChar(name[i]))
  }

  /** A name as PyPI's index has it: no capitals, and hyphens for separators. */
  predicate Normal(name: string) {
    forall i :: 0 <= i < |name| ==> !('A' <= name[i] <= 'Z') && name[i] != '_' && name[i] != '.'
  }

  /** Two bytes that stand for the same: the same letter in any case, or two separators. */
  predicate SameInNames(c: char, d: char) {
    c == d || (c in "-_." && d in "-_.") || ('A' <= c <= 'Z' && d as int == c as int + 32)
    || ('A' <= d <= 'Z' && c as int == d as int + 32)
  }

  /** The normalized name is the one normal name that reads the same, byte by byte. */
  lemma NormalizedIff(name: string, n: string)
    ensures n == NormalizePyPI(name) <==>
            Normal(n) && |n| == |name| && forall i :: 0 <= i < |name| ==> SameInNames(n[i], name[i])
  {
    forall i | 0 <= i < |name|
      ensures var c := NormalizeChar(name[i]);
              !('A' <= c <= 'Z') && c != '_' && c != '.' && SameInNames(c, name[i])
      ensures forall d: char :: !('A' <= d <= 'Z') && d != '_' && d != '.' && SameInNames(d, name[i]) ==> d == NormalizeChar(name[i])
    {
      assert forall c: char :: c in "-_." <==> c == '-' || c == '_' || c == '.';
    }
    if Normal(n) && |n| == |name| && forall i :: 0 <= i < |name| ==> SameInNames(n[i], name[i]) {
      assert forall i :: 0 <= i < |name| ==> n[i] == NormalizePyPI(name)[i];
    }
  }

  /** The path above its last element, if that is not empty. */
  function Parent(path: string): Option<string> {
    var i := LastIndexOf(path, '/');
    if i >= 0 && i + 1 < |path| then Some(path[..i]) else None
  }

  /** The directory part of pypiTarballRe: /packages/ and three more elements at its end. */
  predicate PypiDir(dir: string) {
    Parent(dir).Some?
    && var second := Parent(dir).value;
       Parent(second).Some?
       && var first := Parent(second).value;
          Parent(first).Some? && HasSuffix(Parent(first).value, "/packages")
  }

  /** ([^/-]+)-([^/-][^/-]*)(?:-[^/]+)?\.(?:tar\.gz|whl) as a file name. */
  ghost predicate PypiShape(file: string, name: string, version: string, tags: string, extension: string) {
    && file == name + "-" + version + tags + extension
    && name != "" && Free(name, '/') && Free(name, '-')
    && version != "" && Free(version, '/') && Free(version, '-')
    && (tags == "" || (1 < |tags| && tags[0] == '-' && Free(tags, '/')))
    && (extension == ".tar.gz" || extension == ".whl")
  }

  datatype PypiMatch = PypiMatch(name: string, version: string)

  function StripExtension(s: string): Option<string> {
    if HasSuffix(s, ".tar.gz") then Some(s[..|s| - 7])
    else if HasSuffix(s, ".whl") then Some(s[..|s| - 4])
    else None
  }

  /** The version at the front of what follows the name and its hyphen. */
  function MatchPypiTail(tail: string): Option<string> {
    if StripExtension(tail).None? then None
    else
      var stem := StripExtension(tail).value;
      var end := IndexFrom(stem, '-', 0);
      if end == 0 || end + 1 == |stem| then None else Some(stem[..end])
  }

  function MatchPypiFile(file: string): Option<PypiMatch> {
    var dash := IndexFrom(file, '-', 0);
    if dash == 0 || dash == |file| || !Free(file, '/') || MatchPypiTail(file[dash + 1..]).None? then None
    else Some(PypiMatch(file[..dash], MatchPypiTail(file[dash + 1..]).value))
  }

  /** pypiTarballRe on a whole path. */
  function MatchPypi(path: string): Option<PypiMatch> {
    var slash := LastIndexOf(path, '/');
    if slash < 0 || !PypiDir(path[..slash]) then None else MatchPypiFile(path[slash + 1..])
  }

  lemma ExtensionStrips(stem: string, extension: string)
    requires extension == ".tar.gz" || extension == ".whl"
    ensures StripExtension(stem + extension) == Some(stem)
  {
    var s := stem + extension;
    assert s[|s| - |extension|..] == extension && s[..|s| - |extension|] == stem;
    assert s[|s| - 1] == extension[|extension| - 1];
    assert HasSuffix(s, ".tar.gz") ==> s[|s| - 7..][6] == s[|s| - 1];
  }

  lemma FilePartsFree(name: string, version: string, tags: string, extension: string)
    requires Free(name, '/') && Free(version, '/') && Free(tags, '/') && (extension == ".tar.gz" || extension == ".whl")
    ensures Free(name + "-" + version + tags + extension, '/')
  {
    FreeParts(name, "-", '/');
    FreeParts(name + "-", version, '/');
    FreeParts(name + "-" + version, tags, '/');
    FreeParts(name + "-" + version + tags, extension, '/');
  }

  lemma PypiTailReads(version: string, tags: string, extension: string)
    requires version != "" && Free(version, '-') && (tags == "" || (1 < |tags| && tags[0] == '-'))
    requires extension == ".tar.gz" || extension == ".whl"
    ensures MatchPypiTail(version + tags + extension) == Some(version)
  {
    var stem := version + tags;
    ExtensionStrips(stem, extension);
    assert stem == "" + version + tags;
    IndexSkips("", version, tags, '-');
    assert stem[..|version|] == version;
  }

  /** A file name has at most one reading, and the matcher finds it. */
  lemma PypiReadingIsUnique(file: string, name: string, version: string, tags: string, extension: string)
    requires PypiShape(file, name, version, tags, extension)
    ensures MatchPypiFile(file) == Some(PypiMatch(name, version))
  {
    var tail := version + tags + extension;
    Reassociate(name, version, tags, extension);
    assert ['-'] + tail == "-" + tail;
    FirstSplits(name, '-', tail);
    PypiTailReads(version, tags, extension);
    FilePartsFree(name, version, tags, extension);
  }

  lemma PypiTailParts(tail: string) returns (tags: string, extension: string)
    requires MatchPypiTail(tail).Some? && Free(tail, '/')
    ensures var version := MatchPypiTail(tail).value;
            && tail == version + tags + extension
            && version != "" && Free(version, '/') && Free(version, '-')
            && (tags == "" || (1 < |tags| && tags[0] == '-' && Free(tags, '/')))
            && (extension == ".tar.gz" || extension == ".whl")
  {
    var stem := StripExtension(tail).value;
    var end := IndexFrom(stem, '-', 0);
    tags, extension := stem[end..], tail[|stem|..];
    assert stem == stem[..end] + tags && tail == stem + extension;
    assert forall k :: 0 <= k < end ==> stem[..end][k] == stem[k];
    FreeParts(stem[..end], tags, '/');
    FreeParts(stem, extension, '/');
  }

  lemma Reassociate(a: string, b: string, c: string, d: string)
    ensures a + ("-" + (b + c + d)) == a + "-" + b + c + d
  {
  }

  lemma PartsAtHyphen(file: string, dash: nat)
    requires dash == IndexFrom(file, '-', 0) && dash < |file| && Free(file, '/')
    ensures var name, tail := file[..dash], file[dash + 1..];
            file == name + ("-" + tail) && Free(name, '-') && Free(name, '/') && Free(tail, '/')
  {
    var name, tail := file[..dash], file[dash + 1..];
    assert file == name + ("-" + tail);
    FreeParts(name, "-" + tail, '/');
    FreeParts("-", tail, '/');
    assert forall k :: 0 <= k < |name| ==> name[k] == file[k];
  }

  lemma MatchedParts(file: string) returns (tail: string)
    requires MatchPypiFile(file).Some?
    ensures var m := MatchPypiFile(file).value;
            && file == m.name + ("-" + tail) && MatchPypiTail(tail) == Some(m.version) && Free(tail, '/')
            && m.name != "" && Free(m.name, '/') && Free(m.name, '-')
  {
    var dash := IndexFrom(file, '-', 0);
    PartsAtHyphen(file, dash);
    tail := file[dash + 1..];
  }

  lemma PypiMatchHasShape(file: string) returns (tags: string, extension: string)
    requires MatchPypiFile(file).Some?
    ensures PypiShape(file, MatchPypiFile(file).value.name, MatchPypiFile(file).value.version, tags, extension)
  {
    var m := MatchPypiFile(file).value;
    var tail := MatchedParts(file);
    tags, extension := PypiTailParts(tail);
    Reassociate(m.name, m.version, tags, extension);
  }

  /** The matcher recognizes exactly the file names of that form. */
  lemma PypiMatchIff(file: string, m: PypiMatch)
    ensures MatchPypiFile(file) == Some(m) <==>
            exists tags, extension :: PypiShape(file, m.name, m.version, tags, extension)
  {
    if MatchPypiFile(file).Some? {
      var tags, extension := PypiMatchHasShape(file);
    }
    forall tags, extension | PypiShape(file, m.name, m.version, tags, extension)
      ensures MatchPypiFile(file) == Some(m)
    {
      PypiReadingIsUnique(file, m.name, m.version, tags, extension);
    }
  }

  lemma LastSlash(dir: string, file: string)
    requires Free(file, '/')
    ensures var path := dir + "/" + file;
            LastIndexOf(path, '/') == |dir| && path[..|dir|] == dir && path[|dir| + 1..] == file
  {
    var path := dir + "/" + file;
    assert path[|dir|] == '/';
    assert forall k :: |dir| < k < |path| ==> path[k] == file[k - |dir| - 1];
  }

  /** A path element. */
  predicate Element(s: string) {
    s != "" && Free(s, '/')
  }

  /** Anything, /packages/, three elements and a file name. */
  function PypiPath(front: string, a: string, b: string, c: string, file: string): string {
    front + "/packages" + "/" + a + "/" + b + "/" + c + "/" + file
  }

  lemma ParentOf(dir: string, element: string)
    requires Element(element)
    ensures Parent(dir + "/" + element) == Some(dir)
  {
    LastSlash(dir, element);
  }

  lemma DirElement(path: string)
    ensures var i := LastIndexOf(path, '/');
            i >= 0 ==> path == path[..i] + "/" + path[i + 1..] && Free(path[i + 1..], '/')
  {
  }

  lemma LastElement(path: string) returns (element: string)
    requires Parent(path).Some?
    ensures Element(element) && path == Parent(path).value + "/" + element
  {
    DirElement(path);
    element := path[LastIndexOf(path, '/') + 1..];
  }

  lemma PypiDirOf(front: string, a: string, b: string, c: string)
    requires Element(a) && Element(b) && Element(c)
    ensures PypiDir(front + "/packages" + "/" + a + "/" + b + "/" + c)
  {
    var top := front + "/packages";
    assert top[|front|..] == "/packages";
    ParentOf(top, a);
    ParentOf(top + "/" + a, b);
    ParentOf(top + "/" + a + "/" + b, c);
  }

  lemma PypiDirParts(dir: string) returns (front: string, a: string, b: string, c: string)
    requires PypiDir(dir)
    ensures Element(a) && Element(b) && Element(c) && dir == front + "/packages" + "/" + a + "/" + b + "/" + c
  {
    c := LastElement(dir);
    b := LastElement(Parent(dir).value);
    a := LastElement(Parent(Parent(dir).value).value);
    var top := Parent(Parent(Parent(dir).value).value).value;
    front := top[..|top| - |"/packages"|];
    assert top == front + "/packages";
  }

  /** pypiTarballRe, written out for a whole path. */
  ghost predicate PypiPathShape(path: string, front: string, a: string, b: string, c: string, file: string,
                                m: PypiMatch, tags: string, extension: string) {
    && path == PypiPath(front, a, b, c, file) && Element(a) && Element(b) && Element(c)
    && PypiShape(file, m.name, m.version, tags, extension)
  }

  lemma PypiPathIsRead(front: string, a: string, b: string, c: string, file: string)
    requires Element(a) && Element(b) && Element(c) && Free(file, '/')
    ensures MatchPypi(PypiPath(front, a, b, c, file)) == MatchPypiFile(file)
  {
    PypiDirOf(front, a, b, c);
    LastSlash(front + "/packages" + "/" + a + "/" + b + "/" + c, file);
  }

  lemma PypiPathReads(path: string, front: string, a: string, b: string, c: string, file: string,
                      m: PypiMatch, tags: string, extension: string)
    requires PypiPathShape(path, front, a, b, c, file, m, tags, extension)
    ensures MatchPypi(path) == Some(m)
  {
    FilePartsFree(m.name, m.version, tags, extension);
    PypiPathIsRead(front, a, b, c, file);
    PypiMatchIff(file, m);
  }

  lemma PypiPathParts(path: string) returns (front: string, a: string, b: string, c: string, file: string)
    requires MatchPypi(path).Some?
    ensures Element(a) && Element(b) && Element(c) && path == PypiPath(front, a, b, c, file)
    ensures MatchPypiFile(file) == MatchPypi(path)
  {
    var slash := LastIndexOf(path, '/');
    file := path[slash + 1..];
    DirElement(path);
    front, a, b, c := PypiDirParts(path[..slash]);
  }

  lemma PypiPathHasShape(path: string)
    requires MatchPypi(path).Some?
    ensures exists front, a, b, c, file, tags, extension ::
              PypiPathShape(path, front, a, b, c, file, MatchPypi(path).value, tags, extension)
  {
    var front, a, b, c, file := PypiPathParts(path);
    PypiMatchIff(file, MatchPypi(path).value);
    var tags, extension :| PypiShape(file, MatchPypi(path).value.name, MatchPypi(path).value.version, tags, extension);
    assert PypiPathShape(path, front, a, b, c, file, MatchPypi(path).value, tags, extension);
  }

  /** The matcher accepts exactly the paths of the PyPI expression, and reads each in the only way there is. */
  lemma PypiPathMatchIff(path: string, m: PypiMatch)
    ensures MatchPypi(path) == Some(m) <==>
            exists front, a, b, c, file, tags, extension :: PypiPathShape(path, front, a, b, c, file, m, tags, extension)
  {
    if MatchPypi(path).Some? {
      PypiPathHasShape(path);
    }
    forall front, a, b, c, file, tags, extension | PypiPathShape(path, front, a, b, c, file, m, tags, extension)
      ensures MatchPypi(path) == Some(m)
    {
      PypiPathReads(path, front, a, b, c, file, m, tags, extension);
    }
  }

  // ----- routing and dispatch -----

  /** The PyPI half of detectTarball. */
  function DetectPypi(path: string): Option<PackageRef> {
    PypiRef(MatchPypi(path))
  }

  function PypiRef(m: Option<PypiMatch>): Option<PackageRef> {
    if m.Some? then Some(PackageRef(PYPI, NormalizePyPI(m.value.name), m.value.version)) else None
  }

  function DetectTarball(path: string): Option<PackageRef> {
    if DetectNpm(path).Some? then DetectNpm(path) else DetectPypi(path)
  }

  lemma OtherExtension(path: string, extension: string)
    requires HasSuffix(path, extension) && (extension == ".tar.gz" || extension == ".whl")
    ensures !HasSuffix(path, ".tgz")
  {
    assert path[|path| - |extension|..][|extension| - 3] == path[|path| - 3];
    assert extension[|extension| - 3] != 't' && ".tgz"[1] == 't';
    assert path[|path| - 4..][1] == path[|path| - 3];
  }

  lemma NotAnNpmPath(path: string)
    requires !HasSuffix(path, ".tgz")
    ensures MatchNpm(path).None?
  {
    if path != "" {
      var end := NameEnd(path);
      if end + 3 <= |path| {
        assert path[end..][3..] == path[end + 3..];
        SuffixOfRest(path, end + 3, ".tgz");
      }
    }
  }

  /** A hyphen in the name is where the file name is split instead. */
  lemma HyphenSplitsEarly(name: string, rest: string)
    requires !Free(name, '-')
    ensures var file := name + "-" + rest;
            MatchPypiFile(file).Some? ==> |MatchPypiFile(file).value.name| < |name|
  {
    var file := name + "-" + rest;
    var dash := IndexFrom(file, '-', 0);
    var k :| 0 <= k < |name| && name[k] == '-';
    assert file[k] == '-';
  }

  lemma FileIsReadIff(name: string, version: string, tags: string, extension: string)
    requires Element(name) && Element(version) && Free(version, '-')
    requires tags == "" || (1 < |tags| && tags[0] == '-' && Free(tags, '/'))
    requires extension == ".tar.gz" || extension == ".whl"
    ensures var m := MatchPypiFile(name + "-" + version + tags + extension);
            && (Free(name, '-') ==> m == Some(PypiMatch(name, version)))
            && (!Free(name, '-') && m.Some? ==> |m.value.name| < |name|)
  {
    if Free(name, '-') {
      PypiReadingIsUnique(name + "-" + version + tags + extension, name, version, tags, extension);
    } else {
      assert name + "-" + version + tags + extension == name + "-" + (version + tags + extension);
      HyphenSplitsEarly(name, version + tags + extension);
    }
  }

  lemma PypiPathIsNotNpm(front: string, a: string, b: string, c: string, file: string, extension: string)
    requires Free(file, '/') && HasSuffix(file, extension) && (extension == ".tar.gz" || extension == ".whl")
    ensures DetectNpm(PypiPath(front, a, b, c, file)).None?
  {
    var dir := front + "/packages" + "/" + a + "/" + b + "/" + c;
    LastSlash(dir, file);
    SuffixOfRest(PypiPath(front, a, b, c, file), |dir| + 1, extension);
    OtherExtension(PypiPath(front, a, b, c, file), extension);
    NotAnNpmPath(PypiPath(front, a, b, c, file));
  }

  /**
    A source archive or wheel is detected as its package iff the file name writes the package without
    a hyphen: otherwise name and version are split at the first one.
   */
  lemma FileIsDetectedIff(front: string, a: string, b: string, c: string, name: string, version: string,
                          tags: string, extension: string)
    requires Element(a) && Element(b) && Element(c) && Element(name) && Element(version) && Free(version, '-')
    requires tags == "" || (1 < |tags| && tags[0] == '-' && Free(tags, '/'))
    requires extension == ".tar.gz" || extension == ".whl"
    ensures DetectTarball(PypiPath(front, a, b, c, name + "-" + version + tags + extension))
            == Some(PackageRef(PYPI, NormalizePyPI(name), version))
            <==> Free(name, '-')
  {
    var file := name + "-" + version + tags + extension;
    FilePartsFree(name, version, tags, extension);
    PypiPathIsRead(front, a, b, c, file);
    assert file[|file| - |extension|..] == extension;
    PypiPathIsNotNpm(front, a, b, c, file, extension);
    FileIsReadIff(name, version, tags, extension);
    assert DetectTarball(PypiPath(front, a, b, c, file)) == PypiRef(MatchPypiFile(file));
  }

  predicate IsPyPISimple(path: string) {
    HasPrefix(path, "/simple/") && !HasPrefix(path, "/packages/")
  }

  predicate IsPyPIPath(path: string) {
    HasPrefix(path, "/simple/") || HasPrefix(path, "/packages/")
  }

  const NPM_HOST := "registry.npmjs.org"
  const PYPI_HOST := "pypi.org"
  const FILES_HOST := "files.pythonhosted.org"

  /** The host upstreamURL picks. */
  function UpstreamHost(path: string): string {
    if IsPyPIPath(path) then (if HasPrefix(path, "/packages/") then FILES_HOST else PYPI_HOST) else NPM_HOST
  }

  /** Pages go to the index, files to the file host, everything else to npm. */
  lemma RequestsAreRouted(path: string)
    ensures UpstreamHost(path) == "pypi.org" <==> HasPrefix(path, "/simple/")
    ensures UpstreamHost(path) == "files.pythonhosted.org" <==> HasPrefix(path, "/packages/")
    ensures UpstreamHost(path) == "registry.npmjs.org" <==> !HasPrefix(path, "/simple/") && !HasPrefix(path, "/packages/")
  {
    assert "pypi.org"[0] == 'p' && "files.pythonhosted.org"[0] == 'f' && "registry.npmjs.org"[0] == 'r';
    assert "/simple/"[1] == 's' && "/packages/"[1] == 'p';
    assert HasPrefix(path, "/simple/") ==> path[1] == 's';
  }

  lemma HostsAreTold(path: string)
    ensures UpstreamHost(path) == NPM_HOST <==> !IsPyPIPath(path)
    ensures UpstreamHost(path) == FILES_HOST <==> HasPrefix(path, "/packages/")
    ensures NPM_HOST[0] == 'r' && PYPI_HOST[0] == 'p' && FILES_HOST[0] == 'f'
  {
    assert NPM_HOST[0] == 'r' && PYPI_HOST[0] == 'p' && FILES_HOST[0] == 'f';
  }

  /** detectNPMMeta */
  function DetectNpmMeta(verb: string, path: string): Option<string> {
    if verb != "GET" || MatchNpm(path).Some? || IsPyPIPath(path) || path == "" || path[0] != '/' then None
    else
      var name := path[1..NameEnd(path)];
      if NpmName(name) then Some(name) else None
  }

  predicate Slash(c: char) {
    c == '/'
  }

  /** The package whose page handlePyPISimple serves: the second element, if the first is "simple". */
  function SimpleName(path: string): Option<string> {
    var trimmed := Trim(path, Slash);
    var end := IndexFrom(trimmed, '/', 0);
    if end == |trimmed| || trimmed[..end] != "simple" then None
    else
      var rest := trimmed[end + 1..];
      var name := rest[..IndexFrom(rest, '/', 0)];
      if name == "" then None else Some(name)
  }

  datatype Route = SimplePage | Tarball(pkg: PackageRef) | Metadata(name: string) | Transparent

  /** Which handler `serve` gives a request to. */
  function Dispatch(verb: string, path: string, hasPipeline: bool): Route {
    if IsPyPISimple(path) then SimplePage
    else if DetectTarball(path).Some? && hasPipeline then Tarball(DetectTarball(path).value)
    else if DetectNpmMeta(verb, path).Some? then Metadata(DetectNpmMeta(verb, path).value)
    else Transparent
  }

  /** A request for npm metadata, whatever follows the name: its name is the npm name the path starts with. */
  ghost predicate StartsWithName(path: string, name: string) {
    NpmName(name) && exists rest :: path == "/" + name + rest && (rest == "" || rest[0] == '/')
  }

  lemma NpmMetaIff(verb: string, path: string, name: string)
    ensures DetectNpmMeta(verb, path) == Some(name) <==>
            && verb == "GET" && MatchNpm(path).None? && StartsWithName(path, name)
            && !HasPrefix(path, "/simple/") && !HasPrefix(path, "/packages/")
  {
    if DetectNpmMeta(verb, path) == Some(name) {
      assert path == "/" + name + path[NameEnd(path)..];
    }
    if StartsWithName(path, name) {
      var rest :| path == "/" + name + rest && (rest == "" || rest[0] == '/');
      NameEndsThere(name, rest);
      assert path[1..1 + |name|] == name;
    }
  }

  /** Which handler gets a request, path by path. */
  lemma DispatchIff(verb: string, path: string, hasPipeline: bool, pkg: PackageRef, name: string)
    ensures Dispatch(verb, path, hasPipeline) == SimplePage <==> HasPrefix(path, "/simple/")
    ensures Dispatch(verb, path, hasPipeline) == Tarball(pkg) <==>
            !HasPrefix(path, "/simple/") && hasPipeline && DetectTarball(path) == Some(pkg)
    ensures Dispatch(verb, path, hasPipeline) == Metadata(name) <==>
            && verb == "GET" && StartsWithName(path, name)
            && !HasPrefix(path, "/simple/") && !HasPrefix(path, "/packages/")
            && DetectNpm(path).None? && (hasPipeline ==> DetectTarball(path).None?)
  {
    NpmMetaIff(verb, path, name);
    assert HasPrefix(path, "/simple/") ==> path[1] == 's';
    assert "/packages/"[1] == 'p';
  }

  /** Every npm package's page is checked and rewritten: its name is dispatched to the metadata handler. */
  lemma PackagePageIsMetadata(name: string, hasPipeline: bool)
    requires NpmName(name)
    ensures Dispatch("GET", "/" + name, hasPipeline) == Metadata(name)
  {
    MetadataNamesPackage(name);
    NameIsNotPyPIPath(name);
  }

  /** A source archive or wheel reaches the tarball handler as its package iff it is detected as that and no page. */
  lemma FileIsInterceptedIff(verb: string, front: string, a: string, b: string, c: string, name: string, version: string,
                             tags: string, extension: string)
    requires Element(a) && Element(b) && Element(c) && Element(name) && Element(version) && Free(version, '-')
    requires tags == "" || (1 < |tags| && tags[0] == '-' && Free(tags, '/'))
    requires extension == ".tar.gz" || extension == ".whl"
    ensures var path := PypiPath(front, a, b, c, name + "-" + version + tags + extension);
            Dispatch(verb, path, true) == Tarball(PackageRef(PYPI, NormalizePyPI(name), version))
            <==> Free(name, '-') && !HasPrefix(path, "/simple/")
  {
    FileIsDetectedIff(front, a, b, c, name, version, tags, extension);
    DispatchIff(verb, PypiPath(front, a, b, c, name + "-" + version + tags + extension), true,
                PackageRef(PYPI, NormalizePyPI(name), version), name);
  }

  /** The first path element is `element` iff the package is called that. */
  lemma FirstElement(name: string, rest: string, element: string)
    requires NpmName(name) && element != "" && element[0] != '@' && Free(element, '/')
    ensures HasPrefix("/" + name + "/" + rest, "/" + element + "/") <==> name == element
  {
    var path, prefix := "/" + name + "/" + rest, "/" + element + "/";
    assert path[1] == name[0] && prefix[1] == element[0];
    if HasPrefix(path, prefix) && name[0] != '@' {
      var after := path[|prefix|..];
      assert path == prefix + after;
      IndexSkips("/", name, "/" + rest, '/');
      assert path == "/" + name + ("/" + rest);
      IndexSkips("/", element, "/" + after, '/');
      assert path == "/" + element + ("/" + after);
      assert name == path[1..1 + |name|] == element;
    }
  }

  lemma PrintedPathPrefixes(name: string, version: string)
    requires NpmName(name)
    ensures HasPrefix(NpmTarballPath(name, version), "/simple/") <==> name == "simple"
    ensures HasPrefix(NpmTarballPath(name, version), "/packages/") <==> name == "packages"
  {
    var rest := "-/" + BareName(name) + "-" + version + ".tgz";
    assert NpmTarballPath(name, version) == "/" + name + "/" + rest;
    assert "/simple/" == "/" + "simple" + "/" && "/packages/" == "/" + "packages" + "/";
    FirstElement(name, rest, "simple");
    FirstElement(name, rest, "packages");
  }

  /**
    The path printed for an npm package reaches the tarball handler iff the package is not called
    "simple", and the npm registry iff it is called neither "simple" nor "packages".
   */
  lemma PrintedPathIsInterceptedIff(name: string, version: string, verb: string)
    requires NpmName(name) && Printable(version)
    ensures Dispatch(verb, NpmTarballPath(name, version), true) == Tarball(PackageRef(NPM, name, AfterLastDashDigit(version)))
            <==> name != "simple"
    ensures UpstreamHost(NpmTarballPath(name, version)) == NPM_HOST <==> name != "simple" && name != "packages"
  {
    PrintedPathPrefixes(name, version);
    PrintedPathIsDetected(name, version);
    HostsAreTold(NpmTarballPath(name, version));
  }

  lemma NoElementEnds(name: string, element: string)
    requires NpmName(name) && element != "" && element[0] != '@' && Free(element, '/')
    ensures !HasPrefix("/" + name, "/" + element + "/")
  {
    var path, prefix := "/" + name, "/" + element + "/";
    assert path[1] == name[0] && prefix[1] == element[0];
    if name[0] != '@' {
      assert forall k :: 1 <= k < |path| ==> path[k] == name[k - 1] && path[k] in name;
      assert prefix[|element| + 1] == '/';
    }
  }

  lemma NameIsNotPyPIPath(name: string)
    requires NpmName(name)
    ensures !IsPyPIPath("/" + name)
  {
    assert "/simple/" == "/" + "simple" + "/" && "/packages/" == "/" + "packages" + "/";
    NoElementEnds(name, "simple");
    NoElementEnds(name, "packages");
  }

  lemma MetadataNamesPackage(name: string)
    requires NpmName(name)
    ensures DetectNpmMeta("GET", "/" + name) == Some(name)
  {
    var path := "/" + name;
    NameIsNotPyPIPath(name);
    assert path == "/" + name + "";
    NameEndsThere(name, "");
    assert path[1..1 + |name|] == name && path[1 + |name|..] == "";
  }

  /** A metadata request for a package and the download of its tarball name the same package. */
  lemma BothPointsSeeTheSameName(name: string, version: string)
    requires NpmName(name) && Printable(version)
    ensures DetectNpmMeta("GET", "/" + name) == Some(name)
    ensures var detected := DetectNpm(NpmTarballPath(name, version));
            detected.Some? && detected.value.name == name
  {
    MetadataNamesPackage(name);
    PrintedPathIsDetected(name, version);
  }

  lemma SimplePageTrims(name: string)
    requires Element(name)
    ensures Trim("/simple/" + name + "/", Slash) == "simple" + (['/'] + name)
  {
    var inner := "simple" + (['/'] + name);
    assert name[|name| - 1] in name && inner[|inner| - 1] == name[|name| - 1];
    TrimPadding("/", inner, "/", Slash);
    assert "/" + inner + "/" == "/simple/" + name + "/";
  }

  lemma ElementEnds(name: string)
    requires Free(name, '/')
    ensures name[..IndexFrom(name, '/', 0)] == name
  {
    IndexSkips("", name, "", '/');
    assert "" + name + "" == name;
  }

  /** The page of a PyPI package is served under its name as the client writes it. */
  lemma SimplePageNames(name: string)
    requires Element(name)
    ensures SimpleName("/simple/" + name + "/") == Some(name)
  {
    SimplePageTrims(name);
    FirstSplits("simple", '/', name);
    ElementEnds(name);
  }

  lemma PageTail(tail: string) returns (v: string)
    ensures Trim("/simple/" + tail, Slash) == if v == "" then "simple" else "simple" + (['/'] + v)
    ensures v <= tail && forall i :: |v| <= i < |tail| ==> tail[i] == '/'
  {
    var path, inner := "/simple/" + tail, "simple" + ("/" + tail);
    assert path == "/" + inner && inner[0] == 's';
    TrimLeftPadding("/", inner, Slash);
    assert inner == "simpl" + ['e'] + ("/" + tail);
    TrimRightStops("simpl", 'e', "/" + tail, Slash);
    TrimRightDropsOnly("/" + tail, Slash);
    var u := TrimRight("/" + tail, Slash);
    v := if u == "" then "" else u[1..];
    assert u != "" ==> u == ['/'] + v;
    assert forall i :: |u| <= i < |tail| + 1 ==> ("/" + tail)[i] == '/';
    assert forall i :: 0 <= i < |tail| ==> tail[i] == ("/" + tail)[i + 1];
    assert "simpl" + ['e'] == "simple";
  }

  /** The check of a page is on the element behind /simple/; an empty element means no check. */
  lemma SimpleNameIff(path: string, name: string)
    requires HasPrefix(path, "/simple/")
    ensures SimpleName(path) == Some(name) <==>
            Element(name) && exists rest :: path == "/simple/" + name + rest && (rest == "" || rest[0] == '/')
  {
    var tail := path[8..];
    assert path == "/simple/" + tail;
    SimpleNameIsFirst(tail);
    FirstElementIs(tail, name);
    forall rest
      ensures path == "/simple/" + name + rest <==> tail == name + rest
    {
      assert ("/simple/" + name + rest)[8..] == name + rest;
      assert "/simple/" + (name + rest) == "/simple/" + name + rest;
    }
  }

  /** Below any other first element nothing is a page. */
  lemma OnlySimpleHasPages(path: string)
    ensures SimpleName(path).Some? ==> "simple/" <= Trim(path, Slash)
  {
    var trimmed := Trim(path, Slash);
    var end := IndexFrom(trimmed, '/', 0);
    if SimpleName(path).Some? {
      assert trimmed == "simple" + "/" + trimmed[end + 1..];
      assert "simple" + "/" == "simple/";
    }
  }

  lemma SimpleNameIsFirst(tail: string)
    ensures var first := tail[..IndexFrom(tail, '/', 0)];
            SimpleName("/simple/" + tail) == if first == "" then None else Some(first)
  {
    var v := PageTail(tail);
    SameFirstElement(tail, v);
    if v == "" {
      IndexSkips("", "simple", "", '/');
      assert "" + "simple" + "" == "simple";
    } else {
      FirstSplits("simple", '/', v);
    }
  }

  /** What precedes the first slash. */
  lemma FirstElementIs(tail: string, name: string)
    ensures var first := tail[..IndexFrom(tail, '/', 0)];
            first == name && name != "" <==> Element(name) && exists rest :: tail == name + rest && (rest == "" || rest[0] == '/')
  {
    var i := IndexFrom(tail, '/', 0);
    var first := tail[..i];
    assert tail == first + tail[i..];
    assert forall k :: 0 <= k < |first| ==> first[k] == tail[k];
    forall rest | Element(name) && tail == name + rest && (rest == "" || rest[0] == '/')
      ensures first == name
    {
      assert tail == "" + name + rest;
      IndexSkips("", name, rest, '/');
    }
  }

  lemma SameFirstElement(tail: string, v: string)
    requires v <= tail && forall i :: |v| <= i < |tail| ==> tail[i] == '/'
    ensures tail[..IndexFrom(tail, '/', 0)] == v[..IndexFrom(v, '/', 0)]
  {
    var i, j := IndexFrom(tail, '/', 0), IndexFrom(v, '/', 0);
    assert forall k :: 0 <= k < |v| ==> v[k] == tail[k];
    assert j < |v| ==> tail[j] == '/';
    assert i < |v| ==> v[i] == '/';
    assert |v| < |tail| ==> tail[|v|] == '/';
    assert i == j && tail[..i] == v[..j];
  }

  lemma SimplePageIsServed(name: string, verb: string, hasPipeline: bool)
    ensures Dispatch(verb, "/simple/" + name + "/", hasPipeline) == SimplePage
  {
    var path := "/simple/" + name + "/";
    assert path[..8] == "/simple/" && path[1] == 's';
  }

  lemma NormalizedCharIff(c: char)
    ensures LowerChar(NormalizeChar(c)) == LowerChar(c) <==> c != '_' && c != '.'
  {
  }

  /** Normalization changes a name beyond case iff it has an underscore or a dot. */
  lemma NormalizationKeepsCaseIff(name: string)
    ensures EqualFold(NormalizePyPI(name), name) <==> Free(name, '_') && Free(name, '.')
  {
    var normal := NormalizePyPI(name);
    forall i | 0 <= i < |name|
      ensures ToLower(normal)[i] == ToLower(name)[i] <==> name[i] != '_' && name[i] != '.'
    {
      NormalizedCharIff(name[i]);
    }
    if EqualFold(normal, name) {
      assert forall i :: 0 <= i < |name| ==> ToLower(normal)[i] == ToLower(name)[i];
    }
    if Free(name, '_') && Free(name, '.') {
      assert forall i :: 0 <= i < |name| ==> name[i] in name;
      assert ToLower(normal) == ToLower(name);
    }
  }
}
