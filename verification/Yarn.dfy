/**
  The yarn.lock (v1) parser of internal/lockfile/yarn.go, on the lines of the file: a header names a
  package, the first version line after it gives the version, and repetitions are dropped.
 */
module Yarn {
  import opened Shield
  import opened Text

  /** The name in the first entry of a header: what precedes its last at sign. */
  function EntryName(header: string): string {
    var first := Trim(header[..IndexFrom(header, ',', 0)], Space);
    var at := LastIndexOf(first, '@');
    if at > 0 then first[..at] else first
  }

  /** The package name in a header line. */
  function HeaderName(line: string): string {
    EntryName(Trim(TrimSuffix(Trim(line, Space), ":"), Quote))
  }

  predicate Skipped(line: string) {
    HasPrefix(line, "#") || Trim(line, Space) == ""
  }

  predicate IsHeader(line: string) {
    !Skipped(line) && !HasPrefix(line, " ") && HasSuffix(Trim(line, Space), ":")
  }

  // ----- specification: a state machine over lines -----

  datatype Kind = Header(name: string) | VersionLine(version: string) | Other

  function Classify(line: string): Kind {
    if Skipped(line) then Other
    else if IsHeader(line) then Header(HeaderName(line))
    else if HasPrefix(Trim(line, Space), "version ") then VersionLine(Trim(Trim(line, Space)[8..], Quote))
    else Other
  }

  function Kinds(lines: seq<string>): seq<Kind> {
    seq(|lines|, i requires 0 <= i < |lines| => Classify(lines[i]))
  }

  function KeyOf(r: PackageRef): string {
    r.name + "@" + r.version
  }

  /** The keys of the references, which the parser remembers as `seen`. */
  ghost function Keys(refs: seq<PackageRef>): set<string> {
    set r | r in refs :: KeyOf(r)
  }

  datatype State = State(refs: seq<PackageRef>, name: string)

  const START := State([], "")

  /** The reference for a name and version, if it is new. */
  ghost function Fresh(refs: seq<PackageRef>, name: string, version: string): seq<PackageRef> {
    var r := PackageRef(NPM, name, version);
    if version != "" && KeyOf(r) !in Keys(refs) then [r] else []
  }

  ghost function Step(s: State, kind: Kind): State {
    match kind
    case Header(name) => State(s.refs, name)
    case VersionLine(version) => if s.name == "" then s else State(s.refs + Fresh(s.refs, s.name, version), "")
    case Other => s
  }

  ghost function Read(s: State, kinds: seq<Kind>): State {
    if kinds == [] then s else Step(Read(s, kinds[..|kinds| - 1]), kinds[|kinds| - 1])
  }

  /** The references a file's lines stand for. */
  ghost function Refs(lines: seq<string>): seq<PackageRef> {
    Read(START, Kinds(lines)).refs
  }

  /** The version branch of the loop body. */
  method AddVersion(refs: seq<PackageRef>, seen: set<string>, name: string, version: string)
    returns (refs': seq<PackageRef>, seen': set<string>)
    requires seen == Keys(refs)
    ensures refs' == refs + Fresh(refs, name, version) && seen' == Keys(refs')
  {
    refs', seen' := refs, seen;
    var key := name + "@" + version;
    if key !in seen && version != "" {
      var r := PackageRef(NPM, name, version);
      KeysGrow(refs, r);
      seen' := seen + {key};
      refs' := refs + [r];
    }
  }

  /** One line moves the variables of Parse by its kind. */
  method ReadLine(line: string, refs: seq<PackageRef>, seen: set<string>, name: string)
    returns (refs': seq<PackageRef>, seen': set<string>, name': string)
    requires seen == Keys(refs)
    ensures State(refs', name') == Step(State(refs, name), Classify(line)) && seen' == Keys(refs')
  {
    refs', seen', name' := refs, seen, name;
    if Skipped(line) {
      return;
    }
    if IsHeader(line) {
      name' := HeaderName(line);
      return;
    }
    var trimmed := Trim(line, Space);
    if HasPrefix(trimmed, "version ") && name != "" {
      refs', seen' := AddVersion(refs, seen, name, Trim(trimmed[8..], Quote));
      name' := "";
    }
  }

  method Parse(lines: seq<string>) returns (refs: seq<PackageRef>)
    ensures refs == Refs(lines)
  {
    var seen: set<string> := {};
    refs := [];
    var currentName := "";
    ghost var kinds := Kinds(lines);
    for i := 0 to |lines|
      invariant State(refs, currentName) == Read(START, kinds[..i])
      invariant seen == Keys(refs)
    {
      assert kinds[..i + 1][..i] == kinds[..i] && kinds[i] == Classify(lines[i]);
      refs, seen, currentName := ReadLine(lines[i], refs, seen, currentName);
    }
    assert kinds[..|lines|] == kinds;
  }

  lemma KeysGrow(refs: seq<PackageRef>, r: PackageRef)
    ensures Keys(refs + [r]) == Keys(refs) + {KeyOf(r)}
  {
    assert forall q :: q in refs + [r] <==> q in refs || q == r;
  }

  // ----- concatenation -----

  /** The references whose keys are not taken. */
  ghost function Without(refs: seq<PackageRef>, taken: set<string>): seq<PackageRef> {
    if refs == [] then []
    else
      var last := refs[|refs| - 1];
      Without(refs[..|refs| - 1], taken) + if KeyOf(last) in taken then [] else [last]
  }

  lemma {:induction false} KeysOfWithout(refs: seq<PackageRef>, taken: set<string>)
    ensures taken + Keys(Without(refs, taken)) == taken + Keys(refs)
  {
    if refs != [] {
      var init, last := refs[..|refs| - 1], refs[|refs| - 1];
      KeysOfWithout(init, taken);
      assert refs == init + [last];
      KeysGrow(init, last);
      KeysGrow(Without(init, taken), last);
      assert Without(init, taken) + [] == Without(init, taken);
    }
  }

  lemma KeysConcat(xs: seq<PackageRef>, ys: seq<PackageRef>)
    ensures Keys(xs + ys) == Keys(xs) + Keys(ys)
  {
    assert forall q :: q in xs + ys <==> q in xs || q in ys;
  }

  lemma WithoutFresh(refs: seq<PackageRef>, earlier: seq<PackageRef>, name: string, version: string)
    ensures Without(refs + Fresh(refs, name, version), Keys(earlier)) ==
            Without(refs, Keys(earlier)) + Fresh(earlier + Without(refs, Keys(earlier)), name, version)
  {
    var r := PackageRef(NPM, name, version);
    KeysOfWithout(refs, Keys(earlier));
    KeysConcat(earlier, Without(refs, Keys(earlier)));
    assert (refs + [r])[..|refs|] == refs;
    assert refs + [] == refs && Without(refs, Keys(earlier)) + [] == Without(refs, Keys(earlier));
  }

  /** With references found earlier, the same lines add only what is new. */
  lemma {:induction false} EarlierRefsFilter(earlier: seq<PackageRef>, name: string, kinds: seq<Kind>)
    ensures var alone := Read(State([], name), kinds);
            Read(State(earlier, name), kinds) == State(earlier + Without(alone.refs, Keys(earlier)), alone.name)
  {
    if kinds != [] {
      var init, last := kinds[..|kinds| - 1], kinds[|kinds| - 1];
      EarlierRefsFilter(earlier, name, init);
      var alone := Read(State([], name), init);
      if last.VersionLine? && alone.name != "" {
        WithoutFresh(alone.refs, earlier, alone.name, last.version);
      }
    }
  }

  lemma {:induction false} ReadConcat(s: State, xs: seq<Kind>, ys: seq<Kind>)
    ensures Read(s, xs + ys) == Read(Read(s, xs), ys)
  {
    if ys == [] {
      assert xs + ys == xs;
    } else {
      assert (xs + ys)[..|xs + ys| - 1] == xs + ys[..|ys| - 1];
      ReadConcat(s, xs, ys[..|ys| - 1]);
    }
  }

  lemma ReadFromHeader(s: State, kinds: seq<Kind>)
    requires kinds != [] && kinds[0].Header?
    ensures Read(s, kinds) == State(s.refs + Without(Read(START, kinds).refs, Keys(s.refs)), Read(START, kinds).name)
  {
    var first, rest := [kinds[0]], kinds[1..];
    assert kinds == first + rest && first[..0] == [];
    ReadConcat(s, first, rest);
    ReadConcat(START, first, rest);
    EarlierRefsFilter(s.refs, kinds[0].name, rest);
  }

  /** A file that continues with a header is read as its two parts, up to repetitions. */
  lemma ParseConcat(xs: seq<string>, ys: seq<string>)
    requires ys != [] && IsHeader(ys[0])
    ensures Refs(xs + ys) == Refs(xs) + Without(Refs(ys), Keys(Refs(xs)))
  {
    KindsConcat(xs, ys);
    ReadConcat(START, Kinds(xs), Kinds(ys));
    ReadFromHeader(Read(START, Kinds(xs)), Kinds(ys));
  }

  // ----- one reference per header, none twice -----

  ghost function Headers(kinds: seq<Kind>): nat {
    if kinds == [] then 0 else Headers(kinds[..|kinds| - 1]) + if kinds[|kinds| - 1].Header? then 1 else 0
  }

  ghost predicate DistinctKeys(refs: seq<PackageRef>) {
    forall i, j :: 0 <= i < j < |refs| ==> KeyOf(refs[i]) != KeyOf(refs[j])
  }

  lemma {:induction false} OneRefPerHeader(kinds: seq<Kind>)
    ensures |Read(START, kinds).refs| + (if Read(START, kinds).name == "" then 0 else 1) <= Headers(kinds)
    ensures DistinctKeys(Read(START, kinds).refs)
    ensures forall r :: r in Read(START, kinds).refs ==> r.ecosystem == NPM && r.name != "" && r.version != ""
  {
    if kinds != [] {
      OneRefPerHeader(kinds[..|kinds| - 1]);
      var before := Read(START, kinds[..|kinds| - 1]).refs;
      assert forall i :: 0 <= i < |before| ==> before[i] in before && KeyOf(before[i]) in Keys(before);
    }
  }

  /** Each header yields at most one reference, no two references have the same key, and no part of one is empty. */
  lemma RefsAreBoundedByHeaders(lines: seq<string>)
    ensures |Refs(lines)| <= Headers(Kinds(lines)) && DistinctKeys(Refs(lines))
    ensures forall r :: r in Refs(lines) ==> r.ecosystem == "npm" && r.name != "" && r.version != ""
  {
    OneRefPerHeader(Kinds(lines));
  }

  // ----- lines that say nothing -----

  /** Comments and blank lines can be put anywhere, whatever they end in. */
  lemma CommentsAreSkipped(xs: seq<string>, line: string, ys: seq<string>)
    requires (line != "" && line[0] == '#') || Blank(line)
    ensures Refs(xs + [line] + ys) == Refs(xs + ys)
  {
    if Blank(line) {
      BlanksAreTrimmed(line, "", "");
      assert line + "" + "" == line;
    }
    assert Kinds([line]) == [Other];
    KindsConcat(xs, [line]);
    KindsConcat(xs + [line], ys);
    KindsConcat(xs, ys);
    OneKind(START, Kinds(xs), Other);
    ReadConcat(START, Kinds(xs) + [Other], Kinds(ys));
    ReadConcat(START, Kinds(xs), Kinds(ys));
  }

  /** An indented line opens no block, even if it ends in a colon as "  dependencies:" does. */
  lemma IndentedIsNoHeader(line: string)
    requires line != "" && line[0] == ' '
    ensures !Classify(line).Header?
    ensures !("version " <= Trim(line, Space)) ==> Classify(line) == Other
  {
  }

  // ----- round trip -----

  /**
    A block: a header whose first entry is name@range, in quotes or not, with `more` entries after it;
    lines before the version; the version; and the rest of the block.
   */
  datatype Block = Block(name: string, range: string, quoted: bool, more: string,
                         before: seq<string>, version: string, after: seq<string>)

  function HeaderLine(b: Block): string {
    var quote := if b.quoted then "\"" else "";
    quote + (b.name + "@" + (b.range + quote + b.more)) + ":"
  }

  function VersionOf(version: string): string {
    "  " + ("version " + ("\"" + version + "\""))
  }

  function Lines(b: Block): seq<string> {
    [HeaderLine(b)] + b.before + [VersionOf(b.version)] + b.after
  }

  ghost function Print(blocks: seq<Block>): seq<string> {
    if blocks == [] then [] else Print(blocks[..|blocks| - 1]) + Lines(blocks[|blocks| - 1])
  }

  predicate PlainName(name: string) {
    name != "" && !Space(name[0]) && name[0] != '"' && name[0] != '#' && Free(name, ',')
  }

  predicate WellFormed(b: Block) {
    && PlainName(b.name)
    && Free(b.range, ',') && (b.more == "" || b.more[0] == ',')
    && Unquoted(b.version) && Free(b.version, '@')
    && (forall line :: line in b.before ==> Classify(line) == Other)
    && (forall line :: line in b.after ==> !Classify(line).Header?)
  }

  /** In particular the indented lines of a block may be anything, but a version only where it belongs. */
  lemma IndentedIsWellFormed(b: Block)
    requires PlainName(b.name) && Free(b.range, ',') && (b.more == "" || b.more[0] == ',')
    requires Unquoted(b.version) && Free(b.version, '@')
    requires forall line :: line in b.before + b.after ==> line != "" && line[0] == ' '
    requires forall line :: line in b.before ==> !("version " <= Trim(line, Space))
    ensures WellFormed(b)
  {
    forall line | line in b.before || line in b.after
      ensures line in b.before + b.after && !Classify(line).Header?
      ensures line in b.before ==> Classify(line) == Other
    {
      assert line in b.before + b.after;
      IndentedIsNoHeader(line);
    }
  }

  /**
    The block as its header reads: the name runs up to the last at sign of the first entry, so it takes
    in a range's own at signs, as in alias@npm:real@^1.0.0.
   */
  function Reading(b: Block): Block {
    var at := LastIndexOf(b.range, '@');
    if at < 0 then b else b.(name := b.name + "@" + b.range[..at], range := b.range[at + 1..])
  }

  function Readings(blocks: seq<Block>): seq<Block> {
    seq(|blocks|, i requires 0 <= i < |blocks| => Reading(blocks[i]))
  }

  function RefOf(b: Block): PackageRef {
    PackageRef(NPM, b.name, b.version)
  }

  /** The distinct packages of the blocks, each where it occurs first. */
  ghost function FirstOccurrences(blocks: seq<Block>): seq<PackageRef> {
    if blocks == [] then []
    else
      var before := FirstOccurrences(blocks[..|blocks| - 1]);
      var r := RefOf(blocks[|blocks| - 1]);
      before + if r in before then [] else [r]
  }

  /** Up to the first comma, and without trailing blanks, a tail that starts before the comma has no at sign. */
  lemma EntryTail(range: string, quote: string, more: string) returns (tail: string)
    requires Free(range, '@') && Free(range, ',') && (quote == "" || quote == "\"") && (more == "" || more[0] == ',')
    ensures var t := TrimRight(range + quote + more, Quote);
            tail == TrimRight(t[..IndexFrom(t, ',', 0)], Space) && Free(tail, '@')
  {
    var all := range + quote + more;
    var t := TrimRight(all, Quote);
    var entry := t[..IndexFrom(t, ',', 0)];
    tail := TrimRight(entry, Space);
    assert forall k :: 0 <= k < |entry| ==> entry[k] == t[k] == all[k] && entry[k] != ',';
    assert |entry| <= |range + quote| by {
      assert more != "" ==> all[|range + quote|] == ',';
    }
    assert forall k :: 0 <= k < |entry| ==> entry[k] == (range + quote)[k];
    assert forall k :: 0 <= k < |range| ==> range[k] in range;
    assert forall k :: 0 <= k < |tail| ==> tail[k] == (range + quote)[k] && tail[k] != '@';
  }

  lemma EntryIsRead(name: string, entry: string)
    requires PlainName(name)
    ensures Trim(name + "@" + entry, Space) == name + "@" + TrimRight(entry, Space)
  {
    var s := name + "@" + entry;
    assert s[0] == name[0];
    TrimRightStops(name, '@', entry, Space);
  }

  lemma LastAt(name: string, tail: string)
    requires Free(tail, '@')
    ensures var s := name + "@" + tail; LastIndexOf(s, '@') == |name| && s[..|name|] == name
  {
    var s := name + "@" + tail;
    assert s[|name|] == '@';
    assert forall k :: |name| < k < |s| ==> s[k] == tail[k - |name| - 1] && s[k] in tail;
  }

  lemma EntryNameIs(name: string, t: string)
    requires PlainName(name) && Free(TrimRight(t[..IndexFrom(t, ',', 0)], Space), '@')
    ensures EntryName(name + "@" + t) == name
  {
    var entry := t[..IndexFrom(t, ',', 0)];
    FreeParts(name, "@", ',');
    CommaAfter(name + "@", t);
    assert (name + "@" + t)[..IndexFrom(name + "@" + t, ',', 0)] == name + "@" + entry;
    EntryIsRead(name, entry);
    LastAt(name, TrimRight(entry, Space));
  }

  lemma CommaAfter(front: string, t: string)
    requires Free(front, ',')
    ensures IndexFrom(front + t, ',', 0) == |front| + IndexFrom(t, ',', 0)
  {
    var i := IndexFrom(t, ',', 0);
    var run := front + t[..i];
    assert forall k :: 0 <= k < |run| ==> run[k] != ',' by {
      assert forall k :: 0 <= k < |front| ==> front[k] in front;
    }
    assert front + t == "" + run + t[i..];
    IndexSkips("", run, t[i..], ',');
  }

  lemma HeaderLineShape(quote: string, name: string, all: string)
    requires PlainName(name) && (quote == "" || quote == "\"")
    ensures var body := quote + (name + "@" + all);
            && Trim(body + ":", Space) == body + ":" && TrimSuffix(body + ":", ":") == body && IsHeader(body + ":")
  {
    var body := quote + (name + "@" + all);
    var line := body + ":";
    assert line[0] == if quote == "" then name[0] else '"';
    assert line[..|line| - 1] == body && line[|line| - 1..] == ":";
    TrimNothing(line, Space);
  }

  /** The name as printed is read back, if the range has no at sign. */
  lemma HeaderIsClassified(b: Block)
    requires WellFormed(b) && Free(b.range, '@')
    ensures Classify(HeaderLine(b)) == Header(b.name)
  {
    var quote := if b.quoted then "\"" else "";
    var all := b.range + quote + b.more;
    HeaderLineShape(quote, b.name, all);
    HeaderQuotes(quote, b.name, all);
    var tail := EntryTail(b.range, quote, b.more);
    EntryNameIs(b.name, TrimRight(all, Quote));
  }

  /** Trimming quotes leaves the name in front. */
  lemma HeaderQuotes(quote: string, name: string, all: string)
    requires PlainName(name) && (quote == "" || quote == "\"")
    ensures Trim(quote + (name + "@" + all), Quote) == name + "@" + TrimRight(all, Quote)
  {
    var inner := name + "@" + all;
    assert inner[0] == name[0];
    TrimLeftPadding(quote, inner, Quote);
    TrimRightStops(name, '@', all, Quote);
  }

  lemma CutAround(name: string, range: string, at: nat, tail: string)
    requires at < |range| && range[at] == '@'
    ensures name + "@" + range[..at] + "@" + (range[at + 1..] + tail) == name + "@" + (range + tail)
  {
    assert range == range[..at] + "@" + range[at + 1..];
  }

  /** The reading's header is the same line. */
  lemma ReadingIsSameHeader(b: Block)
    ensures HeaderLine(Reading(b)) == HeaderLine(b)
  {
    var at := LastIndexOf(b.range, '@');
    if at >= 0 {
      var quote := if b.quoted then "\"" else "";
      var after := b.range[at + 1..];
      CutAround(b.name, b.range, at, quote + b.more);
      assert after + quote + b.more == after + (quote + b.more) && b.range + quote + b.more == b.range + (quote + b.more);
    }
  }

  lemma ReadingIsWellFormed(b: Block)
    requires WellFormed(b)
    ensures WellFormed(Reading(b)) && Free(Reading(b).range, '@')
  {
    var at := LastIndexOf(b.range, '@');
    if at >= 0 {
      var before, after := b.range[..at], b.range[at + 1..];
      assert b.range == before + "@" + after;
      FreeParts(before + "@", after, ',');
      FreeParts(before, "@", ',');
      FreeParts(b.name, "@", ',');
      FreeParts(b.name + "@", before, ',');
    }
  }

  /** A block and its reading are the same text. */
  lemma ReadingIsSameText(b: Block)
    requires WellFormed(b)
    ensures WellFormed(Reading(b)) && Free(Reading(b).range, '@') && Lines(Reading(b)) == Lines(b)
  {
    ReadingIsWellFormed(b);
    ReadingIsSameHeader(b);
  }

  /** What a header line is read as, whatever its range. */
  lemma HeaderIsReading(b: Block)
    requires WellFormed(b)
    ensures Classify(HeaderLine(b)) == Header(Reading(b).name)
  {
    ReadingIsSameText(b);
    HeaderIsClassified(Reading(b));
    assert HeaderLine(b) == Lines(b)[0] == Lines(Reading(b))[0] == HeaderLine(Reading(b));
  }

  /** A header is read as the name it was printed for iff the range has no at sign. */
  lemma NameIsReadIff(b: Block)
    requires WellFormed(b)
    ensures Classify(HeaderLine(b)) == Header(b.name) <==> Free(b.range, '@')
  {
    HeaderIsReading(b);
    var at := LastIndexOf(b.range, '@');
    assert at >= 0 ==> b.range[at] in b.range;
  }

  lemma VersionIsClassified(version: string)
    requires Unquoted(version)
    ensures Classify(VersionOf(version)) == VersionLine(version)
  {
    var quoted := "\"" + version + "\"";
    var text := "version " + quoted;
    var line := "  " + text;
    assert text[0] == 'v' && text[|text| - 1] == '"' && text[8..] == quoted && text[..8] == "version ";
    TrimPadding("  ", text, "", Space);
    assert "  " + text + "" == line;
    assert line[0] == ' ' && HasPrefix(line, " ");
    TrimPadding("\"", version, "\"", Quote);
  }

  lemma KeyIsInjective(r: PackageRef, q: PackageRef)
    requires r.ecosystem == q.ecosystem && Free(r.version, '@') && Free(q.version, '@') && KeyOf(r) == KeyOf(q)
    ensures r == q
  {
    LastAt(r.name, r.version);
    LastAt(q.name, q.version);
    assert KeyOf(r)[|r.name| + 1..] == r.version && KeyOf(q)[|q.name| + 1..] == q.version;
  }

  lemma KindsConcat(xs: seq<string>, ys: seq<string>)
    ensures Kinds(xs + ys) == Kinds(xs) + Kinds(ys)
  {
  }

  lemma OneKind(s: State, kinds: seq<Kind>, kind: Kind)
    ensures Read(s, kinds + [kind]) == Step(Read(s, kinds), kind)
  {
    assert (kinds + [kind])[..|kinds|] == kinds;
  }

  lemma {:induction false} IdleKinds(s: State, kinds: seq<Kind>)
    requires forall k :: k in kinds ==> k == Other || (s.name == "" && !k.Header?)
    ensures Read(s, kinds) == s
  {
    if kinds != [] {
      var init := kinds[..|kinds| - 1];
      assert kinds[|kinds| - 1] in kinds && forall k :: k in init ==> k in kinds;
      IdleKinds(s, init);
    }
  }

  /** The kinds of a block's lines, given those of the lines around the version. */
  lemma BlockIsRead(s: State, name: string, before: seq<Kind>, version: string, after: seq<Kind>)
    requires name != "" && (forall k :: k in before ==> k == Other) && forall k :: k in after ==> !k.Header?
    ensures Read(s, [Header(name)] + before + [VersionLine(version)] + after) == State(s.refs + Fresh(s.refs, name, version), "")
  {
    var header := [Header(name)];
    assert header[..0] == [];
    ReadConcat(s, header, before);
    IdleKinds(State(s.refs, name), before);
    OneKind(s, header + before, VersionLine(version));
    ReadConcat(s, header + before + [VersionLine(version)], after);
    IdleKinds(State(s.refs + Fresh(s.refs, name, version), ""), after);
  }

  lemma BlockIsClassified(b: Block)
    requires WellFormed(b) && Free(b.range, '@')
    ensures Kinds(Lines(b)) == [Header(b.name)] + Kinds(b.before) + [VersionLine(b.version)] + Kinds(b.after)
    ensures forall k :: k in Kinds(b.before) ==> k == Other
    ensures forall k :: k in Kinds(b.after) ==> !k.Header?
  {
    HeaderIsClassified(b);
    VersionIsClassified(b.version);
    var h, v := [HeaderLine(b)], [VersionOf(b.version)];
    assert Kinds(h) == [Header(b.name)] && Kinds(v) == [VersionLine(b.version)];
    KindsConcat(h, b.before);
    KindsConcat(h + b.before, v);
    KindsConcat(h + b.before + v, b.after);
  }

  lemma {:induction false} FirstOccurrencesComeFromBlocks(blocks: seq<Block>)
    requires forall b :: b in blocks ==> WellFormed(b)
    ensures forall r :: r in FirstOccurrences(blocks) ==> r.ecosystem == NPM && Free(r.version, '@')
  {
    if blocks != [] {
      var init := blocks[..|blocks| - 1];
      assert blocks[|blocks| - 1] in blocks && forall b :: b in init ==> b in blocks;
      FirstOccurrencesComeFromBlocks(init);
    }
  }

  /** Only the package itself takes its key. */
  lemma FreshIffNew(refs: seq<PackageRef>, r: PackageRef)
    requires r.ecosystem == NPM && r.version != "" && Free(r.version, '@')
    requires forall q :: q in refs ==> q.ecosystem == NPM && Free(q.version, '@')
    ensures Fresh(refs, r.name, r.version) == if r in refs then [] else [r]
  {
    assert r in refs ==> KeyOf(r) in Keys(refs);
    if KeyOf(r) in Keys(refs) {
      var q :| q in refs && KeyOf(q) == KeyOf(r);
      KeyIsInjective(q, r);
    }
  }

  lemma {:induction false} PlainBlocksAreRead(blocks: seq<Block>)
    requires forall b :: b in blocks ==> WellFormed(b) && Free(b.range, '@')
    ensures Refs(Print(blocks)) == FirstOccurrences(blocks)
  {
    if blocks != [] {
      var init, last := blocks[..|blocks| - 1], blocks[|blocks| - 1];
      assert last in blocks && forall b :: b in init ==> b in blocks;
      PlainBlocksAreRead(init);
      KindsConcat(Print(init), Lines(last));
      BlockIsClassified(last);
      ReadConcat(START, Kinds(Print(init)), Kinds(Lines(last)));
      BlockIsRead(Read(START, Kinds(Print(init))), last.name, Kinds(last.before), last.version, Kinds(last.after));
      FirstOccurrencesComeFromBlocks(init);
      FreshIffNew(FirstOccurrences(init), RefOf(last));
    }
  }

  lemma {:induction false} ReadingsAreSameText(blocks: seq<Block>)
    requires forall b :: b in blocks ==> WellFormed(b)
    ensures Print(Readings(blocks)) == Print(blocks)
  {
    if blocks != [] {
      var init, last := blocks[..|blocks| - 1], blocks[|blocks| - 1];
      assert last in blocks && forall b :: b in init ==> b in blocks;
      ReadingsAreSameText(init);
      ReadingIsSameText(last);
      assert Readings(blocks)[..|init|] == Readings(init);
    }
  }

  /**
    Printing any blocks and parsing the lines gives back the distinct packages their headers read as,
    each where it occurs first.
   */
  lemma PrintedBlocksAreRead(blocks: seq<Block>)
    requires forall b :: b in blocks ==> WellFormed(b)
    ensures Refs(Print(blocks)) == FirstOccurrences(Readings(blocks))
    ensures (forall b :: b in blocks ==> Free(b.range, '@')) ==> Refs(Print(blocks)) == FirstOccurrences(blocks)
  {
    var readings := Readings(blocks);
    forall b | b in readings
      ensures WellFormed(b) && Free(b.range, '@')
    {
      var i :| 0 <= i < |blocks| && Reading(blocks[i]) == b;
      assert blocks[i] in blocks;
      ReadingIsSameText(blocks[i]);
    }
    PlainBlocksAreRead(readings);
    ReadingsAreSameText(blocks);
    if forall b :: b in blocks ==> Free(b.range, '@') {
      PlainBlocksAreRead(blocks);
    }
  }
}
