/**
  The poetry.lock parser of internal/lockfile/poetry.go, on the lines of the file. It follows
  [[package]] blocks and drops development and optional packages.
 */
module Poetry {
  import opened Shield
  import opened Text

  function NormalizeChar(c: char): char {
    if c == '_' then '-' else LowerChar(c)
  }

  function NormalizePoetry(name: string): string {
    seq(|name|, i requires 0 <= i < |name| => NormalizeChar(name[i]))
  }

  /** A name in the parser's form: no capitals and no underscores. */
  predicate Normal(name: string) {
    forall i :: 0 <= i < |name| ==> !('A' <= name[i] <= 'Z') && name[i] != '_'
  }

  /** The same letter in any case, or a hyphen for an underscore. */
  predicate SameInNames(c: char, d: char) {
    c == d || (c in "-_" && d in "-_") || ('A' <= c <= 'Z' && d as int == c as int + 32)
    || ('A' <= d <= 'Z' && c as int == d as int + 32)
  }

  /** The normalized name is the one name of that form that reads the same, byte by byte; dots stay. */
  lemma NormalizedIff(name: string, n: string)
    ensures n == NormalizePoetry(name) <==>
            Normal(n) && |n| == |name| && forall i :: 0 <= i < |name| ==> SameInNames(n[i], name[i])
  {
    forall i | 0 <= i < |name|
      ensures var c := NormalizeChar(name[i]);
              !('A' <= c <= 'Z') && c != '_' && SameInNames(c, name[i])
      ensures forall d: char :: !('A' <= d <= 'Z') && d != '_' && SameInNames(d, name[i]) ==> d == NormalizeChar(name[i])
    {
      assert forall c: char :: c in "-_" <==> c == '-' || c == '_';
    }
    if Normal(n) && |n| == |name| && forall i :: 0 <= i < |name| ==> SameInNames(n[i], name[i]) {
      assert forall i :: 0 <= i < |name| ==> n[i] == NormalizePoetry(name)[i];
    }
  }

  datatype KeyValue = KeyValue(key: string, value: string)

  /** parseKV: key and unquoted value around the first equals sign. */
  function ParseKV(line: string): Option<KeyValue> {
    var eq := IndexFrom(line, '=', 0);
    if eq == |line| then None
    else Some(KeyValue(Trim(line[..eq], Space), Trim(Trim(line[eq + 1..], Space), Quote)))
  }

  predicate OpensSection(line: string) {
    HasPrefix(Trim(line, Space), "[[") || HasPrefix(Trim(line, Space), "[metadata")
  }

  // ----- specification: a state machine over lines -----

  /** What a line means to the parser. */
  datatype Kind = Package | OtherSection | Name(value: string) | Version(value: string) | Dev | Other

  function KindOfPair(kv: KeyValue): Kind {
    if kv.key == "name" then Name(kv.value)
    else if kv.key == "version" then Version(kv.value)
    else if kv.key == "category" && kv.value == "dev" then Dev
    else if kv.key == "optional" && kv.value == "true" then Dev
    else Other
  }

  function Classify(line: string): Kind {
    if Trim(line, Space) == "[[package]]" then Package
    else if OpensSection(line) then OtherSection
    else if ParseKV(Trim(line, Space)).Some? then KindOfPair(ParseKV(Trim(line, Space)).value)
    else Other
  }

  function Kinds(lines: seq<string>): seq<Kind> {
    seq(|lines|, i requires 0 <= i < |lines| => Classify(lines[i]))
  }

  datatype State = State(refs: seq<PackageRef>, inPackage: bool, name: string, version: string, isDev: bool)

  const START := State([], false, "", "", false)

  /** The block read so far, if it is one to report. */
  function Pending(s: State): seq<PackageRef> {
    if s.inPackage && s.name != "" && s.version != "" && !s.isDev then
      [PackageRef(PYPI, NormalizePoetry(s.name), s.version)]
    else []
  }

  function Step(s: State, kind: Kind): State {
    match kind
    case Package => State(s.refs + Pending(s), true, "", "", false)
    case OtherSection => State(s.refs + Pending(s), false, "", "", false)
    case Name(v) => if s.inPackage then s.(name := v) else s
    case Version(v) => if s.inPackage then s.(version := v) else s
    case Dev => if s.inPackage then s.(isDev := true) else s
    case Other => s
  }

  ghost function Read(s: State, kinds: seq<Kind>): State {
    if kinds == [] then s else Step(Read(s, kinds[..|kinds| - 1]), kinds[|kinds| - 1])
  }

  ghost function Result(kinds: seq<Kind>): seq<PackageRef> {
    Read(START, kinds).refs + Pending(Read(START, kinds))
  }

  /** The references a file's lines stand for. */
  ghost function Refs(lines: seq<string>): seq<PackageRef> {
    Result(Kinds(lines))
  }

  /** The variables of Parse, which its `flush` shares. */
  class Reader {
    var refs: seq<PackageRef>
    var inPackage: bool
    var currentName: string
    var currentVersion: string
    var isDev: bool

    function View(): State
      reads this
    {
      State(refs, inPackage, currentName, currentVersion, isDev)
    }

    constructor ()
      ensures View() == START
    {
      refs, inPackage, currentName, currentVersion, isDev := [], false, "", "", false;
    }

    method Flush()
      modifies this
      ensures View() == State(old(refs) + Pending(old(View())), old(inPackage), "", "", false)
    {
      if inPackage && currentName != "" && currentVersion != "" && !isDev {
        refs := refs + [PackageRef(PYPI, NormalizePoetry(currentName), currentVersion)];
      }
      currentName, currentVersion := "", "";
      isDev := false;
    }

    /** The switch over keys. */
    method Assign(kv: KeyValue)
      requires inPackage
      modifies this
      ensures View() == Step(old(View()), KindOfPair(kv))
    {
      if kv.key == "name" {
        currentName := kv.value;
      } else if kv.key == "version" {
        currentVersion := kv.value;
      } else if kv.key == "category" {
        if kv.value == "dev" {
          isDev := true;
        }
      } else if kv.key == "optional" {
        if kv.value == "true" {
          isDev := true;
        }
      }
    }

    /** The loop body. */
    method ReadLine(text: string)
      modifies this
      ensures View() == Step(old(View()), Classify(text))
    {
      var line := Trim(text, Space);
      if line == "[[package]]" {
        Flush();
        inPackage := true;
        return;
      }
      if HasPrefix(line, "[[") || HasPrefix(line, "[metadata") {
        Flush();
        inPackage := false;
        return;
      }
      if !inPackage {
        return;
      }
      var kv := ParseKV(line);
      if kv.Some? {
        Assign(kv.value);
      }
    }
  }

  lemma OneMoreLine(lines: seq<string>, i: nat)
    requires i < |lines|
    ensures Read(START, Kinds(lines)[..i + 1]) == Step(Read(START, Kinds(lines)[..i]), Classify(lines[i]))
  {
    assert Kinds(lines)[..i + 1][..i] == Kinds(lines)[..i];
  }

  method Parse(lines: seq<string>) returns (refs: seq<PackageRef>)
    ensures refs == Refs(lines)
  {
    var reader := new Reader();
    ghost var kinds := Kinds(lines);
    for i := 0 to |lines|
      invariant fresh(reader)
      invariant reader.View() == Read(START, kinds[..i])
    {
      OneMoreLine(lines, i);
      reader.ReadLine(lines[i]);
    }
    assert kinds[..|lines|] == kinds;
    reader.Flush();
    refs := reader.refs;
  }

  // ----- concatenation -----

  lemma {:induction false} ReadConcat(s: State, xs: seq<Kind>, ys: seq<Kind>)
    ensures Read(s, xs + ys) == Read(Read(s, xs), ys)
  {
    if ys == [] {
      assert xs + ys == xs;
    } else {
      assert (xs + ys)[..|xs + ys| - 1] == xs + ys[..|ys| - 1];
      ReadConcat(s, xs, ys[..|ys| - 1]);
    }
  }

  /** References found earlier do not influence what is read next. */
  lemma {:induction false} EarlierRefsStay(s: State, refs: seq<PackageRef>, kinds: seq<Kind>)
    ensures Read(s.(refs := refs + s.refs), kinds) == Read(s, kinds).(refs := refs + Read(s, kinds).refs)
  {
    if kinds != [] {
      var init := kinds[..|kinds| - 1];
      EarlierRefsStay(s, refs, init);
      StepAfterRefs(Read(s, init), refs, kinds[|kinds| - 1]);
    }
  }

  lemma StepAfterRefs(s: State, refs: seq<PackageRef>, kind: Kind)
    ensures Step(s.(refs := refs + s.refs), kind) == Step(s, kind).(refs := refs + Step(s, kind).refs)
  {
    assert refs + (s.refs + Pending(s)) == refs + s.refs + Pending(s);
  }

  lemma ResultConcat(xs: seq<Kind>, ys: seq<Kind>)
    requires ys != [] && (ys[0] == Package || ys[0] == OtherSection)
    ensures Result(xs + ys) == Result(xs) + Result(ys)
  {
    var first, rest := [ys[0]], ys[1..];
    assert ys == first + rest && first[..0] == [];
    ReadConcat(START, xs, ys);
    ReadConcat(Read(START, xs), first, rest);
    ReadConcat(START, first, rest);
    var begun := Read(START, first);
    assert begun.refs == [];
    assert Read(Read(START, xs), first) == begun.(refs := Result(xs) + begun.refs);
    EarlierRefsStay(begun, Result(xs), rest);
  }

  /** A file that continues with a new section is read as its two parts. */
  lemma ParseConcat(xs: seq<string>, ys: seq<string>)
    requires ys != [] && OpensSection(ys[0])
    ensures Refs(xs + ys) == Refs(xs) + Refs(ys)
  {
    KindsConcat(xs, ys);
    ResultConcat(Kinds(xs), Kinds(ys));
  }

  // ----- what follows the packages -----

  lemma {:induction false} OutsideNothingIsRead(s: State, kinds: seq<Kind>)
    requires !s.inPackage && Package !in kinds
    ensures Read(s, kinds).refs == s.refs && !Read(s, kinds).inPackage
  {
    if kinds != [] {
      var init := kinds[..|kinds| - 1];
      assert kinds[|kinds| - 1] in kinds && forall k :: k in init ==> k in kinds;
      OutsideNothingIsRead(s, init);
    }
  }

  lemma OtherSectionEnds(kinds: seq<Kind>, rest: seq<Kind>)
    requires Package !in rest
    ensures Result(kinds + [OtherSection] + rest) == Result(kinds)
  {
    OneKind(START, kinds, OtherSection);
    ReadConcat(START, kinds + [OtherSection], rest);
    OutsideNothingIsRead(Step(Read(START, kinds), OtherSection), rest);
  }

  lemma OnlyPackageLinesArePackages(line: string)
    ensures Classify(line) == Package <==> Trim(line, Space) == "[[package]]"
    ensures var h := Trim(line, Space);
            "[metadata" <= h || ("[[" <= h && h != "[[package]]") ==> Classify(line) == OtherSection
  {
    assert "[metadata"[1] == 'm' && "[[package]]"[1] == '[';
  }

  /**
    A header of the metadata, or of any array of tables but the packages', ends the packages: whatever
    follows it, up to the next package, is not read.
   */
  lemma OtherSectionsAreSkipped(xs: seq<string>, header: string, ys: seq<string>)
    requires var h := Trim(header, Space); "[metadata" <= h || ("[[" <= h && h != "[[package]]")
    requires forall line :: line in ys ==> Trim(line, Space) != "[[package]]"
    ensures Refs(xs + [header] + ys) == Refs(xs)
  {
    forall i | 0 <= i < |ys|
      ensures Kinds(ys)[i] != Package
    {
      assert ys[i] in ys;
      OnlyPackageLinesArePackages(ys[i]);
    }
    OnlyPackageLinesArePackages(header);
    KindsOfThreeParts(xs, header, ys);
    OtherSectionEnds(Kinds(xs), Kinds(ys));
  }

  lemma KindsOfThreeParts(xs: seq<string>, line: string, ys: seq<string>)
    ensures Kinds(xs + [line] + ys) == Kinds(xs) + [Classify(line)] + Kinds(ys)
  {
    KindsConcat(xs, [line]);
    KindsConcat(xs + [line], ys);
    KindsOfOne(line);
  }

  lemma FirstEqualsSplits(front: string, back: string)
    requires '=' !in front
    ensures ParseKV(front + "=" + back) == Some(KeyValue(Trim(front, Space), Trim(Trim(back, Space), Quote)))
  {
    assert front + "=" + back == front + (['='] + back);
    FirstSplits(front, '=', back);
  }

  lemma KeyLineIsClassified(line: string, kv: KeyValue)
    requires var text := Trim(line, Space); ParseKV(text) == Some(kv) && !("[[" <= text) && !("[metadata" <= text)
    ensures Classify(line) == KindOfPair(kv)
  {
    assert "[[package]]"[..2] == "[[";
  }

  /** A line inside a block counts by the key in front of its first equals sign, and only for four keys. */
  lemma LineMeans(line: string, front: string, back: string)
    requires Trim(line, Space) == front + "=" + back && '=' !in front
    requires !("[[" <= front + "=" + back) && !("[metadata" <= front + "=" + back)
    ensures var key, value := Trim(front, Space), Trim(Trim(back, Space), Quote);
            Classify(line) == if key == "name" then Name(value) else if key == "version" then Version(value)
                              else if (key == "category" && value == "dev") || (key == "optional" && value == "true") then Dev
                              else Other
  {
    FirstEqualsSplits(front, back);
    KeyLineIsClassified(line, KeyValue(Trim(front, Space), Trim(Trim(back, Space), Quote)));
  }

  lemma LineWithoutKey(line: string)
    requires '=' !in Trim(line, Space) && !("[[" <= Trim(line, Space)) && !("[metadata" <= Trim(line, Space))
    ensures Classify(line) == Other
  {
    var trimmed := Trim(line, Space);
    assert IndexFrom(trimmed, '=', 0) == |trimmed|;
    assert "[[package]]"[..2] == "[[";
  }

  /** White space around a line makes no difference. */
  lemma PaddedLineIsTheSame(before: string, line: string, after: string)
    requires Blank(before) && Blank(after)
    ensures Classify(before + line + after) == Classify(line)
  {
    BlanksAreTrimmed(before, line, after);
  }

  // ----- round trip -----

  /** A package block; `rest` are its other lines, such as descriptions and dependency tables. */
  datatype Block = Block(name: string, version: string, category: Option<string>, optional: bool, rest: seq<string>)

  function Assignment(key: string, text: string): string {
    key + " = " + text
  }

  function Quoted(key: string, value: string): string {
    Assignment(key, "\"" + value + "\"")
  }

  function Flag(optional: bool): string {
    Assignment("optional", if optional then "true" else "false")
  }

  function Lines(b: Block): seq<string> {
    ["[[package]]", Quoted("name", b.name), Quoted("version", b.version)]
    + (if b.category.Some? then [Quoted("category", b.category.value)] else [])
    + [Flag(b.optional)]
    + b.rest
  }

  ghost function Print(blocks: seq<Block>): seq<string> {
    if blocks == [] then [] else Print(blocks[..|blocks| - 1]) + Lines(blocks[|blocks| - 1])
  }

  /** No line of `rest` opens a section; apart from that the lines may be anything. */
  predicate WellFormed(b: Block) {
    && Unquoted(b.name) && Unquoted(b.version)
    && (b.category.Some? ==> Unquoted(b.category.value))
    && forall line :: line in b.rest ==> !("[[" <= Trim(line, Space)) && !("[metadata" <= Trim(line, Space))
  }

  predicate Dropped(b: Block) {
    b.category == Some("dev") || b.optional
  }

  /** The last name the kinds give, or `name`; likewise the last version. */
  ghost function LastName(name: string, kinds: seq<Kind>): string {
    if kinds == [] then name
    else if kinds[|kinds| - 1].Name? then kinds[|kinds| - 1].value
    else LastName(name, kinds[..|kinds| - 1])
  }

  ghost function LastVersion(version: string, kinds: seq<Kind>): string {
    if kinds == [] then version
    else if kinds[|kinds| - 1].Version? then kinds[|kinds| - 1].value
    else LastVersion(version, kinds[..|kinds| - 1])
  }

  /**
    What a block is read as: keys called name and version in its other lines, as in a dependency table,
    replace the package's own, and a line that marks anything as dev or optional drops the block.
   */
  ghost function ReadAs(b: Block): seq<PackageRef> {
    var kinds := Kinds(b.rest);
    var name, version := LastName(b.name, kinds), LastVersion(b.version, kinds);
    if Dropped(b) || Dev in kinds || name == "" || version == "" then []
    else [PackageRef(PYPI, NormalizePoetry(name), version)]
  }

  ghost function AllReadAs(blocks: seq<Block>): seq<PackageRef> {
    if blocks == [] then [] else AllReadAs(blocks[..|blocks| - 1]) + ReadAs(blocks[|blocks| - 1])
  }

  /** The other lines have no key the parser reads. */
  predicate PlainRest(b: Block) {
    forall line :: line in b.rest ==> Classify(line) == Other
  }

  /** The packages of the blocks that are not dropped, in order. */
  ghost function Reported(blocks: seq<Block>): seq<PackageRef> {
    if blocks == [] then []
    else
      var last := blocks[|blocks| - 1];
      Reported(blocks[..|blocks| - 1])
      + if Dropped(last) then [] else [PackageRef(PYPI, NormalizePoetry(last.name), last.version)]
  }

  /** A key that survives trimming and splitting. */
  predicate PlainKey(key: string) {
    key != "" && Free(key, '=') && !Space(key[0]) && !Space(key[|key| - 1]) && key[0] != '['
  }

  lemma TrimSides(key: string, text: string)
    requires PlainKey(key) && text != "" && !Space(text[0]) && !Space(text[|text| - 1])
    ensures Trim(key + " ", Space) == key && Trim(" " + text, Space) == text
  {
    TrimPadding("", key, " ", Space);
    assert "" + key + " " == key + " ";
    TrimPadding(" ", text, "", Space);
    assert " " + text + "" == " " + text;
  }

  lemma AssignmentSplits(key: string, text: string)
    ensures Assignment(key, text) == key + " " + (['='] + (" " + text))
  {
  }

  lemma KeyAndTextAreFound(key: string, text: string)
    requires PlainKey(key) && text != "" && !Space(text[0]) && !Space(text[|text| - 1])
    ensures ParseKV(Assignment(key, text)) == Some(KeyValue(key, Trim(text, Quote)))
  {
    var front, back := key + " ", " " + text;
    AssignmentSplits(key, text);
    FreeParts(key, " ", '=');
    FirstSplits(front, '=', back);
    TrimSides(key, text);
  }

  lemma AssignmentOpensNothing(key: string, text: string)
    requires PlainKey(key) && text != "" && !Space(text[|text| - 1])
    ensures Trim(Assignment(key, text), Space) == Assignment(key, text) && Assignment(key, text)[0] != '['
  {
    var line := Assignment(key, text);
    assert line[0] == key[0] && line[|line| - 1] == text[|text| - 1];
    TrimNothing(line, Space);
  }

  lemma KeyValueLine(line: string, kv: KeyValue)
    requires Trim(line, Space) == line && line != "" && line[0] != '[' && ParseKV(line) == Some(kv)
    ensures Classify(line) == KindOfPair(kv)
  {
    assert "[[package]]"[0] == "[["[0] == "[metadata"[0] == '[';
  }

  lemma PairIsClassified(key: string, text: string)
    requires PlainKey(key) && text != "" && !Space(text[0]) && !Space(text[|text| - 1])
    ensures Classify(Assignment(key, text)) == KindOfPair(KeyValue(key, Trim(text, Quote)))
  {
    AssignmentOpensNothing(key, text);
    KeyAndTextAreFound(key, text);
    KeyValueLine(Assignment(key, text), KeyValue(key, Trim(text, Quote)));
  }

  lemma QuotedIsClassified(key: string, value: string)
    requires PlainKey(key) && Unquoted(value)
    ensures Classify(Quoted(key, value)) == KindOfPair(KeyValue(key, value))
  {
    TrimPadding("\"", value, "\"", Quote);
    PairIsClassified(key, "\"" + value + "\"");
  }

  lemma PackageLineIsClassified()
    ensures Classify("[[package]]") == Package
  {
    TrimNothing("[[package]]", Space);
  }

  lemma FlagTextIsClassified(flag: string)
    requires Unquoted(flag) && !Space(flag[0]) && !Space(flag[|flag| - 1])
    ensures Classify(Assignment("optional", flag)) == if flag == "true" then Dev else Other
  {
    TrimNothing(flag, Quote);
    PairIsClassified("optional", flag);
  }

  lemma FlagIsClassified(optional: bool)
    ensures Classify(Flag(optional)) == if optional then Dev else Other
  {
    if optional {
      FlagTextIsClassified("true");
    } else {
      FlagTextIsClassified("false");
    }
  }

  lemma NameIsClassified(value: string)
    requires Unquoted(value)
    ensures Classify(Quoted("name", value)) == Name(value)
  {
    QuotedIsClassified("name", value);
  }

  lemma VersionIsClassified(value: string)
    requires Unquoted(value)
    ensures Classify(Quoted("version", value)) == Version(value)
  {
    QuotedIsClassified("version", value);
  }

  lemma KindsConcat(xs: seq<string>, ys: seq<string>)
    ensures Kinds(xs + ys) == Kinds(xs) + Kinds(ys)
  {
  }

  lemma KindsOfOne(line: string)
    ensures Kinds([line]) == [Classify(line)]
  {
  }

  lemma KindsOfThree(a: string, b: string, c: string)
    ensures Kinds([a, b, c]) == [Classify(a), Classify(b), Classify(c)]
  {
  }

  /** What the lines of a block mean. */
  ghost function HeaderKinds(b: Block): seq<Kind> {
    [Package, Name(b.name), Version(b.version)]
  }

  ghost function CategoryKinds(b: Block): seq<Kind> {
    if b.category.Some? then [if b.category == Some("dev") then Dev else Other] else []
  }

  ghost function BlockKinds(b: Block): seq<Kind> {
    HeaderKinds(b) + CategoryKinds(b) + [if b.optional then Dev else Other] + Kinds(b.rest)
  }

  lemma HeaderIsClassified(b: Block)
    requires WellFormed(b)
    ensures Kinds(["[[package]]", Quoted("name", b.name), Quoted("version", b.version)]) == HeaderKinds(b)
  {
    KindsOfThree("[[package]]", Quoted("name", b.name), Quoted("version", b.version));
    PackageLineIsClassified();
    NameIsClassified(b.name);
    VersionIsClassified(b.version);
  }

  lemma CategoryLineIsClassified(category: string)
    requires Unquoted(category)
    ensures Kinds([Quoted("category", category)]) == [if category == "dev" then Dev else Other]
  {
    QuotedIsClassified("category", category);
    KindsOfOne(Quoted("category", category));
  }

  lemma CategoryIsClassified(b: Block)
    requires WellFormed(b)
    ensures Kinds(if b.category.Some? then [Quoted("category", b.category.value)] else []) == CategoryKinds(b)
  {
    if b.category.Some? {
      CategoryLineIsClassified(b.category.value);
    }
  }

  lemma KindsOfFour(a: seq<string>, b: seq<string>, c: seq<string>, d: seq<string>)
    ensures Kinds(a + b + c + d) == Kinds(a) + Kinds(b) + Kinds(c) + Kinds(d)
  {
    KindsConcat(a, b);
    KindsConcat(a + b, c);
    KindsConcat(a + b + c, d);
  }

  lemma FlagLineIsClassified(optional: bool)
    ensures Kinds([Flag(optional)]) == [if optional then Dev else Other]
  {
    FlagIsClassified(optional);
    KindsOfOne(Flag(optional));
  }

  lemma BlockIsClassified(b: Block)
    requires WellFormed(b)
    ensures Kinds(Lines(b)) == BlockKinds(b)
  {
    var header := ["[[package]]", Quoted("name", b.name), Quoted("version", b.version)];
    var category := if b.category.Some? then [Quoted("category", b.category.value)] else [];
    KindsOfFour(header, category, [Flag(b.optional)], b.rest);
    HeaderIsClassified(b);
    CategoryIsClassified(b);
    FlagLineIsClassified(b.optional);
  }

  lemma OneKind(s: State, kinds: seq<Kind>, kind: Kind)
    ensures Read(s, kinds + [kind]) == Step(Read(s, kinds), kind)
  {
    assert (kinds + [kind])[..|kinds|] == kinds;
  }

  /** Lines inside a block set the name and the version, the last ones for good, or mark it. */
  lemma {:induction false} RestIsRead(s: State, kinds: seq<Kind>)
    requires s.inPackage && forall k :: k in kinds ==> k != Package && k != OtherSection
    ensures Read(s, kinds) == s.(name := LastName(s.name, kinds), version := LastVersion(s.version, kinds),
                                 isDev := s.isDev || Dev in kinds)
  {
    if kinds != [] {
      var init, last := kinds[..|kinds| - 1], kinds[|kinds| - 1];
      assert last in kinds && forall k :: k in kinds <==> k in init || k == last;
      RestIsRead(s, init);
    }
  }

  lemma RestOpensNothing(b: Block)
    requires WellFormed(b)
    ensures forall k :: k in Kinds(b.rest) ==> k != Package && k != OtherSection
  {
    forall line | line in b.rest
      ensures Classify(line) != Package && Classify(line) != OtherSection
    {
      SectionsAreClassified(line);
    }
  }

  /** Only lines that open a section are classified as such. */
  lemma SectionsAreClassified(line: string)
    ensures Classify(line) == Package || Classify(line) == OtherSection <==> OpensSection(line)
  {
    assert HasPrefix("[[package]]", "[[") by {
      assert "[[package]]"[..2] == "[[";
    }
  }

  lemma HeaderIsRead(s: State, b: Block)
    ensures Read(s, HeaderKinds(b)) == State(s.refs + Pending(s), true, b.name, b.version, false)
  {
    var k1, k2 := [Package], [Package, Name(b.name)];
    OneKind(s, [], Package);
    OneKind(s, k1, Name(b.name));
    OneKind(s, k2, Version(b.version));
    assert [] + [Package] == k1 && k1 + [Name(b.name)] == k2 && k2 + [Version(b.version)] == HeaderKinds(b);
  }

  lemma CategoryIsRead(s: State, b: Block)
    requires s.inPackage
    ensures Read(s, CategoryKinds(b)) == s.(isDev := s.isDev || b.category == Some("dev"))
  {
    if b.category.Some? {
      OneKind(s, [], CategoryKinds(b)[0]);
      assert [] + CategoryKinds(b) == CategoryKinds(b);
    }
  }

  lemma FixedLinesAreRead(s: State, b: Block)
    ensures Read(s, HeaderKinds(b) + CategoryKinds(b) + [if b.optional then Dev else Other])
            == State(s.refs + Pending(s), true, b.name, b.version, Dropped(b))
  {
    HeaderIsRead(s, b);
    ReadConcat(s, HeaderKinds(b), CategoryKinds(b));
    CategoryIsRead(Read(s, HeaderKinds(b)), b);
    OneKind(s, HeaderKinds(b) + CategoryKinds(b), if b.optional then Dev else Other);
  }

  lemma BlockAddsItself(kinds: seq<Kind>, b: Block)
    requires WellFormed(b)
    ensures Result(kinds + BlockKinds(b)) == Result(kinds) + ReadAs(b)
  {
    var s := Read(START, kinds);
    var fixed := HeaderKinds(b) + CategoryKinds(b) + [if b.optional then Dev else Other];
    ReadConcat(START, kinds, BlockKinds(b));
    ReadConcat(s, fixed, Kinds(b.rest));
    FixedLinesAreRead(s, b);
    RestOpensNothing(b);
    RestIsRead(Read(s, fixed), Kinds(b.rest));
  }

  /** Printing any blocks and parsing the lines gives back, in order, what the blocks are read as. */
  lemma {:induction false} PrintedBlocksAreRead(blocks: seq<Block>)
    requires forall b :: b in blocks ==> WellFormed(b)
    ensures Refs(Print(blocks)) == AllReadAs(blocks)
  {
    if blocks != [] {
      var init, last := blocks[..|blocks| - 1], blocks[|blocks| - 1];
      assert last in blocks && forall b :: b in init ==> b in blocks;
      PrintedBlocksAreRead(init);
      KindsConcat(Print(init), Lines(last));
      BlockIsClassified(last);
      BlockAddsItself(Kinds(Print(init)), last);
    }
  }

  lemma {:induction false} OthersSayNothing(name: string, version: string, kinds: seq<Kind>)
    requires forall k :: k in kinds ==> k == Other
    ensures LastName(name, kinds) == name && LastVersion(version, kinds) == version
  {
    if kinds != [] {
      var init := kinds[..|kinds| - 1];
      assert kinds[|kinds| - 1] in kinds && forall k :: k in init ==> k in kinds;
      OthersSayNothing(name, version, init);
    }
  }

  /** A block with plain other lines is read as the package it is. */
  lemma PlainBlockIsReadAsItself(b: Block)
    requires WellFormed(b) && PlainRest(b)
    ensures ReadAs(b) == if Dropped(b) then [] else [PackageRef(PYPI, NormalizePoetry(b.name), b.version)]
  {
    OthersSayNothing(b.name, b.version, Kinds(b.rest));
  }

  lemma {:induction false} PlainBlocksAreReadAsThemselves(blocks: seq<Block>)
    requires forall b :: b in blocks ==> WellFormed(b) && PlainRest(b)
    ensures AllReadAs(blocks) == Reported(blocks)
  {
    if blocks != [] {
      var init, last := blocks[..|blocks| - 1], blocks[|blocks| - 1];
      assert last in blocks && forall b :: b in init ==> b in blocks;
      PlainBlocksAreReadAsThemselves(init);
      PlainBlockIsReadAsItself(last);
    }
  }

  /** With plain other lines these are the packages that are not dropped. */
  lemma PrintedBlocksAreReported(blocks: seq<Block>)
    requires forall b :: b in blocks ==> WellFormed(b) && PlainRest(b)
    ensures Refs(Print(blocks)) == Reported(blocks)
  {
    PrintedBlocksAreRead(blocks);
    PlainBlocksAreReadAsThemselves(blocks);
  }
}
