/**
  The parts of Go's `strings` package the components use. A Go string is a sequence of bytes: here a
  `string` with one character per byte. Case and white space are those of ASCII.
 */
module Text {

  function LowerChar(c: char): char {
    if 'A' <= c <= 'Z' then (c as int + 32) as char else c
  }

  function ToLower(s: string): string {
    seq(|s|, i requires 0 <= i < |s| => LowerChar(s[i]))
  }

  /** strings.EqualFold, on ASCII. */
  predicate EqualFold(a: string, b: string) {
    ToLower(a) == ToLower(b)
  }

  predicate HasPrefix(s: string, prefix: string) {
    prefix <= s
  }

  predicate HasSuffix(s: string, suffix: string) {
    |suffix| <= |s| && s[|s| - |suffix|..] == suffix
  }

  /** strings.TrimSuffix */
  function TrimSuffix(s: string, suffix: string): string {
    if HasSuffix(s, suffix) then s[..|s| - |suffix|] else s
  }

  /** The position of the last `c`, or -1. */
  function LastIndexOf(s: string, c: char): (i: int)
    ensures -1 <= i < |s|
    ensures 0 <= i ==> s[i] == c
    ensures forall k :: i < k < |s| ==> s[k] != c
  {
    if s == "" then -1
    else if s[|s| - 1] == c then |s| - 1
    else LastIndexOf(s[..|s| - 1], c)
  }

  /** The position of the first `c` at or after `from`, or the length of `s`. */
  function IndexFrom(s: string, c: char, from: nat): (i: nat)
    requires from <= |s|
    ensures from <= i <= |s|
    ensures i < |s| ==> s[i] == c
    ensures forall k :: from <= k < i ==> s[k] != c
    decreases |s| - from
  {
    if from == |s| || s[from] == c then from else IndexFrom(s, c, from + 1)
  }

  predicate Free(s: string, c: char) {
    c !in s
  }

  predicate Digit(c: char) {
    '0' <= c <= '9'
  }

  lemma FreeParts(a: string, b: string, c: char)
    ensures Free(a + b, c) <==> Free(a, c) && Free(b, c)
  {
    assert forall x :: x in a + b <==> x in a || x in b;
  }

  /** A slash-free run is exactly what IndexFrom skips. */
  lemma IndexSkips(prefix: string, run: string, rest: string, c: char)
    requires Free(run, c) && (rest == "" || rest[0] == c)
    ensures IndexFrom(prefix + run + rest, c, |prefix|) == |prefix| + |run|
  {
    var s := prefix + run + rest;
    var i := IndexFrom(s, c, |prefix|);
    assert rest != "" ==> s[|prefix| + |run|] == c;
    assert forall k :: |prefix| <= k < |prefix| + |run| ==> s[k] == run[k - |prefix|] && s[k] in run;
  }

  /** The first `c` after a run free of it. */
  lemma FirstSplits(front: string, c: char, back: string)
    requires Free(front, c)
    ensures var s := front + ([c] + back);
            IndexFrom(s, c, 0) == |front| && s[..|front|] == front && s[|front| + 1..] == back
  {
    var s := front + ([c] + back);
    assert "" + front + ([c] + back) == s;
    IndexSkips("", front, [c] + back, c);
  }

  /** White space, for strings.TrimSpace. */
  predicate Space(c: char) {
    c == ' ' || '\t' <= c <= '\r'
  }

  predicate Quote(c: char) {
    c == '"'
  }

  function TrimLeft(s: string, drop: char -> bool): (t: string)
    ensures t == "" || !drop(t[0])
  {
    if s != "" && drop(s[0]) then TrimLeft(s[1..], drop) else s
  }

  function TrimRight(s: string, drop: char -> bool): (t: string)
    ensures t <= s && (t == "" || !drop(t[|t| - 1]))
  {
    if s != "" && drop(s[|s| - 1]) then TrimRight(s[..|s| - 1], drop) else s
  }

  function Trim(s: string, drop: char -> bool): string {
    TrimRight(TrimLeft(s, drop), drop)
  }

  /** Trimming on the right takes off nothing that is kept. */
  lemma {:induction false} TrimRightDropsOnly(s: string, drop: char -> bool)
    ensures forall i :: |TrimRight(s, drop)| <= i < |s| ==> drop(s[i])
  {
    if s != "" && drop(s[|s| - 1]) {
      TrimRightDropsOnly(s[..|s| - 1], drop);
    }
  }

  /** Trimming on the right stops at a character that is kept. */
  lemma {:induction false} TrimRightStops(front: string, c: char, tail: string, drop: char -> bool)
    requires !drop(c)
    ensures TrimRight(front + [c] + tail, drop) == front + [c] + TrimRight(tail, drop)
  {
    if tail != "" && drop(tail[|tail| - 1]) {
      assert (front + [c] + tail)[..|front| + |tail|] == front + [c] + tail[..|tail| - 1];
      TrimRightStops(front, c, tail[..|tail| - 1], drop);
    }
  }

  /** Trimming takes off exactly one layer of padding around a text that neither starts nor ends with it. */
  lemma TrimPadding(before: string, s: string, after: string, drop: char -> bool)
    requires s != "" && !drop(s[0]) && !drop(s[|s| - 1])
    requires (forall c :: c in before ==> drop(c)) && (forall c :: c in after ==> drop(c))
    ensures Trim(before + s + after, drop) == s
  {
    TrimLeftPadding(before, s + after, drop);
    assert before + s + after == before + (s + after);
    TrimRightPadding(s, after, drop);
  }

  lemma {:induction false} TrimLeftPadding(before: string, s: string, drop: char -> bool)
    requires s != "" && !drop(s[0]) && forall c :: c in before ==> drop(c)
    ensures TrimLeft(before + s, drop) == s
  {
    if before == "" {
      assert before + s == s;
    } else {
      assert before[0] in before && (before + s)[1..] == before[1..] + s;
      TrimLeftPadding(before[1..], s, drop);
    }
  }

  lemma {:induction false} TrimRightPadding(s: string, after: string, drop: char -> bool)
    requires s != "" && !drop(s[|s| - 1]) && forall c :: c in after ==> drop(c)
    ensures TrimRight(s + after, drop) == s
  {
    if after == "" {
      assert s + after == s;
    } else {
      assert after[|after| - 1] in after && (s + after)[..|s + after| - 1] == s + after[..|after| - 1];
      TrimRightPadding(s, after[..|after| - 1], drop);
    }
  }

  lemma {:induction false} TrimLeftSkips(before: string, s: string, drop: char -> bool)
    requires forall c :: c in before ==> drop(c)
    ensures TrimLeft(before + s, drop) == TrimLeft(s, drop)
  {
    if before == "" {
      assert before + s == s;
    } else {
      assert before[0] in before && (before + s)[1..] == before[1..] + s;
      TrimLeftSkips(before[1..], s, drop);
    }
  }

  lemma {:induction false} TrimRightSkips(s: string, after: string, drop: char -> bool)
    requires forall c :: c in after ==> drop(c)
    ensures TrimRight(s + after, drop) == TrimRight(s, drop)
  {
    if after == "" {
      assert s + after == s;
    } else {
      assert after[|after| - 1] in after && (s + after)[..|s + after| - 1] == s + after[..|after| - 1];
      TrimRightSkips(s, after[..|after| - 1], drop);
    }
  }

  /** Trimming on the left leaves the end alone, unless nothing else is left. */
  lemma {:induction false} TrimLeftBefore(s: string, after: string, drop: char -> bool)
    ensures TrimLeft(s + after, drop) == if TrimLeft(s, drop) == "" then TrimLeft(after, drop) else TrimLeft(s, drop) + after
  {
    if s == "" {
      assert s + after == after;
    } else if drop(s[0]) {
      assert (s + after)[1..] == s[1..] + after;
      TrimLeftBefore(s[1..], after, drop);
    }
  }

  /** Padding makes no difference to what is left after trimming. */
  lemma TrimIgnoresPadding(before: string, s: string, after: string, drop: char -> bool)
    requires (forall c :: c in before ==> drop(c)) && (forall c :: c in after ==> drop(c))
    ensures Trim(before + s + after, drop) == Trim(s, drop)
  {
    assert before + s + after == before + (s + after);
    TrimLeftSkips(before, s + after, drop);
    TrimLeftBefore(s, after, drop);
    TrimRightSkips(TrimLeft(s, drop), after, drop);
    TrimLeftSkips(after, "", drop);
    assert after + "" == after;
  }

  /** Blanks, tabs, line feeds, vertical tabs, form feeds and carriage returns. */
  predicate Blank(s: string) {
    forall i :: 0 <= i < |s| ==> s[i] in {' ', 9 as char, 10 as char, 11 as char, 12 as char, 13 as char}
  }

  lemma BlanksAreTrimmed(before: string, s: string, after: string)
    requires Blank(before) && Blank(after)
    ensures Trim(before + s + after, Space) == Trim(s, Space)
  {
    forall c | c in before || c in after
      ensures Space(c)
    {
      assert exists i :: (0 <= i < |before| && before[i] == c) || (0 <= i < |after| && after[i] == c);
    }
    TrimIgnoresPadding(before, s, after, Space);
  }

  lemma TrimNothing(s: string, drop: char -> bool)
    requires s != "" && !drop(s[0]) && !drop(s[|s| - 1])
    ensures Trim(s, drop) == s
  {
    TrimPadding("", s, "", drop);
    assert "" + s + "" == s;
  }

  /** A text that keeps both ends when quotes are trimmed. */
  predicate Unquoted(s: string) {
    s != "" && s[0] != '"' && s[|s| - 1] != '"'
  }
}
