/**
  The Levenshtein table of internal/analyzer/badlist/typosquat.go, proved to compute the length of
  a shortest chain of single-byte edits. A Go string is a sequence of bytes; here it is a `string`
  whose characters stand for those bytes.
 */
module Levenshtein {

  /** One edit of a whole string: insert, delete or substitute a single byte. */
  datatype Edit = Insert(at: nat, c: char) | Delete(at: nat) | Substitute(at: nat, c: char) {

    predicate Fits(s: string) {
      if Insert? then at <= |s| else at < |s|
    }

    function Apply(s: string): string
      requires Fits(s)
    {
      match this
      case Insert(i, c) => s[..i] + [c] + s[i..]
      case Delete(i) => s[..i] + s[i + 1..]
      case Substitute(i, c) => s[..i] + [c] + s[i + 1..]
    }
  }

  /** The edits, done one after the other, turn `a` into `b`. */
  ghost predicate Chain(a: string, edits: seq<Edit>, b: string)
    decreases |edits|
  {
    if edits == [] then a == b else edits[0].Fits(a) && Chain(edits[0].Apply(a), edits[1..], b)
  }

  /** `d` is the length of a shortest chain from `a` to `b`: some chain is that long, none is shorter. */
  ghost predicate ShortestChain(a: string, b: string, d: int) {
    && (exists edits :: Chain(a, edits, b) && |edits| == d)
    && forall edits :: Chain(a, edits, b) ==> d <= |edits|
  }

  function Min3(a: int, b: int, c: int): (r: int)
    ensures r <= a && r <= b && r <= c && r in {a, b, c}
  {
    if a < b then
      if a < c then a else c
    else if b < c then b
    else c
  }

  function Init(s: string): string
    requires s != ""
  {
    s[..|s| - 1]
  }

  function Last(s: string): char
    requires s != ""
  {
    s[|s| - 1]
  }

  /** The value the table holds for two prefixes; equal last bytes take the diagonal with no minimum. */
  ghost function Distance(a: string, b: string): nat
    decreases |a| + |b|
  {
    if a == "" then |b|
    else if b == "" then |a|
    else if Last(a) == Last(b) then Distance(Init(a), Init(b))
    else 1 + Min3(Distance(Init(a), b), Distance(a, Init(b)), Distance(Init(a), Init(b)))
  }

  lemma {:induction false} DistanceSymmetric(a: string, b: string)
    ensures Distance(a, b) == Distance(b, a)
    decreases |a| + |b|
  {
    if a != "" && b != "" {
      DistanceSymmetric(Init(a), b);
      DistanceSymmetric(a, Init(b));
      DistanceSymmetric(Init(a), Init(b));
    }
  }

  lemma {:induction false} DistanceBounds(a: string, b: string)
    ensures |a| - |b| <= Distance(a, b) && |b| - |a| <= Distance(a, b)
    ensures Distance(a, b) <= if |a| < |b| then |b| else |a|
    decreases |a| + |b|
  {
    if a != "" && b != "" {
      DistanceBounds(Init(a), b);
      DistanceBounds(a, Init(b));
      DistanceBounds(Init(a), Init(b));
    }
  }

  lemma {:induction false} DistanceZero(a: string, b: string)
    ensures Distance(a, b) == 0 <==> a == b
    decreases |a| + |b|
  {
    if a != "" && b != "" {
      assert a == Init(a) + [Last(a)] && b == Init(b) + [Last(b)];
      DistanceZero(Init(a), Init(b));
    }
  }

  /** Dropping the last byte of either argument moves the table by at most one. */
  lemma {:induction false} DistanceStep(a: string, b: string)
    requires a != ""
    ensures Distance(a, b) <= Distance(Init(a), b) + 1
    ensures Distance(Init(a), b) <= Distance(a, b) + 1
    decreases |a| + |b|, 0
  {
    if b != "" {
      DistanceStep(a, Init(b));
      DistanceStepRight(Init(a), b);
    }
  }

  lemma DistanceStepRight(a: string, b: string)
    requires b != ""
    ensures Distance(a, b) <= Distance(a, Init(b)) + 1
    ensures Distance(a, Init(b)) <= Distance(a, b) + 1
    decreases |a| + |b|, 1
  {
    DistanceSymmetric(a, b);
    DistanceSymmetric(a, Init(b));
    DistanceStep(b, a);
  }

  /** The textbook recurrence, which takes the minimum everywhere. */
  ghost predicate TextbookStep(a: string, b: string)
    requires a != "" && b != ""
  {
    Distance(a, b) == Min3(Distance(Init(a), b) + 1, Distance(a, Init(b)) + 1,
                           Distance(Init(a), Init(b)) + if Last(a) == Last(b) then 0 else 1)
  }

  /** The table also obeys it: skipping the minimum when the last bytes agree loses nothing. */
  lemma DiagonalNeedsNoMin(a: string, b: string)
    requires a != "" && b != ""
    ensures TextbookStep(a, b)
  {
    DistanceStep(a, b);
    DistanceStepRight(a, b);
    DistanceStep(a, Init(b));
    DistanceStepRight(Init(a), b);
  }

  lemma {:induction false} DistanceTriangle(a: string, b: string, c: string)
    ensures Distance(a, c) <= Distance(a, b) + Distance(b, c)
    decreases |a| + |b| + |c|
  {
    if a == "" || b == "" || c == "" {
      DistanceBounds(a, b);
      DistanceBounds(b, c);
      DistanceBounds(a, c);
    } else {
      DiagonalNeedsNoMin(a, b);
      DiagonalNeedsNoMin(b, c);
      DiagonalNeedsNoMin(a, c);
      // look at how the two shorter chains treat the last bytes of a, b and c
      if Distance(a, b) == Distance(Init(a), b) + 1 {
        DistanceTriangle(Init(a), b, c);
      } else if Distance(b, c) == Distance(b, Init(c)) + 1 {
        DistanceTriangle(a, b, Init(c));
      } else if Distance(a, b) == Distance(a, Init(b)) + 1 {
        DistanceTriangle(a, Init(b), c);
        DistanceTriangle(a, Init(b), Init(c));
      } else {
        DistanceTriangle(Init(a), Init(b), c);
        DistanceTriangle(Init(a), Init(b), Init(c));
      }
    }
  }

  /** A common tail can be dropped from both sides. */
  lemma {:induction false} DistanceCommonTail(p: string, q: string, tail: string)
    ensures Distance(p + tail, q + tail) == Distance(p, q)
  {
    if tail == "" {
      assert p + tail == p && q + tail == q;
    } else {
      assert Init(p + tail) == p + Init(tail) && Init(q + tail) == q + Init(tail);
      DistanceCommonTail(p, q, Init(tail));
    }
  }

  lemma OneEditCostsOne(a: string, e: Edit)
    requires e.Fits(a)
    ensures Distance(a, e.Apply(a)) <= 1
  {
    var p := a[..e.at];
    DistanceZero(p, p);
    match e
    case Insert(i, c) =>
      assert a == p + a[i..];
      DistanceCommonTail(p, p + [c], a[i..]);
      assert Init(p + [c]) == p;
      DistanceStepRight(p, p + [c]);
    case Delete(i) =>
      assert a == (p + [a[i]]) + a[i + 1..];
      DistanceCommonTail(p + [a[i]], p, a[i + 1..]);
      assert Init(p + [a[i]]) == p;
      DistanceStep(p + [a[i]], p);
    case Substitute(i, c) =>
      assert a == (p + [a[i]]) + a[i + 1..];
      DistanceCommonTail(p + [a[i]], p + [c], a[i + 1..]);
      assert Init(p + [a[i]]) == p && Init(p + [c]) == p;
      DiagonalNeedsNoMin(p + [a[i]], p + [c]);
  }

  /** No chain beats the table. */
  lemma {:induction false} NoChainIsShorter(a: string, edits: seq<Edit>, b: string)
    requires Chain(a, edits, b)
    ensures Distance(a, b) <= |edits|
    decreases |edits|
  {
    if edits == [] {
      DistanceZero(a, b);
    } else {
      var next := edits[0].Apply(a);
      OneEditCostsOne(a, edits[0]);
      NoChainIsShorter(next, edits[1..], b);
      DistanceTriangle(a, next, b);
    }
  }

  lemma Splice(front: string, middle: string, back: string, tail: string)
    ensures front + middle + (back + tail) == front + middle + back + tail
    ensures front + (back + tail) == front + back + tail
  {
  }

  lemma ApplyBeforeTail(e: Edit, a: string, tail: string)
    requires e.Fits(a)
    ensures e.Fits(a + tail) && e.Apply(a + tail) == e.Apply(a) + tail
  {
    var s, i := a + tail, e.at;
    assert s[..i] == a[..i] && s[i..] == a[i..] + tail;
    match e
    case Insert(_, c) =>
      Splice(a[..i], [c], a[i..], tail);
    case Delete(_) =>
      assert s[i + 1..] == a[i + 1..] + tail;
      Splice(a[..i], "", a[i + 1..], tail);
    case Substitute(_, c) =>
      assert s[i + 1..] == a[i + 1..] + tail;
      Splice(a[..i], [c], a[i + 1..], tail);
  }

  /** A chain still works when the same bytes follow on both sides. */
  lemma {:induction false} ChainBeforeTail(a: string, edits: seq<Edit>, b: string, tail: string)
    requires Chain(a, edits, b)
    ensures Chain(a + tail, edits, b + tail)
    decreases |edits|
  {
    if edits != [] {
      ApplyBeforeTail(edits[0], a, tail);
      ChainBeforeTail(edits[0].Apply(a), edits[1..], b, tail);
    }
  }

  lemma PrependEdit(a: string, e: Edit, edits: seq<Edit>, b: string)
    requires e.Fits(a) && Chain(e.Apply(a), edits, b)
    ensures Chain(a, [e] + edits, b)
  {
    assert ([e] + edits)[1..] == edits;
  }

  /** Some chain is exactly as long as the table says. */
  lemma {:induction false} ShortestChainExists(a: string, b: string) returns (edits: seq<Edit>)
    ensures Chain(a, edits, b) && |edits| == Distance(a, b)
    decreases |a| + |b|
  {
    if a == "" && b == "" {
      edits := [];
    } else if a == "" || (b != "" && Last(a) != Last(b) && Distance(a, b) == 1 + Distance(a, Init(b))) {
      edits := ShortestChainExists(a, Init(b));
      edits := InsertLast(a, edits, b);
    } else if b == "" || (Last(a) != Last(b) && Distance(a, b) == 1 + Distance(Init(a), b)) {
      edits := ShortestChainExists(Init(a), b);
      edits := DeleteLast(a, edits, b);
    } else {
      edits := ShortestChainExists(Init(a), Init(b));
      if Last(a) == Last(b) {
        SameLast(a, edits, b);
      } else {
        edits := SubstituteLast(a, edits, b);
      }
    }
  }

  /** The edits of a last byte. */
  lemma EditsOfLast(a: string, c: char)
    ensures Insert(|a|, c).Apply(a) == a + [c]
    ensures a != "" ==> Delete(|a| - 1).Apply(a) == Init(a) && Substitute(|a| - 1, c).Apply(a) == Init(a) + [c]
  {
  }

  lemma InitAndLast(s: string)
    requires s != ""
    ensures Init(s) + [Last(s)] == s
  {
  }

  /** The last byte of the target can be there from the start. */
  lemma KeepLast(a: string, edits: seq<Edit>, b: string)
    requires b != "" && Chain(a, edits, Init(b))
    ensures Chain(a + [Last(b)], edits, b)
  {
    InitAndLast(b);
    ChainBeforeTail(a, edits, Init(b), [Last(b)]);
  }

  lemma InsertLast(a: string, edits: seq<Edit>, b: string) returns (longer: seq<Edit>)
    requires b != "" && Chain(a, edits, Init(b))
    ensures Chain(a, longer, b) && |longer| == |edits| + 1
  {
    KeepLast(a, edits, b);
    EditsOfLast(a, Last(b));
    PrependEdit(a, Insert(|a|, Last(b)), edits, b);
    longer := [Insert(|a|, Last(b))] + edits;
  }

  lemma DeleteLast(a: string, edits: seq<Edit>, b: string) returns (longer: seq<Edit>)
    requires a != "" && Chain(Init(a), edits, b)
    ensures Chain(a, longer, b) && |longer| == |edits| + 1
  {
    EditsOfLast(a, ' ');
    PrependEdit(a, Delete(|a| - 1), edits, b);
    longer := [Delete(|a| - 1)] + edits;
  }

  lemma SameLast(a: string, edits: seq<Edit>, b: string)
    requires a != "" && b != "" && Chain(Init(a), edits, Init(b)) && Last(a) == Last(b)
    ensures Chain(a, edits, b)
  {
    InitAndLast(a);
    KeepLast(Init(a), edits, b);
  }

  lemma SubstituteLast(a: string, edits: seq<Edit>, b: string) returns (longer: seq<Edit>)
    requires a != "" && b != "" && Chain(Init(a), edits, Init(b))
    ensures Chain(a, longer, b) && |longer| == |edits| + 1
  {
    KeepLast(Init(a), edits, b);
    EditsOfLast(a, Last(b));
    PrependEdit(a, Substitute(|a| - 1, Last(b)), edits, b);
    longer := [Substitute(|a| - 1, Last(b))] + edits;
  }

  lemma DistanceIsShortestChain(a: string, b: string)
    ensures ShortestChain(a, b, Distance(a, b))
  {
    var edits := ShortestChainExists(a, b);
    forall other | Chain(a, other, b)
      ensures Distance(a, b) <= |other|
    {
      NoChainIsShorter(a, other, b);
    }
  }

  lemma ShortestChainUnique(a: string, b: string, d: int, e: int)
    requires ShortestChain(a, b, d) && ShortestChain(a, b, e)
    ensures d == e
  {
    var ds :| Chain(a, ds, b) && |ds| == d;
    var es :| Chain(a, es, b) && |es| == e;
  }

  /** The shortest-chain length is a metric, within the obvious bounds. */
  lemma ShortestChainIsMetric(a: string, b: string, c: string, ab: int, ba: int, bc: int, ac: int)
    requires ShortestChain(a, b, ab) && ShortestChain(b, a, ba)
    requires ShortestChain(b, c, bc) && ShortestChain(a, c, ac)
    ensures ab == 0 <==> a == b
    ensures ab == ba
    ensures ac <= ab + bc
    ensures |a| - |b| <= ab && |b| - |a| <= ab && (ab <= |a| || ab <= |b|)
  {
    DistanceIsShortestChain(a, b);
    DistanceIsShortestChain(b, a);
    DistanceIsShortestChain(b, c);
    DistanceIsShortestChain(a, c);
    ShortestChainUnique(a, b, ab, Distance(a, b));
    ShortestChainUnique(b, a, ba, Distance(b, a));
    ShortestChainUnique(b, c, bc, Distance(b, c));
    ShortestChainUnique(a, c, ac, Distance(a, c));
    DistanceZero(a, b);
    DistanceSymmetric(a, b);
    DistanceTriangle(a, b, c);
    DistanceBounds(a, b);
  }

  /** The table's value at row `i`, column `j`. */
  ghost function Cell(a: string, b: string, i: nat, j: nat): nat
    requires i <= |a| && j <= |b|
  {
    Distance(a[..i], b[..j])
  }

  lemma CellRecurrence(a: string, b: string, i: nat, j: nat)
    requires 0 < i <= |a| && 0 < j <= |b|
    ensures Cell(a, b, i, j) ==
            if a[i - 1] == b[j - 1] then Cell(a, b, i - 1, j - 1)
            else 1 + Min3(Cell(a, b, i - 1, j), Cell(a, b, i, j - 1), Cell(a, b, i - 1, j - 1))
  {
    assert Init(a[..i]) == a[..i - 1] && Init(b[..j]) == b[..j - 1];
  }

  /** Rows below `rows`, and row `rows` itself below column `cols`, hold their final values. */
  ghost predicate Filled(dp: array2<int>, a: string, b: string, rows: nat, cols: nat)
    reads dp
    requires dp.Length0 == |a| + 1 && dp.Length1 == |b| + 1
  {
    forall i, j :: 0 <= i <= |a| && 0 <= j <= |b| && (i < rows || (i == rows && j < cols) || j == 0) ==>
                     dp[i, j] == Cell(a, b, i, j)
  }

  /** editDistance: fills the table row by row and returns its last cell. */
  method EditDistance(a: string, b: string) returns (d: int)
    ensures ShortestChain(a, b, d)
    ensures d == Distance(a, b)
  {
    var la, lb := |a|, |b|;
    if la == 0 {
      DistanceIsShortestChain(a, b);
      return lb;
    }
    if lb == 0 {
      DistanceIsShortestChain(a, b);
      return la;
    }
    var dp := new int[la + 1, lb + 1]((i, j) => 0);
    for i := 0 to la + 1
      invariant forall k :: 0 <= k < i ==> dp[k, 0] == Cell(a, b, k, 0)
    {
      dp[i, 0] := i;
    }
    for j := 1 to lb + 1
      invariant forall k :: 0 <= k <= la ==> dp[k, 0] == Cell(a, b, k, 0)
      invariant forall k :: 0 <= k < j ==> dp[0, k] == Cell(a, b, 0, k)
    {
      dp[0, j] := j;
    }
    for i := 1 to la + 1
      invariant Filled(dp, a, b, i, 0)
    {
      for j := 1 to lb + 1
        invariant Filled(dp, a, b, i, j)
      {
        CellRecurrence(a, b, i, j);
        if a[i - 1] == b[j - 1] {
          dp[i, j] := dp[i - 1, j - 1];
        } else {
          dp[i, j] := 1 + Min3(dp[i - 1, j], dp[i, j - 1], dp[i - 1, j - 1]);
        }
      }
    }
    d := dp[la, lb];
    assert d == Distance(a, b) by {
      assert a[..la] == a && b[..lb] == b;
    }
    DistanceIsShortestChain(a, b);
  }
}
