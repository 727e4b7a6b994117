/**
  The proxy rewrites upstream origins in registry pages to its own base URL, and routes what clients
  then request back to the origin (internal/proxy/proxy.go). A URL is scheme, host and path; query
  strings count as part of the path.
 */
module Rewrite {
  import opened Shield
  import opened Text
  import opened Paths

  predicate OccursAt(s: string, part: string, i: int) {
    0 <= i && i + |part| <= |s| && s[i..i + |part|] == part
  }

  ghost predicate Contains(s: string, part: string) {
    exists i :: OccursAt(s, part, i)
  }

  /** strings.Index from a position on: the first occurrence, or -1. */
  function Index(s: string, part: string, from: nat): (i: int)
    requires from <= |s|
    ensures i == -1 || (from <= i && OccursAt(s, part, i))
    ensures forall k :: from <= k && (i == -1 || k < i) ==> !OccursAt(s, part, k)
    decreases |s| - from
  {
    if |s| < from + |part| then -1
    else if s[from..from + |part|] == part then from
    else if from == |s| then -1
    else Index(s, part, from + 1)
  }

  /** strings.ReplaceAll: leftmost occurrences, from left to right, without overlaps. */
  function ReplaceAll(s: string, old_: string, new_: string): string
    requires old_ != ""
    decreases |s|
  {
    var i := Index(s, old_, 0);
    if i < 0 then s else s[..i] + new_ + ReplaceAll(s[i + |old_|..], old_, new_)
  }

  // ----- what a rewrite changes -----

  ghost function Join(pieces: seq<string>, separator: string): string
    requires pieces != []
  {
    if |pieces| == 1 then pieces[0] else pieces[0] + separator + Join(pieces[1..], separator)
  }

  lemma OccursInFront(front: string, back: string, part: string, k: int)
    requires k + |part| <= |front|
    ensures OccursAt(front + back, part, k) <==> OccursAt(front, part, k)
  {
    assert 0 <= k ==> (front + back)[k..k + |part|] == front[k..k + |part|];
  }

  lemma OccursInBack(front: string, back: string, part: string, k: int)
    requires |front| <= k
    ensures OccursAt(front + back, part, k) <==> OccursAt(back, part, k - |front|)
  {
    assert k + |part| <= |front + back| ==>
        (front + back)[k..k + |part|] == back[k - |front|..k - |front| + |part|];
  }

  lemma FrontIsFree(page: string, part: string, i: int, k: int)
    requires part != "" && i == Index(page, part, 0) && (i < 0 || k + |part| <= i)
    ensures !OccursAt(if i < 0 then page else page[..i], part, k)
  {
    if i >= 0 {
      OccursInFront(page[..i], page[i..], part, k);
      assert page[..i] + page[i..] == page;
    }
  }

  /** One round of ReplaceAll: what comes before the first occurrence is free of it. */
  lemma FirstRound(page: string, part: string, new_: string) returns (front: string, back: string)
    requires part != ""
    ensures !Contains(front, part)
    ensures if Index(page, part, 0) < 0 then front == page && ReplaceAll(page, part, new_) == page
            else |back| < |page| && page == front + part + back
                 && ReplaceAll(page, part, new_) == front + new_ + ReplaceAll(back, part, new_)
  {
    var i := Index(page, part, 0);
    front := if i < 0 then page else page[..i];
    back := if i < 0 then "" else page[i + |part|..];
    forall k
      ensures !OccursAt(front, part, k)
    {
      if k + |part| <= |front| {
        FrontIsFree(page, part, i, k);
      }
    }
  }

  /** The page falls into pieces free of the origin; the rewrite joins the same pieces with the base. */
  lemma {:induction false} RewriteChangesOnlyOrigins(page: string, origin: string, base: string) returns (pieces: seq<string>)
    requires origin != ""
    ensures pieces != [] && forall p :: p in pieces ==> !Contains(p, origin)
    ensures page == Join(pieces, origin) && ReplaceAll(page, origin, base) == Join(pieces, base)
    decreases |page|
  {
    var front, back := FirstRound(page, origin, base);
    if Index(page, origin, 0) < 0 {
      pieces := [front];
    } else {
      var rest := RewriteChangesOnlyOrigins(back, origin, base);
      pieces := [front] + rest;
      assert pieces[1..] == rest;
    }
  }

  /** However one is laid over part of the other, some byte disagrees. */
  ghost predicate CannotOverlap(origin: string, base: string) {
    forall d :: -|origin| < d < |base| ==> Clash(origin, base, d)
  }

  ghost predicate Clash(origin: string, base: string, d: int) {
    exists k :: Disagree(origin, base, d, k)
  }

  predicate Disagree(origin: string, base: string, d: int, k: int) {
    0 <= k < |base| && 0 <= k - d < |origin| && base[k] != origin[k - d]
  }

  lemma OccurrenceByte(s: string, part: string, i: int, j: nat)
    requires j < |part| && 0 <= i + j < |s|
    ensures OccursAt(s, part, i) ==> s[i + j] == part[j]
  {
    assert OccursAt(s, part, i) ==> s[i..i + |part|][j] == s[i + j];
  }

  lemma NoneAcrossBase(front: string, base: string, rest: string, origin: string, at: int)
    requires CannotOverlap(origin, base) && |front| < at + |origin| && at < |front| + |base|
    ensures !OccursAt(front + base + rest, origin, at)
  {
    var result, d := front + base + rest, at - |front|;
    assert Clash(origin, base, d);
    var k :| Disagree(origin, base, d, k);
    assert result[|front| + k] == base[k];
    OccurrenceByte(result, origin, at, k - d);
  }

  lemma NoneInParts(front: string, base: string, rest: string, origin: string, at: int)
    requires CannotOverlap(origin, base)
    requires !OccursAt(front, origin, at) && !OccursAt(rest, origin, at - |front| - |base|)
    ensures !OccursAt(front + base + rest, origin, at)
  {
    if at + |origin| <= |front| {
      OccursInFront(front, base + rest, origin, at);
      assert front + (base + rest) == front + base + rest;
    } else if |front| + |base| <= at {
      OccursInBack(front + base, rest, origin, at);
    } else {
      NoneAcrossBase(front, base, rest, origin, at);
    }
  }

  /** After the rewrite no origin is left, if base and origin cannot overlap. */
  lemma {:induction false} NoOriginSurvives(page: string, origin: string, base: string, at: int)
    requires origin != "" && CannotOverlap(origin, base)
    ensures !OccursAt(ReplaceAll(page, origin, base), origin, at)
    decreases |page|
  {
    var front, back := FirstRound(page, origin, base);
    assert !OccursAt(front, origin, at);
    if Index(page, origin, 0) >= 0 {
      NoOriginSurvives(back, origin, base, at - |front| - |base|);
      NoneInParts(front, base, ReplaceAll(back, origin, base), origin, at);
    }
  }

  lemma RewriteIsIdempotent(page: string, origin: string, base: string)
    requires origin != "" && CannotOverlap(origin, base)
    ensures !Contains(ReplaceAll(page, origin, base), origin)
    ensures ReplaceAll(ReplaceAll(page, origin, base), origin, base) == ReplaceAll(page, origin, base)
  {
    forall at
      ensures !OccursAt(ReplaceAll(page, origin, base), origin, at)
    {
      NoOriginSurvives(page, origin, base, at);
    }
  }

  // ----- exactly which bases leave no origin behind -----

  /** No proper suffix of the origin is also a prefix of it. */
  ghost predicate Unbordered(origin: string) {
    origin != "" && forall d :: 0 < d < |origin| ==> Clash(origin, origin, d)
  }

  /** In front of an occurrence of an unbordered origin, less than one origin hides no other. */
  lemma FirstOccurrence(front: string, origin: string, back: string)
    requires Unbordered(origin) && |front| < |origin|
    ensures Index(front + origin + back, origin, 0) == |front|
  {
    var page := front + origin + back;
    assert OccursAt(page, origin, |front|);
    var i := Index(page, origin, 0);
    if i < |front| {
      assert Clash(origin, origin, |front| - i);
      var k :| Disagree(origin, origin, |front| - i, k);
      var j: nat := k - (|front| - i);
      assert page[|front| + j] == origin[j];
      OccurrenceByte(page, origin, i, k);
      assert false;
    }
  }

  lemma OnlyOriginReplaced(front: string, origin: string, back: string, base: string)
    requires Unbordered(origin) && |front| < |origin| && |back| < |origin|
    ensures ReplaceAll(front + origin + back, origin, base) == front + base + back
  {
    var page := front + origin + back;
    FirstOccurrence(front, origin, back);
    assert page[..|front|] == front && page[|front| + |origin|..] == back;
    assert Index(back, origin, 0) == -1;
  }

  /** The origin's bytes before and behind the base, when the origin is laid over it at d. */
  lemma LaidOver(origin: string, base: string, d: int) returns (front: string, back: string)
    requires origin != "" && -|origin| < d < |base| && !Clash(origin, base, d)
    ensures |front| < |origin| && |back| < |origin|
    ensures OccursAt(front + base + back, origin, |front| + d)
  {
    front := if d < 0 then origin[..-d] else "";
    back := if d + |origin| > |base| then origin[|base| - d..] else "";
    var result, at := front + base + back, |front| + d;
    forall p | 0 <= p < |origin|
      ensures result[at + p] == origin[p]
    {
      assert !Disagree(origin, base, d, d + p);
    }
    assert result[at..at + |origin|] == origin;
  }

  /** A base that an origin can be laid over leaves an origin in some page. */
  lemma OverlapLeavesOrigin(origin: string, base: string) returns (page: string)
    requires Unbordered(origin) && !CannotOverlap(origin, base)
    ensures Contains(ReplaceAll(page, origin, base), origin)
  {
    var d :| -|origin| < d < |base| && !Clash(origin, base, d);
    var front, back := LaidOver(origin, base, d);
    page := front + origin + back;
    OnlyOriginReplaced(front, origin, back, base);
  }

  ghost predicate RemovesAll(origin: string, base: string)
    requires origin != ""
  {
    forall page :: !Contains(ReplaceAll(page, origin, base), origin)
  }

  ghost predicate Idempotent(origin: string, base: string)
    requires origin != ""
  {
    forall page :: ReplaceAll(ReplaceAll(page, origin, base), origin, base) == ReplaceAll(page, origin, base)
  }

  /** The rewrite removes every origin from every page iff base and origin cannot overlap. */
  lemma RemovalIsExact(origin: string, base: string)
    requires Unbordered(origin)
    ensures RemovesAll(origin, base) <==> CannotOverlap(origin, base)
  {
    if CannotOverlap(origin, base) {
      forall page
        ensures !Contains(ReplaceAll(page, origin, base), origin)
      {
        RewriteIsIdempotent(page, origin, base);
      }
    } else {
      var page := OverlapLeavesOrigin(origin, base);
    }
  }

  lemma {:induction false} RewriteLength(page: string, origin: string, base: string)
    requires origin != ""
    ensures |base| <= |origin| ==> |ReplaceAll(page, origin, base)| <= |page|
    ensures |origin| <= |base| ==> |page| <= |ReplaceAll(page, origin, base)|
    decreases |page|
  {
    var front, back := FirstRound(page, origin, base);
    if Index(page, origin, 0) >= 0 {
      RewriteLength(back, origin, base);
    }
  }

  /** Only the rewrite to the origin itself leaves a page with an origin as it is. */
  lemma RewriteChangesPage(page: string, origin: string, base: string)
    requires origin != "" && Contains(page, origin)
    ensures ReplaceAll(page, origin, base) == page <==> base == origin
  {
    var pieces := RewriteChangesOnlyOrigins(page, origin, base);
    var front, back := FirstRound(page, origin, base);
    var result := ReplaceAll(page, origin, base);
    RewriteLength(back, origin, base);
    if |base| == |origin| {
      assert page[|front|..|front| + |origin|] == origin;
      assert result[|front|..|front| + |base|] == base;
    }
  }

  /** Rewriting twice is rewriting once, on every page, iff base and origin are equal or cannot overlap. */
  lemma IdempotenceIsExact(origin: string, base: string)
    requires Unbordered(origin)
    ensures Idempotent(origin, base) <==> base == origin || CannotOverlap(origin, base)
  {
    if base == origin || CannotOverlap(origin, base) {
      forall page
        ensures ReplaceAll(ReplaceAll(page, origin, base), origin, base) == ReplaceAll(page, origin, base)
      {
        if Contains(ReplaceAll(page, origin, base), origin) {
          RemovalIsExact(origin, base);
          RewriteChangesPage(ReplaceAll(page, origin, base), origin, base);
        }
      }
    } else {
      var page := OverlapLeavesOrigin(origin, base);
      RewriteChangesPage(ReplaceAll(page, origin, base), origin, base);
    }
  }

  // ----- routing undoes the rewrite -----

  datatype Url = Url(scheme: string, host: string, path: string)

  function Print(u: Url): string {
    u.scheme + "://" + u.host + u.path
  }

  /** Scheme up to "://", host up to the next slash, path from there on. */
  function Parse(s: string): Option<Url> {
    var i := Index(s, "://", 0);
    if i < 0 then None
    else
      var rest := s[i + 3..];
      var slash := IndexFrom(rest, '/', 0);
      Some(Url(s[..i], rest[..slash], rest[slash..]))
  }

  /** upstreamURL */
  function Upstream(u: Url): Url {
    Url("https", UpstreamHost(u.path), u.path)
  }

  /** strings.TrimRight(s, "/") */
  function TrimSlashes(s: string): (t: string)
    ensures t == "" || t[|t| - 1] != '/'
    ensures t <= s
  {
    if s != "" && s[|s| - 1] == '/' then TrimSlashes(s[..|s| - 1]) else s
  }

  /** proxyBaseURL */
  function ProxyBaseUrl(publicUrl: string, listenAddr: string): string {
    if publicUrl != "" then TrimSlashes(publicUrl)
    else if listenAddr == "" || listenAddr[0] == ':' then "http://localhost" + listenAddr
    else "http://" + listenAddr
  }

  const NPM_ORIGIN := "https://" + NPM_HOST
  const FILES_ORIGIN := "https://" + FILES_HOST

  /** Both rewritten origins are unbordered. */
  lemma OriginsAreUnbordered()
    ensures Unbordered(NPM_ORIGIN) && Unbordered(FILES_ORIGIN)
  {
    forall d | 0 < d < |NPM_ORIGIN|
      ensures Clash(NPM_ORIGIN, NPM_ORIGIN, d)
    {
      assert Disagree(NPM_ORIGIN, NPM_ORIGIN, d, d);
    }
    forall d | 0 < d < |FILES_ORIGIN|
      ensures Clash(FILES_ORIGIN, FILES_ORIGIN, d)
    {
      assert Disagree(FILES_ORIGIN, FILES_ORIGIN, d, d) || Disagree(FILES_ORIGIN, FILES_ORIGIN, d, d + 1);
    }
  }

  /** A base URL: scheme, host, and possibly a path of its own in front of everything. */
  predicate Base(scheme: string, host: string, prefix: string) {
    Free(scheme, ':') && host != "" && Free(host, '/') && (prefix == "" || prefix[0] == '/')
  }

  /** Host and port of the base for a listen address. */
  function Authority(listenAddr: string): string {
    if listenAddr == "" || listenAddr[0] == ':' then "localhost" + listenAddr else listenAddr
  }

  /** Without a public URL, the listen address is a base with no path of its own. */
  lemma ListenAddressIsPathless(listenAddr: string)
    requires Free(listenAddr, '/')
    ensures exists host :: Base("http", host, "") && ProxyBaseUrl("", listenAddr) == "http://" + host
  {
    var host := Authority(listenAddr);
    assert Base("http", host, "");
    assert ProxyBaseUrl("", listenAddr) == "http://" + host;
  }

  /** An address without a host stands for the local one. */
  lemma LocalAddressIsNamed(host: string, port: string)
    requires host != "" && host[0] != ':'
    ensures ProxyBaseUrl("", ":" + port) == "http://localhost:" + port
    ensures ProxyBaseUrl("", host + ":" + port) == "http://" + host + ":" + port
    ensures ProxyBaseUrl("", "") == "http://localhost"
  {
    assert "http://localhost" + (":" + port) == "http://localhost:" + port;
    assert "http://" + (host + ":" + port) == "http://" + host + ":" + port;
  }

  // ----- which bases can overlap an origin -----

  const SCHEME := "https:"
  const HTTP := "http://"
  const HTTPS := "https://"

  /** It ends as both origins begin. */
  ghost predicate EndsAsOriginsBegin(authority: string) {
    exists n :: 1 <= n <= |SCHEME| && HasSuffix(authority, SCHEME[..n])
  }

  /** An HTTPS URL inside of which nothing begins as a scheme does. */
  ghost predicate HttpsOnce(origin: string) {
    && 8 < |origin| && origin[6] == '/'
    && (forall j :: 0 <= j < 6 ==> origin[j] == SCHEME[j])
    && forall e :: 0 < e < |origin| ==> DoesNotRestart(origin, e)
  }

  predicate DoesNotRestart(origin: string, e: nat)
    requires e < |origin|
  {
    origin[e] != 'h' || (e + 1 < |origin| && origin[e + 1] != 't')
  }

  lemma NpmIsHttpsOnce()
    ensures HttpsOnce(NPM_ORIGIN)
  {
    assert NPM_ORIGIN[..6] == SCHEME && forall j :: 0 <= j < 6 ==> NPM_ORIGIN[j] == NPM_ORIGIN[..6][j];
    assert forall e :: 0 < e < |NPM_ORIGIN| ==> NPM_ORIGIN[e] != 'h';
  }

  lemma FilesIsHttpsOnce()
    ensures HttpsOnce(FILES_ORIGIN)
  {
    assert FILES_ORIGIN[..6] == SCHEME && forall j :: 0 <= j < 6 ==> FILES_ORIGIN[j] == FILES_ORIGIN[..6][j];
    assert forall e :: 0 < e < |FILES_ORIGIN| ==> e == 17 || e == 20 || FILES_ORIGIN[e] != 'h';
    assert FILES_ORIGIN[18] == 'o' && FILES_ORIGIN[21] == 'o';
  }

  lemma SchemesBegin(scheme: string)
    requires scheme == HTTP || scheme == HTTPS
    ensures 2 <= |scheme| && scheme[0] == 'h' && scheme[1] == 't' && forall d :: 0 < d < |scheme| ==> scheme[d] != 'h'
    ensures scheme == HTTP ==> scheme[4] == ':'
    ensures SCHEME[0] == 'h' && SCHEME[4] == 's'
  {
  }

  /** Laid over the inside of a base, an origin clashes unless it starts in the authority's last six bytes. */
  lemma ClashesInside(origin: string, scheme: string, authority: string, d: int)
    requires HttpsOnce(origin) && forall k :: 0 < k < |scheme| ==> scheme[k] != 'h'
    requires Free(authority, '/') && !EndsAsOriginsBegin(authority) && 0 < d < |scheme + authority|
    ensures Clash(origin, scheme + authority, d)
  {
    var base, s := scheme + authority, |scheme|;
    var n := |base| - d;
    assert SCHEME[0] == 'h';
    if d < s {
      assert base[d] == scheme[d];
      assert Disagree(origin, base, d, d);
    } else if 6 < n {
      assert base[d + 6] == authority[d + 6 - s] && authority[d + 6 - s] in authority;
      assert Disagree(origin, base, d, d + 6);
    } else {
      assert !HasSuffix(authority, SCHEME[..n]);
      var j :| 0 <= j < n && authority[|authority| - n..][j] != SCHEME[..n][j];
      assert base[d + j] == authority[|authority| - n..][j];
      assert Disagree(origin, base, d, d + j);
    }
  }

  lemma EndOverlaps(origin: string, front: string, authority: string)
    requires HttpsOnce(origin) && EndsAsOriginsBegin(authority)
    ensures !CannotOverlap(origin, front + authority)
  {
    var base := front + authority;
    var n :| 1 <= n <= |SCHEME| && HasSuffix(authority, SCHEME[..n]);
    var d := |base| - n;
    assert forall k :: d <= k < |base| ==> base[k] == authority[|authority| - n..][k - d] == SCHEME[k - d] == origin[k - d];
    assert !Clash(origin, base, d);
  }

  /** Laid over the start of a base from the outside, an origin clashes. */
  lemma ClashesBefore(origin: string, base: string, d: int)
    requires HttpsOnce(origin) && -|origin| < d < 0 && 2 <= |base| && base[0] == 'h' && base[1] == 't'
    ensures Clash(origin, base, d)
  {
    assert DoesNotRestart(origin, -d);
    if origin[-d] != 'h' {
      assert Disagree(origin, base, d, 0);
    } else {
      assert Disagree(origin, base, d, 1);
    }
  }

  /** Only an origin laid over the base from its first byte on remains to be looked at. */
  lemma OverlapsFromStartIff(origin: string, scheme: string, authority: string)
    requires HttpsOnce(origin) && (scheme == HTTP || scheme == HTTPS)
    requires Free(authority, '/') && !EndsAsOriginsBegin(authority)
    ensures CannotOverlap(origin, scheme + authority) <==> Clash(origin, scheme + authority, 0)
  {
    var base := scheme + authority;
    SchemesBegin(scheme);
    if Clash(origin, base, 0) {
      forall d | -|origin| < d < |base|
        ensures Clash(origin, base, d)
      {
        if d > 0 {
          ClashesInside(origin, scheme, authority, d);
        } else if d < 0 {
          ClashesBefore(origin, base, d);
        }
      }
    }
  }

  /** A base over plain HTTP cannot overlap an origin iff it does not end as the origin begins. */
  lemma HttpBaseCannotOverlapIff(origin: string, authority: string)
    requires HttpsOnce(origin) && Free(authority, '/')
    ensures CannotOverlap(origin, HTTP + authority) <==> !EndsAsOriginsBegin(authority)
  {
    if EndsAsOriginsBegin(authority) {
      EndOverlaps(origin, HTTP, authority);
    } else {
      SchemesBegin(HTTP);
      assert Disagree(origin, HTTP + authority, 0, 4);
      OverlapsFromStartIff(origin, HTTP, authority);
    }
  }

  /** Laid over each other from the start, two strings agree iff one of them begins with the other. */
  lemma ClashAtStartIff(front: string, a: string, b: string)
    ensures Clash(front + a, front + b, 0) <==> !(a <= b) && !(b <= a)
  {
    if a <= b || b <= a {
      assert forall k :: !Disagree(front + a, front + b, 0, k);
    } else {
      var n := if |a| < |b| then |a| else |b|;
      assert a[..n] != b[..n] by {
        assert a[..n] == b[..n] ==> a <= b || b <= a;
      }
      var j :| 0 <= j < n && a[j] != b[j];
      assert Disagree(front + a, front + b, 0, |front| + j);
    }
  }

  /**
    A base over HTTPS cannot overlap the origin of `upstream` iff it does not end as the origin begins,
    and neither authority begins with the other.
   */
  lemma HttpsBaseCannotOverlapIff(upstream: string, authority: string)
    requires HttpsOnce(HTTPS + upstream) && Free(authority, '/')
    ensures CannotOverlap(HTTPS + upstream, HTTPS + authority) <==>
            !EndsAsOriginsBegin(authority) && !(upstream <= authority) && !(authority <= upstream)
  {
    if EndsAsOriginsBegin(authority) {
      EndOverlaps(HTTPS + upstream, HTTPS, authority);
    } else {
      ClashAtStartIff(HTTPS, upstream, authority);
      OverlapsFromStartIff(HTTPS + upstream, HTTPS, authority);
    }
  }

  /** A public URL counts without its trailing slashes. */
  lemma {:induction false} TrailingSlashesGo(base: string, slashes: string)
    requires base != "" && base[|base| - 1] != '/' && forall c :: c in slashes ==> c == '/'
    ensures TrimSlashes(base + slashes) == base
  {
    if slashes == "" {
      assert base + slashes == base;
    } else {
      var init := slashes[..|slashes| - 1];
      assert forall c :: c in init ==> c in slashes;
      assert slashes[|slashes| - 1] in slashes && (base + slashes)[..|base + slashes| - 1] == base + init;
      TrailingSlashesGo(base, init);
    }
  }

  /** With a public HTTPS URL, every page loses every origin iff that URL's authority meets those conditions. */
  lemma PublicUrlRemovesIff(upstream: string, authority: string, slashes: string, listenAddr: string)
    requires (upstream == NPM_HOST || upstream == FILES_HOST) && authority != "" && Free(authority, '/')
    requires forall c :: c in slashes ==> c == '/'
    ensures RemovesAll(HTTPS + upstream, ProxyBaseUrl(HTTPS + authority + slashes, listenAddr)) <==>
            !EndsAsOriginsBegin(authority) && !(upstream <= authority) && !(authority <= upstream)
  {
    OriginsAreUnbordered();
    NpmIsHttpsOnce();
    FilesIsHttpsOnce();
    assert authority[|authority| - 1] in authority;
    TrailingSlashesGo(HTTPS + authority, slashes);
    HttpsBaseCannotOverlapIff(upstream, authority);
    RemovalIsExact(HTTPS + upstream, HTTPS + authority);
  }

  /** Without a public URL, every page loses every origin iff the listen address does not end as origins begin. */
  lemma ListenAddressRemovesIff(origin: string, listenAddr: string)
    requires (origin == NPM_ORIGIN || origin == FILES_ORIGIN) && Free(listenAddr, '/')
    ensures origin != "" && (RemovesAll(origin, ProxyBaseUrl("", listenAddr)) <==> !EndsAsOriginsBegin(Authority(listenAddr)))
  {
    OriginsAreUnbordered();
    NpmIsHttpsOnce();
    FilesIsHttpsOnce();
    FreeParts("localhost", listenAddr, '/');
    assert ProxyBaseUrl("", listenAddr) == "http://" + Authority(listenAddr);
    assert HTTP + Authority(listenAddr) == "http://" + Authority(listenAddr);
    HttpBaseCannotOverlapIff(origin, Authority(listenAddr));
    RemovalIsExact(origin, ProxyBaseUrl("", listenAddr));
  }

  /** So it does for any address with a numeric port, such as ":8080". */
  lemma NumericPortRemovesAll(origin: string, host: string, port: string)
    requires (origin == NPM_ORIGIN || origin == FILES_ORIGIN) && Free(host, '/')
    requires port != "" && forall c :: c in port ==> Digit(c)
    ensures origin != "" && RemovesAll(origin, ProxyBaseUrl("", host + ":" + port))
    ensures Idempotent(origin, ProxyBaseUrl("", host + ":" + port))
  {
    var listenAddr := host + ":" + port;
    var authority := Authority(listenAddr);
    assert Free(listenAddr, '/');
    ListenAddressRemovesIff(origin, listenAddr);
    assert authority[|authority| - 1] == port[|port| - 1] && port[|port| - 1] in port;
    forall n | 1 <= n <= |SCHEME|
      ensures !HasSuffix(authority, SCHEME[..n])
    {
      assert SCHEME[..n][n - 1] == SCHEME[n - 1] && !Digit(SCHEME[n - 1]);
      if n <= |authority| {
        assert authority[|authority| - n..][n - 1] == authority[|authority| - 1];
      }
    }
    OriginsAreUnbordered();
    RemovalIsExact(origin, ProxyBaseUrl("", listenAddr));
    IdempotenceIsExact(origin, ProxyBaseUrl("", listenAddr));
  }

  /** What the client requests after following a rewritten URL. */
  function Requested(origin: string, path: string, base: string): Option<Url>
    requires origin != ""
  {
    Parse(ReplaceAll(origin + path, origin, base))
  }

  lemma SchemeEnds(scheme: string, rest: string)
    requires Free(scheme, ':')
    ensures Index(scheme + "://" + rest, "://", 0) == |scheme|
  {
    var s := scheme + "://" + rest;
    assert OccursAt(s, "://", |scheme|);
    var i := Index(s, "://", 0);
    assert s[i] == s[i..i + 3][0] == ':';
    assert forall k :: 0 <= k < |scheme| ==> s[k] == scheme[k] && scheme[k] in scheme;
  }

  lemma ParsePrinted(scheme: string, host: string, path: string)
    requires Free(scheme, ':') && Free(host, '/') && path != "" && path[0] == '/'
    ensures Parse(scheme + "://" + host + path) == Some(Url(scheme, host, path))
  {
    var rest := host + path;
    var s := scheme + "://" + rest;
    assert s == scheme + "://" + host + path;
    SchemeEnds(scheme, rest);
    assert s[|scheme| + 3..] == rest && s[..|scheme|] == scheme;
    assert rest == "" + host + path;
    IndexSkips("", host, path, '/');
    assert rest[..|host|] == host && rest[|host|..] == path;
  }

  lemma RewrittenUrl(origin: string, path: string, base: string)
    requires origin != "" && !Contains(path, origin)
    ensures ReplaceAll(origin + path, origin, base) == base + path
  {
    var s := origin + path;
    assert OccursAt(s, origin, 0);
    assert s[|origin|..] == path;
    assert forall k :: !OccursAt(path, origin, k);
  }

  lemma ConcatAssociates(a: string, b: string, c: string, d: string)
    ensures a + b + c + d == a + b + (c + d)
  {
  }

  /** Following a rewritten URL arrives at the proxy with the base's own path in front. */
  lemma RequestAfterRewrite(origin: string, path: string, scheme: string, host: string, prefix: string)
    requires origin != "" && !Contains(path, origin) && path != "" && path[0] == '/' && Base(scheme, host, prefix)
    ensures Requested(origin, path, scheme + "://" + host + prefix) == Some(Url(scheme, host, prefix + path))
  {
    var base := scheme + "://" + host + prefix;
    RewrittenUrl(origin, path, base);
    ConcatAssociates(scheme + "://", host, prefix, path);
    ParsePrinted(scheme, host, prefix + path);
  }

  lemma HostsDiffer(h: string, g: string, p: string, q: string)
    requires h != "" && g != "" && h[0] != g[0]
    ensures "https://" + h + p != "https://" + g + q
  {
    assert ("https://" + h + p)[8] == h[0];
    assert ("https://" + g + q)[8] == g[0];
  }

  /** Printing what the proxy asks upstream for gives the origin's URL back iff host and path do. */
  lemma RestoredIff(upstream: string, host: string, path: string, prefix: string)
    requires upstream != "" && host != "" && (upstream == host || upstream[0] != host[0])
    ensures "https://" + upstream + (prefix + path) == "https://" + host + path <==> prefix == "" && upstream == host
  {
    if upstream != host {
      HostsDiffer(upstream, host, prefix + path, path);
    } else if prefix == "" {
      assert prefix + path == path;
    } else {
      assert |"https://" + upstream + (prefix + path)| != |"https://" + host + path|;
    }
  }

  lemma PrintUpstream(u: Url)
    ensures Print(Upstream(u)) == "https://" + UpstreamHost(u.path) + u.path
  {
    assert "https" + "://" == "https://";
  }

  /** Routing undoes the rewrite of a URL of `origin` iff the base adds no path and the path selects its host. */
  lemma UrlIsRestoredIff(origin: string, upstream: string, path: string, scheme: string, host: string, prefix: string)
    requires origin == "https://" + upstream && upstream != ""
    requires UpstreamHost(prefix + path) == upstream || UpstreamHost(prefix + path)[0] != upstream[0]
    requires path != "" && path[0] == '/' && !Contains(path, origin) && Base(scheme, host, prefix)
    ensures var request := Requested(origin, path, scheme + "://" + host + prefix);
            && request.Some?
            && (Print(Upstream(request.value)) == origin + path <==> prefix == "" && UpstreamHost(path) == upstream)
  {
    RequestAfterRewrite(origin, path, scheme, host, prefix);
    PrintUpstream(Url(scheme, host, prefix + path));
    RestoredIff(UpstreamHost(prefix + path), upstream, path, prefix);
    assert prefix == "" ==> prefix + path == path;
  }

  /**
    An npm URL is restored iff the base has no path of its own and the URL's path does not begin with
    the element "simple" or "packages".
   */
  lemma NpmUrlIsRestoredIff(path: string, scheme: string, host: string, prefix: string)
    requires path != "" && path[0] == '/' && !Contains(path, NPM_ORIGIN) && Base(scheme, host, prefix)
    ensures var request := Requested(NPM_ORIGIN, path, scheme + "://" + host + prefix);
            && request.Some?
            && (Print(Upstream(request.value)) == NPM_ORIGIN + path <==> prefix == "" && !IsPyPIPath(path))
  {
    HostsAreTold(prefix + path);
    HostsAreTold(path);
    UrlIsRestoredIff(NPM_ORIGIN, NPM_HOST, path, scheme, host, prefix);
  }

  /** A file URL is restored iff the base has no path of its own and the URL's path begins with "/packages/". */
  lemma FileUrlIsRestoredIff(path: string, scheme: string, host: string, prefix: string)
    requires path != "" && path[0] == '/' && !Contains(path, FILES_ORIGIN) && Base(scheme, host, prefix)
    ensures var request := Requested(FILES_ORIGIN, path, scheme + "://" + host + prefix);
            && request.Some?
            && (Print(Upstream(request.value)) == FILES_ORIGIN + path <==> prefix == "" && HasPrefix(path, "/packages/"))
  {
    HostsAreTold(prefix + path);
    HostsAreTold(path);
    UrlIsRestoredIff(FILES_ORIGIN, FILES_HOST, path, scheme, host, prefix);
  }

  // ----- paths that carry the origin themselves -----

  lemma RewriteKeepsSlash(path: string, origin: string, base: string)
    requires path != "" && path[0] == '/' && origin != "" && origin[0] != '/'
    ensures ReplaceAll(path, origin, base) != "" && ReplaceAll(path, origin, base)[0] == '/'
  {
    OccurrenceByte(path, origin, 0, 0);
  }

  lemma RewritesInPathToo(origin: string, path: string, base: string)
    requires origin != ""
    ensures ReplaceAll(origin + path, origin, base) == base + ReplaceAll(path, origin, base)
  {
    assert OccursAt(origin + path, origin, 0);
    assert (origin + path)[|origin|..] == path;
  }

  lemma RewriteKeepsPageIff(page: string, origin: string, base: string)
    requires origin != ""
    ensures ReplaceAll(page, origin, base) == page <==> !Contains(page, origin) || base == origin
  {
    if Contains(page, origin) {
      RewriteChangesPage(page, origin, base);
    }
  }

  lemma RequestWithPathlessBase(origin: string, path: string, scheme: string, host: string)
    requires origin != "" && origin[0] != '/' && path != "" && path[0] == '/' && Base(scheme, host, "")
    ensures var base := scheme + "://" + host;
            Requested(origin, path, base) == Some(Url(scheme, host, ReplaceAll(path, origin, base)))
  {
    var base := scheme + "://" + host;
    RewritesInPathToo(origin, path, base);
    RewriteKeepsSlash(path, origin, base);
    ParsePrinted(scheme, host, ReplaceAll(path, origin, base));
  }

  lemma SameUrlIff(h: string, g: string, p: string, q: string)
    requires h != "" && g != "" && (h == g || h[0] != g[0])
    ensures "https://" + h + p == "https://" + g + q <==> h == g && p == q
  {
    if h != g {
      HostsDiffer(h, g, p, q);
    } else {
      var front := "https://" + h;
      assert (front + p)[|front|..] == p && (front + q)[|front|..] == q;
    }
  }

  /** The same for a base without a path and any path of a URL. */
  lemma PathlessRestoredIff(origin: string, upstream: string, path: string, scheme: string, host: string)
    requires origin == "https://" + upstream && upstream != "" && path != "" && path[0] == '/' && Base(scheme, host, "")
    requires var kept := ReplaceAll(path, origin, scheme + "://" + host);
             UpstreamHost(kept) == upstream || UpstreamHost(kept)[0] != upstream[0]
    ensures var base := scheme + "://" + host;
            var request := Requested(origin, path, base);
            && request.Some?
            && (Print(Upstream(request.value)) == origin + path <==>
                UpstreamHost(path) == upstream && (!Contains(path, origin) || base == origin))
  {
    var base := scheme + "://" + host;
    var kept := ReplaceAll(path, origin, base);
    RequestWithPathlessBase(origin, path, scheme, host);
    PrintUpstream(Url(scheme, host, kept));
    RewriteKeepsPageIff(path, origin, base);
    SameUrlIff(UpstreamHost(kept), upstream, kept, path);
  }

  /** With a base without a path, also for URLs whose path repeats the origin. */
  lemma AnyNpmUrlIsRestoredIff(path: string, scheme: string, host: string)
    requires path != "" && path[0] == '/' && Base(scheme, host, "")
    ensures var base := scheme + "://" + host;
            var request := Requested(NPM_ORIGIN, path, base);
            && request.Some?
            && (Print(Upstream(request.value)) == NPM_ORIGIN + path <==>
                !IsPyPIPath(path) && (!Contains(path, NPM_ORIGIN) || base == NPM_ORIGIN))
  {
    HostsAreTold(ReplaceAll(path, NPM_ORIGIN, scheme + "://" + host));
    HostsAreTold(path);
    PathlessRestoredIff(NPM_ORIGIN, NPM_HOST, path, scheme, host);
  }

  lemma AnyFileUrlIsRestoredIff(path: string, scheme: string, host: string)
    requires path != "" && path[0] == '/' && Base(scheme, host, "")
    ensures var base := scheme + "://" + host;
            var request := Requested(FILES_ORIGIN, path, base);
            && request.Some?
            && (Print(Upstream(request.value)) == FILES_ORIGIN + path <==>
                HasPrefix(path, "/packages/") && (!Contains(path, FILES_ORIGIN) || base == FILES_ORIGIN))
  {
    HostsAreTold(ReplaceAll(path, FILES_ORIGIN, scheme + "://" + host));
    HostsAreTold(path);
    PathlessRestoredIff(FILES_ORIGIN, FILES_HOST, path, scheme, host);
  }
}
