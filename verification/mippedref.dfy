/** References to Mipped threads: how they are parsed, scraped, emitted and reduced to one key. */
module MippedRef {
  import opened Types
  import opened Regex
  import opened Text

  /** (?:threads/)?([^/?#]+?)\.(\d+)/?(?:[?#].*)?$ */
  const QUERY_REST := Repeat(NotNewline, 0, true, false, AtEnd)
  const QUERY := One(QueryMark, QUERY_REST)
  const TAIL := Alt(QUERY, AtEnd)
  const SLASH := OptLit("/", TAIL)
  const ID := Repeat(Digit, 1, true, true, SLASH)
  const CORE := Repeat(RefSlug, 1, false, true, Lit(".", ID))
  const REF := OptLit("threads/", CORE)

  /** /threads/([^/?#"]+?)\.(\d+) */
  const HREF_ID := Repeat(Digit, 1, true, true, Accept)
  const HREF_CORE := Repeat(HrefSlug, 1, false, true, Lit(".", HREF_ID))
  const HREF := Lit("/threads/", HREF_CORE)

  datatype Ref = Ref(slug: string, id: string)

  function ParseRef(text: string): Option<Ref> {
    match FindFrom(REF, Trim(text), 0)
    case None => None
    case Some(f) => if |f.m.caps| == 2 then Some(Ref(f.m.caps[0], f.m.caps[1])) else None
  }

  function Scrape(href: string): Option<Ref> {
    match FindFrom(HREF, href, 0)
    case None => None
    case Some(f) => if |f.m.caps| == 2 then Some(Ref(f.m.caps[0], f.m.caps[1])) else None
  }

  function Emit(r: Ref): string {
    "https://mipped.com/f/threads/" + r.slug + "." + r.id + "/"
  }

  function CanonicalRef(forum: string, ref: string): string {
    if forum == MIPPED && ParseRef(ref).Some? then "m:" + ParseRef(ref).value.id else Trim(ref)
  }

  // ----- the end of a reference -----

  /** Nothing, or a query or fragment without a line break. */
  ghost predicate Query(u: string) {
    u == "" || (In(u[0], QueryMark) && All(u[1..], NotNewline))
  }

  /** An optional slash and an optional query. */
  ghost predicate Ending(u: string) {
    Query(u) || (u[0] == '/' && Query(u[1..]))
  }

  lemma QueryRestAt(s: string, i: nat)
    requires i <= |s|
    ensures Exec(QUERY_REST, s, i) == if All(s[i..], NotNewline) then Some(Match(|s|, [])) else None
  {
    var n := RunLength(s, i, NotNewline);
    RunLengthMeaning(s, i, NotNewline);
    GreedyTakesAll(NotNewline, 0, false, AtEnd, s, i);
    if i + n < |s| {
      assert !In(s[i..][n], NotNewline);
    } else {
      assert forall k :: 0 <= k < |s[i..]| ==> s[i..][k] == s[i + k];
    }
  }

  lemma QueryAt(s: string, i: nat)
    requires i <= |s|
    ensures Exec(TAIL, s, i) == if Query(s[i..]) then Some(Match(|s|, [])) else None
  {
    if i < |s| {
      QueryRestAt(s, i + 1);
      assert s[i..][1..] == s[i + 1..];
    }
    assert Exec(QUERY, s, i) == if i < |s| && In(s[i], QueryMark) then Exec(QUERY_REST, s, i + 1) else None;
  }

  lemma EndingAt(s: string, i: nat)
    requires i <= |s|
    ensures Exec(SLASH, s, i) == if Ending(s[i..]) then Some(Match(|s|, [])) else None
  {
    QueryAt(s, i);
    if i < |s| && s[i] == '/' {
      QueryAt(s, i + 1);
      assert s[i..][1..] == s[i + 1..];
      assert "/" <= s[i..];
    } else {
      assert !("/" <= s[i..]);
    }
  }

  /** The digits must run right up to the ending: a shorter run would leave a digit there. */
  lemma IdAt(s: string, i: nat)
    requires i <= |s|
    ensures var d := RunLength(s, i, Digit);
      Exec(ID, s, i) == if d > 0 && Ending(s[i + d..]) then Some(Match(|s|, [s[i..i + d]])) else None
  {
    var d := RunLength(s, i, Digit);
    forall p | i + 1 <= p < i + d ensures Exec(SLASH, s, p).None? {
      RunSuffix(s, i, Digit, p);
      NoEndingAtDigit(s, p);
    }
    GreedyTakesAll(Digit, 1, true, SLASH, s, i);
    EndingAt(s, i + d);
    assert [s[i..i + d]] + [] == [s[i..i + d]];
  }

  lemma NoEndingAtDigit(s: string, i: nat)
    requires i < |s| && IsDigit(s[i])
    ensures Exec(SLASH, s, i).None?
  {
    EndingAt(s, i);
    assert s[i..][0] == s[i];
  }

  lemma DotAt(s: string, i: nat)
    requires i <= |s|
    ensures Exec(Lit(".", ID), s, i) == if i < |s| && s[i] == '.' then Exec(ID, s, i + 1) else None
  {
    CharThen('.', ID, s, i);
  }

  // ----- slug.id and its surroundings -----

  /** In `s` the path ends at p, the slug at q, the id at e. The path is empty or ends in a slash and holds
      no query mark, the slug is any non-empty text without slash and query mark, an ending follows. */
  ghost predicate Laid(s: string, p: nat, q: nat, e: nat) {
    && p < q < e - 1 && e <= |s|
    && (p == 0 || s[p - 1] == '/') && (forall k :: 0 <= k < p ==> !In(s[k], QueryMark))
    && (forall k :: p <= k < q ==> In(s[k], RefSlug)) && s[q] == '.'
    && (forall k :: q < k < e ==> IsDigit(s[k])) && Ending(s[e..])
  }

  lemma EndingStart(s: string, e: nat)
    requires e < |s| && Ending(s[e..])
    ensures In(s[e], QueryMark) || s[e] == '/'
    ensures s[e] == '/' && e + 1 < |s| ==> In(s[e + 1], QueryMark)
  {
    var u := s[e..];
    assert u[0] == s[e] && (|u| > 1 ==> u[1..][0] == s[e + 1]);
  }

  /** Inside the slug no earlier dot can end it: what follows its digits is not an ending. */
  lemma NoEarlierDot(s: string, p: nat, q: nat, e: nat, i: nat)
    requires Laid(s, p, q, e) && p <= i < q
    ensures Exec(Lit(".", ID), s, i).None?
  {
    DigitsStop(s, i + 1, q);
    NotEnding(s, p, q, e, i + 1 + RunLength(s, i + 1, Digit));
    NoIdAt(s, i);
  }

  lemma NoIdAt(s: string, i: nat)
    requires i < |s| && !Ending(s[i + 1 + RunLength(s, i + 1, Digit)..])
    ensures Exec(Lit(".", ID), s, i).None?
  {
    DotAt(s, i);
    IdAt(s, i + 1);
  }

  lemma DotIdAt(s: string, q: nat, e: nat)
    requires q + 1 < e <= |s| && s[q] == '.' && RunLength(s, q + 1, Digit) == e - q - 1 && Ending(s[e..])
    ensures Exec(Lit(".", ID), s, q) == Some(Match(|s|, [s[q + 1..e]]))
  {
    DotAt(s, q);
    IdAt(s, q + 1);
  }

  lemma DigitsStop(s: string, i: nat, q: nat)
    requires i <= q < |s| && !IsDigit(s[q])
    ensures i + RunLength(s, i, Digit) <= q
  {
    RunLengthMeaning(s, i, Digit);
  }

  lemma NotEnding(s: string, p: nat, q: nat, e: nat, j: nat)
    requires Laid(s, p, q, e) && p <= j <= q
    ensures !Ending(s[j..])
  {
    assert In(s[j], RefSlug);
    if Ending(s[j..]) {
      EndingStart(s, j);
    }
  }

  lemma IdHere(s: string, p: nat, q: nat, e: nat)
    requires Laid(s, p, q, e)
    ensures Exec(Lit(".", ID), s, q) == Some(Match(|s|, [s[q + 1..e]]))
  {
    IdRun(s, p, q, e);
    DotIdAt(s, q, e);
  }

  lemma IdRun(s: string, p: nat, q: nat, e: nat)
    requires Laid(s, p, q, e)
    ensures RunLength(s, q + 1, Digit) == e - q - 1
  {
    if e < |s| {
      EndingStart(s, e);
    }
    RunLengthIs(s, q + 1, Digit, e - q - 1);
  }

  lemma CoreHere(s: string, p: nat, q: nat, e: nat)
    requires Laid(s, p, q, e)
    ensures Exec(CORE, s, p) == Some(Match(|s|, [s[p..q], s[q + 1..e]]))
  {
    IdHere(s, p, q, e);
    forall k | p + 1 <= k < q ensures Exec(Lit(".", ID), s, k).None? {
      NoEarlierDot(s, p, q, e, k);
    }
    var most := RunLength(s, p, RefSlug);
    AtLeast(s, p, RefSlug, q - p);
    assert Exec(CORE, s, p) == Grow(Lit(".", ID), true, s, p, 1, most);
    GrowFinds(Lit(".", ID), true, s, p, 1, most, q - p);
    assert [s[p..q]] + [s[q + 1..e]] == [s[p..q], s[q + 1..e]];
  }

  /** In the path before it nothing matches: an ending would need the text to stop, or a query mark. */
  lemma NoIdInPath(s: string, p: nat, q: nat, e: nat, i: nat)
    requires Laid(s, p, q, e) && i < p
    ensures Exec(ID, s, i).None?
  {
    var d := RunLength(s, i, Digit);
    DigitsStop(s, i, p - 1);
    IdAt(s, i);
    if Ending(s[i + d..]) {
      EndingStart(s, i + d);
    }
  }

  lemma CoreNotInPath(s: string, p: nat, q: nat, e: nat, i: nat)
    requires Laid(s, p, q, e) && i < p
    ensures Exec(CORE, s, i).None?
  {
    var most := RunLength(s, i, RefSlug);
    RunLengthMeaning(s, i, RefSlug);
    assert s[p - 1] == '/' && i + most < p;
    forall k | i + 1 <= k <= i + most ensures Exec(Lit(".", ID), s, k).None? {
      DotAt(s, k);
      if k + 1 < p {
        NoIdInPath(s, p, q, e, k + 1);
      }
    }
    if most >= 1 {
      assert Exec(CORE, s, i) == Grow(Lit(".", ID), true, s, i, 1, most);
      GrowFails(Lit(".", ID), true, s, i, 1, most);
    }
  }

  predicate ThreadsAt(s: string, i: nat)
    requires i <= |s|
  {
    "threads/" <= s[i..]
  }

  lemma ThreadsChars(s: string, i: nat)
    requires i <= |s| && ThreadsAt(s, i)
    ensures i + 8 <= |s| && s[i + 7] == '/' && forall k :: i <= k < i + 8 ==> s[k] != '.'
  {
    assert forall k :: 0 <= k < 8 ==> s[i..][k] == "threads/"[k];
    assert forall k :: i <= k < i + 8 ==> s[k] == s[i..][k - i];
  }

  /** "threads/" cannot straddle the slug: it has no dot. */
  lemma ThreadsNotAcross(s: string, p: nat, q: nat, e: nat, i: nat)
    requires Laid(s, p, q, e) && i <= p < i + 8
    ensures !ThreadsAt(s, i)
  {
    if ThreadsAt(s, i) {
      ThreadsChars(s, i);
      assert false;
    }
  }

  /** The leftmost match takes a "threads/" that stands right before the slug. */
  function StartOf(s: string, p: nat): (i: nat)
    requires p <= |s|
    ensures i <= p
  {
    if p >= 8 && ThreadsAt(s, p - 8) then p - 8 else p
  }

  lemma RefAt(s: string, i: nat)
    requires i <= |s|
    ensures Exec(REF, s, i) ==
            if ThreadsAt(s, i) && Exec(CORE, s, i + 8).Some? then Exec(CORE, s, i + 8) else Exec(CORE, s, i)
  {
  }

  lemma NoMatchBefore(s: string, p: nat, q: nat, e: nat, i: nat)
    requires Laid(s, p, q, e) && i < StartOf(s, p)
    ensures Exec(REF, s, i).None?
  {
    RefAt(s, i);
    CoreNotInPath(s, p, q, e, i);
    if i + 8 < p {
      CoreNotInPath(s, p, q, e, i + 8);
    } else if p < i + 8 {
      ThreadsNotAcross(s, p, q, e, i);
    }
  }

  lemma MatchAtStart(s: string, p: nat, q: nat, e: nat)
    requires Laid(s, p, q, e)
    ensures Exec(REF, s, StartOf(s, p)) == Some(Match(|s|, [s[p..q], s[q + 1..e]]))
  {
    CoreHere(s, p, q, e);
    RefAt(s, StartOf(s, p));
    if StartOf(s, p) == p {
      ThreadsNotAcross(s, p, q, e, p);
    }
  }

  lemma LaidParses(text: string, p: nat, q: nat, e: nat)
    requires Laid(Trim(text), p, q, e)
    ensures ParseRef(text) == Some(Ref(Trim(text)[p..q], Trim(text)[q + 1..e]))
  {
    var s := Trim(text);
    MatchAtStart(s, p, q, e);
    forall k | 0 <= k < StartOf(s, p) ensures Exec(REF, s, k).None? {
      NoMatchBefore(s, p, q, e, k);
    }
    SkipMisses(REF, s, 0, StartOf(s, p));
  }

  ghost predicate ValidRef(r: Ref) {
    r.slug != "" && All(r.slug, RefSlug) && r.id != "" && All(r.id, Digit)
  }

  /** A path before slug.id: empty, or ending in a slash, and free of query marks. */
  ghost predicate Path(pre: string) {
    (pre == "" || pre[|pre| - 1] == '/') && forall k :: 0 <= k < |pre| ==> !In(pre[k], QueryMark)
  }

  function Written(pre: string, r: Ref, u: string): string {
    pre + r.slug + "." + r.id + u
  }

  lemma WrittenIsLaid(pre: string, r: Ref, u: string)
    requires Path(pre) && ValidRef(r) && Ending(u)
    ensures var s := Written(pre, r, u);
      var p, q := |pre|, |pre| + |r.slug|;
      Laid(s, p, q, q + 1 + |r.id|) && s[p..q] == r.slug && s[q + 1..q + 1 + |r.id|] == r.id
  {
    var s := Written(pre, r, u);
    var p, q := |pre|, |pre| + |r.slug|;
    assert forall k :: 0 <= k < p ==> s[k] == pre[k];
    forall k | p <= k < q ensures In(s[k], RefSlug) {
      assert s[k] == r.slug[k - p];
    }
    forall k | q < k < q + 1 + |r.id| ensures IsDigit(s[k]) {
      assert s[k] == r.id[k - q - 1] && In(r.id[k - q - 1], Digit);
    }
    assert s[q + 1 + |r.id|..] == u;
  }

  /** Round trip: whatever path leads to it, whatever ending and white space surround it, slug.id is read back
      as it is, and reduced to one key. */
  lemma WrittenParses(text: string, pre: string, r: Ref, u: string)
    requires Path(pre) && ValidRef(r) && Ending(u) && Trim(text) == Written(pre, r, u)
    ensures ParseRef(text) == Some(r)
    ensures CanonicalRef(MIPPED, text) == "m:" + r.id
  {
    WrittenIsLaid(pre, r, u);
    LaidParses(text, |pre|, |pre| + |r.slug|, |pre| + |r.slug| + 1 + |r.id|);
  }

  // ----- scraping links -----

  lemma HrefIdAt(s: string, i: nat)
    requires i <= |s|
    ensures var d := RunLength(s, i, Digit);
      Exec(HREF_ID, s, i) == if d == 0 then None else Some(Match(i + d, [s[i..i + d]]))
  {
    var d := RunLength(s, i, Digit);
    if d > 0 {
      assert Exec(HREF_ID, s, i) == Shrink(Accept, true, s, i, 1, d);
      assert Exec(Accept, s, i + d) == Some(Match(i + d, []));
      assert [s[i..i + d]] + [] == [s[i..i + d]];
    }
  }

  lemma HrefDotAt(s: string, i: nat)
    requires i <= |s|
    ensures Exec(Lit(".", HREF_ID), s, i) == if i < |s| && s[i] == '.' then Exec(HREF_ID, s, i + 1) else None
  {
    CharThen('.', HREF_ID, s, i);
  }

  ghost predicate RefCaps(caps: seq<string>) {
    |caps| == 2 && caps[0] != "" && All(caps[0], HrefSlug) && caps[1] != "" && All(caps[1], Digit)
  }

  lemma CutShape(s: string, i: nat, j: nat)
    requires i < j <= |s| && (forall k :: i <= k < j ==> In(s[k], HrefSlug)) && Exec(Lit(".", HREF_ID), s, j).Some?
    ensures RefCaps([s[i..j]] + Exec(Lit(".", HREF_ID), s, j).value.caps)
  {
    HrefDotAt(s, j);
    HrefIdAt(s, j + 1);
    RunLengthMeaning(s, j + 1, Digit);
  }

  lemma {:induction false} GrowShape(s: string, i: nat, n: nat, hi: nat)
    requires 1 <= n <= hi && i + hi <= |s| && forall k :: i <= k < i + hi ==> In(s[k], HrefSlug)
    requires Grow(Lit(".", HREF_ID), true, s, i, n, hi).Some?
    ensures RefCaps(Grow(Lit(".", HREF_ID), true, s, i, n, hi).value.caps)
    decreases hi - n
  {
    if Exec(Lit(".", HREF_ID), s, i + n).Some? {
      CutShape(s, i, i + n);
    } else {
      GrowShape(s, i, n + 1, hi);
    }
  }

  lemma HrefShape(s: string, i: nat)
    requires i <= |s| && Exec(HREF, s, i).Some?
    ensures RefCaps(Exec(HREF, s, i).value.caps)
  {
    var j := i + 9;
    var most := RunLength(s, j, HrefSlug);
    RunLengthMeaning(s, j, HrefSlug);
    assert Exec(HREF, s, i) == Exec(HREF_CORE, s, j) == Grow(Lit(".", HREF_ID), true, s, j, 1, most);
    GrowShape(s, j, 1, most);
  }

  lemma {:induction false} FoundByExec(re: Re, s: string, i: nat)
    requires i <= |s| && FindFrom(re, s, i).Some?
    ensures Exec(re, s, FindFrom(re, s, i).value.start) == Some(FindFrom(re, s, i).value.m)
    decreases |s| - i
  {
    if Exec(re, s, i).Some? {
    } else {
      FoundByExec(re, s, i + 1);
    }
  }

  lemma EmittedParses(r: Ref)
    requires ValidRef(r)
    ensures ParseRef(Emit(r)) == Some(r) && CanonicalRef(MIPPED, Emit(r)) == "m:" + r.id
  {
    var pre := "https://mipped.com/f/threads/";
    assert Emit(r) == Written(pre, r, "/");
    assert Tight(Emit(r));
    TrimTight(Emit(r));
    assert Query("/"[1..]);
    WrittenParses(Emit(r), pre, r, "/");
  }

  /** Whatever link is scraped, the address the bot stores for it is read back as the same thread. */
  lemma ScrapedLinkRoundTrips(href: string)
    requires Scrape(href).Some?
    ensures ParseRef(Emit(Scrape(href).value)) == Scrape(href)
    ensures CanonicalRef(MIPPED, Emit(Scrape(href).value)) == "m:" + Scrape(href).value.id
  {
    FoundByExec(HREF, href, 0);
    HrefShape(href, FindFrom(HREF, href, 0).value.start);
    var r := Scrape(href).value;
    assert forall k :: 0 <= k < |r.slug| ==> In(r.slug[k], HrefSlug) && In(r.slug[k], RefSlug);
    EmittedParses(r);
  }

  /** A dot, not the first character, with a digit right behind it. */
  ghost predicate DotDigit(slug: string) {
    exists k :: 0 < k < |slug| - 1 && slug[k] == '.' && IsDigit(slug[k + 1])
  }

  lemma HrefStart(s: string, pre: string, t: string)
    requires s == pre + ("/threads/" + t) && FirstLink(s, pre)
    ensures FindFrom(HREF, s, 0) ==
            var m := Exec(HREF_CORE, s, |pre| + 9);
            if m.Some? then Some(Found(|pre|, m.value)) else FindFrom(HREF, s, |pre| + 1)
  {
    SkipMisses(HREF, s, 0, |pre|);
    assert s[|pre|..] == "/threads/" + t;
  }

  lemma FirstLinkScraped(s: string, pre: string, t: string)
    requires s == pre + ("/threads/" + t) && FirstLink(s, pre)
    requires Exec(HREF_CORE, s, |pre| + 9).Some? && |Exec(HREF_CORE, s, |pre| + 9).value.caps| == 2
    ensures var caps := Exec(HREF_CORE, s, |pre| + 9).value.caps;
      Scrape(s) == Some(Ref(caps[0], caps[1]))
  {
    HrefStart(s, pre, t);
  }

  /** Nothing that stands in `pre` begins a match. */
  ghost predicate FirstLink(s: string, pre: string)
    requires |pre| <= |s|
  {
    forall k :: 0 <= k < |pre| ==> Exec(HREF, s, k).None?
  }

  lemma NotThreads(s: string, i: nat)
    requires i + 1 < |s| && (s[i] != '/' || s[i + 1] != 't')
    ensures !("/threads/" <= s[i..])
  {
    var text, rest := "/threads/", s[i..];
    assert text[0] == '/' && text[1] == 't' && (rest[0] != text[0] || rest[1] != text[1]);
  }

  predicate CutAt(s: string, n: nat) {
    n + 1 < |s| && s[n] == '.' && IsDigit(s[n + 1])
  }

  lemma HrefDotCut(s: string, n: nat)
    requires n <= |s|
    ensures Exec(Lit(".", HREF_ID), s, n) ==
            if CutAt(s, n) then Some(Match(n + 1 + RunLength(s, n + 1, Digit), [s[n + 1..n + 1 + RunLength(s, n + 1, Digit)]]))
            else None
  {
    HrefDotAt(s, n);
    if n < |s| {
      HrefIdAt(s, n + 1);
    }
  }

  /** The first dot before a digit, inside the slug or right behind it, is where the scrape cuts. */
  lemma HrefCut(s: string, i: nat, q: nat, k: nat)
    requires i < k <= q <= |s| && (forall n :: i <= n < q ==> In(s[n], HrefSlug))
    requires CutAt(s, k) && forall n :: i < n < k ==> !CutAt(s, n)
    ensures Exec(HREF_CORE, s, i) ==
            Some(Match(k + 1 + RunLength(s, k + 1, Digit), [s[i..k], s[k + 1..k + 1 + RunLength(s, k + 1, Digit)]]))
  {
    forall n | i + 1 <= n < k ensures Exec(Lit(".", HREF_ID), s, n).None? {
      HrefDotCut(s, n);
    }
    HrefDotCut(s, k);
    var most := RunLength(s, i, HrefSlug);
    AtLeast(s, i, HrefSlug, k - i);
    assert Exec(HREF_CORE, s, i) == Grow(Lit(".", HREF_ID), true, s, i, 1, most);
    GrowFinds(Lit(".", HREF_ID), true, s, i, 1, most, k - i);
    TwoCaps(s[i..k], s[k + 1..k + 1 + RunLength(s, k + 1, Digit)]);
  }

  /** A link to a thread: any beginning, /threads/, slug.id, and anything that does not go on with a digit. */
  ghost predicate Linked(s: string, pre: string, slug: string, id: string, rest: string) {
    && s == pre + ("/threads/" + (slug + ("." + (id + rest))))
    && slug != "" && All(slug, HrefSlug) && id != "" && All(id, Digit) && (rest == "" || !IsDigit(rest[0]))
  }

  /** slug.id begins at b and its dot is at q. */
  ghost predicate Standing(s: string, b: nat, q: nat, slug: string, id: string) {
    && q == b + |slug| && q + 1 + |id| <= |s| && s[b..q] == slug && s[q] == '.' && s[q + 1..q + 1 + |id|] == id
    && (forall n :: b <= n < q ==> s[n] == slug[n - b] && In(s[n], HrefSlug))
    && RunLength(s, q + 1, Digit) == |id| && CutAt(s, q)
  }

  lemma IdStanding(s: string, i: nat, id: string, rest: string)
    requires i <= |s| && s[i..] == id + rest && All(id, Digit) && (rest == "" || !IsDigit(rest[0]))
    ensures i + |id| <= |s| && s[i..i + |id|] == id && RunLength(s, i, Digit) == |id|
    ensures id != "" ==> IsDigit(s[i])
  {
    Peel(s, i, id, rest);
    forall k | i <= k < i + |id| ensures IsDigit(s[k]) {
      assert s[k] == id[k - i] && In(id[k - i], Digit);
    }
    if rest != "" {
      assert s[i + |id|] == rest[0];
    }
    RunLengthIs(s, i, Digit, |id|);
  }

  lemma LinkedParts(s: string, pre: string, slug: string, id: string, rest: string)
    requires Linked(s, pre, slug, id, rest)
    ensures Standing(s, |pre| + 9, |pre| + 9 + |slug|, slug, id)
  {
    Behind(s, pre, "/threads/", slug + ("." + (id + rest)));
    StandingAt(s, |pre| + 9, slug, id, rest);
  }

  lemma Behind(s: string, pre: string, link: string, t: string)
    requires s == pre + (link + t)
    ensures s[|pre| + |link|..] == t
  {
  }

  lemma StandingAt(s: string, b: nat, slug: string, id: string, rest: string)
    requires b <= |s| && s[b..] == slug + ("." + (id + rest))
    requires All(slug, HrefSlug) && id != "" && All(id, Digit) && (rest == "" || !IsDigit(rest[0]))
    ensures Standing(s, b, b + |slug|, slug, id)
  {
    var q := b + |slug|;
    Peel(s, b, slug, "." + (id + rest));
    Peel(s, q, ".", id + rest);
    IdStanding(s, q + 1, id, rest);
    forall n | b <= n < q ensures In(s[n], HrefSlug) {
      assert In(slug[n - b], HrefSlug);
    }
  }

  /** The exact condition: the first thread link in a text is scraped to its slug and id if and only if the slug
      has no dot-digit in it. */
  lemma ScrapeExact(s: string, pre: string, slug: string, id: string, rest: string)
    requires Linked(s, pre, slug, id, rest) && FirstLink(s, pre)
    ensures Scrape(s) == Some(Ref(slug, id)) <==> !DotDigit(slug)
  {
    LinkedParts(s, pre, slug, id, rest);
    if DotDigit(slug) {
      CutEarly(s, |pre| + 9, |pre| + 9 + |slug|, slug, id);
    } else {
      CutAtEnd(s, |pre| + 9, |pre| + 9 + |slug|, slug, id);
    }
    FirstLinkScraped(s, pre, slug + ("." + (id + rest)));
  }

  lemma CutAtEnd(s: string, b: nat, q: nat, slug: string, id: string)
    requires Standing(s, b, q, slug, id) && slug != "" && !DotDigit(slug)
    ensures Exec(HREF_CORE, s, b).Some? && Exec(HREF_CORE, s, b).value.caps == [slug, id]
  {
    forall n | b < n < q ensures !CutAt(s, n) {
      assert s[n] == slug[n - b];
      assert n + 1 < q ==> s[n + 1] == slug[n + 1 - b];
    }
    HrefCut(s, b, q, q);
  }

  lemma CutEarly(s: string, b: nat, q: nat, slug: string, id: string)
    requires Standing(s, b, q, slug, id) && DotDigit(slug)
    ensures Exec(HREF_CORE, s, b).Some?
    ensures |Exec(HREF_CORE, s, b).value.caps| == 2 && Exec(HREF_CORE, s, b).value.caps[0] != slug
  {
    var k :| 0 < k < |slug| - 1 && slug[k] == '.' && IsDigit(slug[k + 1]);
    assert s[b + k] == slug[k] && s[b + k + 1] == slug[k + 1];
    var first := FirstCut(s, b + 1, b + k);
    HrefCut(s, b, q, first);
    assert |s[b..first]| < |slug|;
  }

  /** No slash in `pre` is followed by a t. */
  predicate Plain(pre: string) {
    forall k :: 0 <= k < |pre| - 1 && pre[k] == '/' ==> pre[k + 1] != 't'
  }

  lemma PlainIsFirst(s: string, pre: string, t: string)
    requires s == pre + ("/threads/" + t) && Plain(pre)
    ensures FirstLink(s, pre)
  {
    forall k | 0 <= k < |pre| ensures Exec(HREF, s, k).None? {
      assert s[k] == pre[k] && s[k + 1] == if k + 1 < |pre| then pre[k + 1] else '/';
      NotThreads(s, k);
    }
  }

  /** So for the forum's own links, relative or absolute, the condition on the slug is all there is. */
  lemma SiteLinksScrapeExact(s: string, pre: string, slug: string, id: string, rest: string)
    requires pre in {"", "/f", "https://mipped.com/f"} && Linked(s, pre, slug, id, rest)
    ensures Scrape(s) == Some(Ref(slug, id)) <==> !DotDigit(slug)
  {
    PlainIsFirst(s, pre, slug + ("." + (id + rest)));
    ScrapeExact(s, pre, slug, id, rest);
  }

  lemma FirstCut(s: string, i: nat, k: nat) returns (first: nat)
    requires i <= k && CutAt(s, k)
    ensures i <= first <= k && CutAt(s, first) && forall n :: i <= n < first ==> !CutAt(s, n)
  {
    first := i;
    while !CutAt(s, first)
      invariant i <= first <= k
      invariant forall n :: i <= n < first ==> !CutAt(s, n)
      decreases k - first
    {
      first := first + 1;
    }
  }

  // ----- in plain characters -----

  ghost predicate Digits(s: string) {
    s != "" && forall k :: 0 <= k < |s| ==> '0' <= s[k] <= '9'
  }

  /** A slug has none of / ? # in it. */
  ghost predicate Slug(s: string) {
    s != "" && forall k :: 0 <= k < |s| ==> s[k] != '/' && s[k] != '?' && s[k] != '#'
  }

  /** Nothing, or a query or a fragment on the same line. */
  ghost predicate QueryOrNothing(s: string) {
    s == "" || ((s[0] == '?' || s[0] == '#') && forall k :: 0 < k < |s| ==> s[k] != '\n')
  }

  /** Nothing, or a path or address that ends in a slash, without ? and #. */
  ghost predicate Before(s: string) {
    s == "" || (s[|s| - 1] == '/' && forall k :: 0 <= k < |s| ==> s[k] != '?' && s[k] != '#')
  }

  /** The bare slug.id, the path, the address, each with or without a slash behind it, a query or fragment, and white
      space around: all parse to the slug and the id, and have one key. */
  lemma EveryFormParses(a: string, pre: string, slug: string, id: string, slash: string, query: string, b: string)
    requires Before(pre) && Slug(slug) && Digits(id) && slash in {"", "/"} && QueryOrNothing(query) && White(a) && White(b)
    requires var s := pre + slug + "." + id + slash + query;
      !White(s[..1]) && !White(s[|s| - 1..])
    ensures var text := a + (pre + slug + "." + id + slash + query) + b;
      ParseRef(text) == Some(Ref(slug, id)) && CanonicalRef("mipped", text) == "m:" + id
  {
    var s, r := pre + slug + "." + id + slash + query, Ref(slug, id);
    TrimStrips(a, s, b);
    assert s == Written(pre, r, slash + query);
    EndingOf(slash, query);
    assert ValidRef(r) && Path(pre);
    WrittenParses(a + s + b, pre, r, slash + query);
  }

  lemma EndingOf(slash: string, query: string)
    requires slash in {"", "/"} && QueryOrNothing(query)
    ensures Ending(slash + query)
  {
    assert query != "" ==> forall k :: 0 <= k < |query[1..]| ==> query[1..][k] == query[k + 1];
    assert Query(query);
    if slash == "/" {
      assert (slash + query)[1..] == query;
    } else {
      assert slash + query == query;
    }
  }

  /** Of the forum's own links, whose slugs have no quotation mark either, exactly those are scraped as they are
      whose slug has no dot-digit in it. */
  lemma SiteLinksInPlain(pre: string, slug: string, id: string, rest: string)
    requires pre in {"", "/f", "https://mipped.com/f"} && Slug(slug) && Digits(id) && (rest == "" || !('0' <= rest[0] <= '9'))
    requires forall k :: 0 <= k < |slug| ==> slug[k] != '\"'
    ensures Scrape(pre + ("/threads/" + (slug + ("." + (id + rest))))) == Some(Ref(slug, id)) <==>
              !exists k :: 0 < k < |slug| - 1 && slug[k] == '.' && '0' <= slug[k + 1] <= '9'
  {
    var s := pre + ("/threads/" + (slug + ("." + (id + rest))));
    assert Linked(s, pre, slug, id, rest);
    SiteLinksScrapeExact(s, pre, slug, id, rest);
  }
}
