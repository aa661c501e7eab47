/**
 * Job-link discovery (`findJobs` in wallE.py). The listing page itself is not
 * fetched or parsed here: its document is given as the sequence of `href`
 * values of the tags that carry one, in document order.
 */
module LinkDiscovery {
  import opened Wrappers

  /** The listing page that `findJobs` reads when it is given no URL. */
  const DefaultBoardUrl: string := "https://boards.greenhouse.io/coursera"

  /** The suffix that `removesuffix` takes off the listing URL to get the root URL. */
  const OrgSuffix: string := "/coursera"

  /** The literal part of the link pattern `/coursera/jobs/\d*`. */
  const JobsPath: string := "/coursera/jobs/"

  predicate EndsWith(s: string, suffix: string) {
    |suffix| <= |s| && s[|s| - |suffix|..] == suffix
  }

  /**
   * Python's `str.removesuffix`: a non-empty suffix that the string ends with
   * is removed once; otherwise the string is returned as it is.
   */
  function RemoveSuffix(s: string, suffix: string): (r: string)
    ensures suffix != [] && EndsWith(s, suffix) ==> r + suffix == s
    ensures !(suffix != [] && EndsWith(s, suffix)) ==> r == s
  {
    if suffix != [] && EndsWith(s, suffix) then s[..|s| - |suffix|] else s
  }

  /** The root URL `findJobs` resolves job links against. */
  function RootUrl(url: string): (r: string)
    ensures EndsWith(url, OrgSuffix) ==> r + OrgSuffix == url
    ensures !EndsWith(url, OrgSuffix) ==> r == url
  {
    RemoveSuffix(url, OrgSuffix)
  }

  /** The suffix goes exactly once, even when what is left ends with it too. */
  lemma RootUrlRemovesOnce(base: string)
    ensures RootUrl(base + OrgSuffix) == base
  {
    var u := base + OrgSuffix;
    assert u[|u| - |OrgSuffix|..] == OrgSuffix;
    assert RootUrl(u) + OrgSuffix == u;
    assert RootUrl(u) == u[..|base|];
  }

  lemma DefaultRootUrl()
    ensures RootUrl(DefaultBoardUrl) == "https://boards.greenhouse.io"
  {
    RootUrlRemovesOnce("https://boards.greenhouse.io");
    assert "https://boards.greenhouse.io" + OrgSuffix == DefaultBoardUrl;
  }

  /** `\d` of the link pattern, on ASCII digits. */
  predicate IsDigit(c: char) {
    '0' <= c <= '9'
  }

  /** The literal `p` occurs in `s` starting at position `i`. */
  predicate LiteralAt(p: string, s: string, i: int) {
    0 <= i && i + |p| <= |s| && s[i..i + |p|] == p
  }

  /** The end of the longest run of digits in `s` starting at `j`: `\d*` is greedy. */
  function DigitRunEnd(s: string, j: nat): (e: nat)
    requires j <= |s|
    ensures j <= e <= |s|
    ensures forall k :: j <= k < e ==> IsDigit(s[k])
    ensures e == |s| || !IsDigit(s[e])
    decreases |s| - j
  {
    if j < |s| && IsDigit(s[j]) then DigitRunEnd(s, j + 1) else j
  }

  /** The span `s[start..end]` that a regular-expression search matched. */
  datatype Span = Span(start: nat, end: nat)

  /**
   * `re.search(p + r"\d*", s)` for a literal `p`, scanning from position `i`:
   * the leftmost position where `p` occurs, together with the end of the
   * greedy digit run after it. The link pattern is `p == JobsPath`.
   */
  function SearchFrom(p: string, s: string, i: nat): (r: Option<Span>)
    requires i <= |s|
    ensures r.Some? ==> i <= r.value.start && LiteralAt(p, s, r.value.start)
    ensures r.Some? ==> r.value.end == DigitRunEnd(s, r.value.start + |p|)
    ensures r.Some? ==> forall k :: i <= k < r.value.start ==> !LiteralAt(p, s, k)
    ensures r.None? ==> forall k :: i <= k <= |s| ==> !LiteralAt(p, s, k)
    decreases |s| - i
  {
    if LiteralAt(p, s, i) then Some(Span(i, DigitRunEnd(s, i + |p|)))
    else if i == |s| then None
    else SearchFrom(p, s, i + 1)
  }

  /** Whether BeautifulSoup's `href=re.compile(...)` keeps a link: the search finds a match. */
  predicate LinkMatches(href: string) {
    SearchFrom(JobsPath, href, 0).Some?
  }

  /** `href` contains `/coursera/jobs/` somewhere. */
  predicate ContainsJobsPath(href: string) {
    exists k :: 0 <= k <= |href| && LiteralAt(JobsPath, href, k)
  }

  /**
   * Because `\d*` also matches zero digits, the pattern matches exactly the
   * links that contain `/coursera/jobs/`, whatever follows it.
   */
  lemma LinkMatchesIff(href: string)
    ensures LinkMatches(href) <==> ContainsJobsPath(href)
  {
    var r := SearchFrom(JobsPath, href, 0);
    if r.Some? {
      assert LiteralAt(JobsPath, href, r.value.start);
    }
  }

  /** A link with no digits after the path still matches; one without the trailing slash does not. */
  lemma LinkExamples()
    ensures LinkMatches("/coursera/jobs/")
    ensures LinkMatches("/coursera/jobs/5123456?gh_jid=5123456")
    ensures !LinkMatches("/coursera/jobs")
  {
    assert LiteralAt(JobsPath, "/coursera/jobs/", 0);
    assert LiteralAt(JobsPath, "/coursera/jobs/5123456?gh_jid=5123456", 0);
    LinkMatchesIff("/coursera/jobs");
  }

  /** The matching links, in document order, duplicates kept. */
  function MatchingLinks(hrefs: seq<string>): (r: seq<string>)
    ensures |r| <= |hrefs|
    ensures forall h :: h in r ==> h in hrefs && LinkMatches(h)
  {
    if hrefs == [] then []
    else (if LinkMatches(hrefs[0]) then [hrefs[0]] else []) + MatchingLinks(hrefs[1..])
  }

  /**
   * `findJobs(url)` over the hrefs of the listing page: each matching link,
   * prefixed with the root URL.
   */
  function FindJobs(url: string, hrefs: seq<string>): (r: seq<string>)
    ensures |r| == |MatchingLinks(hrefs)|
  {
    var root := RootUrl(url);
    var links := MatchingLinks(hrefs);
    seq(|links|, k requires 0 <= k < |links| => root + links[k])
  }

  /** The positions `j` and later of `hrefs` whose link matches, in increasing order. */
  function MatchingPositions(hrefs: seq<string>, j: nat): (r: seq<nat>)
    requires j <= |hrefs|
    ensures forall a :: 0 <= a < |r| ==> j <= r[a] < |hrefs| && LinkMatches(hrefs[r[a]])
    ensures forall a, b :: 0 <= a < b < |r| ==> r[a] < r[b]
    decreases |hrefs| - j
  {
    if j == |hrefs| then []
    else (if LinkMatches(hrefs[j]) then [j] else []) + MatchingPositions(hrefs, j + 1)
  }

  /** No matching position is missed. */
  lemma {:induction false} MatchingPositionsComplete(hrefs: seq<string>, j: nat, p: nat)
    requires j <= p < |hrefs|
    requires LinkMatches(hrefs[p])
    ensures p in MatchingPositions(hrefs, j)
    decreases |hrefs| - j
  {
    var front: seq<nat> := if LinkMatches(hrefs[j]) then [j] else [];
    var rest := MatchingPositions(hrefs, j + 1);
    assert MatchingPositions(hrefs, j) == front + rest;
    if j < p {
      MatchingPositionsComplete(hrefs, j + 1, p);
      assert p in front + rest;
    } else {
      assert (front + rest)[0] == p;
    }
  }

  /** The filter walks the hrefs in the same order as the positions are listed. */
  lemma {:induction false} MatchingLinksAt(hrefs: seq<string>, j: nat)
    requires j <= |hrefs|
    ensures |MatchingLinks(hrefs[j..])| == |MatchingPositions(hrefs, j)|
    ensures forall a :: 0 <= a < |MatchingPositions(hrefs, j)| ==>
              MatchingLinks(hrefs[j..])[a] == hrefs[MatchingPositions(hrefs, j)[a]]
    decreases |hrefs| - j
  {
    if j < |hrefs| {
      var links, positions := MatchingLinks(hrefs[j..]), MatchingPositions(hrefs, j);
      var tail, tailPositions := MatchingLinks(hrefs[j + 1..]), MatchingPositions(hrefs, j + 1);
      assert hrefs[j..][1..] == hrefs[j + 1..];
      MatchingLinksAt(hrefs, j + 1);
      if LinkMatches(hrefs[j]) {
        assert links == [hrefs[j]] + tail;
        assert positions == [j] + tailPositions;
        forall a | 0 < a < |positions| ensures links[a] == hrefs[positions[a]] {
          assert links[a] == tail[a - 1] && positions[a] == tailPositions[a - 1];
        }
      } else {
        assert links == tail;
        assert positions == tailPositions;
      }
    }
  }

  /**
   * One URL per matching link, in document order, duplicates kept: entry `a`
   * is the root URL followed by the `a`-th matching href.
   */
  lemma FindJobsInOrder(url: string, hrefs: seq<string>)
    ensures |FindJobs(url, hrefs)| == |MatchingPositions(hrefs, 0)|
    ensures forall a :: 0 <= a < |FindJobs(url, hrefs)| ==>
              FindJobs(url, hrefs)[a] == RootUrl(url) + hrefs[MatchingPositions(hrefs, 0)[a]]
  {
    MatchingLinksAt(hrefs, 0);
    assert hrefs[0..] == hrefs;
  }

  /** Discovery distributes over the document: the links of a page are those of its parts, in order. */
  lemma {:induction false} FindJobsAppend(url: string, a: seq<string>, b: seq<string>)
    ensures FindJobs(url, a + b) == FindJobs(url, a) + FindJobs(url, b)
  {
    MatchingLinksAppend(a, b);
  }

  lemma {:induction false} MatchingLinksAppend(a: seq<string>, b: seq<string>)
    ensures MatchingLinks(a + b) == MatchingLinks(a) + MatchingLinks(b)
  {
    if a == [] {
      assert a + b == b;
    } else {
      assert (a + b)[1..] == a[1..] + b;
      MatchingLinksAppend(a[1..], b);
    }
  }

  /** A single link gives one URL when it matches and none otherwise. */
  lemma FindJobsSingle(url: string, href: string)
    ensures FindJobs(url, [href]) == if LinkMatches(href) then [RootUrl(url) + href] else []
  {
    assert [href][1..] == [];
  }

  /** A link that appears twice on the page gives two equal entries. */
  lemma FindJobsKeepsDuplicates(url: string, href: string)
    requires ContainsJobsPath(href)
    ensures FindJobs(url, [href, href]) == [RootUrl(url) + href, RootUrl(url) + href]
  {
    LinkMatchesIff(href);
    FindJobsAppend(url, [href], [href]);
    FindJobsSingle(url, href);
    assert [href, href] == [href] + [href];
  }
}
