/** The link index: the two scanners that turn an article into link spans,
    one over raw markdown (byte offsets, exclusive end) and one over rendered,
    styled text (display columns, inclusive end), and the lookup of a URL in a
    styled line. Every regular expression of the Go code is written out as a
    deterministic leftmost-first scan. */
module LinkScan {
  import opened Common
  import opened Text

  /** A link found in the article. `line` indexes the article lines. */
  datatype Link = Link(text: string, url: string, line: int, start: int, end: int)

  /** End of the maximal run of characters not in `stop`, from index `j`. */
  function RunEnd(s: string, j: nat, stop: char -> bool): (e: nat)
    requires j <= |s|
    ensures j <= e <= |s|
    ensures forall k :: j <= k < e ==> !stop(s[k])
    ensures e == |s| || stop(s[e])
    decreases |s| - j
  {
    if j < |s| && !stop(s[j]) then RunEnd(s, j + 1, stop) else j
  }

  predicate IsCloseBracket(c: char) { c == ']' }
  predicate IsCloseParen(c: char) { c == ')' }

  /** Characters that end a URL in rendered text: `[\s\x1b\[\]()]`. */
  predicate IsRenderedStop(c: char) {
    IsReSpace(c) || c == Esc || c == '[' || c == ']' || c == '(' || c == ')'
  }

  // ---- `\[([^\]]+)\]\(([^)]+)\)` ----

  /** A bracket link `[text](url)` spanning `start .. urlEnd + 1`, with the text
      ending at `textEnd` (the `]`) and the URL ending at `urlEnd` (the `)`). */
  datatype BracketSpan = BracketSpan(start: nat, textEnd: nat, urlEnd: nat)

  predicate IsBracketSpan(s: string, m: BracketSpan) {
    && m.start + 1 < m.textEnd && m.textEnd + 2 < m.urlEnd < |s|
    && s[m.start] == '[' && s[m.textEnd] == ']' && s[m.textEnd + 1] == '(' && s[m.urlEnd] == ')'
    && ']' !in s[m.start + 1..m.textEnd] && ')' !in s[m.textEnd + 2..m.urlEnd]
  }

  /** The bracket-link match starting at `i`. Both groups are greedy runs that
      stop at the first closing character, so the match is unique. */
  function BracketAt(s: string, i: nat): (r: Option<BracketSpan>)
    requires i <= |s|
    ensures r.Some? ==> r.value.start == i && IsBracketSpan(s, r.value)
  {
    if i < |s| && s[i] == '[' then
      var te := RunEnd(s, i + 1, IsCloseBracket);
      if te > i + 1 && te + 1 < |s| && s[te + 1] == '(' then
        var ue := RunEnd(s, te + 2, IsCloseParen);
        if ue > te + 2 && ue < |s| then Some(BracketSpan(i, te, ue)) else None
      else None
    else None
  }

  /** Every bracket link is matched at its `[`: `BracketAt` misses none. */
  lemma BracketAtComplete(s: string, m: BracketSpan)
    requires IsBracketSpan(s, m)
    ensures BracketAt(s, m.start) == Some(m)
  {
    assert RunEnd(s, m.start + 1, IsCloseBracket) == m.textEnd;
    assert RunEnd(s, m.textEnd + 2, IsCloseParen) == m.urlEnd;
  }

  /** All non-overlapping bracket links from index `i`, leftmost first. */
  function BracketMatches(s: string, i: nat): (r: seq<BracketSpan>)
    requires i <= |s|
    ensures forall k :: 0 <= k < |r| ==> IsBracketSpan(s, r[k]) && i <= r[k].start
    ensures forall j, k :: 0 <= j < k < |r| ==> r[j].urlEnd < r[k].start
    decreases |s| - i
  {
    if i == |s| then []
    else match BracketAt(s, i)
      case Some(m) => [m] + BracketMatches(s, m.urlEnd + 1)
      case None => BracketMatches(s, i + 1)
  }

  /** Some match of `r` starts at or before position `p` and ends at or
      after it. */
  ghost predicate BracketSpans(r: seq<BracketSpan>, p: int) {
    exists k :: 0 <= k < |r| && r[k].start <= p <= r[k].urlEnd
  }

  /** Some match of `r` spans position `p` past its own start. */
  ghost predicate BracketCovers(r: seq<BracketSpan>, p: int) {
    exists k :: 0 <= k < |r| && r[k].start < p <= r[k].urlEnd
  }

  lemma BracketSpansCons(h: BracketSpan, tail: seq<BracketSpan>, p: int)
    requires BracketSpans(tail, p)
    ensures BracketSpans([h] + tail, p)
  {
    var k :| 0 <= k < |tail| && tail[k].start <= p <= tail[k].urlEnd;
    assert ([h] + tail)[k + 1] == tail[k];
  }

  /** Scanning from `i` reaches every bracket link starting at or after `i`:
      some match found spans its `[`. */
  lemma {:induction false} BracketMatchesReach(s: string, i: nat, m: BracketSpan)
    requires i <= m.start && IsBracketSpan(s, m)
    ensures BracketSpans(BracketMatches(s, i), m.start)
    decreases |s| - i
  {
    var b := BracketAt(s, i);
    if i == m.start {
      BracketMatchesReachAt(s, m);
    } else if b.None? {
      BracketMatchesReach(s, i + 1, m);
      BracketSpansSkip(s, i, m.start);
    } else if m.start <= b.value.urlEnd {
      BracketMatchesFirst(s, i, m.start, b.value);
    } else {
      var h := b.value;
      var j := h.urlEnd + 1;
      assert i < j <= m.start;
      BracketMatchesReach(s, j, m);
      BracketSpansPast(s, i, h, m.start);
    }
  }

  lemma BracketMatchesReachAt(s: string, m: BracketSpan)
    requires IsBracketSpan(s, m)
    ensures BracketSpans(BracketMatches(s, m.start), m.start)
  {
    BracketAtComplete(s, m);
    BracketMatchesFirst(s, m.start, m.start, m);
  }

  lemma BracketSpansSkip(s: string, i: nat, p: int)
    requires i < |s| && BracketAt(s, i).None? && BracketSpans(BracketMatches(s, i + 1), p)
    ensures BracketSpans(BracketMatches(s, i), p)
  {
    BracketMatchesSkip(s, i);
  }

  lemma BracketSpansPast(s: string, i: nat, h: BracketSpan, p: int)
    requires i < |s| && BracketAt(s, i) == Some(h) && BracketSpans(BracketMatches(s, h.urlEnd + 1), p)
    ensures BracketSpans(BracketMatches(s, i), p)
  {
    BracketMatchesCons(s, i, h);
    BracketSpansCons(h, BracketMatches(s, h.urlEnd + 1), p);
  }

  /** The first match found from `i` spans every position up to its end. */
  lemma BracketMatchesFirst(s: string, i: nat, p: int, h: BracketSpan)
    requires i < |s| && BracketAt(s, i) == Some(h) && i <= p <= h.urlEnd
    ensures BracketSpans(BracketMatches(s, i), p)
  {
    var r := BracketMatches(s, i);
    BracketMatchesCons(s, i, h);
    assert r[0] == h;
  }

  /** Scanning from `i` finds every bracket link starting at or after `i`,
      except one that begins inside a link already found. */
  lemma BracketMatchesComplete(s: string, i: nat, m: BracketSpan)
    requires i <= m.start && IsBracketSpan(s, m)
    ensures m in BracketMatches(s, i) || BracketCovers(BracketMatches(s, i), m.start)
  {
    var r := BracketMatches(s, i);
    BracketMatchesReach(s, i, m);
    var k :| 0 <= k < |r| && r[k].start <= m.start <= r[k].urlEnd;
    if r[k].start == m.start {
      BracketAtComplete(s, m);
      BracketAtComplete(s, r[k]);
      assert r[k] == m;
    } else {
      assert BracketCovers(r, m.start);
    }
  }

  lemma BracketMatchesCons(s: string, i: nat, h: BracketSpan)
    requires i < |s| && BracketAt(s, i) == Some(h)
    ensures BracketMatches(s, i) == [h] + BracketMatches(s, h.urlEnd + 1)
  {
  }

  lemma BracketMatchesSkip(s: string, i: nat)
    requires i < |s| && BracketAt(s, i).None?
    ensures BracketMatches(s, i) == BracketMatches(s, i + 1)
  {
  }

  // ---- `https?://` followed by a run of non-stop characters ----

  predicate IsHttpUrl(u: string) {
    "http://" <= u || "https://" <= u
  }

  datatype UrlSpan = UrlSpan(start: nat, end: nat)

  predicate IsUrlSpan(s: string, m: UrlSpan, stop: char -> bool) {
    m.start < m.end <= |s| && IsHttpUrl(s[m.start..m.end])
    && forall k :: m.start <= k < m.end ==> !stop(s[k])
  }

  /** Length of the scheme prefix at `i`: `s?` prefers the `s`, and at most one
      of the two prefixes can be present. */
  function SchemeLen(s: string, i: nat): (n: nat)
    ensures n == 0 || n == 7 || n == 8
    ensures n == 8 ==> OccursAt(s, "https://", i)
    ensures n == 7 ==> OccursAt(s, "http://", i)
    ensures OccursAt(s, "https://", i) ==> n == 8
    ensures OccursAt(s, "http://", i) ==> n == 7
  {
    if OccursAt(s, "https://", i) then
      assert s[i + 4] == s[i..i + 8][4] == 's';
      assert s[i..i + 7][4] == 's' != "http://"[4];
      8
    else if OccursAt(s, "http://", i) then 7 else 0
  }

  /** Text that starts with a scheme is an http(s) URL. */
  lemma SchemeIsHttp(s: string, i: nat, e: nat)
    requires SchemeLen(s, i) > 0 && i + SchemeLen(s, i) <= e <= |s|
    ensures IsHttpUrl(s[i..e])
  {
    var n := SchemeLen(s, i);
    assert s[i..e][..n] == s[i..i + n];
  }

  /** The scheme characters are never stop characters. */
  lemma SchemeNoStop(s: string, i: nat, stop: char -> bool)
    requires !stop(':') && !stop('/') && !stop('h') && !stop('t') && !stop('p') && !stop('s')
    ensures forall k :: i <= k < i + SchemeLen(s, i) ==> !stop(s[k])
  {
    var n := SchemeLen(s, i);
    var scheme := if n == 8 then "https://" else "http://";
    forall k | i <= k < i + n
      ensures !stop(s[k])
    {
      assert s[k] == s[i..i + n][k - i] == scheme[k - i];
      assert scheme[k - i] in "https://";
    }
  }

  /** The URL match starting at `i`: a scheme followed by at least one
      character outside `stop`, as many as possible. */
  function UrlAt(s: string, i: nat, stop: char -> bool): (r: Option<UrlSpan>)
    requires i <= |s|
    requires !stop(':') && !stop('/') && !stop('h') && !stop('t') && !stop('p') && !stop('s')
    ensures r.Some? ==> r.value.start == i && IsUrlSpan(s, r.value, stop)
    ensures r.Some? ==> r.value.end == |s| || stop(s[r.value.end])
    ensures r.Some? <==> var n := SchemeLen(s, i); n > 0 && i + n < |s| && !stop(s[i + n])
  {
    var n := SchemeLen(s, i);
    if n == 0 || i + n > |s| then None
    else
      var e := RunEnd(s, i + n, stop);
      if e > i + n then
        SchemeIsHttp(s, i, e);
        SchemeNoStop(s, i, stop);
        Some(UrlSpan(i, e))
      else None
  }

  /** All non-overlapping URL matches from index `i`, leftmost first. */
  function UrlMatches(s: string, i: nat, stop: char -> bool): (r: seq<UrlSpan>)
    requires i <= |s|
    requires !stop(':') && !stop('/') && !stop('h') && !stop('t') && !stop('p') && !stop('s')
    ensures forall k :: 0 <= k < |r| ==> IsUrlSpan(s, r[k], stop) && i <= r[k].start
    ensures forall j, k :: 0 <= j < k < |r| ==> r[j].end <= r[k].start
    decreases |s| - i
  {
    if i == |s| then []
    else match UrlAt(s, i, stop)
      case Some(m) => [m] + UrlMatches(s, m.end, stop)
      case None => UrlMatches(s, i + 1, stop)
  }

  /** Some match of `r` spans position `p` past its own start. */
  ghost predicate UrlCovers(r: seq<UrlSpan>, p: int) {
    exists k :: 0 <= k < |r| && r[k].start < p < r[k].end
  }

  /** Some match of `r` spans position `p`, and is `u` if it starts there. */
  ghost predicate UrlSpans(r: seq<UrlSpan>, p: int, u: UrlSpan) {
    exists k :: 0 <= k < |r| && r[k].start <= p < r[k].end && (r[k].start == p ==> r[k] == u)
  }

  lemma UrlSpansCons(h: UrlSpan, tail: seq<UrlSpan>, p: int, u: UrlSpan)
    requires UrlSpans(tail, p, u)
    ensures UrlSpans([h] + tail, p, u)
  {
    var k :| 0 <= k < |tail| && tail[k].start <= p < tail[k].end && (tail[k].start == p ==> tail[k] == u);
    assert ([h] + tail)[k + 1] == tail[k];
  }

  /** Scanning from `i` reaches the URL match `u` at every position from `i`
      on: some match found spans its start, and is `u` if it starts there. */
  lemma {:induction false} UrlMatchesReach(s: string, i: nat, stop: char -> bool, u: UrlSpan)
    requires i <= u.start <= |s|
    requires !stop(':') && !stop('/') && !stop('h') && !stop('t') && !stop('p') && !stop('s')
    requires UrlAt(s, u.start, stop) == Some(u)
    ensures UrlSpans(UrlMatches(s, i, stop), u.start, u)
    decreases |s| - i
  {
    var b := UrlAt(s, i, stop);
    if i == u.start {
      UrlMatchesFirst(s, i, stop, u.start, u, u);
    } else if b.None? {
      UrlMatchesReach(s, i + 1, stop, u);
      UrlMatchesSkip(s, i, stop);
    } else if u.start < b.value.end {
      UrlMatchesFirst(s, i, stop, u.start, u, b.value);
    } else {
      var h := b.value;
      var j := h.end;
      assert i < j <= u.start;
      UrlMatchesReach(s, j, stop, u);
      UrlSpansPast(s, i, stop, h, u.start, u);
    }
  }

  lemma UrlSpansPast(s: string, i: nat, stop: char -> bool, h: UrlSpan, p: int, u: UrlSpan)
    requires i < |s|
    requires !stop(':') && !stop('/') && !stop('h') && !stop('t') && !stop('p') && !stop('s')
    requires UrlAt(s, i, stop) == Some(h) && UrlSpans(UrlMatches(s, h.end, stop), p, u)
    ensures UrlSpans(UrlMatches(s, i, stop), p, u)
  {
    UrlMatchesCons(s, i, stop, h);
    UrlSpansCons(h, UrlMatches(s, h.end, stop), p, u);
  }

  /** The first match found from `i` spans every position before its end. */
  lemma UrlMatchesFirst(s: string, i: nat, stop: char -> bool, p: int, u: UrlSpan, h: UrlSpan)
    requires i < |s|
    requires !stop(':') && !stop('/') && !stop('h') && !stop('t') && !stop('p') && !stop('s')
    requires UrlAt(s, i, stop) == Some(h) && i <= p < h.end && (p == i ==> h == u)
    ensures UrlSpans(UrlMatches(s, i, stop), p, u)
  {
    var r := UrlMatches(s, i, stop);
    UrlMatchesCons(s, i, stop, h);
    assert r[0] == h;
  }

  /** Scanning from `i` finds the URL match at every position from `i` on,
      except one that begins inside a URL already found. */
  lemma UrlMatchesComplete(s: string, i: nat, stop: char -> bool, u: UrlSpan)
    requires i <= u.start <= |s|
    requires !stop(':') && !stop('/') && !stop('h') && !stop('t') && !stop('p') && !stop('s')
    requires UrlAt(s, u.start, stop) == Some(u)
    ensures u in UrlMatches(s, i, stop) || UrlCovers(UrlMatches(s, i, stop), u.start)
  {
    var r := UrlMatches(s, i, stop);
    UrlMatchesReach(s, i, stop, u);
    var k :| 0 <= k < |r| && r[k].start <= u.start < r[k].end && (r[k].start == u.start ==> r[k] == u);
    if r[k].start == u.start {
      assert r[k] == u;
    } else {
      assert UrlCovers(r, u.start);
    }
  }

  lemma UrlMatchesCons(s: string, i: nat, stop: char -> bool, h: UrlSpan)
    requires i < |s|
    requires !stop(':') && !stop('/') && !stop('h') && !stop('t') && !stop('p') && !stop('s')
    requires UrlAt(s, i, stop) == Some(h)
    ensures UrlMatches(s, i, stop) == [h] + UrlMatches(s, h.end, stop)
  {
  }

  lemma UrlMatchesSkip(s: string, i: nat, stop: char -> bool)
    requires i < |s|
    requires !stop(':') && !stop('/') && !stop('h') && !stop('t') && !stop('p') && !stop('s')
    requires UrlAt(s, i, stop).None?
    ensures UrlMatches(s, i, stop) == UrlMatches(s, i + 1, stop)
  {
  }

  // ---- ParseLinksFromMarkdown ----

  /** `l` is the bracket link whose `[` is at character index `a` of `line`;
      its start and end are the byte offsets of the whole construct. */
  predicate BracketLinkAt(line: string, l: Link, a: int) {
    var n := |l.text| + |l.url| + 4;
    && 0 <= a && a + n <= |line|
    && line[a..a + n] == "[" + l.text + "](" + l.url + ")"
    && l.text != [] && ']' !in l.text && l.url != [] && ')' !in l.url
    && l.start == ByteLen(line[..a]) && l.end == ByteLen(line[..a + n])
  }

  /** The URL of `l` is the whole of the match `m`. */
  predicate UrlOf(line: string, l: Link, m: UrlSpan) {
    m.start <= m.end <= |line| && l.url == line[m.start..m.end]
  }

  /** `l` is the bare URL at character index `a` of `line`, with byte offsets. */
  predicate PlainLinkAt(line: string, l: Link, a: int) {
    && l.text == l.url && OccursAt(line, l.url, a) && IsHttpUrl(l.url)
    && (forall k :: 0 <= k < |l.url| ==> !IsReSpace(l.url[k]))
    && l.start == ByteLen(line[..a]) && l.end == ByteLen(line[..a + |l.url|])
  }

  ghost predicate MarkdownLinkOk(line: string, l: Link) {
    (exists a :: BracketLinkAt(line, l, a)) || (exists a :: PlainLinkAt(line, l, a))
  }

  function MkBracketLink(line: string, n: nat, m: BracketSpan): (l: Link)
    requires IsBracketSpan(line, m)
    ensures BracketLinkAt(line, l, m.start) && l.line == n
  {
    var text, url := line[m.start + 1..m.textEnd], line[m.textEnd + 2..m.urlEnd];
    BracketSpanText(line, m);
    assert m.start + (|text| + |url| + 4) == m.urlEnd + 1;
    Link(text, url, n, ByteLen(line[..m.start]), ByteLen(line[..m.urlEnd + 1]))
  }

  /** The characters of a bracket span spell `[text](url)`. */
  lemma BracketSpanText(line: string, m: BracketSpan)
    requires IsBracketSpan(line, m)
    ensures line[m.start..m.urlEnd + 1]
            == "[" + line[m.start + 1..m.textEnd] + "](" + line[m.textEnd + 2..m.urlEnd] + ")"
  {
    var a, t, e := m.start, m.textEnd, m.urlEnd;
    assert line[a..e + 1] == line[a..t] + line[t..e + 1];
    assert line[a..t] == [line[a]] + line[a + 1..t];
    assert line[t..e + 1] == [line[t], line[t + 1]] + line[t + 2..e + 1];
    assert line[t + 2..e + 1] == line[t + 2..e] + [line[e]];
  }

  function MkPlainLink(line: string, n: nat, m: UrlSpan): (l: Link)
    requires IsUrlSpan(line, m, IsReSpace)
    ensures PlainLinkAt(line, l, m.start) && l.line == n
    ensures UrlOf(line, l, m)
  {
    var u := line[m.start..m.end];
    Link(u, u, n, ByteLen(line[..m.start]), ByteLen(line[..m.end]))
  }
  /** The links of one raw markdown line: every bracket link first, then every
      bare URL, each group left to right. The URL of a bracket link is seen a
      second time as a bare URL. */
  function MarkdownLineLinks(line: string, n: nat): seq<Link> {
    BracketLinks(line, n, BracketMatches(line, 0)) + PlainLinks(line, n, UrlMatches(line, 0, IsReSpace))
  }

  /** Every link found on line `n` says so. */
  lemma MarkdownLineLinksLine(line: string, n: nat)
    ensures forall k :: 0 <= k < |MarkdownLineLinks(line, n)| ==> MarkdownLineLinks(line, n)[k].line == n
  {
    var bm := BracketMatches(line, 0);
    var um := UrlMatches(line, 0, IsReSpace);
    var bl, pl := BracketLinks(line, n, bm), PlainLinks(line, n, um);
    MarkdownLineLinksSplit(line, n);
    ConcatLines(bl, pl, MarkdownLineLinks(line, n), n);
  }

  /** The links of a line are its bracket links followed by its bare URLs. */
  lemma MarkdownLineLinksSplit(line: string, n: nat)
    ensures MarkdownLineLinks(line, n)
            == BracketLinks(line, n, BracketMatches(line, 0)) + PlainLinks(line, n, UrlMatches(line, 0, IsReSpace))
  {
  }

  /** Link `k` of a line is bracket match `k`. */
  lemma MarkdownLineLinksBrackets(line: string, n: nat)
    ensures var r := MarkdownLineLinks(line, n);
            var bm := BracketMatches(line, 0);
            && |r| == |bm| + |UrlMatches(line, 0, IsReSpace)|
            && forall k :: 0 <= k < |bm| ==> BracketLinkAt(line, r[k], bm[k].start)
  {
    var bm := BracketMatches(line, 0);
    var um := UrlMatches(line, 0, IsReSpace);
    var bl, pl := BracketLinks(line, n, bm), PlainLinks(line, n, um);
    MarkdownLineLinksSplit(line, n);
    ConcatLeft(bl, pl, MarkdownLineLinks(line, n), bm, line);
  }

  /** Past the bracket links, the links of a line are its bare URL matches, in order. */
  lemma MarkdownLineLinksUrls(line: string, n: nat)
    ensures var r := MarkdownLineLinks(line, n);
            var bm := BracketMatches(line, 0);
            var um := UrlMatches(line, 0, IsReSpace);
            && |r| == |bm| + |um|
            && forall k :: 0 <= k < |um| ==> PlainLinkAt(line, r[|bm|..][k], um[k].start)
  {
    var bm := BracketMatches(line, 0);
    var um := UrlMatches(line, 0, IsReSpace);
    var bl, pl := BracketLinks(line, n, bm), PlainLinks(line, n, um);
    MarkdownLineLinksSplit(line, n);
    ConcatRight(bl, pl, MarkdownLineLinks(line, n), um, line, |bm|);
  }

  lemma ConcatLines(a: seq<Link>, b: seq<Link>, r: seq<Link>, n: int)
    requires r == a + b
    requires forall k :: 0 <= k < |a| ==> a[k].line == n
    requires forall k :: 0 <= k < |b| ==> b[k].line == n
    ensures forall k :: 0 <= k < |r| ==> r[k].line == n
  {
    forall k | 0 <= k < |r| ensures r[k].line == n {
      if k >= |a| { assert r[k] == b[k - |a|]; } else { assert r[k] == a[k]; }
    }
  }

  lemma ConcatLeft(bl: seq<Link>, pl: seq<Link>, r: seq<Link>, bm: seq<BracketSpan>, line: string)
    requires |bl| == |bm| && r == bl + pl
    requires forall k :: 0 <= k < |bl| ==> BracketLinkAt(line, bl[k], bm[k].start)
    ensures forall k :: 0 <= k < |bm| ==> BracketLinkAt(line, r[k], bm[k].start)
  {
    forall k | 0 <= k < |bm| ensures BracketLinkAt(line, r[k], bm[k].start) {
      assert r[k] == bl[k];
    }
  }

  lemma ConcatRight(bl: seq<Link>, pl: seq<Link>, r: seq<Link>, um: seq<UrlSpan>, line: string, d: nat)
    requires |pl| == |um| && r == bl + pl && d == |bl|
    requires forall k :: 0 <= k < |pl| ==> PlainLinkAt(line, pl[k], um[k].start)
    ensures |r| == d + |um|
    ensures forall k :: 0 <= k < |um| ==> PlainLinkAt(line, r[d..][k], um[k].start)
  {
    assert r[d..] == pl;
  }

  function BracketLinks(line: string, n: nat, ms: seq<BracketSpan>): (r: seq<Link>)
    requires forall k :: 0 <= k < |ms| ==> IsBracketSpan(line, ms[k])
    ensures |r| == |ms|
    ensures forall k :: 0 <= k < |r| ==> r[k].line == n && BracketLinkAt(line, r[k], ms[k].start)
  {
    if ms == [] then []
    else
      var head, tail := MkBracketLink(line, n, ms[0]), BracketLinks(line, n, ms[1..]);
      BracketCons(line, n, ms, head, tail);
      [head] + tail
  }

  lemma BracketCons(line: string, n: nat, ms: seq<BracketSpan>, head: Link, tail: seq<Link>)
    requires ms != [] && |tail| == |ms| - 1
    requires head.line == n && BracketLinkAt(line, head, ms[0].start)
    requires forall k :: 0 <= k < |tail| ==> tail[k].line == n && BracketLinkAt(line, tail[k], ms[1..][k].start)
    ensures forall k :: 0 <= k < |ms| ==> ([head] + tail)[k].line == n && BracketLinkAt(line, ([head] + tail)[k], ms[k].start)
  {
    var r := [head] + tail;
    forall k | 0 <= k < |ms| ensures r[k].line == n && BracketLinkAt(line, r[k], ms[k].start) {
      if k > 0 {
        assert r[k] == tail[k - 1] && ms[1..][k - 1] == ms[k];
      }
    }
  }

  function PlainLinks(line: string, n: nat, ms: seq<UrlSpan>): (r: seq<Link>)
    requires forall k :: 0 <= k < |ms| ==> IsUrlSpan(line, ms[k], IsReSpace)
    ensures |r| == |ms|
    ensures forall k :: 0 <= k < |r| ==> r[k].line == n && PlainLinkAt(line, r[k], ms[k].start)
    ensures forall k :: 0 <= k < |r| ==> UrlOf(line, r[k], ms[k])
  {
    if ms == [] then []
    else
      var head, tail := MkPlainLink(line, n, ms[0]), PlainLinks(line, n, ms[1..]);
      PlainCons(line, n, ms, head, tail);
      [head] + tail
  }

  lemma PlainCons(line: string, n: nat, ms: seq<UrlSpan>, head: Link, tail: seq<Link>)
    requires ms != [] && |tail| == |ms| - 1
    requires head.line == n && PlainLinkAt(line, head, ms[0].start) && UrlOf(line, head, ms[0])
    requires forall k :: 0 <= k < |tail| ==> tail[k].line == n && PlainLinkAt(line, tail[k], ms[1..][k].start)
    requires forall k :: 0 <= k < |tail| ==> UrlOf(line, tail[k], ms[1..][k])
    ensures forall k :: 0 <= k < |ms| ==> ([head] + tail)[k].line == n && PlainLinkAt(line, ([head] + tail)[k], ms[k].start)
    ensures forall k :: 0 <= k < |ms| ==> UrlOf(line, ([head] + tail)[k], ms[k])
  {
    var r := [head] + tail;
    forall k | 0 <= k < |ms| ensures r[k].line == n && PlainLinkAt(line, r[k], ms[k].start) && UrlOf(line, r[k], ms[k]) {
      if k > 0 {
        assert r[k] == tail[k - 1] && ms[1..][k - 1] == ms[k];
      }
    }
  }

  /** `l` is a valid markdown link of the line it names. */
  ghost predicate MarkdownLinkIn(lines: seq<string>, l: Link) {
    0 <= l.line < |lines| && MarkdownLinkOk(lines[l.line], l)
  }

  /** Links of consecutive lines, concatenated, stay ordered by line. */
  predicate LineOrdered(r: seq<Link>) {
    forall i, j :: 0 <= i < j < |r| ==> r[i].line <= r[j].line
  }

  lemma ConcatLineOrdered(here: seq<Link>, rest: seq<Link>, n: int)
    requires forall k :: 0 <= k < |here| ==> here[k].line == n
    requires forall k :: 0 <= k < |rest| ==> n < rest[k].line
    requires LineOrdered(rest)
    ensures LineOrdered(here + rest)
  {
    var r := here + rest;
    forall i, j | 0 <= i < j < |r| ensures r[i].line <= r[j].line {
      if j >= |here| {
        assert r[j] == rest[j - |here|];
        if i >= |here| { assert r[i] == rest[i - |here|]; }
      }
    }
  }

  lemma MarkdownLinksConcat(lines: seq<string>, n: nat, here: seq<Link>, rest: seq<Link>)
    requires n < |lines|
    requires forall k :: 0 <= k < |here| ==> here[k].line == n && MarkdownLinkOk(lines[n], here[k])
    requires forall k :: 0 <= k < |rest| ==> n < rest[k].line && MarkdownLinkIn(lines, rest[k])
    ensures forall k :: 0 <= k < |here + rest| ==> n <= (here + rest)[k].line && MarkdownLinkIn(lines, (here + rest)[k])
  {
    var r := here + rest;
    forall k | 0 <= k < |r| ensures n <= r[k].line && MarkdownLinkIn(lines, r[k]) {
      if k < |here| { assert r[k] == here[k]; } else { assert r[k] == rest[k - |here|]; }
    }
  }

  lemma BracketLinkOk(line: string, l: Link, a: int)
    requires BracketLinkAt(line, l, a)
    ensures MarkdownLinkOk(line, l)
  {
  }

  lemma PlainLinkOk(line: string, l: Link, a: int)
    requires PlainLinkAt(line, l, a)
    ensures MarkdownLinkOk(line, l)
  {
  }

  lemma MarkdownLineLinksOk(line: string, n: nat)
    ensures forall k :: 0 <= k < |MarkdownLineLinks(line, n)| ==> MarkdownLinkOk(line, MarkdownLineLinks(line, n)[k])
  {
    var r := MarkdownLineLinks(line, n);
    var bm := BracketMatches(line, 0);
    var um := UrlMatches(line, 0, IsReSpace);
    MarkdownLineLinksBrackets(line, n);
    MarkdownLineLinksUrls(line, n);
    forall k | 0 <= k < |r| ensures MarkdownLinkOk(line, r[k]) {
      if k < |bm| {
        BracketLinkOk(line, r[k], bm[k].start);
      } else {
        assert r[|bm|..][k - |bm|] == r[k];
        PlainLinkOk(line, r[k], um[k - |bm|].start);
      }
    }
  }

  function MarkdownLinksFrom(lines: seq<string>, n: nat): (r: seq<Link>)
    requires n <= |lines|
    ensures forall k :: 0 <= k < |r| ==> n <= r[k].line && MarkdownLinkIn(lines, r[k])
    ensures LineOrdered(r)
    decreases |lines| - n
  {
    if n == |lines| then []
    else
      var here := MarkdownLineLinks(lines[n], n);
      var rest := MarkdownLinksFrom(lines, n + 1);
      MarkdownLineLinksOk(lines[n], n);
      MarkdownLineLinksLine(lines[n], n);
      MarkdownLinksConcat(lines, n, here, rest);
      ConcatLineOrdered(here, rest, n);
      here + rest
  }

  /** `ParseLinksFromMarkdown`: links in line order, each valid for its line. */
  function ParseLinksFromMarkdown(markdown: string): (r: seq<Link>)
    ensures forall k :: 0 <= k < |r| ==> MarkdownLinkIn(Split(markdown, '\n'), r[k])
    ensures LineOrdered(r)
  {
    MarkdownLinksFrom(Split(markdown, '\n'), 0)
  }

  /** Every link of line `n` is among the links collected from line `n0` on. */
  lemma {:induction false} MarkdownLinksFromHas(lines: seq<string>, n0: nat, n: nat, l: Link)
    requires n0 <= n < |lines| && l in MarkdownLineLinks(lines[n], n)
    ensures l in MarkdownLinksFrom(lines, n0)
    decreases n - n0
  {
    var here, rest := MarkdownLineLinks(lines[n0], n0), MarkdownLinksFrom(lines, n0 + 1);
    MarkdownLinksFromCons(lines, n0);
    if n0 < n {
      MarkdownLinksFromHas(lines, n0 + 1, n, l);
      InRight(here, rest, l);
    } else {
      InLeft(here, rest, l);
    }
  }

  lemma MarkdownLinksFromCons(lines: seq<string>, n: nat)
    requires n < |lines|
    ensures MarkdownLinksFrom(lines, n) == MarkdownLineLinks(lines[n], n) + MarkdownLinksFrom(lines, n + 1)
  {
  }

  lemma InLeft<T>(a: seq<T>, b: seq<T>, x: T)
    requires x in a
    ensures x in a + b
  {
    var k :| 0 <= k < |a| && a[k] == x;
    assert (a + b)[k] == x;
  }

  lemma InRight<T>(a: seq<T>, b: seq<T>, x: T)
    requires x in b
    ensures x in a + b
  {
    var k :| 0 <= k < |b| && b[k] == x;
    assert (a + b)[|a| + k] == x;
  }

  /** Every bracket link of a line is reported, unless it begins inside an
      earlier bracket link of that line. */
  lemma ParseLinksFromMarkdownFindsBracket(markdown: string, n: int, m: BracketSpan)
    requires 0 <= n < |Split(markdown, '\n')| && IsBracketSpan(Split(markdown, '\n')[n], m)
    ensures var line := Split(markdown, '\n')[n];
            || (exists l :: l in ParseLinksFromMarkdown(markdown) && l.line == n && BracketLinkAt(line, l, m.start))
            || (exists e :: IsBracketSpan(line, e) && e.start < m.start <= e.urlEnd)
  {
    var lines := Split(markdown, '\n');
    var line := lines[n];
    var bm := BracketMatches(line, 0);
    BracketMatchesComplete(line, 0, m);
    if m in bm {
      var k :| 0 <= k < |bm| && bm[k] == m;
      MarkdownLineLinksBrackets(line, n);
      MarkdownLineLinksLine(line, n);
      var l := MarkdownLineLinks(line, n)[k];
      MarkdownLinksFromHas(lines, 0, n, l);
      assert l in ParseLinksFromMarkdown(markdown) && l.line == n && BracketLinkAt(line, l, m.start);
    } else {
      var k :| 0 <= k < |bm| && bm[k].start < m.start <= bm[k].urlEnd;
      assert IsBracketSpan(line, bm[k]);
    }
  }

  /** Every bare URL match of a line is reported, whole, unless it begins
      inside an earlier URL of that line. */
  lemma ParseLinksFromMarkdownFindsUrl(markdown: string, n: int, u: UrlSpan)
    requires 0 <= n < |Split(markdown, '\n')| && u.start <= |Split(markdown, '\n')[n]|
    requires UrlAt(Split(markdown, '\n')[n], u.start, IsReSpace) == Some(u)
    ensures var line := Split(markdown, '\n')[n];
            || (exists l :: l in ParseLinksFromMarkdown(markdown) && l.line == n && PlainLinkAt(line, l, u.start) && UrlOf(line, l, u))
            || (exists e :: IsUrlSpan(line, e, IsReSpace) && e.start < u.start < e.end)
  {
    var lines := Split(markdown, '\n');
    var line := lines[n];
    var um := UrlMatches(line, 0, IsReSpace);
    UrlMatchesComplete(line, 0, IsReSpace, u);
    if u in um {
      var l := MarkdownLineLinksFindsUrl(line, n, u);
      MarkdownLinksFromHas(lines, 0, n, l);
      assert l in ParseLinksFromMarkdown(markdown);
    } else {
      var k :| 0 <= k < |um| && um[k].start < u.start < um[k].end;
      assert IsUrlSpan(line, um[k], IsReSpace);
    }
  }

  /** The link made from a bare URL match of a line is among that line's links. */
  lemma MarkdownLineLinksFindsUrl(line: string, n: nat, u: UrlSpan) returns (l: Link)
    requires u in UrlMatches(line, 0, IsReSpace)
    ensures l in MarkdownLineLinks(line, n) && l.line == n && PlainLinkAt(line, l, u.start) && UrlOf(line, l, u)
  {
    var um := UrlMatches(line, 0, IsReSpace);
    var pl := PlainLinks(line, n, um);
    l := PlainLinksFinds(line, n, um, pl, u);
    MarkdownLineLinksSplit(line, n);
    InRight(BracketLinks(line, n, BracketMatches(line, 0)), pl, l);
  }

  lemma PlainLinksFinds(line: string, n: nat, um: seq<UrlSpan>, pl: seq<Link>, u: UrlSpan) returns (l: Link)
    requires u in um && |pl| == |um|
    requires forall k :: 0 <= k < |pl| ==> pl[k].line == n && PlainLinkAt(line, pl[k], um[k].start)
    requires forall k :: 0 <= k < |pl| ==> UrlOf(line, pl[k], um[k])
    ensures l in pl && l.line == n && PlainLinkAt(line, l, u.start) && UrlOf(line, l, u)
  {
    var k :| 0 <= k < |um| && um[k] == u;
    l := pl[k];
  }

  // ---- ParseLinksFromRenderedContent ----

  /** `l` is the URL at character index `a` of the styled `line`; its columns
      are display columns of the unstyled text, the end inclusive. */
  predicate RenderedLinkAt(w: WidthFn, line: string, l: Link, a: int) {
    && l.text == l.url && OccursAt(line, l.url, a) && IsHttpUrl(l.url)
    && (forall k :: 0 <= k < |l.url| ==> !IsRenderedStop(l.url[k]))
    && l.start == LineWidth(w, line[..a])
    && l.end == l.start + DisplayWidth(w, l.url) - 1
  }

  ghost predicate RenderedLinkOk(w: WidthFn, line: string, l: Link) {
    exists a :: RenderedLinkAt(w, line, l, a)
  }

  ghost predicate RenderedLinkIn(w: WidthFn, lines: seq<string>, l: Link) {
    0 <= l.line < |lines| && RenderedLinkOk(w, lines[l.line], l)
  }

  /** The link for one URL match of a styled line. The Go code strips style
      sequences from the match and skips it when nothing is left; a match holds
      no ESC, so the strip is the identity and the skip never happens. */
  function MkRenderedLink(w: WidthFn, line: string, n: nat, m: UrlSpan): (l: Link)
    requires IsUrlSpan(line, m, IsRenderedStop)
    ensures l.line == n && RenderedLinkAt(w, line, l, m.start)
    ensures UrlOf(line, l, m)
  {
    var u := line[m.start..m.end];
    assert Esc !in u by {
      assert forall k :: 0 <= k < |u| ==> u[k] == line[m.start + k];
    }
    var url := StripAnsi(u);
    var start := LineWidth(w, line[..m.start]);
    Link(url, url, n, start, start + DisplayWidth(w, url) - 1)
  }

  function RenderedLinksOf(w: WidthFn, line: string, n: nat, ms: seq<UrlSpan>): (r: seq<Link>)
    requires forall k :: 0 <= k < |ms| ==> IsUrlSpan(line, ms[k], IsRenderedStop)
    ensures |r| == |ms|
    ensures forall k :: 0 <= k < |r| ==> r[k].line == n && RenderedLinkAt(w, line, r[k], ms[k].start)
    ensures forall k :: 0 <= k < |r| ==> UrlOf(line, r[k], ms[k])
  {
    if ms == [] then []
    else
      var head, tail := MkRenderedLink(w, line, n, ms[0]), RenderedLinksOf(w, line, n, ms[1..]);
      RenderedCons(w, line, n, ms, head, tail);
      [head] + tail
  }

  lemma RenderedCons(w: WidthFn, line: string, n: nat, ms: seq<UrlSpan>, head: Link, tail: seq<Link>)
    requires ms != [] && |tail| == |ms| - 1
    requires head.line == n && RenderedLinkAt(w, line, head, ms[0].start) && UrlOf(line, head, ms[0])
    requires forall k :: 0 <= k < |tail| ==> tail[k].line == n && RenderedLinkAt(w, line, tail[k], ms[1..][k].start)
    requires forall k :: 0 <= k < |tail| ==> UrlOf(line, tail[k], ms[1..][k])
    ensures forall k :: 0 <= k < |ms| ==> ([head] + tail)[k].line == n && RenderedLinkAt(w, line, ([head] + tail)[k], ms[k].start)
    ensures forall k :: 0 <= k < |ms| ==> UrlOf(line, ([head] + tail)[k], ms[k])
  {
    var r := [head] + tail;
    forall k | 0 <= k < |ms| ensures r[k].line == n && RenderedLinkAt(w, line, r[k], ms[k].start) && UrlOf(line, r[k], ms[k]) {
      if k > 0 {
        assert r[k] == tail[k - 1] && ms[1..][k - 1] == ms[k];
      }
    }
  }

  lemma RenderedLinksConcat(w: WidthFn, lines: seq<string>, n: nat, ms: seq<UrlSpan>, here: seq<Link>, rest: seq<Link>)
    requires n < |lines| && |here| == |ms|
    requires forall k :: 0 <= k < |here| ==> here[k].line == n && RenderedLinkAt(w, lines[n], here[k], ms[k].start)
    requires forall k :: 0 <= k < |rest| ==> n < rest[k].line && RenderedLinkIn(w, lines, rest[k])
    ensures forall k :: 0 <= k < |here + rest| ==> n <= (here + rest)[k].line && RenderedLinkIn(w, lines, (here + rest)[k])
  {
    var r := here + rest;
    forall k | 0 <= k < |r| ensures n <= r[k].line && RenderedLinkIn(w, lines, r[k]) {
      if k < |here| {
        assert r[k] == here[k] && RenderedLinkAt(w, lines[n], here[k], ms[k].start);
      } else {
        assert r[k] == rest[k - |here|];
      }
    }
  }

  function RenderedLinksFrom(w: WidthFn, lines: seq<string>, n: nat): (r: seq<Link>)
    requires n <= |lines|
    ensures forall k :: 0 <= k < |r| ==> n <= r[k].line && RenderedLinkIn(w, lines, r[k])
    ensures LineOrdered(r)
    decreases |lines| - n
  {
    if n == |lines| then []
    else
      var ms := UrlMatches(lines[n], 0, IsRenderedStop);
      var here := RenderedLinksOf(w, lines[n], n, ms);
      var rest := RenderedLinksFrom(w, lines, n + 1);
      RenderedLinksConcat(w, lines, n, ms, here, rest);
      ConcatLineOrdered(here, rest, n);
      here + rest
  }

  /** `ParseLinksFromRenderedContent`: links in line order, each a URL that
      literally occurs in its styled line, positioned by display column. */
  function ParseLinksFromRenderedContent(w: WidthFn, rendered: string): (r: seq<Link>)
    ensures forall k :: 0 <= k < |r| ==> RenderedLinkIn(w, Split(rendered, '\n'), r[k])
    ensures LineOrdered(r)
  {
    RenderedLinksFrom(w, Split(rendered, '\n'), 0)
  }

  /** The links collected from line `n` on are among those collected from line `n0 <= n` on. */
  lemma {:induction false} RenderedLinksFromHas(w: WidthFn, lines: seq<string>, n0: nat, n: nat, l: Link)
    requires n0 <= n < |lines|
    requires l in RenderedLinksFrom(w, lines, n)
    ensures l in RenderedLinksFrom(w, lines, n0)
    decreases n - n0
  {
    if n0 < n {
      var n1 := n0 + 1;
      RenderedLinksFromHas(w, lines, n1, n, l);
      RenderedLinksFromKeeps(w, lines, n0, n1, l);
    }
  }

  /** Every link of line `n` is among the links collected from line `n` on. */
  lemma RenderedLinksFromHead(w: WidthFn, lines: seq<string>, n: nat, l: Link)
    requires n < |lines|
    requires l in RenderedLinksOf(w, lines[n], n, UrlMatches(lines[n], 0, IsRenderedStop))
    ensures l in RenderedLinksFrom(w, lines, n)
  {
    RenderedLinksFromCons(w, lines, n);
  }

  lemma RenderedLinksFromKeeps(w: WidthFn, lines: seq<string>, n: nat, n1: nat, l: Link)
    requires n1 == n + 1 <= |lines| && l in RenderedLinksFrom(w, lines, n1)
    ensures l in RenderedLinksFrom(w, lines, n)
  {
    var here := RenderedLinksFromGrows(w, lines, n);
    InRight(here, RenderedLinksFrom(w, lines, n1), l);
  }

  /** The links from line `n` on extend those from line `n + 1` on. */
  lemma RenderedLinksFromGrows(w: WidthFn, lines: seq<string>, n: nat) returns (here: seq<Link>)
    requires n < |lines|
    ensures RenderedLinksFrom(w, lines, n) == here + RenderedLinksFrom(w, lines, n + 1)
  {
    here := RenderedLinksOf(w, lines[n], n, UrlMatches(lines[n], 0, IsRenderedStop));
  }

  lemma RenderedLinksFromCons(w: WidthFn, lines: seq<string>, n: nat)
    requires n < |lines|
    ensures RenderedLinksFrom(w, lines, n)
            == RenderedLinksOf(w, lines[n], n, UrlMatches(lines[n], 0, IsRenderedStop)) + RenderedLinksFrom(w, lines, n + 1)
  {
  }

  /** Every URL match of a styled line is reported, whole, unless it begins
      inside an earlier URL of that line. */
  lemma ParseLinksFromRenderedFindsUrl(w: WidthFn, rendered: string, n: int, u: UrlSpan)
    requires 0 <= n < |Split(rendered, '\n')| && u.start <= |Split(rendered, '\n')[n]|
    requires UrlAt(Split(rendered, '\n')[n], u.start, IsRenderedStop) == Some(u)
    ensures var line := Split(rendered, '\n')[n];
            || (exists l :: l in ParseLinksFromRenderedContent(w, rendered) && l.line == n
                             && RenderedLinkAt(w, line, l, u.start) && UrlOf(line, l, u))
            || (exists e :: IsUrlSpan(line, e, IsRenderedStop) && e.start < u.start < e.end)
  {
    RenderedLinksFromFindsUrl(w, Split(rendered, '\n'), n, u);
  }

  lemma RenderedLinksFromFindsUrl(w: WidthFn, lines: seq<string>, n: int, u: UrlSpan)
    requires 0 <= n < |lines| && u.start <= |lines[n]|
    requires UrlAt(lines[n], u.start, IsRenderedStop) == Some(u)
    ensures || (exists l :: l in RenderedLinksFrom(w, lines, 0) && l.line == n
                            && RenderedLinkAt(w, lines[n], l, u.start) && UrlOf(lines[n], l, u))
            || (exists e :: IsUrlSpan(lines[n], e, IsRenderedStop) && e.start < u.start < e.end)
  {
    var line := lines[n];
    var um := UrlMatches(line, 0, IsRenderedStop);
    UrlMatchesComplete(line, 0, IsRenderedStop, u);
    if u in um {
      var l := RenderedLinksOfFinds(w, line, n, um, u);
      RenderedLinksFromHasLine(w, lines, n, l);
    } else {
      var k :| 0 <= k < |um| && um[k].start < u.start < um[k].end;
      assert IsUrlSpan(line, um[k], IsRenderedStop);
    }
  }

  /** The link made from a URL match `u` of a line is among the links of that line. */
  lemma RenderedLinksOfFinds(w: WidthFn, line: string, n: int, ms: seq<UrlSpan>, u: UrlSpan) returns (l: Link)
    requires 0 <= n && u in ms
    requires forall k :: 0 <= k < |ms| ==> IsUrlSpan(line, ms[k], IsRenderedStop)
    ensures l in RenderedLinksOf(w, line, n, ms) && l.line == n
    ensures RenderedLinkAt(w, line, l, u.start) && UrlOf(line, l, u)
  {
    var k :| 0 <= k < |ms| && ms[k] == u;
    var r := RenderedLinksOf(w, line, n, ms);
    l := r[k];
  }

  /** A link of line `n` is among all the links. */
  lemma RenderedLinksFromHasLine(w: WidthFn, lines: seq<string>, n: int, l: Link)
    requires 0 <= n < |lines| && l in RenderedLinksOf(w, lines[n], n, UrlMatches(lines[n], 0, IsRenderedStop))
    ensures l in RenderedLinksFrom(w, lines, 0)
  {
    RenderedLinksFromHead(w, lines, n, l);
    RenderedLinksFromHas(w, lines, 0, n, l);
  }

  // ---- FindURLInRenderedLine ----

  predicate IsAsciiLetter(c: char) { IsLetter(c) }

  /** The largest candidate position `p` in `[lo, hi]` where `url` occurs and is
      followed by `ESC [`: the order in which the greedy `[0-9;]*[a-zA-Z]*`
      prefix gives back characters. */
  function LastWrappedCandidate(s: string, url: string, lo: nat, hi: int): (r: Option<nat>)
    ensures r.Some? ==> lo <= r.value <= hi && OccursAt(s, url, r.value)
    ensures r.Some? ==> OccursAt(s, [Esc, '['], r.value + |url|)
    decreases hi - lo + 1
  {
    if hi < lo then None
    else if OccursAt(s, url, hi) && OccursAt(s, [Esc, '['], hi + |url|) then Some(hi)
    else LastWrappedCandidate(s, url, lo, hi - 1)
  }

  /** The candidate is the last one in the range, and `None` means the range
      holds none. */
  lemma {:induction false} LastWrappedCandidateLast(s: string, url: string, lo: nat, hi: int)
    ensures var r := LastWrappedCandidate(s, url, lo, hi);
            && (r.Some? ==> forall p :: r.value < p <= hi ==> !(OccursAt(s, url, p) && OccursAt(s, [Esc, '['], p + |url|)))
            && (r.None? ==> forall p :: lo <= p <= hi ==> !(OccursAt(s, url, p) && OccursAt(s, [Esc, '['], p + |url|)))
    decreases hi - lo + 1
  {
    if lo <= hi && !(OccursAt(s, url, hi) && OccursAt(s, [Esc, '['], hi + |url|)) {
      LastWrappedCandidateLast(s, url, lo, hi - 1);
    }
  }

  /** The end of the match of
      `\x1b\[[0-9;]*[a-zA-Z]*` + url + `\x1b\[[0-9;]*[a-zA-Z]*` starting at `i`. */
  function WrappedAt(s: string, url: string, i: nat): (r: Option<nat>)
    requires i <= |s|
    ensures r.Some? ==> i < r.value <= |s| && exists p :: i <= p && p + |url| <= r.value && OccursAt(s, url, p)
  {
    if i + 1 < |s| && s[i] == Esc && s[i + 1] == '[' then
      var hi := RunEnd(s, ParamEnd(s, i + 2), (c: char) => !IsLetter(c));
      match LastWrappedCandidate(s, url, i + 2, hi)
      case None => None
      case Some(p) =>
        var t := ParamEnd(s, p + |url| + 2);
        Some(RunEnd(s, t, (c: char) => !IsLetter(c)))
    else None
  }

  /** The leftmost match of the style-wrapped pattern, as a substring. */
  function FirstWrapped(s: string, url: string, i: nat): (r: string)
    requires i <= |s|
    ensures r != [] ==> exists k :: OccursAt(r, url, k)
    ensures r != [] ==> exists k :: OccursAt(s, url, k)
    decreases |s| - i
  {
    if i == |s| then []
    else match WrappedAt(s, url, i)
      case Some(e) =>
        var p :| i <= p && p + |url| <= e && OccursAt(s, url, p);
        assert s[i..e][p - i..p - i + |url|] == s[p..p + |url|];
        assert OccursAt(s[i..e], url, p - i);
        s[i..e]
      case None => FirstWrapped(s, url, i + 1)
  }

  /** The search finds a match exactly when some position from `i` on
      starts one. */
  lemma {:induction false} FirstWrappedFinds(s: string, url: string, i: nat)
    requires i <= |s|
    ensures FirstWrapped(s, url, i) == [] <==> forall k :: i <= k < |s| ==> WrappedAt(s, url, k).None?
    decreases |s| - i
  {
    if i < |s| {
      if WrappedAt(s, url, i).None? {
        var i1 := i + 1;
        FirstWrappedFinds(s, url, i1);
        FirstWrappedPass(s, url, i, i1);
      } else {
        FirstWrappedHere(s, url, i);
      }
    }
  }

  lemma FirstWrappedPass(s: string, url: string, i: nat, i1: nat)
    requires i < |s| && i1 == i + 1 && WrappedAt(s, url, i).None?
    ensures FirstWrapped(s, url, i) == FirstWrapped(s, url, i1)
  {
  }

  lemma FirstWrappedHere(s: string, url: string, i: nat)
    requires i < |s| && WrappedAt(s, url, i).Some?
    ensures FirstWrapped(s, url, i) != []
  {
  }

  /** Positions that start no match are passed over, so the match reported
      is the leftmost. */
  lemma {:induction false} FirstWrappedSkips(s: string, url: string, i: nat, j: nat)
    requires i <= j <= |s|
    requires forall k :: i <= k < j ==> WrappedAt(s, url, k).None?
    ensures FirstWrapped(s, url, i) == FirstWrapped(s, url, j)
    decreases j - i
  {
    if i < j {
      var i1 := i + 1;
      FirstWrappedPass(s, url, i, i1);
      FirstWrappedSkips(s, url, i1, j);
    }
  }

  /** `FindURLInRenderedLine`: the URL itself when it occurs literally; for a
      non-empty URL nothing else can match. */
  function FindUrlInRenderedLine(line: string, url: string): (r: string)
    ensures url != [] && Contains(line, url) ==> r == url
    ensures url != [] && !Contains(line, url) ==> r == []
    ensures r != [] ==> exists k :: OccursAt(r, url, k)
  {
    if url != [] && Contains(line, url) then
      assert OccursAt(url, url, 0);
      url
    else FirstWrapped(line, url, 0)
  }

  const TwiceLine: string := "[a](http://b)"

  lemma TwiceBrackets()
    ensures BracketMatches(TwiceLine, 0) == [BracketSpan(0, 2, 12)]
    ensures IsBracketSpan(TwiceLine, BracketSpan(0, 2, 12))
  {
    var line := TwiceLine;
    assert RunEnd(line, 2, IsCloseBracket) == 2;
    assert RunEnd(line, 1, IsCloseBracket) == 2;
    assert RunEnd(line, 12, IsCloseParen) == 12;
    assert RunEnd(line, 4, IsCloseParen) == 12;
    assert BracketAt(line, 0) == Some(BracketSpan(0, 2, 12));
  }

  lemma TwiceUrlAt()
    ensures UrlAt(TwiceLine, 4, IsReSpace) == Some(UrlSpan(4, 13))
  {
    var line := TwiceLine;
    assert RunEnd(line, 13, IsReSpace) == 13;
    assert RunEnd(line, 11, IsReSpace) == 13;
    assert line[4..11] == "http://";
  }

  lemma TwiceNoSchemeBefore(i: nat)
    requires i < 4
    ensures UrlAt(TwiceLine, i, IsReSpace) == None
  {
    var line := TwiceLine;
    assert line[i] != 'h';
    if i + 7 <= |line| { assert line[i..i + 7][0] == line[i]; }
    if i + 8 <= |line| { assert line[i..i + 8][0] == line[i]; }
  }

  lemma TwiceUrls()
    ensures UrlMatches(TwiceLine, 0, IsReSpace) == [UrlSpan(4, 13)]
  {
    TwiceUrlAt();
    assert UrlMatches(TwiceLine, 4, IsReSpace) == [UrlSpan(4, 13)];
    TwiceNoSchemeBefore(3);
    TwiceNoSchemeBefore(2);
    TwiceNoSchemeBefore(1);
    TwiceNoSchemeBefore(0);
  }

  /** The links of a line with one bracket match and one URL match. */
  lemma OneOfEach(line: string, n: nat, b: BracketSpan, u: UrlSpan)
    requires BracketMatches(line, 0) == [b] && UrlMatches(line, 0, IsReSpace) == [u]
    requires IsBracketSpan(line, b) && IsUrlSpan(line, u, IsReSpace)
    ensures MarkdownLineLinks(line, n) == [MkBracketLink(line, n, b), MkPlainLink(line, n, u)]
  {
    assert [b][1..] == [] && [u][1..] == [];
    assert BracketLinks(line, n, [b]) == [MkBracketLink(line, n, b)];
    assert PlainLinks(line, n, [u]) == [MkPlainLink(line, n, u)];
  }

  lemma TwiceLinks()
    ensures IsBracketSpan(TwiceLine, BracketSpan(0, 2, 12)) && IsUrlSpan(TwiceLine, UrlSpan(4, 13), IsReSpace)
    ensures MarkdownLineLinks(TwiceLine, 0)
         == [MkBracketLink(TwiceLine, 0, BracketSpan(0, 2, 12)), MkPlainLink(TwiceLine, 0, UrlSpan(4, 13))]
  {
    TwiceBrackets();
    TwiceUrls();
    TwiceUrlAt();
    OneOfEach(TwiceLine, 0, BracketSpan(0, 2, 12), UrlSpan(4, 13));
  }

  /** A bracket link on a line of its own: the link itself, with byte offsets
      of the whole construct and an exclusive end, then its target again as a
      bare URL that runs on through the closing parenthesis. */
  lemma BracketTargetSeenTwice()
    ensures MarkdownLineLinks(TwiceLine, 0)
         == [Link("a", "http://b", 0, 0, 13), Link("http://b)", "http://b)", 0, 4, 13)]
  {
    TwiceLinks();
    TwiceBracketLink();
    TwicePlainLink();
  }

  lemma TwiceBytes()
    ensures ByteLen(TwiceLine[..0]) == 0 && ByteLen(TwiceLine[..4]) == 4 && ByteLen(TwiceLine[..13]) == 13
  {
    assert TwiceLine[..13] == TwiceLine;
    ByteLenAscii(TwiceLine);
    ByteLenAscii(TwiceLine[..4]);
  }

  lemma TwiceBracketLink()
    ensures MkBracketLink(TwiceLine, 0, BracketSpan(0, 2, 12)) == Link("a", "http://b", 0, 0, 13)
  {
    TwiceBytes();
    assert TwiceLine[1..2] == "a" && TwiceLine[4..12] == "http://b";
  }

  lemma TwicePlainLink()
    ensures MkPlainLink(TwiceLine, 0, UrlSpan(4, 13)) == Link("http://b)", "http://b)", 0, 4, 13)
  {
    TwiceBytes();
    assert TwiceLine[4..13] == "http://b)";
  }
}
