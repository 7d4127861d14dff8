/** The full-screen article view: which article lines are on screen, how
    the link under the cursor is highlighted, where the cursor marker goes,
    how the window is padded, and the position text and spacing of the
    man-page style status line. Styling is a parameter. */
module ArticleViewer {
  import opened Common
  import opened Text
  import opened LinkScan
  import opened HitTest
  import opened TuiModel
  import opened ContentNav

  /** Rows available for article text under a header of two rows (with a
      title) or one, above one status row; two rows less than the height
      when that leaves none. */
  function ContentHeight(hasTitle: bool, height: int): (h: int)
    ensures height - 3 <= h <= height - 2
    ensures !hasTitle ==> h == height - 2
    ensures hasTitle && height >= 4 ==> h == height - 3
    ensures h >= 1 <==> height >= 3
  {
    var headerHeight := if hasTitle then 2 else 1;
    var contentHeight := height - headerHeight - 1;
    if contentHeight < 1 then height - 2 else contentHeight
  }

  /** The article lines from `offset` on, at most `ch` of them. */
  function VisibleWindow(lines: seq<string>, offset: int, ch: int): (r: seq<string>)
    requires 0 <= offset < |lines| && ch >= 0
    ensures |r| == Min(ch, |lines| - offset)
    ensures forall i :: 0 <= i < |r| ==> r[i] == lines[offset + i]
  {
    lines[offset..Min(offset + ch, |lines|)]
  }

  /** Rows appended as empty lines until there are `ch` of them. */
  function Pad(rows: seq<string>, ch: int): (r: seq<string>)
    ensures |r| == Max(|rows|, ch)
    ensures r[..|rows|] == rows
    ensures forall i :: |rows| <= i < |r| ==> r[i] == ""
  {
    if |rows| >= ch then rows else rows + seq(ch - |rows|, _ => "")
  }

  /** The line with the link's URL, as found in it, replaced once by the
      styled URL; unchanged when the URL cannot be found. */
  function HighlightLine(style: string -> string, line: string, link: Link): (r: string)
    ensures link.url != [] && Contains(line, link.url) ==> r == ReplaceFirst(line, link.url, style(link.url))
    ensures link.url != [] && !Contains(line, link.url) ==> r == line
  {
    var urlInLine := FindUrlInRenderedLine(line, link.url);
    if urlInLine == [] then line else ReplaceFirst(line, urlInLine, style(link.url))
  }

  /** The line the cursor row shows before the cursor marker goes in: the
      addressed article line, highlighted when the strict tester finds a link
      under the cursor. */
  function CursorRowSource(style: string -> string, lines: seq<string>, links: seq<Link>,
                           offset: int, cursorX: int, cursorY: int): string
    requires 0 <= offset + cursorY < |lines|
  {
    match FindLinkStrict(lines, links, offset, cursorX, cursorY)
    case None => lines[offset + cursorY]
    case Some(l) => HighlightLine(style, lines[offset + cursorY], l)
  }

  /** The window rows with the link under the cursor drawn highlighted; the
      strict tester only finds links on the cursor row, so no other row
      changes. */
  function HighlightRows(style: string -> string, lines: seq<string>, links: seq<Link>,
                         offset: int, cursorX: int, cursorY: int, visible: seq<string>): (r: seq<string>)
    requires 0 <= offset && offset + |visible| <= |lines|
    requires forall i :: 0 <= i < |visible| ==> visible[i] == lines[offset + i]
    ensures |r| == |visible|
    ensures forall i :: 0 <= i < |r| && i != cursorY ==> r[i] == visible[i]
    ensures 0 <= cursorY < |r| ==> r[cursorY] == CursorRowSource(style, lines, links, offset, cursorX, cursorY)
  {
    var end := offset + |visible|;
    var found := FindLinkStrict(lines, links, offset, cursorX, cursorY);
    if found.Some? && offset <= found.value.line < end then
      var k := found.value.line - offset;
      assert k == cursorY && visible[k] == lines[offset + cursorY];
      visible[k := HighlightLine(style, visible[k], found.value)]
    else visible
  }

  /** The rows with the cursor marker drawn into the cursor row, at the
      cursor column clamped to that row's width. */
  function PlaceCursor(w: WidthFn, rows: seq<string>, cursorX: int, cursorY: int): (r: seq<string>)
    ensures |r| == |rows|
    ensures forall i :: 0 <= i < |r| && i != cursorY ==> r[i] == rows[i]
    ensures 0 <= cursorY < |r| ==>
              r[cursorY] == InsertCursor(w, rows[cursorY], Min(cursorX, LineWidth(w, rows[cursorY])))
  {
    if 0 <= cursorY < |rows| then
      var line := rows[cursorY];
      rows[cursorY := InsertCursor(w, line, Min(cursorX, LineWidth(w, line)))]
    else rows
  }

  /** What `RenderArticleFullScreen` draws above the status line. */
  datatype BodyOut =
    | NoContent            // the buffer is empty: only the "No content available." notice
    | NoRows               // no article line at or after the offset: only the status line
    | Panics               // a negative offset or content height makes the slice expression panic
    | Rows(rows: seq<string>)

  /** The text rows of `RenderArticleFullScreen`. */
  function Body(w: WidthFn, style: string -> string, lines: seq<string>, links: seq<Link>,
                offset: int, cursorX: int, cursorY: int, ch: int): (r: BodyOut)
    ensures r.NoContent? <==> lines == []
    ensures r.NoRows? <==> lines != [] && offset >= |lines|
    ensures r.Panics? <==> lines != [] && offset < |lines| && (offset < 0 || ch < 0)
    ensures r.Rows? ==> |r.rows| == ch
    ensures r.Rows? ==> forall i :: 0 <= i < ch && offset + i >= |lines| ==> r.rows[i] == ""
    ensures r.Rows? ==> forall i :: 0 <= i < ch && offset + i < |lines| && i != cursorY ==>
              r.rows[i] == lines[offset + i]
    ensures r.Rows? && 0 <= cursorY < ch && offset + cursorY < |lines| ==>
              var src := CursorRowSource(style, lines, links, offset, cursorX, cursorY);
              r.rows[cursorY] == InsertCursor(w, src, Min(cursorX, LineWidth(w, src)))
  {
    if lines == [] then NoContent
    else if offset >= |lines| then NoRows
    else if offset < 0 || ch < 0 then Panics
    else
      var visible := VisibleWindow(lines, offset, ch);
      var rows := PlaceCursor(w, HighlightRows(style, lines, links, offset, cursorX, cursorY, visible), cursorX, cursorY);
      Rows(Pad(rows, ch))
  }

  /** A terminal one row high (or less) leaves a negative content height, so
      drawing a non-empty buffer panics; from two rows up it never does. */
  lemma BodyPanicsWhenShort(w: WidthFn, style: string -> string, lines: seq<string>, links: seq<Link>,
                            offset: int, cursorX: int, cursorY: int, hasTitle: bool, height: int)
    requires 0 <= offset < |lines|
    ensures var r := Body(w, style, lines, links, offset, cursorX, cursorY, ContentHeight(hasTitle, height));
            r.Panics? <==> height <= 1
  {
  }

  /** After `G` only the last article line is on screen; every other row of
      the window is padding. */
  lemma GoBottomShowsOneLine(w: WidthFn, style: string -> string, m: Model, hasTitle: bool)
    requires m.articleLines != [] && m.height >= 2
    ensures var g := GoBottom(m);
            var ch := ContentHeight(hasTitle, g.height);
            var r := Body(w, style, g.articleLines, g.articleLinks, g.scrollOffset, g.cursorX, g.cursorY, ch);
            && r.Rows?
            && (ch >= 1 ==> r.rows[0] == InsertCursor(w, CursorRowSource(style, g.articleLines, g.articleLinks, g.scrollOffset, 0, 0), 0))
            && forall i :: 1 <= i < ch ==> r.rows[i] == ""
  {
    var g := GoBottom(m);
    var ch := ContentHeight(hasTitle, g.height);
    var src := CursorRowSource(style, g.articleLines, g.articleLinks, g.scrollOffset, 0, 0);
    assert Min(0, LineWidth(w, src)) == 0;
  }

  // ---- status line ----

  /** The centre of the status line: "line k/N" with k the first visible line
      counted from 1, empty for an empty buffer. */
  function StatusCenter(offset: int, total: int): (r: string)
    ensures total <= 0 <==> r == []
  {
    if total > 0 then "line " + IntToString(offset + 1) + "/" + IntToString(total) else ""
  }

  /** The centre text reads back as the first visible line number and the
      line count. */
  lemma StatusCenterReadsBack(offset: nat, total: nat, c: string, k: nat)
    requires total > 0 && c == StatusCenter(offset, total)
    requires k == 5 + |NatToString(offset + 1)|
    ensures k < |c|
    ensures c[..5] == "line " && c[k] == '/'
    ensures forall i :: 5 <= i < k ==> '0' <= c[i] <= '9'
    ensures forall i :: k < i < |c| ==> '0' <= c[i] <= '9'
    ensures DigitsValue(c[5..k]) == offset + 1
    ensures DigitsValue(c[k + 1..]) == total
  {
    var a := NatToString(offset + 1);
    var b := NatToString(total);
    assert c == "line " + a + "/" + b;
    ThreeParts("line ", a, b, c, k);
    NatToStringRoundTrip(offset + 1);
    NatToStringRoundTrip(total);
  }

  /** Where the parts of `p + a + "/" + b` lie, for digit strings `a`, `b`. */
  lemma ThreeParts(p: string, a: string, b: string, c: string, k: nat)
    requires c == p + a + "/" + b && k == |p| + |a|
    requires forall i :: 0 <= i < |a| ==> '0' <= a[i] <= '9'
    requires forall i :: 0 <= i < |b| ==> '0' <= b[i] <= '9'
    ensures k < |c| && c[..|p|] == p && c[|p|..k] == a && c[k] == '/' && c[k + 1..] == b
    ensures forall i :: |p| <= i < k ==> '0' <= c[i] <= '9'
    ensures forall i :: k < i < |c| ==> '0' <= c[i] <= '9'
  {
    assert forall i :: |p| <= i < k ==> c[i] == a[i - |p|];
    assert forall i :: k < i < |c| ==> c[i] == b[i - k - 1];
  }

  /** The longest prefix of `s` whose UTF-8 encoding fits in `n` bytes. */
  function BytePrefix(s: string, n: nat): (r: string)
    ensures |r| <= |s| && r == s[..|r|]
    ensures ByteLen(r) <= n
    ensures r == s || ByteLen(s[..|r| + 1]) > n
  {
    if ByteLen(s) <= n then s
    else
      var r := BytePrefix(s[..|s| - 1], n);
      assert s[..|s| - 1][..|r|] == s[..|r|];
      if r == s[..|s| - 1] then
        assert s[..|r| + 1] == s;
        r
      else
        assert s[..|s| - 1][..|r| + 1] == s[..|r| + 1];
        r
  }

  /** A string of spaces is as many bytes long as it has characters. */
  lemma SpacesBytes(n: nat)
    ensures ByteLen(Spaces(n)) == n
  {
    ByteLenAscii(Spaces(n));
  }

  /** The status line padded with spaces, or cut, to exactly `width` bytes. */
  function FitWidth(s: string, width: nat): (r: string)
    ensures ByteLen(s) <= width ==> r == s + Spaces(width - ByteLen(s)) && ByteLen(r) == width
    ensures ByteLen(s) > width ==> r == BytePrefix(s, width)
  {
    if ByteLen(s) < width then
      SpacesBytes(width - ByteLen(s));
      ByteLenAppend(s, Spaces(width - ByteLen(s)));
      s + Spaces(width - ByteLen(s))
    else if ByteLen(s) > width then BytePrefix(s, width)
    else
      assert Spaces(0) == [];
      assert s + [] == s;
      s
  }

  /** Bytes left between the outer parts in the roomy layout. */
  function Available(left: string, right: string, width: int): int {
    width - ByteLen(left) - ByteLen(right) - 4
  }

  /** The layout used when the centre text fits: the centre is placed in the
      middle of the free space, the right part follows it, and the result is
      made exactly `width` bytes wide. */
  function RoomyStatus(left: string, center: string, right: string, width: int): (r: string)
    requires Available(left, right, width) > ByteLen(center)
    ensures ByteLen(r) == width
    ensures exists ls: nat, rs: nat ::
              ls <= rs <= ls + 1 && r == left + Spaces(ls) + center + Spaces(rs) + right + Spaces(2)
  {
    var avail := Available(left, right, width);
    var leftSpacer := GoHalf(avail - ByteLen(center));
    var rightSpacer := avail - ByteLen(center) - leftSpacer;
    var line := left + Spaces(leftSpacer + 1) + center + Spaces(rightSpacer + 1) + right;
    RoomyLineBytes(left, center, right, leftSpacer + 1, rightSpacer + 1);
    var r := FitWidth(line, width);
    assert r == left + Spaces(leftSpacer + 1) + center + Spaces(rightSpacer + 1) + right + Spaces(2);
    r
  }

  lemma RoomyLineBytes(left: string, center: string, right: string, ls: nat, rs: nat)
    ensures ByteLen(left + Spaces(ls) + center + Spaces(rs) + right)
            == ByteLen(left) + ls + ByteLen(center) + rs + ByteLen(right)
  {
    SpacesBytes(ls);
    SpacesBytes(rs);
    ByteLenAppend(left, Spaces(ls));
    ByteLenAppend(left + Spaces(ls), center);
    ByteLenAppend(left + Spaces(ls) + center, Spaces(rs));
    ByteLenAppend(left + Spaces(ls) + center + Spaces(rs), right);
  }

  /** In the roomy layout the joined line is always two bytes short of the
      width, so the padding adds two spaces and the cut never happens. */
  lemma RoomyNeverCuts(left: string, center: string, right: string, width: int, ls: int, rs: int)
    requires Available(left, right, width) > ByteLen(center)
    requires ls == GoHalf(Available(left, right, width) - ByteLen(center))
    requires rs == Available(left, right, width) - ByteLen(center) - ls
    ensures 0 <= ls <= rs <= ls + 1
    ensures ByteLen(left + Spaces(ls + 1) + center + Spaces(rs + 1) + right) == width - 2
  {
    RoomyLineBytes(left, center, right, ls + 1, rs + 1);
  }
}
