/** Cursor movement in the article view. The cursor is a row `cursorY` in the
    visible window and a display column `cursorX`; the addressed article line
    is `scrollOffset + cursorY`. Vertical moves clamp the column to the width
    of the newly addressed line; at the window edges they scroll instead. */
module ContentNav {
  import opened Common
  import opened Text
  import opened TuiModel
  import opened Scroll

  /** Rows of article text: the height less header and status, or 10 when
      that leaves no row. */
  function VisibleHeight(height: int): (h: int)
    ensures h >= 1
    ensures height - 3 >= 1 ==> h == height - 3
    ensures height - 3 < 1 ==> h == 10
  {
    if height - 3 < 1 then 10 else height - 3
  }

  /** The article line under the cursor. */
  function AddressedLine(m: Model): int {
    m.scrollOffset + m.cursorY
  }

  predicate AddressesLine(m: Model) {
    0 <= AddressedLine(m) < |m.articleLines|
  }

  /** Display width of the line under the cursor, ANSI sequences excluded. */
  function AddressedWidth(w: WidthFn, m: Model): nat
    requires AddressesLine(m)
  {
    LineWidth(w, m.articleLines[AddressedLine(m)])
  }

  /** The column clamp applied after a vertical move. */
  function ClampColumn(w: WidthFn, m: Model): (r: Model)
    ensures r == m.(cursorX := r.cursorX)
    ensures AddressesLine(m) ==> r.cursorX == Min(m.cursorX, AddressedWidth(w, m))
    ensures !AddressesLine(m) ==> r == m
  {
    if AddressesLine(m) then
      var lineLen := AddressedWidth(w, m);
      if m.cursorX > lineLen then m.(cursorX := lineLen) else m
    else m
  }

  /** The cursor column does not pass the end of the addressed line. */
  predicate ColumnOnLine(w: WidthFn, m: Model) {
    AddressesLine(m) ==> m.cursorX <= AddressedWidth(w, m)
  }

  /** The cursor row lies in the visible window. */
  predicate RowInWindow(m: Model) {
    m.cursorY <= VisibleHeight(m.height) - 1
  }

  function ContentDown(w: WidthFn, m: Model): (r: (Model, Cmd))
    ensures r.1 == NoCmd
    ensures m.view != Content ==> r.0 == m
    ensures m.view == Content && m.cursorY < VisibleHeight(m.height) - 1 ==>
              r.0 == ClampColumn(w, m.(cursorY := m.cursorY + 1))
    ensures m.view == Content && m.cursorY >= VisibleHeight(m.height) - 1 ==> r.0 == ScrollDown(m).0
  {
    if m.view != Content then (m, NoCmd)
    else
      var visibleHeight := VisibleHeight(m.height);
      if m.cursorY < visibleHeight - 1 then (ClampColumn(w, m.(cursorY := m.cursorY + 1)), NoCmd)
      else ScrollDown(m)
  }

  function ContentUp(w: WidthFn, m: Model): (r: (Model, Cmd))
    ensures r.1 == NoCmd
    ensures m.view != Content ==> r.0 == m
    ensures m.view == Content && m.cursorY > 0 ==> r.0 == ClampColumn(w, m.(cursorY := m.cursorY - 1))
    ensures m.view == Content && m.cursorY == 0 && m.scrollOffset > 0 ==>
              r.0 == m.(scrollOffset := m.scrollOffset - 1)
    ensures m.view == Content && m.cursorY == 0 && m.scrollOffset <= 0 ==> r.0 == m
  {
    if m.view != Content then (m, NoCmd)
    else if m.cursorY > 0 then (ClampColumn(w, m.(cursorY := m.cursorY - 1)), NoCmd)
    else if m.scrollOffset > 0 then ScrollUp(m)
    else (m, NoCmd)
  }

  function ContentLeft(m: Model): (r: (Model, Cmd))
    ensures r.1 == NoCmd && r.0 == m.(cursorX := r.0.cursorX)
    ensures m.view == Content && m.cursorX > 0 ==> r.0.cursorX == m.cursorX - 1
    ensures !(m.view == Content && m.cursorX > 0) ==> r.0 == m
  {
    if m.view != Content then (m, NoCmd)
    else if m.cursorX > 0 then (m.(cursorX := m.cursorX - 1), NoCmd)
    else (m, NoCmd)
  }

  function ContentRight(w: WidthFn, m: Model): (r: (Model, Cmd))
    ensures r.1 == NoCmd && r.0 == m.(cursorX := r.0.cursorX)
    ensures m.view == Content && AddressesLine(m) && m.cursorX < AddressedWidth(w, m) ==>
              r.0.cursorX == m.cursorX + 1
    ensures !(m.view == Content && AddressesLine(m) && m.cursorX < AddressedWidth(w, m)) ==> r.0 == m
  {
    if m.view != Content then (m, NoCmd)
    else if AddressesLine(m) then
      var lineLen := AddressedWidth(w, m);
      if m.cursorX < lineLen then (m.(cursorX := m.cursorX + 1), NoCmd) else (m, NoCmd)
    else (m, NoCmd)
  }

  /** `g`: back to the first line, cursor at the top left. */
  function GoTop(m: Model): (r: Model)
    ensures r.scrollOffset == 0 && r.cursorX == 0 && r.cursorY == 0
    ensures r == m.(scrollOffset := 0, cursorX := 0, cursorY := 0)
  {
    m.(scrollOffset := 0, cursorY := 0, cursorX := 0)
  }

  /** `G`: the last line becomes the first visible one; nothing happens on an
      empty buffer. */
  function GoBottom(m: Model): (r: Model)
    ensures m.articleLines == [] ==> r == m
    ensures m.articleLines != [] ==> r.scrollOffset == |m.articleLines| - 1 && r.cursorX == 0 && r.cursorY == 0
    ensures r == m.(scrollOffset := r.scrollOffset, cursorX := r.cursorX, cursorY := r.cursorY)
  {
    if |m.articleLines| > 0 then m.(scrollOffset := |m.articleLines| - 1, cursorY := 0, cursorX := 0)
    else m
  }

  /** Moving down keeps the cursor row in the window. */
  lemma ContentDownKeepsRow(w: WidthFn, m: Model)
    requires RowInWindow(m)
    ensures RowInWindow(ContentDown(w, m).0)
  {
  }

  /** Moving up keeps the cursor row in the window. */
  lemma ContentUpKeepsRow(w: WidthFn, m: Model)
    requires RowInWindow(m)
    ensures RowInWindow(ContentUp(w, m).0)
  {
  }

  /** A vertical move that stays in the window leaves the column on the line. */
  lemma VerticalMoveClampsColumn(w: WidthFn, m: Model)
    requires m.view == Content && 0 < m.cursorY
    ensures ColumnOnLine(w, ContentUp(w, m).0)
    ensures m.cursorY < VisibleHeight(m.height) - 1 ==> ColumnOnLine(w, ContentDown(w, m).0)
  {
  }

  /** Horizontal moves keep the column on the line. */
  lemma HorizontalMoveKeepsColumn(w: WidthFn, m: Model)
    requires ColumnOnLine(w, m)
    ensures ColumnOnLine(w, ContentLeft(m).0)
    ensures ColumnOnLine(w, ContentRight(w, m).0)
  {
  }

  /** Moving down at the bottom row scrolls by one line and leaves the
      column as it was: no clamp to the newly addressed line. */
  lemma ScrollDownKeepsColumn(w: WidthFn, m: Model)
    requires m.view == Content && m.cursorY >= VisibleHeight(m.height) - 1
    requires m.scrollOffset < |m.articleLines| - 1
    ensures ContentDown(w, m).0 == m.(scrollOffset := m.scrollOffset + 1)
  {
  }

  lemma WidthsOfSample(w: WidthFn)
    requires w('a') == 1
    ensures LineWidth(w, "a") == 1 && LineWidth(w, "") == 0
  {
    assert StripAnsi("a") == "a";
    assert "a"[..0] == [];
    assert StripAnsi("") == [];
  }

  /** So the cursor can end up beyond the end of a shorter line. */
  lemma ScrollLeavesColumnPastLine(w: WidthFn, m: Model)
    requires w('a') == 1
    requires m == NewModel(0).(view := Content, articleLines := ["a", ""], height := 4, cursorX := 1)
    ensures ColumnOnLine(w, m)
    ensures !ColumnOnLine(w, ContentDown(w, m).0)
  {
    WidthsOfSample(w);
    ScrollDownKeepsColumn(w, m);
  }
}
