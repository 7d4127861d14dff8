/** Scrolling of the article view: one line at a time and half a screen at a
    time. Each is a no-op outside the content view and touches nothing but
    the scroll offset. */
module Scroll {
  import opened Common
  import opened TuiModel

  /** The model differs from `m` at most in its scroll offset. */
  predicate OnlyScrolled(m: Model, r: Model) {
    r == m.(scrollOffset := r.scrollOffset)
  }

  /** The offset addresses a line, or is 0 over an empty buffer. */
  predicate OffsetInRange(m: Model) {
    0 <= m.scrollOffset <= Max(|m.articleLines| - 1, 0)
  }

  function ScrollDown(m: Model): (r: (Model, Cmd))
    ensures r.1 == NoCmd && OnlyScrolled(m, r.0)
    ensures r.0.scrollOffset == m.scrollOffset || r.0.scrollOffset == m.scrollOffset + 1
    ensures r.0.scrollOffset == m.scrollOffset + 1 <==> m.view == Content && m.scrollOffset < |m.articleLines| - 1
    ensures r.0.scrollOffset <= Max(m.scrollOffset, |m.articleLines| - 1)
  {
    if m.view != Content then (m, NoCmd)
    else
      var maxScroll := |m.articleLines| - 1;
      if m.scrollOffset < maxScroll then (m.(scrollOffset := m.scrollOffset + 1), NoCmd) else (m, NoCmd)
  }

  function ScrollUp(m: Model): (r: (Model, Cmd))
    ensures r.1 == NoCmd && OnlyScrolled(m, r.0)
    ensures r.0.scrollOffset == m.scrollOffset || r.0.scrollOffset == m.scrollOffset - 1
    ensures r.0.scrollOffset == m.scrollOffset - 1 <==> m.view == Content && m.scrollOffset > 0
    ensures r.0.scrollOffset >= Min(m.scrollOffset, 0)
  {
    if m.view != Content then (m, NoCmd)
    else if m.scrollOffset > 0 then (m.(scrollOffset := m.scrollOffset - 1), NoCmd)
    else (m, NoCmd)
  }

  /** Half the rows below the header and status lines, but at least 5. */
  function PageSize(height: int): (p: int)
    ensures p >= 5
    ensures height >= 13 ==> 2 * p <= height - 3 < 2 * p + 2
    ensures height < 13 ==> p == 5
  {
    Max(GoHalf(height - 3), 5)
  }

  function ScrollPageDown(m: Model): (r: (Model, Cmd))
    ensures r.1 == NoCmd && OnlyScrolled(m, r.0)
    ensures m.view != Content ==> r.0 == m
    ensures m.view == Content ==> r.0.scrollOffset <= |m.articleLines| - 1
    ensures m.view == Content ==> r.0.scrollOffset <= m.scrollOffset + PageSize(m.height)
    ensures m.view == Content ==>
              (r.0.scrollOffset == m.scrollOffset + PageSize(m.height) || r.0.scrollOffset == |m.articleLines| - 1)
  {
    if m.view != Content then (m, NoCmd)
    else
      var pageSize := PageSize(m.height);
      var maxScroll := |m.articleLines| - 1;
      (m.(scrollOffset := Min(m.scrollOffset + pageSize, maxScroll)), NoCmd)
  }

  function ScrollPageUp(m: Model): (r: (Model, Cmd))
    ensures r.1 == NoCmd && OnlyScrolled(m, r.0)
    ensures m.view != Content ==> r.0 == m
    ensures m.view == Content ==> r.0.scrollOffset >= 0
    ensures m.view == Content ==> r.0.scrollOffset >= m.scrollOffset - PageSize(m.height)
    ensures m.view == Content ==>
              (r.0.scrollOffset == m.scrollOffset - PageSize(m.height) || r.0.scrollOffset == 0)
  {
    if m.view != Content then (m, NoCmd)
    else
      var pageSize := PageSize(m.height);
      (m.(scrollOffset := Max(m.scrollOffset - pageSize, 0)), NoCmd)
  }

  /** Line scrolling and paging up keep the offset on a line of the buffer. */
  lemma ScrollKeepsOffsetInRange(m: Model)
    requires OffsetInRange(m)
    ensures OffsetInRange(ScrollDown(m).0)
    ensures OffsetInRange(ScrollUp(m).0)
    ensures OffsetInRange(ScrollPageUp(m).0)
  {
  }

  /** Paging down keeps the offset on a line of a non-empty buffer. */
  lemma PageDownKeepsOffsetInRange(m: Model)
    requires OffsetInRange(m) && |m.articleLines| > 0
    ensures OffsetInRange(ScrollPageDown(m).0)
  {
  }

  /** On an empty buffer paging down leaves the offset at -1. */
  lemma PageDownOnEmptyBuffer(m: Model)
    requires m.view == Content && m.articleLines == [] && m.scrollOffset >= 0
    ensures ScrollPageDown(m).0.scrollOffset == -1
    ensures !OffsetInRange(ScrollPageDown(m).0)
  {
  }

  /** Paging up and then down returns to the same line when neither end of
      the buffer is reached. */
  lemma PageUpThenDown(m: Model)
    requires m.view == Content
    requires m.scrollOffset - PageSize(m.height) >= 0
    requires m.scrollOffset <= |m.articleLines| - 1
    ensures ScrollPageDown(ScrollPageUp(m).0).0 == m
  {
  }
}
