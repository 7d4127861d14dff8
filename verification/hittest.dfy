/** The two link hit-testers. The strict one, used to highlight a link while
    drawing, wants the cursor column inside the link's columns. The lenient
    one, used when a link is opened or copied, also accepts a column one
    outside the link and otherwise falls back to the link whose centre is
    nearest, up to 10 columns away. Both only consider links on the
    addressed line. */
module HitTest {
  import opened Common
  import opened Text
  import opened LinkScan

  function Abs(x: int): nat { if x < 0 then -x else x }

  predicate Covers(l: Link, x: int) {
    l.start <= x <= l.end
  }

  /** The lenient acceptance test: inside the link, or at most one column
      outside it while still on the line's text. */
  predicate Near(l: Link, x: int, width: int) {
    Covers(l, x) || (l.start - 1 <= x <= l.end + 1 && 0 <= x <= width)
  }

  /** Distance from the column to the link's centre, computed with Go's
      truncating division. */
  function CentreDistance(l: Link, x: int): nat {
    Abs(x - GoHalf(l.start + l.end))
  }

  // ---- strict ----

  /** Index of the first link on `line` covering column `x`. */
  function StrictIndex(links: seq<Link>, line: int, x: int): (r: Option<nat>)
    ensures r.Some? ==> r.value < |links| && links[r.value].line == line && Covers(links[r.value], x)
    ensures r.Some? ==> forall k :: 0 <= k < r.value ==> !(links[k].line == line && Covers(links[k], x))
    ensures r.None? <==> forall k :: 0 <= k < |links| ==> !(links[k].line == line && Covers(links[k], x))
  {
    if links == [] then None
    else if links[0].line == line && Covers(links[0], x) then Some(0)
    else match StrictIndex(links[1..], line, x)
      case None => None
      case Some(k) => Some(k + 1)
  }

  /** `findLinkAtPosition` of the article viewer. */
  function FindLinkStrict(lines: seq<string>, links: seq<Link>, offset: int, cursorX: int, cursorY: int): (r: Option<Link>)
    ensures !(0 <= offset + cursorY < |lines|) ==> r.None?
    ensures 0 <= offset + cursorY < |lines| ==>
              (r.None? <==> StrictIndex(links, offset + cursorY, cursorX).None?)
    ensures r.Some? ==> r.value.line == offset + cursorY && Covers(r.value, cursorX)
    ensures r.Some? ==> r.value == links[StrictIndex(links, offset + cursorY, cursorX).value]
  {
    var actual := offset + cursorY;
    if actual < 0 || actual >= |lines| then None
    else match StrictIndex(links, actual, cursorX)
      case None => None
      case Some(k) => Some(links[k])
  }

  // ---- lenient ----

  /** `j` is a link on `line` whose centre is nearest to `x` among the links
      on `line` with index below `hi`, and no earlier such link is as near. */
  predicate EarliestNearest(links: seq<Link>, line: int, x: int, j: nat, hi: nat)
    requires hi <= |links|
  {
    && j < hi && links[j].line == line
    && (forall k :: 0 <= k < hi && links[k].line == line ==> CentreDistance(links[j], x) <= CentreDistance(links[k], x))
    && (forall k :: 0 <= k < j && links[k].line == line ==> CentreDistance(links[j], x) < CentreDistance(links[k], x))
  }

  /** No link on `line` below index `hi` passes the lenient test. */
  predicate NoneNear(links: seq<Link>, line: int, x: int, width: int, hi: nat)
    requires hi <= |links|
  {
    forall k :: 0 <= k < hi && links[k].line == line ==> !Near(links[k], x, width)
  }

  /** The loop of the lenient tester from index `i`, with `best` the closest
      link seen so far. The first link passing the lenient test wins at once;
      otherwise the closest is kept, the earliest on ties. */
  function LenientFrom(links: seq<Link>, line: int, x: int, width: int, i: nat, best: Option<nat>): (r: Option<nat>)
    requires i <= |links|
    requires NoneNear(links, line, x, width, i)
    requires best.Some? ==> best.value < i && EarliestNearest(links, line, x, best.value, i)
    requires best.None? ==> forall k :: 0 <= k < i ==> links[k].line != line
    ensures r.Some? ==> r.value < |links| && links[r.value].line == line
    ensures r.Some? && Near(links[r.value], x, width) ==> NoneNear(links, line, x, width, r.value)
    ensures r.Some? && !Near(links[r.value], x, width) ==>
              NoneNear(links, line, x, width, |links|)
              && EarliestNearest(links, line, x, r.value, |links|) && CentreDistance(links[r.value], x) <= 10
    ensures r.None? ==> NoneNear(links, line, x, width, |links|)
    ensures r.None? ==> forall k :: 0 <= k < |links| && links[k].line == line ==> CentreDistance(links[k], x) > 10
    decreases |links| - i
  {
    if i == |links| then
      if best.Some? && CentreDistance(links[best.value], x) <= 10 then best else None
    else if links[i].line == line && Near(links[i], x, width) then Some(i)
    else if links[i].line == line && (best.None? || CentreDistance(links[i], x) < CentreDistance(links[best.value], x)) then
      LenientFrom(links, line, x, width, i + 1, Some(i))
    else
      LenientFrom(links, line, x, width, i + 1, best)
  }

  /** The lenient tester's choice of link index on line `line` at column `x`,
      where `width` is the display width of that line. */
  function LenientIndex(links: seq<Link>, line: int, x: int, width: int): (r: Option<nat>)
    ensures r.Some? ==> r.value < |links| && links[r.value].line == line
    ensures r.Some? && Near(links[r.value], x, width) ==> NoneNear(links, line, x, width, r.value)
    ensures r.Some? && !Near(links[r.value], x, width) ==>
              NoneNear(links, line, x, width, |links|)
              && EarliestNearest(links, line, x, r.value, |links|) && CentreDistance(links[r.value], x) <= 10
    ensures r.None? ==> forall k :: 0 <= k < |links| && links[k].line == line ==>
              !Near(links[k], x, width) && CentreDistance(links[k], x) > 10
  {
    LenientFrom(links, line, x, width, 0, None)
  }

  /** `findLinkAtPosition` of the key handlers; `inContent` says whether the
      content view is showing. */
  function FindLinkLenient(w: WidthFn, inContent: bool, lines: seq<string>, links: seq<Link>,
                           offset: int, cursorX: int, cursorY: int): (r: Option<Link>)
    ensures !inContent || !(0 <= offset + cursorY < |lines|) ==> r.None?
    ensures r.Some? ==> r.value.line == offset + cursorY
    ensures r.Some? ==> exists k :: 0 <= k < |links| && links[k] == r.value
    ensures inContent && 0 <= offset + cursorY < |lines| && StrictIndex(links, offset + cursorY, cursorX).Some? ==>
              r.Some?
    ensures inContent && 0 <= offset + cursorY < |lines| ==>
              r == match LenientIndex(links, offset + cursorY, cursorX, LineWidth(w, lines[offset + cursorY]))
                   case None => None
                   case Some(k) => Some(links[k])
  {
    var actual := offset + cursorY;
    if !inContent || actual < 0 || actual >= |lines| then None
    else
      var width := LineWidth(w, lines[actual]);
      if StrictIndex(links, actual, cursorX).Some? then
        LenientFindsStrictHit(links, actual, cursorX, width);
        Some(links[LenientIndex(links, actual, cursorX, width).value])
      else match LenientIndex(links, actual, cursorX, LineWidth(w, lines[actual]))
      case None => None
      case Some(k) => Some(links[k])
  }

  /** A link covering the column is always found by the lenient tester, and
      the link it returns comes no later in the slice than the strict one. */
  lemma LenientFindsStrictHit(links: seq<Link>, line: int, x: int, width: int)
    requires StrictIndex(links, line, x).Some?
    ensures LenientIndex(links, line, x, width).Some?
    ensures LenientIndex(links, line, x, width).value <= StrictIndex(links, line, x).value
    ensures Near(links[LenientIndex(links, line, x, width).value], x, width)
  {
    var s := StrictIndex(links, line, x).value;
    assert Near(links[s], x, width);
  }

  /** When the two testers disagree, the lenient one picked an earlier link
      that the column merely touches. */
  lemma TestersDisagreeOnlyOnEarlierNeighbour(links: seq<Link>, line: int, x: int, width: int)
    requires StrictIndex(links, line, x).Some?
    requires LenientIndex(links, line, x, width) != StrictIndex(links, line, x)
    ensures LenientIndex(links, line, x, width).Some?
    ensures LenientIndex(links, line, x, width).value < StrictIndex(links, line, x).value
    ensures !Covers(links[LenientIndex(links, line, x, width).value], x)
  {
    LenientFindsStrictHit(links, line, x, width);
  }

  /** Two adjacent links: at the first column of the second, the link drawn
      highlighted is the second while the link opened is the first. */
  lemma HighlightAndOpenDiffer()
    ensures var links := [Link("a", "a", 0, 0, 3), Link("b", "b", 0, 4, 9)];
            && StrictIndex(links, 0, 4) == Some(1)
            && LenientIndex(links, 0, 4, 10) == Some(0)
  {
    var links := [Link("a", "a", 0, 0, 3), Link("b", "b", 0, 4, 9)];
    assert Near(links[0], 4, 10);
    assert LenientFrom(links, 0, 4, 10, 0, None) == Some(0);
    assert StrictIndex(links[1..], 0, 4) == Some(0);
  }
}
