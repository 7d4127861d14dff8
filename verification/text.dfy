/** Display-column arithmetic over styled terminal text: removing CSI control
    sequences (section 5.4 of ECMA-48), measuring display width, drawing the
    reverse-video cursor (SGR 7 / SGR 27, section 8.3.117 of ECMA-48), and
    flattening HTML descriptions to plain text. The width of a single rune
    (Unicode UAX #11 as implemented by the runewidth library) is a parameter. */
module Text {
  import opened Common

  const Esc: char := '\U{001B}'
  /** What Go's UTF-8 decoder yields for an undecodable byte. */
  const RuneError: char := '\U{FFFD}'

  /** A per-rune display width: 0 (combining), 1 (narrow) or 2 (wide). */
  type WidthFn = f: char -> nat | forall c :: f(c) <= 2 witness (c: char) => 1

  predicate IsLetter(c: char) {
    ('a' <= c <= 'z') || ('A' <= c <= 'Z')
  }

  predicate IsCsiParam(c: char) {
    ('0' <= c <= '9') || c == ';'
  }

  /** End of the run of CSI parameter characters starting at `j`. */
  function ParamEnd(s: string, j: nat): (e: nat)
    requires j <= |s|
    ensures j <= e <= |s|
    ensures forall k :: j <= k < e ==> IsCsiParam(s[k])
    ensures e == |s| || !IsCsiParam(s[e])
    decreases |s| - j
  {
    if j < |s| && IsCsiParam(s[j]) then ParamEnd(s, j + 1) else j
  }

  /** The exclusive end of the match of `ESC [ [0-9;]* [A-Za-z]` that starts at
      index `i`, if there is one. The parameter run is greedy and cannot
      overlap the final letter, so the match at `i` is unique. */
  function CsiEnd(s: string, i: nat): (r: Option<nat>)
    requires i <= |s|
    ensures r.Some? ==> i + 3 <= r.value <= |s| && s[i] == Esc && s[i + 1] == '['
    ensures r.Some? ==> IsLetter(s[r.value - 1])
    ensures r.Some? ==> forall k :: i + 2 <= k < r.value - 1 ==> IsCsiParam(s[k])
  {
    if i + 1 < |s| && s[i] == Esc && s[i + 1] == '[' then
      var e := ParamEnd(s, i + 2);
      if e < |s| && IsLetter(s[e]) then Some(e + 1) else None
    else None
  }

  /** Every well-formed CSI sequence at `i` is matched, up to its final letter. */
  lemma CsiEndComplete(s: string, i: nat, e: nat)
    requires i + 2 <= e < |s| && s[i] == Esc && s[i + 1] == '[' && IsLetter(s[e])
    requires forall k :: i + 2 <= k < e ==> IsCsiParam(s[k])
    ensures CsiEnd(s, i) == Some(e + 1)
  {
  }

  /** `StripANSI`: a left-to-right, non-overlapping deletion of every CSI
      sequence, as a regular-expression replace-all performs it. */
  function StripAnsi(s: string): (r: string)
    ensures |r| <= |s|
    ensures Esc !in s ==> r == s
    ensures forall c :: c in r ==> c in s
    decreases |s|
  {
    if s == [] then []
    else match CsiEnd(s, 0)
      case Some(e) => StripAnsi(s[e..])
      case None => [s[0]] + StripAnsi(s[1..])
  }

  /** Text without ESC passes through unchanged, and stripping distributes
      over such a prefix. */
  lemma {:induction false} StripAnsiPlainPrefix(a: string, b: string)
    requires Esc !in a
    ensures StripAnsi(a + b) == a + StripAnsi(b)
    decreases |a|
  {
    if a == [] {
      assert a + b == b;
    } else {
      var c, a1 := a[0], a[1..];
      assert a == [c] + a1;
      StripAnsiPlainPrefix(a1, b);
      StripAnsiPlainMore(c, a1, b);
    }
  }

  lemma StripAnsiPlainMore(c: char, a: string, b: string)
    requires c != Esc && StripAnsi(a + b) == a + StripAnsi(b)
    ensures StripAnsi(([c] + a) + b) == ([c] + a) + StripAnsi(b)
  {
    var t, r := a + b, StripAnsi(b);
    ConsAssoc(c, a, b);
    StripAnsiPlainChar(c, t);
    ConsAssoc(c, a, r);
  }

  lemma ConsAssoc(c: char, a: string, b: string)
    ensures ([c] + a) + b == [c] + (a + b)
  {
  }

  /** A character other than ESC in front is kept. */
  lemma StripAnsiPlainChar(c: char, t: string)
    requires c != Esc
    ensures StripAnsi([c] + t) == [c] + StripAnsi(t)
  {
    assert CsiEnd([c] + t, 0).None?;
    assert ([c] + t)[1..] == t;
  }

  /** A whole CSI sequence `ESC [ p x` after plain text is deleted, and
      stripping carries on after it. */
  lemma StripAnsiDeletesCsi(a: string, p: string, x: char, b: string)
    requires Esc !in a && IsLetter(x)
    requires forall c :: c in p ==> IsCsiParam(c)
    ensures StripAnsi(a + ([Esc, '['] + p + [x]) + b) == a + StripAnsi(b)
  {
    var csi := [Esc, '['] + p + [x];
    StripAnsiCsiHead(p, x, b);
    StripAnsiPlainPrefix(a, csi + b);
    assert a + csi + b == a + (csi + b);
  }

  /** A whole CSI sequence at the front is deleted. */
  lemma StripAnsiCsiHead(p: string, x: char, b: string)
    requires IsLetter(x)
    requires forall c :: c in p ==> IsCsiParam(c)
    ensures StripAnsi(([Esc, '['] + p + [x]) + b) == StripAnsi(b)
  {
    var s := ([Esc, '['] + p + [x]) + b;
    var e := |p| + 3;
    assert s[0] == Esc && s[1] == '[' && s[|p| + 2] == x;
    assert forall k :: 2 <= k < |p| + 2 ==> s[k] == p[k - 2];
    CsiEndComplete(s, 0, |p| + 2);
    assert s[e..] == b;
    StripAnsiSkip(s, e);
  }

  /** A sequence matched at the front is dropped whole. */
  lemma StripAnsiSkip(s: string, e: nat)
    requires s != [] && CsiEnd(s, 0) == Some(e)
    ensures StripAnsi(s) == StripAnsi(s[e..])
  {
  }

  /** Stripping is not idempotent: removing an inner sequence can join an
      ESC with the text after it into a new sequence. */
  lemma StripAnsiNotIdempotent()
    ensures var x := [Esc, Esc, '[', 'm', '[', 'm'];
            StripAnsi(StripAnsi(x)) != StripAnsi(x)
  {
    var x := [Esc, Esc, '[', 'm', '[', 'm'];
    var x1 := [Esc, '[', 'm', '[', 'm'];
    var tail := ['[', 'm'];
    var y := [Esc, '[', 'm'];
    assert CsiEnd(x, 0).None?;
    assert x[1..] == x1;
    assert ParamEnd(x1, 2) == 2;
    assert CsiEnd(x1, 0) == Some(3);
    assert x1[3..] == tail;
    assert StripAnsi(tail) == tail;
    assert StripAnsi(x1) == tail;
    assert StripAnsi(x) == [Esc] + tail == y;
    assert ParamEnd(y, 2) == 2;
    assert CsiEnd(y, 0) == Some(3);
    assert y[3..] == [];
    assert StripAnsi(y) == StripAnsi([]) == [];
  }

  /** Display width of text that holds no control sequences: the sum of the
      rune widths (`runewidth.StringWidth`). */
  function DisplayWidth(w: WidthFn, s: string): (n: nat)
    ensures n <= 2 * |s|
  {
    if s == [] then 0 else DisplayWidth(w, s[..|s| - 1]) + w(s[|s| - 1])
  }

  lemma {:induction false} DisplayWidthAppend(w: WidthFn, a: string, b: string)
    ensures DisplayWidth(w, a + b) == DisplayWidth(w, a) + DisplayWidth(w, b)
    decreases |b|
  {
    if b != [] {
      assert (a + b)[..|a + b| - 1] == a + b[..|b| - 1];
      assert (a + b)[|a + b| - 1] == b[|b| - 1];
      DisplayWidthAppend(w, a, b[..|b| - 1]);
    } else {
      assert a + b == a;
    }
  }

  /** The display width of a styled line, as every cursor clamp computes it:
      `runewidth.StringWidth(StripANSI(line))`. */
  function LineWidth(w: WidthFn, line: string): (n: nat)
    ensures n <= 2 * |line|
    ensures Esc !in line ==> n == DisplayWidth(w, line)
  {
    DisplayWidth(w, StripAnsi(line))
  }

  const ReverseOn: string := [Esc] + "[7m"
  const ReverseOff: string := [Esc] + "[27m"
  /** The marker drawn where no character can carry the cursor. */
  const CursorBlank: string := ReverseOn + " " + ReverseOff

  /** What one character does to the scan of `InsertCursorAtPosition`: either
      it is copied and the scan goes on from display column `pos`, or the scan
      ends with `marker`, followed by the rest of the line when `keepRest`. */
  datatype Step =
    | Copy(pos: int, inAnsi: bool)
    | Finish(marker: string, keepRest: bool)

  /** `ESC [` starts at index `i`. */
  predicate OpensCsi(line: string, i: nat)
    requires i < |line|
  {
    line[i] == Esc && i + 1 < |line| && line[i + 1] == '['
  }

  /** One iteration of the scan, for character `c` at display column `pos`
      with the cursor at column `cur`. An open `ESC [` sequence is copied up to
      and including the next ASCII letter and takes no width. */
  function ScanStep(w: WidthFn, c: char, opensCsi: bool, pos: int, cur: int, inAnsi: bool): Step {
    if opensCsi then Copy(pos, true)
    else if inAnsi then Copy(pos, !IsLetter(c))
    else if c == RuneError then Finish(CursorBlank, false)
    else if pos == cur then Finish(ReverseOn + [c] + ReverseOff, true)
    else if pos + w(c) > cur then Finish(CursorBlank + [c], true)
    else Copy(pos + w(c), false)
  }

  /** The output of the scan from index `i` on. */
  function InsertFrom(w: WidthFn, line: string, i: nat, pos: int, cur: int, inAnsi: bool): string
    requires i <= |line|
    decreases |line| - i
  {
    if i == |line| then CursorBlank
    else match ScanStep(w, line[i], OpensCsi(line, i), pos, cur, inAnsi)
      case Copy(p, a) => [line[i]] + InsertFrom(w, line, i + 1, p, cur, a)
      case Finish(m, keep) => if keep then m + line[i + 1..] else m
  }

  /** Every scan copies some stretch of the line unchanged and then draws
      the reverse-video marker. */
  lemma {:induction false} InsertFromMarker(w: WidthFn, line: string, i: nat, pos: int, cur: int, inAnsi: bool)
    requires i <= |line|
    ensures exists k :: i <= k <= |line| && line[i..k] + ReverseOn <= InsertFrom(w, line, i, pos, cur, inAnsi)
    decreases |line| - i
  {
    var r := InsertFrom(w, line, i, pos, cur, inAnsi);
    if i == |line| {
      assert line[i..i] + ReverseOn <= r;
    } else {
      match ScanStep(w, line[i], OpensCsi(line, i), pos, cur, inAnsi)
      case Copy(p, a) =>
        InsertFromMarker(w, line, i + 1, p, cur, a);
        var k :| i + 1 <= k <= |line| && line[i + 1..k] + ReverseOn <= InsertFrom(w, line, i + 1, p, cur, a);
        assert line[i..k] == [line[i]] + line[i + 1..k];
        assert line[i..k] + ReverseOn <= r;
      case Finish(m, keep) =>
        assert ReverseOn <= m;
        assert line[i..i] + ReverseOn <= r;
    }
  }

  /** `InsertCursorAtPosition`; a negative column counts as column 0. The
      line is copied unchanged up to some index, where the reverse-video
      marker is drawn. */
  function InsertCursor(w: WidthFn, line: string, cursorPos: int): (r: string)
    ensures exists k :: 0 <= k <= |line| && line[..k] + ReverseOn <= r
  {
    InsertFromMarker(w, line, 0, 0, Max(cursorPos, 0), false);
    assert forall k :: 0 <= k <= |line| ==> line[0..k] == line[..k];
    InsertFrom(w, line, 0, 0, Max(cursorPos, 0), false)
  }

  lemma InsertCursorNegative(w: WidthFn, line: string, cursorPos: int)
    requires cursorPos < 0
    ensures InsertCursor(w, line, cursorPos) == InsertCursor(w, line, 0)
  {
  }

  /** The scan only looks at the rest of the line, so a consumed prefix can be
      dropped. */
  lemma {:induction false} InsertFromDropPrefix(w: WidthFn, a: string, s: string, j: nat, pos: int, cur: int, st: bool)
    requires j <= |s|
    ensures InsertFrom(w, a + s, |a| + j, pos, cur, st) == InsertFrom(w, s, j, pos, cur, st)
    decreases |s| - j
  {
    var line := a + s;
    var i := |a| + j;
    if j < |s| {
      assert line[i] == s[j];
      assert OpensCsi(line, i) == OpensCsi(s, j);
      assert line[i + 1..] == s[j + 1..];
      var step := ScanStep(w, s[j], OpensCsi(s, j), pos, cur, st);
      if step.Copy? {
        InsertFromDropPrefix(w, a, s, j + 1, step.pos, cur, step.inAnsi);
      }
    }
  }

  /** Only the distance from the reached column to the cursor matters. */
  lemma {:induction false} InsertFromShift(w: WidthFn, s: string, j: nat, pos: int, cur: int, st: bool)
    requires j <= |s|
    ensures InsertFrom(w, s, j, pos, cur, st) == InsertFrom(w, s, j, 0, cur - pos, st)
    decreases |s| - j
  {
    if j < |s| {
      var step := ScanStep(w, s[j], OpensCsi(s, j), pos, cur, st);
      if step.Copy? {
        InsertFromShift(w, s, j + 1, step.pos, cur, step.inAnsi);
        InsertFromShift(w, s, j + 1, step.pos - pos, cur - pos, step.inAnsi);
      }
    }
  }

  /** Inside an open `ESC [` sequence every character up to and including the
      next letter is copied verbatim and the display column does not move. */
  lemma {:induction false} InsertFromAnsiRun(w: WidthFn, line: string, i: nat, j: nat, pos: int, cur: int)
    requires i <= j < |line| && IsLetter(line[j])
    requires forall k :: i <= k < j ==> !IsLetter(line[k])
    ensures InsertFrom(w, line, i, pos, cur, true)
         == line[i..j + 1] + InsertFrom(w, line, j + 1, pos, cur, false)
    decreases j - i
  {
    InsertFromAnsiStep(w, line, i, pos, cur);
    if i < j {
      var i1 := i + 1;
      InsertFromAnsiRun(w, line, i1, j, pos, cur);
      ConsSlice(line, i, i1, j + 1, InsertFrom(w, line, j + 1, pos, cur, false));
    } else {
      assert line[i..j + 1] == [line[i]];
    }
  }

  /** Putting the character at `i` back in front of the slice after it. */
  lemma ConsSlice(s: string, i: nat, i1: nat, e: nat, x: string)
    requires i1 == i + 1 && i1 <= e <= |s|
    ensures [s[i]] + (s[i1..e] + x) == s[i..e] + x
  {
    assert s[i..e] == [s[i]] + s[i1..e];
  }

  /** Inside an open sequence one character is copied; a letter closes it. */
  lemma InsertFromAnsiStep(w: WidthFn, line: string, i: nat, pos: int, cur: int)
    requires i < |line|
    ensures InsertFrom(w, line, i, pos, cur, true) == [line[i]] + InsertFrom(w, line, i + 1, pos, cur, !IsLetter(line[i]))
  {
  }

  /** A line opening with a complete `ESC [` sequence ending at index `j`:
      the whole sequence is copied before the scan goes on at column 0. */
  lemma InsertFromCsiStart(w: WidthFn, line: string, j: nat, cur: int)
    requires 1 < j < |line| && line[0] == Esc && line[1] == '[' && IsLetter(line[j])
    requires forall k :: 2 <= k < j ==> !IsLetter(line[k])
    ensures InsertFrom(w, line, 0, 0, cur, false) == line[..j + 1] + InsertFrom(w, line, j + 1, 0, cur, false)
  {
    InsertFromOpen(w, line, 0, 0, cur, false);
    InsertFromAnsiRun(w, line, 1, j, 0, cur);
    ConsSlice(line, 0, 1, j + 1, InsertFrom(w, line, j + 1, 0, cur, false));
    assert line[0..j + 1] == line[..j + 1];
  }

  /** `ESC [` opens a sequence: the ESC is copied and the scan enters it. */
  lemma InsertFromOpen(w: WidthFn, line: string, i: nat, pos: int, cur: int, inAnsi: bool)
    requires i < |line| && OpensCsi(line, i)
    ensures InsertFrom(w, line, i, pos, cur, inAnsi) == [line[i]] + InsertFrom(w, line, i + 1, pos, cur, true)
  {
  }

  /** A well-formed style sequence in front of the line is copied and takes
      no display width. */
  lemma InsertCursorSkipsCsi(w: WidthFn, params: string, letter: char, rest: string, cur: nat)
    requires IsLetter(letter)
    requires forall k :: 0 <= k < |params| ==> !IsLetter(params[k])
    ensures var csi := [Esc, '['] + params + [letter];
            InsertCursor(w, csi + rest, cur) == csi + InsertCursor(w, rest, cur)
  {
    var csi := [Esc, '['] + params + [letter];
    var line := csi + rest;
    var j := |csi| - 1;
    assert line[..j + 1] == csi;
    assert forall k :: 2 <= k < j ==> line[k] == params[k - 2];
    InsertFromCsiStart(w, line, j, cur);
    InsertFromDropPrefix(w, csi, rest, 0, 0, cur, false);
  }

  /** A character that does not open a sequence and is decodable. */
  predicate Visible(ch: char, rest: string) {
    ch != RuneError && (ch != Esc || rest == [] || rest[0] != '[')
  }

  /** A character strictly left of the cursor is copied and advances the column. */
  lemma InsertCursorSkipsChar(w: WidthFn, ch: char, rest: string, cur: nat)
    requires Visible(ch, rest) && 0 < cur && w(ch) <= cur
    ensures InsertCursor(w, [ch] + rest, cur) == [ch] + InsertCursor(w, rest, cur - w(ch))
  {
    var line := [ch] + rest;
    assert line[0] == ch && (|line| > 1 ==> line[1] == rest[0]);
    InsertFromDropPrefix(w, [ch], rest, 0, w(ch), cur, false);
    InsertFromShift(w, rest, 0, w(ch), cur, false);
  }

  /** The character starting exactly at the cursor is wrapped in reverse video
      and the remainder is kept as it is. */
  lemma InsertCursorHit(w: WidthFn, ch: char, rest: string)
    requires Visible(ch, rest)
    ensures InsertCursor(w, [ch] + rest, 0) == ReverseOn + [ch] + ReverseOff + rest
  {
    var line := [ch] + rest;
    assert line[0] == ch && (|line| > 1 ==> line[1] == rest[0]);
    assert line[1..] == rest;
  }

  /** A cursor inside a wide character puts a reverse-video blank before it;
      the character itself is kept. */
  lemma InsertCursorInsideWide(w: WidthFn, ch: char, rest: string, cur: nat)
    requires Visible(ch, rest) && 0 < cur < w(ch)
    ensures InsertCursor(w, [ch] + rest, cur) == CursorBlank + [ch] + rest
  {
    var line := [ch] + rest;
    assert line[0] == ch && (|line| > 1 ==> line[1] == rest[0]);
    assert line[1..] == rest;
  }

  /** An undecodable byte ends the scan: the rest of the line is dropped and a
      blank cursor is appended. */
  lemma InsertCursorStopsAtRuneError(w: WidthFn, rest: string, cur: int)
    ensures InsertCursor(w, [RuneError] + rest, cur) == CursorBlank
  {
    var line := [RuneError] + rest;
    assert line[0] == RuneError;
  }

  /** Display width as the cursor scan counts it: the widths of the characters
      outside open `ESC [` sequences. */
  function ScanWidthFrom(w: WidthFn, line: string, i: nat, inAnsi: bool): nat
    requires i <= |line|
    decreases |line| - i
  {
    if i == |line| then 0
    else if OpensCsi(line, i) then ScanWidthFrom(w, line, i + 1, true)
    else if inAnsi then ScanWidthFrom(w, line, i + 1, !IsLetter(line[i]))
    else w(line[i]) + ScanWidthFrom(w, line, i + 1, false)
  }

  function ScanWidth(w: WidthFn, line: string): nat {
    ScanWidthFrom(w, line, 0, false)
  }

  lemma {:induction false} InsertFromPastEnd(w: WidthFn, line: string, i: nat, pos: int, cur: int, st: bool)
    requires i <= |line| && RuneError !in line
    requires cur - pos > ScanWidthFrom(w, line, i, st)
    ensures InsertFrom(w, line, i, pos, cur, st) == line[i..] + CursorBlank
    decreases |line| - i
  {
    if i < |line| {
      assert line[i..] == [line[i]] + line[i + 1..];
      var step := ScanStep(w, line[i], OpensCsi(line, i), pos, cur, st);
      assert step.Copy?;
      InsertFromPastEnd(w, line, i + 1, step.pos, cur, step.inAnsi);
    }
  }

  /** A cursor beyond the end of a decodable line appends a blank cursor and
      leaves the line itself untouched. */
  lemma InsertCursorPastEnd(w: WidthFn, line: string, cur: int)
    requires RuneError !in line && cur > ScanWidth(w, line)
    ensures InsertCursor(w, line, cur) == line + CursorBlank
  {
    InsertFromPastEnd(w, line, 0, 0, Max(cur, 0), false);
  }

  lemma {:induction false} InsertFromAtEnd(w: WidthFn, line: string, i: nat, pos: int, cur: int, st: bool)
    requires i <= |line| && RuneError !in line
    requires forall k :: 0 <= k < |line| ==> w(line[k]) > 0
    requires cur - pos == ScanWidthFrom(w, line, i, st)
    ensures InsertFrom(w, line, i, pos, cur, st) == line[i..] + CursorBlank
    decreases |line| - i
  {
    if i < |line| {
      var c := line[i];
      assert c in line;
      assert line[i..] == [c] + line[i + 1..];
      var o := OpensCsi(line, i);
      var step := ScanStep(w, c, o, pos, cur, st);
      if o {
        assert step == Copy(pos, true);
      } else if st {
        assert step == Copy(pos, !IsLetter(c));
      } else {
        assert cur - pos == w(c) + ScanWidthFrom(w, line, i + 1, false);
        assert step == Copy(pos + w(c), false);
      }
      InsertFromAtEnd(w, line, i + 1, step.pos, cur, step.inAnsi);
      assert InsertFrom(w, line, i, pos, cur, st) == [c] + InsertFrom(w, line, i + 1, step.pos, cur, step.inAnsi);
    }
  }

  /** A cursor exactly at the end of a line whose characters all have positive
      width is appended too. (A trailing zero-width character would instead be
      the one highlighted, since its column equals the cursor.) */
  lemma InsertCursorAtEnd(w: WidthFn, line: string)
    requires RuneError !in line
    requires forall k :: 0 <= k < |line| ==> w(line[k]) > 0
    ensures InsertCursor(w, line, ScanWidth(w, line)) == line + CursorBlank
  {
    InsertFromAtEnd(w, line, 0, 0, ScanWidth(w, line), false);
  }

  // ---- StripHTML ----

  /** Deletes every `<[^>]*>` match, leftmost first: a `<` with no later `>`
      is kept as text. */
  function RemoveTags(s: string): (r: string)
    ensures forall c :: c in r ==> c in s
    ensures forall i, j :: 0 <= i < j < |r| && r[i] == '<' ==> r[j] != '>'
    ensures '<' !in s ==> r == s
    decreases |s|
  {
    if s == [] then []
    else if s[0] == '<' && FindChar(s[1..], '>').Some? then
      var t := s[FindChar(s[1..], '>').value + 2..];
      assert forall c :: c in t ==> c in s;
      RemoveTags(t)
    else
      var t := RemoveTags(s[1..]);
      assert s[0] == '<' ==> '>' !in t;
      var r := [s[0]] + t;
      assert forall j :: 0 < j < |r| ==> r[j] == t[j - 1];
      r
  }

  /** A complete tag `<t>` is deleted, whatever follows it. */
  lemma RemoveTagsDropsTag(t: string, b: string)
    requires '>' !in t
    ensures RemoveTags(['<'] + t + ['>'] + b) == RemoveTags(b)
  {
    var s := ['<'] + t + ['>'] + b;
    assert s[1..] == t + ['>'] + b;
    assert s[1..][..|t|] == t && s[1..][|t|] == '>';
    assert FindChar(s[1..], '>') == Some(|t|);
    assert s[|t| + 2..] == b;
  }

  /** Text without `<` is kept, and removal carries on after it. */
  lemma {:induction false} RemoveTagsKeepsText(a: string, b: string)
    requires '<' !in a
    ensures RemoveTags(a + b) == a + RemoveTags(b)
    decreases |a|
  {
    if a == [] {
      assert a + b == b;
    } else {
      var c, a1 := a[0], a[1..];
      assert a == [c] + a1;
      RemoveTagsKeepsText(a1, b);
      RemoveTagsKeepsMore(c, a1, b);
    }
  }

  lemma RemoveTagsKeepsMore(c: char, a: string, b: string)
    requires c != '<' && RemoveTags(a + b) == a + RemoveTags(b)
    ensures RemoveTags(([c] + a) + b) == ([c] + a) + RemoveTags(b)
  {
    assert ([c] + a) + b == [c] + (a + b);
    RemoveTagsKeepsChar(c, a + b);
  }

  /** A character other than `<` in front is kept. */
  lemma RemoveTagsKeepsChar(c: char, t: string)
    requires c != '<'
    ensures RemoveTags([c] + t) == [c] + RemoveTags(t)
  {
    assert ([c] + t)[1..] == t;
  }

  /** The characters of Go's `\s` class: `[\t\n\f\r ]`. */
  predicate IsReSpace(c: char) {
    c == '\t' || c == '\n' || c == '\U{000C}' || c == '\r' || c == ' '
  }

  function DropReSpaces(s: string): (r: string)
    ensures |r| <= |s| && r == s[|s| - |r|..]
    ensures r == [] || !IsReSpace(r[0])
  {
    if s != [] && IsReSpace(s[0]) then DropReSpaces(s[1..]) else s
  }

  /** No two neighbouring characters are both white space. */
  predicate NoDoubleSpace(s: string) {
    forall i :: 0 <= i < |s| - 1 ==> !(IsReSpace(s[i]) && IsReSpace(s[i + 1]))
  }

  /** Replaces every run of `\s` characters by one blank. */
  function CollapseSpace(s: string): (r: string)
    ensures NoDoubleSpace(r)
    ensures forall i :: 0 <= i < |r| && IsReSpace(r[i]) ==> r[i] == ' '
    ensures (r != [] && IsReSpace(r[0])) <==> (s != [] && IsReSpace(s[0]))
    ensures r == [] <==> s == []
    decreases |s|
  {
    if s == [] then []
    else if IsReSpace(s[0]) then " " + CollapseSpace(DropReSpaces(s[1..]))
    else [s[0]] + CollapseSpace(s[1..])
  }

  /** Runs already collapsed: no doubled white space, and every white-space
      character a blank. */
  predicate Collapsed(s: string) {
    && NoDoubleSpace(s)
    && forall i :: 0 <= i < |s| && IsReSpace(s[i]) ==> s[i] == ' '
  }

  /** Dropping the first character keeps text collapsed; after a leading
      blank no white space follows. */
  lemma CollapsedTail(s: string)
    requires s != [] && Collapsed(s)
    ensures Collapsed(s[1..])
    ensures IsReSpace(s[0]) ==> s[0] == ' ' && DropReSpaces(s[1..]) == s[1..]
  {
    var t := s[1..];
    assert NoDoubleSpace(t) by {
      forall i | 0 <= i < |t| - 1 ensures !(IsReSpace(t[i]) && IsReSpace(t[i + 1])) {
        assert t[i] == s[i + 1] && t[i + 1] == s[i + 2];
      }
    }
    forall i | 0 <= i < |t| && IsReSpace(t[i]) ensures t[i] == ' ' {
      assert t[i] == s[i + 1];
    }
    if IsReSpace(s[0]) && t != [] {
      assert t[0] == s[1] && !IsReSpace(t[0]);
    }
  }

  /** Text already in collapsed form is a fixed point, hence collapsing twice
      is collapsing once. */
  lemma {:induction false} CollapseSpaceFixpoint(s: string)
    requires Collapsed(s)
    ensures CollapseSpace(s) == s
    decreases |s|
  {
    if s != [] {
      var t := s[1..];
      CollapsedTail(s);
      CollapseSpaceFixpoint(t);
      assert s == [s[0]] + t;
    }
  }

  lemma CollapseSpaceIdempotent(s: string)
    ensures CollapseSpace(CollapseSpace(s)) == CollapseSpace(s)
  {
    CollapseSpaceFixpoint(CollapseSpace(s));
  }

  /** `StripHTML`: tags removed, entities decoded by `unescape`
      (`html.UnescapeString`), white-space runs collapsed. */
  function StripHtml(unescape: string -> string, html: string): (r: string)
    ensures NoDoubleSpace(r)
    ensures forall i :: 0 <= i < |r| && IsReSpace(r[i]) ==> r[i] == ' '
  {
    CollapseSpace(unescape(RemoveTags(html)))
  }
}
