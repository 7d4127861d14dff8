/** The pieces shared by the add-feed and edit-feed forms: moving between
    fields with Tab, and reading a comma-separated tag list. */
module FeedForm {
  import opened Common
  import opened TuiModel

  /** Tab order of the form fields: url, category, tags, and round again.
      A form with no active field stays so. */
  function NextField(f: Field): (r: Field)
    ensures f == NoField <==> r == NoField
    ensures f != NoField ==> r != f
  {
    match f
    case UrlField => CategoryField
    case CategoryField => TagsField
    case TagsField => UrlField
    case NoField => NoField
  }

  /** Three presses of Tab come back to the starting field. */
  lemma NextFieldCycles(f: Field)
    ensures NextField(NextField(NextField(f))) == f
    ensures f != NoField ==> NextField(NextField(f)) != f
  {
  }

  /** The text has no leading or trailing white space. */
  predicate Trimmed(t: string) {
    t == [] || (!IsSpace(t[0]) && !IsSpace(t[|t| - 1]))
  }

  function TrimAll(parts: seq<string>): (r: seq<string>)
    ensures |r| == |parts|
    ensures forall i :: 0 <= i < |r| ==> r[i] == TrimSpace(parts[i])
  {
    seq(|parts|, i requires 0 <= i < |parts| => TrimSpace(parts[i]))
  }

  /** The tag list typed into a form: the comma-separated pieces with
      surrounding white space removed, and no tags at all for empty text. */
  function ParseTags(s: string): (r: seq<string>)
    ensures s == [] <==> r == []
    ensures forall i :: 0 <= i < |r| ==> ',' !in r[i] && Trimmed(r[i])
  {
    if s == [] then []
    else
      TrimAllClean(Split(s, ','));
      TrimAll(Split(s, ','))
  }

  /** Trimming comma-free pieces leaves them comma-free and trimmed. */
  lemma TrimAllClean(parts: seq<string>)
    requires forall i :: 0 <= i < |parts| ==> ',' !in parts[i]
    ensures forall i :: 0 <= i < |parts| ==> ',' !in TrimAll(parts)[i] && Trimmed(TrimAll(parts)[i])
  {
    var r := TrimAll(parts);
    forall i | 0 <= i < |parts|
      ensures ',' !in r[i] && Trimmed(r[i])
    {
      var t := TrimSpace(parts[i]);
      TrimSpaceInfix(parts[i], ',');
      assert Trimmed(t);
      assert r[i] == t;
    }
  }

  /** A character absent from a text is absent from its trimmed form. */
  lemma TrimSpaceInfix(s: string, c: char)
    requires c !in s
    ensures c !in TrimSpace(s)
  {
    var t := TrimSpace(s);
    var k :| OccursAt(s, t, k);
    assert forall j :: 0 <= j < |t| ==> t[j] == s[k + j];
  }

  /** Splitting text that starts with a separator-free piece and a separator
      gives that piece first. */
  lemma {:induction false} SplitAfterPiece(a: string, rest: string, sep: char)
    requires sep !in a
    ensures Split(a + [sep] + rest, sep) == [a] + Split(rest, sep)
  {
    var s := a + [sep] + rest;
    if a == [] {
      assert s[1..] == rest;
    } else {
      assert s[1..] == a[1..] + [sep] + rest;
      SplitAfterPiece(a[1..], rest, sep);
      assert [a[0]] + a[1..] == a;
    }
  }

  /** Text without the separator splits into itself. */
  lemma {:induction false} SplitWhole(a: string, sep: char)
    requires sep !in a
    ensures Split(a, sep) == [a]
  {
    if a != [] {
      SplitWhole(a[1..], sep);
      assert [a[0]] + a[1..] == a;
    }
  }

  /** Split undoes Join on separator-free pieces. */
  lemma {:induction false} SplitJoin(parts: seq<string>, sep: char)
    requires |parts| >= 1
    requires forall i :: 0 <= i < |parts| ==> sep !in parts[i]
    ensures Split(Join(parts, [sep]), sep) == parts
  {
    if |parts| == 1 {
      SplitWhole(parts[0], sep);
    } else {
      SplitJoin(parts[1..], sep);
      SplitAfterPiece(parts[0], Join(parts[1..], [sep]), sep);
      assert parts[0] + [sep] + Join(parts[1..], [sep]) == Join(parts, [sep]);
      assert [parts[0]] + parts[1..] == parts;
    }
  }

  /** Every tag with a space put in front. */
  function Prefixed(tags: seq<string>): (r: seq<string>)
    ensures |r| == |tags|
    ensures forall i :: 0 <= i < |r| ==> r[i] == " " + tags[i]
  {
    if tags == [] then [] else [" " + tags[0]] + Prefixed(tags[1..])
  }

  /** The tags with a space put in front of every tag but the first. */
  function Spaced(tags: seq<string>): (r: seq<string>)
    ensures |r| == |tags|
    ensures tags != [] ==> r[0] == tags[0]
    ensures forall i :: 1 <= i < |r| ==> r[i] == " " + tags[i]
  {
    if tags == [] then [] else [tags[0]] + Prefixed(tags[1..])
  }

  /** Joining with ", " is joining the spaced tags with ",". */
  lemma {:induction false} JoinSpaced(tags: seq<string>)
    ensures Join(tags, ", ") == Join(Spaced(tags), ",")
  {
    if |tags| >= 2 {
      var rest := tags[1..];
      JoinSpaced(rest);
      var sp := Spaced(rest);
      JoinExtendFirst(' ', sp, ",");
      assert [[' '] + sp[0]] + sp[1..] == Prefixed(rest);
      assert Spaced(tags)[1..] == Prefixed(rest);
      assert Join(Spaced(tags), ",") == tags[0] + "," + Join(Prefixed(rest), ",");
      assert Join(tags, ", ") == tags[0] + ", " + Join(rest, ", ");
    }
  }

  lemma SpacedTrim(t: string)
    requires Trimmed(t)
    ensures TrimSpace(" " + t) == t
  {
    var s := " " + t;
    assert s[1..] == t;
    assert TrimLeft(s) == TrimLeft(t) == t;
    assert TrimRight(t) == t;
  }

  lemma SpacedNoComma(tags: seq<string>)
    requires forall i :: 0 <= i < |tags| ==> ',' !in tags[i]
    ensures forall i :: 0 <= i < |tags| ==> ',' !in Spaced(tags)[i]
  {
    var sp := Spaced(tags);
    forall i | 0 <= i < |tags|
      ensures ',' !in sp[i]
    {
      if i > 0 {
        assert sp[i] == [' '] + tags[i];
      }
    }
  }

  lemma TrimAllSpaced(tags: seq<string>)
    requires forall i :: 0 <= i < |tags| ==> Trimmed(tags[i])
    ensures TrimAll(Spaced(tags)) == tags
  {
    var sp := Spaced(tags);
    forall i | 0 <= i < |tags|
      ensures TrimSpace(sp[i]) == tags[i]
    {
      if i == 0 {
        TrimSpaceOfTrimmed(tags[0]);
      } else {
        SpacedTrim(tags[i]);
      }
    }
  }

  /** Non-empty text is read as the trimmed comma-separated pieces. */
  lemma ParseTagsOfText(s: string)
    requires s != []
    ensures ParseTags(s) == TrimAll(Split(s, ','))
  {
  }

  /** Tags other than a single empty one join to non-empty text. */
  lemma JoinTagsNonEmpty(tags: seq<string>)
    requires tags != [] && tags != [""]
    ensures Join(tags, ", ") != []
  {
    if |tags| == 1 {
      assert Join(tags, ", ") == tags[0];
    } else {
      assert Join(tags, ", ") == tags[0] + ", " + Join(tags[1..], ", ");
    }
  }

  /** The edit form shows the tags joined with ", " and reads them back with
      `ParseTags`: for trimmed tags without commas this gives back the same
      tags. The one exception is a single empty tag, which reads back as no
      tags. */
  lemma TagsRoundTrip(tags: seq<string>)
    requires forall i :: 0 <= i < |tags| ==> ',' !in tags[i] && Trimmed(tags[i])
    requires tags != [""]
    ensures ParseTags(Join(tags, ", ")) == tags
  {
    if tags != [] {
      var text := Join(tags, ", ");
      var sp := Spaced(tags);
      JoinSpaced(tags);
      assert text == Join(sp, ",");
      SpacedNoComma(tags);
      SplitJoin(sp, ',');
      assert Split(text, ',') == sp;
      TrimAllSpaced(tags);
      JoinTagsNonEmpty(tags);
      ParseTagsOfText(text);
    }
  }

  /** A single empty tag does not survive the round trip. */
  lemma EmptyTagLost()
    ensures ParseTags(Join([""], ", ")) == []
  {
  }
}
