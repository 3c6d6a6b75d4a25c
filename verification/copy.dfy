/**
 The `copy` command: the clipboard text built from the editor's selections. Empty selections
 stand for their whole line, selections are taken top to bottom, each touched line contributes
 its selected part (a whitespace-only line contributes ""), the minimum indentation of the
 touched non-blank lines is removed from every part, and the parts are joined with the
 document's end-of-line marker.
 */
module CopyCommand {
  import opened Wrappers
  import opened Text
  import opened Scanner
  import opened Documents
  import opened Sorting

  /** An empty selection becomes the range from column 0 to the end of its line; any other
      selection is kept. */
  function WholeLine(doc: seq<string>, sel: Selection): (r: Selection)
    requires ValidSelection(doc, sel)
    ensures ValidSelection(doc, r)
    ensures r.startLine == sel.startLine
    ensures sel.IsEmpty() ==> r == Selection(sel.startLine, 0, sel.startLine, |doc[sel.startLine]|)
    ensures !sel.IsEmpty() ==> r == sel
  {
    if sel.IsEmpty() then Selection(sel.startLine, 0, sel.startLine, |doc[sel.startLine]|) else sel
  }

  function WholeLines(doc: seq<string>, sels: seq<Selection>): (r: seq<Selection>)
    requires ValidSelections(doc, sels)
    ensures |r| == |sels| && ValidSelections(doc, r)
  {
    seq(|sels|, i requires 0 <= i < |sels| => WholeLine(doc, sels[i]))
  }

  /** The selections in the order their text goes to the clipboard: every empty selection
      widened to its line, then stably sorted by start line. No caret survives except on an
      empty line. */
  function CopySelections(doc: seq<string>, sels: seq<Selection>): (r: seq<Selection>)
    requires ValidSelections(doc, sels)
    ensures |r| == |sels| && ValidSelections(doc, r)
    ensures Sorted(r)
    ensures multiset(r) == multiset(WholeLines(doc, sels))
    ensures forall line :: OnLine(r, line) == OnLine(WholeLines(doc, sels), line)
    ensures forall i :: 0 <= i < |r| && r[i].IsEmpty() ==> |doc[r[i].startLine]| == 0
  {
    var w := WholeLines(doc, sels);
    var r := SortByStartLine(w);
    assert |r| == |multiset(r)| == |multiset(w)| == |w|;
    forall i | 0 <= i < |r|
      ensures r[i] in w
    {
      assert r[i] in multiset(r);
    }
    r
  }

  /** The part of line `i` that selection `sel` contributes. */
  function LineFragment(doc: seq<string>, sel: Selection, i: nat): (r: string)
    requires ValidSelection(doc, sel) && sel.startLine <= i <= sel.endLine
    ensures AllWs(doc[i]) ==> r == ""
    ensures !AllWs(doc[i]) && i == sel.startLine == sel.endLine ==> r == doc[i][sel.startChar..sel.endChar]
    ensures !AllWs(doc[i]) && i == sel.startLine < sel.endLine ==> r == doc[i][sel.startChar..]
    ensures !AllWs(doc[i]) && sel.startLine < i == sel.endLine ==> r == doc[i][..sel.endChar]
    ensures !AllWs(doc[i]) && sel.startLine < i < sel.endLine ==> r == doc[i]
    ensures NoBreaks(doc[i]) ==> NoBreaks(r)
  {
    var line := doc[i];
    if AllWs(line) then ""
    else if i == sel.startLine || i == sel.endLine then
      var start := if i == sel.startLine then sel.startChar else 0;
      var end := if i == sel.endLine then sel.endChar else |line|;
      line[start..end]
    else line
  }

  /** The lines a selection touches, whole. */
  function RangeLines(doc: seq<string>, sel: Selection): (r: seq<string>)
    requires ValidSelection(doc, sel)
    ensures |r| == sel.endLine - sel.startLine + 1
  {
    doc[sel.startLine..sel.endLine + 1]
  }

  /** One fragment per line the selection touches, top to bottom. */
  function RangeFragments(doc: seq<string>, sel: Selection): (r: seq<string>)
    requires ValidSelection(doc, sel)
    ensures |r| == sel.endLine - sel.startLine + 1
  {
    seq(sel.endLine - sel.startLine + 1,
        k requires 0 <= k < sel.endLine - sel.startLine + 1 => LineFragment(doc, sel, sel.startLine + k))
  }

  /** Without blank lines in the way, the fragments of a selection joined with any separator are
      exactly the text between its two positions in the touched lines joined with it. */
  lemma CopyFragmentsAreSelectedText(doc: seq<string>, sel: Selection, sep: string)
    requires ValidSelection(doc, sel)
    requires forall i :: sel.startLine <= i <= sel.endLine ==> !AllWs(doc[i])
    ensures var text := Join(RangeLines(doc, sel), sep);
            var cut := |doc[sel.endLine]| - sel.endChar;
            sel.startChar <= |text| - cut && Join(RangeFragments(doc, sel), sep) == text[sel.startChar..|text| - cut]
  {
    var lines := RangeLines(doc, sel);
    var frags := RangeFragments(doc, sel);
    var n := |lines|;
    var sc, ec := sel.startChar, sel.endChar;
    var text := Join(lines, sep);
    var cut := |doc[sel.endLine]| - ec;
    assert lines[n - 1] == doc[sel.endLine];
    if n == 1 {
      assert frags[0] == LineFragment(doc, sel, sel.startLine);
      assert frags == [frags[0]];
    } else {
      var taken := lines[..n - 1] + [lines[n - 1][..ec]];
      JoinTakeLast(lines, sep, ec);
      assert taken[0] == lines[0] == doc[sel.startLine];
      JoinLength(taken, sep);
      JoinDropFirst(taken, sep, sc);
      forall k | 0 <= k < n
        ensures frags[k] == ([taken[0][sc..]] + taken[1..])[k]
      {
        assert lines[k] == doc[sel.startLine + k];
      }
      assert frags == [taken[0][sc..]] + taken[1..];
    }
  }

  /** Every line touched by the selections, in order, each selection's lines whole. */
  function TouchedLines(doc: seq<string>, sels: seq<Selection>): (r: seq<string>)
    requires ValidSelections(doc, sels)
    ensures |r| >= |sels|
    ensures (forall i :: 0 <= i < |doc| ==> NoBreaks(doc[i])) ==> forall k :: 0 <= k < |r| ==> NoBreaks(r[k])
  {
    if |sels| == 0 then []
    else
      var lines := RangeLines(doc, sels[0]);
      assert forall k :: 0 <= k < |lines| ==> lines[k] == doc[sels[0].startLine + k];
      lines + TouchedLines(doc, sels[1..])
  }

  /** The selected text of every touched line (`selectedLines`): exactly one fragment per touched
      line, "" for each whitespace-only one. */
  function Fragments(doc: seq<string>, sels: seq<Selection>): (r: seq<string>)
    requires ValidSelections(doc, sels)
    ensures |r| == |TouchedLines(doc, sels)|
    ensures forall k :: 0 <= k < |r| && AllWs(TouchedLines(doc, sels)[k]) ==> r[k] == ""
    ensures forall k :: 0 <= k < |r| && NoBreaks(TouchedLines(doc, sels)[k]) ==> NoBreaks(r[k])
  {
    if |sels| == 0 then []
    else
      var head := RangeFragments(doc, sels[0]);
      var rest := Fragments(doc, sels[1..]);
      var lines := RangeLines(doc, sels[0]);
      var touched := TouchedLines(doc, sels);
      var r := head + rest;
      assert touched == lines + TouchedLines(doc, sels[1..]);
      forall k | 0 <= k < |r|
        ensures AllWs(touched[k]) ==> r[k] == ""
        ensures NoBreaks(touched[k]) ==> NoBreaks(r[k])
      {
        if k < |head| {
          assert touched[k] == lines[k] == doc[sels[0].startLine + k];
        } else {
          assert touched[k] == TouchedLines(doc, sels[1..])[k - |head|];
        }
      }
      r
  }

  /** The unindented lines whose join is the clipboard text. */
  function CopyLines(doc: seq<string>, sels: seq<Selection>): (r: seq<string>)
    requires ValidSelections(doc, sels)
    ensures |r| == |TouchedLines(doc, CopySelections(doc, sels))|
  {
    var ordered := CopySelections(doc, sels);
    StripAll(Fragments(doc, ordered), CopyMinimum(TouchedLines(doc, ordered)))
  }

  /** Every clipboard line is its fragment with exactly min(minimum indentation, the fragment's
      own leading whitespace) characters removed from the front, and nothing else changed. */
  lemma CopyLineStripped(doc: seq<string>, sels: seq<Selection>, k: nat)
    requires ValidSelections(doc, sels)
    requires k < |CopyLines(doc, sels)|
    ensures var ordered := CopySelections(doc, sels);
            var f := Fragments(doc, ordered)[k];
            var m := CopyMinimum(TouchedLines(doc, ordered));
            var c := CopyLines(doc, sels)[k];
            |f| - |c| == Min(m, LeadingWs(f)) && c == f[|f| - |c|..]
  {
    var ordered := CopySelections(doc, sels);
    StripCount(Fragments(doc, ordered)[k], CopyMinimum(TouchedLines(doc, ordered)));
  }

  /** A whitespace-only touched line puts an empty line on the clipboard. */
  lemma CopyBlankLineIsEmpty(doc: seq<string>, sels: seq<Selection>, k: nat)
    requires ValidSelections(doc, sels)
    requires k < |CopyLines(doc, sels)|
    requires AllWs(TouchedLines(doc, CopySelections(doc, sels))[k])
    ensures CopyLines(doc, sels)[k] == ""
  {
  }

  /** `copy`: no active editor writes nothing; otherwise the clipboard text splits back into
      exactly the unindented lines, with no end-of-line marker added after the last, and its
      line breaks are the document's own marker. */
  function Copy(editor: Option<Editor>): (r: Option<string>)
    requires editor.Some? ==> ValidEditor(editor.value)
    ensures r.Some? <==> editor.Some?
    ensures editor.Some? && |editor.value.selections| > 0 ==>
              Split(r.value) == CopyLines(editor.value.doc, editor.value.selections)
    ensures editor.Some? && |editor.value.selections| == 0 ==> r.value == ""
    ensures editor.Some? && editor.value.eol == LF ==> '\r' !in r.value
    ensures editor.Some? && editor.value.eol == CRLF ==> CrlfOnly(r.value)
  {
    match editor
    case None => None
    case Some(e) =>
      var lines := CopyLines(e.doc, e.selections);
      var payload := Join(lines, e.eol.Str());
      if |e.selections| > 0 then
        CopyLinesPlain(e);
        SplitJoin(lines, e.eol.Str());
        if e.eol == LF then
          JoinLf(lines);
          Some(payload)
        else
          JoinCrlf(lines);
          Some(payload)
      else Some(payload)
  }

  lemma CopyLinesPlain(e: Editor)
    requires ValidEditor(e)
    ensures forall k :: 0 <= k < |CopyLines(e.doc, e.selections)| ==> NoBreaks(CopyLines(e.doc, e.selections)[k])
  {
    var ordered := CopySelections(e.doc, e.selections);
    var touched := TouchedLines(e.doc, ordered);
    var frags := Fragments(e.doc, ordered);
    var m := CopyMinimum(touched);
    var lines := CopyLines(e.doc, e.selections);
    forall k | 0 <= k < |lines|
      ensures NoBreaks(lines[k])
    {
      assert NoBreaks(touched[k]);
      assert NoBreaks(frags[k]);
      StripNoBreaks(frags[k], m);
    }
  }
}
