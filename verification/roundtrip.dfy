/**
 Copy followed by paste, and the host applying a replacement to the document.
 */
module RoundTrip {
  import opened Wrappers
  import opened Text
  import opened Scanner
  import opened Documents
  import opened CopyCommand
  import opened PasteCommand

  /** Pasting what `copy` wrote: an empty payload pastes nothing; otherwise every selection gets
      the copied lines, unindented once more by their own minimum and re-indented for that
      selection. */
  lemma CopyThenPaste(source: Editor, target: Editor, k: nat)
    requires ValidEditor(source) && ValidEditor(target)
    requires |source.selections| > 0 && k < |target.selections|
    ensures var payload := Copy(Some(source)).value;
            var lines := CopyLines(source.doc, source.selections);
            var pasted := Paste(payload, Some(target));
            && (payload == "" <==> pasted.None?)
            && (pasted.Some? ==>
                  Split(pasted.value[k].text)
                  == IndentLines(StripAll(lines, PasteMinimum(lines)), PasteIndentation(target.doc, target.selections[k])))
  {
    var payload := Copy(Some(source)).value;
    var lines := CopyLines(source.doc, source.selections);
    assert Split(payload) == lines;
    if payload != "" {
      CopyLinesPlain(source);
      var m := PasteMinimum(lines);
      var pre := Unindent(payload);
      PasteStripAllExact(lines);
      assert pre == StripAll(lines, m);
      PasteTextLines(payload, target, k);
    }
  }

  /** The host's replacement of one range by `edit.text`, on the document's lines; the edited
      line is re-split wherever the new text breaks it, and every line before or after the
      range stays as it was. */
  function ApplyEdit(doc: seq<string>, edit: Edit): (r: seq<string>)
    requires ValidSelection(doc, edit.range)
    ensures |r| > |doc| - (edit.range.endLine - edit.range.startLine + 1)
    ensures forall i :: 0 <= i < edit.range.startLine ==> r[i] == doc[i]
    ensures forall i :: edit.range.endLine < i < |doc| ==> r[i + |r| - |doc|] == doc[i]
  {
    var sel := edit.range;
    doc[..sel.startLine]
    + Split(doc[sel.startLine][..sel.startChar] + edit.text + doc[sel.endLine][sel.endChar..])
    + doc[sel.endLine + 1..]
  }

  /** Text inserted at the start of an empty line takes that line's place: the document gets
      exactly the text's lines there and is unchanged around them. */
  lemma InsertAtBlankLine(doc: seq<string>, l: nat, text: string)
    requires l < |doc| && doc[l] == ""
    ensures ApplyEdit(doc, Edit(Selection(l, 0, l, 0), text)) == doc[..l] + Split(text) + doc[l + 1..]
  {
    assert doc[l][..0] + text + doc[l][0..] == text;
  }
}
