/**
 The `paste` command: the clipboard text is split into lines and unindented by its own minimum
 indentation; then each selection is replaced by those lines joined with the document's
 end-of-line marker, every line but the first that is not blank prefixed with the whitespace
 in front of the selection on its start line.
 */
module PasteCommand {
  import opened Wrappers
  import opened Text
  import opened Scanner
  import opened Documents

  /** The clipboard lines after unindenting (`preprocessedLines`): one per split line, each with
      exactly the paste minimum of whitespace removed, and no common indentation left. */
  function Unindent(clipboard: string): (r: seq<string>)
    ensures |r| == |Split(clipboard)|
    ensures forall i :: 0 <= i < |r| ==> r[i] == Split(clipboard)[i][PasteMinimum(Split(clipboard))..]
    ensures forall i :: 0 <= i < |r| ==> AllWs(Split(clipboard)[i][..PasteMinimum(Split(clipboard))])
    ensures PasteMinimum(r) == 0
  {
    var lines := Split(clipboard);
    PasteStripAllExact(lines);
    PasteUnindentIdempotent(lines);
    StripAll(lines, PasteMinimum(lines))
  }

  /** A clipboard with a line that has no leading whitespace (an empty line included) is not
      unindented at all. */
  lemma UnindentFlush(clipboard: string, i: nat)
    requires i < |Split(clipboard)| && LeadingWs(Split(clipboard)[i]) == 0
    ensures Unindent(clipboard) == Split(clipboard)
  {
    var lines := Split(clipboard);
    var r := Unindent(clipboard);
    assert PasteMinimum(lines) == 0;
    forall j | 0 <= j < |r|
      ensures r[j] == lines[j]
    {
      assert r[j] == lines[j][0..];
    }
  }

  /** The indentation at a selection: the longest whitespace prefix of the text before the cursor
      on its start line, so never longer than the cursor's column. */
  function PasteIndentation(doc: seq<string>, sel: Selection): (r: string)
    requires ValidSelection(doc, sel)
    ensures |r| <= sel.startChar && r == doc[sel.startLine][..|r|]
    ensures AllWs(r)
    ensures |r| < sel.startChar ==> !IsWs(doc[sel.startLine][|r|])
  {
    var before := doc[sel.startLine][..sel.startChar];
    assert before[..LeadingWs(before)] == doc[sel.startLine][..LeadingWs(before)];
    Indentation(before)
  }

  /** The lines of one pasted block: the first and the blank ones as they are, the others
      behind `indentation`. A whitespace indentation keeps every line's blankness, and raises
      the leading whitespace of each re-indented line by exactly its own length. */
  function IndentLines(lines: seq<string>, indentation: string): (r: seq<string>)
    ensures |r| == |lines|
    ensures |lines| > 0 ==> r[0] == lines[0]
    ensures forall i :: 0 < i < |r| && AllWs(lines[i]) ==> r[i] == lines[i]
    ensures forall i :: 0 < i < |r| && !AllWs(lines[i]) ==> r[i] == indentation + lines[i]
    ensures AllWs(indentation) ==> forall i :: 0 <= i < |r| ==> (AllWs(r[i]) <==> AllWs(lines[i]))
    ensures AllWs(indentation) ==>
              forall i :: 0 < i < |r| && !AllWs(lines[i]) ==> LeadingWs(r[i]) == |indentation| + LeadingWs(lines[i])
  {
    var r := seq(|lines|, i requires 0 <= i < |lines| =>
                   if i != 0 && !AllWs(lines[i]) then indentation + lines[i] else lines[i]);
    assert AllWs(indentation) ==>
             forall i :: 0 < i < |r| && !AllWs(lines[i]) ==>
               !AllWs(r[i]) && LeadingWs(r[i]) == |indentation| + LeadingWs(lines[i]) by {
      if AllWs(indentation) {
        forall i | 0 < i < |r| && !AllWs(lines[i])
          ensures !AllWs(r[i]) && LeadingWs(r[i]) == |indentation| + LeadingWs(lines[i])
        {
          var j :| 0 <= j < |lines[i]| && !IsWs(lines[i][j]);
          assert r[i][|indentation| + j] == lines[i][j];
          LeadingWsAfterIndent(indentation, lines[i]);
        }
      }
    }
    r
  }

  /** The text that replaces one selection. With no line breaks inside the lines or before the
      cursor, it splits back into the re-indented lines. */
  function PasteText(doc: seq<string>, sel: Selection, lines: seq<string>, eol: Eol): (r: string)
    requires ValidSelection(doc, sel)
    ensures |lines| > 0 && NoBreaks(doc[sel.startLine]) && (forall i :: 0 <= i < |lines| ==> NoBreaks(lines[i])) ==>
              Split(r) == IndentLines(lines, PasteIndentation(doc, sel))
  {
    var indentation := PasteIndentation(doc, sel);
    var block := IndentLines(lines, indentation);
    assert |lines| > 0 && NoBreaks(doc[sel.startLine]) && (forall i :: 0 <= i < |lines| ==> NoBreaks(lines[i])) ==>
             Split(Join(block, eol.Str())) == block by {
      if |lines| > 0 && NoBreaks(doc[sel.startLine]) && (forall i :: 0 <= i < |lines| ==> NoBreaks(lines[i])) {
        assert NoBreaks(indentation);
        forall i | 0 <= i < |block|
          ensures NoBreaks(block[i])
        {
          if i != 0 && !AllWs(lines[i]) {
            assert block[i] == indentation + lines[i];
          }
        }
        SplitJoin(block, eol.Str());
      }
    }
    Join(block, eol.Str())
  }

  /** `paste`: an empty clipboard or no active editor edits nothing; otherwise one replacement
      per selection, in the editor's order, each over that selection's own range. */
  function Paste(clipboard: string, editor: Option<Editor>): (r: Option<seq<Edit>>)
    requires editor.Some? ==> ValidEditor(editor.value)
    ensures r.Some? <==> clipboard != "" && editor.Some?
    ensures r.Some? ==> |r.value| == |editor.value.selections|
    ensures r.Some? ==> forall k :: 0 <= k < |r.value| ==> r.value[k].range == editor.value.selections[k]
  {
    if clipboard == "" then None
    else
      match editor
      case None => None
      case Some(e) =>
        var lines := Unindent(clipboard);
        Some(seq(|e.selections|, k requires 0 <= k < |e.selections| =>
                   Edit(e.selections[k], PasteText(e.doc, e.selections[k], lines, e.eol)))
        )
  }

  /** With no lone carriage return on the clipboard, the text pasted at selection `k` splits
      back into the indented lines it was joined from. */
  lemma PasteTextLines(clipboard: string, e: Editor, k: nat)
    requires ValidEditor(e) && clipboard != "" && k < |e.selections|
    requires forall i :: 0 <= i < |Split(clipboard)| ==> NoBreaks(Split(clipboard)[i])
    ensures Split(Paste(clipboard, Some(e)).value[k].text)
            == IndentLines(Unindent(clipboard), PasteIndentation(e.doc, e.selections[k]))
  {
    var lines := Split(clipboard);
    var pre := Unindent(clipboard);
    assert NoBreaks(e.doc[e.selections[k].startLine]);
    forall i | 0 <= i < |pre|
      ensures NoBreaks(pre[i])
    {
      StripNoBreaks(lines[i], PasteMinimum(lines));
    }
  }

  /** The pasted block has exactly as many lines as the clipboard: the first unindented line as
      it is, every blank one as it is, and every other one behind the selection's indentation. */
  lemma PasteBlock(clipboard: string, e: Editor, k: nat)
    requires ValidEditor(e) && clipboard != "" && k < |e.selections|
    requires forall i :: 0 <= i < |Split(clipboard)| ==> NoBreaks(Split(clipboard)[i])
    ensures var block := Split(Paste(clipboard, Some(e)).value[k].text);
            var pre := Unindent(clipboard);
            var indentation := PasteIndentation(e.doc, e.selections[k]);
            && |block| == |Split(clipboard)|
            && block[0] == pre[0]
            && (forall i :: 0 < i < |block| && AllWs(pre[i]) ==> block[i] == pre[i])
            && (forall i :: 0 < i < |block| && !AllWs(pre[i]) ==> block[i] == indentation + pre[i])
  {
    PasteTextLines(clipboard, e, k);
  }

  /** For every clipboard, lone carriage returns included: the block of lines pasted at
      selection `k` has one line per clipboard line, and each re-indented line is indented by the
      selection's indentation plus what its clipboard line had beyond the common minimum. */
  lemma PasteBlockRebased(clipboard: string, e: Editor, k: nat, i: nat)
    requires ValidEditor(e) && k < |e.selections|
    requires 0 < i < |Split(clipboard)| && !AllWs(Unindent(clipboard)[i])
    ensures var indentation := PasteIndentation(e.doc, e.selections[k]);
            var block := IndentLines(Unindent(clipboard), indentation);
            var lines := Split(clipboard);
            && |block| == |lines|
            && LeadingWs(block[i]) == |indentation| + LeadingWs(lines[i]) - PasteMinimum(lines)
  {
    PasteStripExact(Split(clipboard), i);
  }

  /** Relative indentation survives a paste: a non-first, non-blank line of the block is indented
      by the selection's indentation plus what its clipboard line had beyond the common minimum. */
  lemma PasteRebasesIndentation(clipboard: string, e: Editor, k: nat, i: nat)
    requires ValidEditor(e) && clipboard != "" && k < |e.selections|
    requires forall j :: 0 <= j < |Split(clipboard)| ==> NoBreaks(Split(clipboard)[j])
    requires 0 < i < |Split(clipboard)| && !AllWs(Unindent(clipboard)[i])
    ensures var block := Split(Paste(clipboard, Some(e)).value[k].text);
            var lines := Split(clipboard);
            i < |block| &&
            LeadingWs(block[i]) == |PasteIndentation(e.doc, e.selections[k])| + LeadingWs(lines[i]) - PasteMinimum(lines)
  {
    PasteTextLines(clipboard, e, k);
    PasteBlockRebased(clipboard, e, k, i);
  }
}
