/**
 What the host editor hands the two commands: the document's lines, its end-of-line marker,
 and the selections in the order the user created them.
 */
module Documents {
  import opened Text

  /** The document-wide end-of-line marker (`EndOfLine.LF` or `EndOfLine.CRLF`). */
  datatype Eol = LF | CRLF {
    function Str(): (s: string)
      ensures s == "\n" || s == "\r\n"
    {
      if LF? then "\n" else "\r\n"
    }
  }

  /** A selection from (startLine, startChar) to (endLine, endChar); the host keeps start before
      end. Characters are counted per line from 0. */
  datatype Selection = Selection(startLine: nat, startChar: nat, endLine: nat, endChar: nat) {
    /** `selection.isEmpty`: a caret with nothing highlighted. */
    predicate IsEmpty() {
      startLine == endLine && startChar == endChar
    }
  }

  /** The selection lies inside the document and its start is not after its end. */
  predicate ValidSelection(doc: seq<string>, sel: Selection) {
    && sel.startLine <= sel.endLine < |doc|
    && sel.startChar <= |doc[sel.startLine]|
    && sel.endChar <= |doc[sel.endLine]|
    && (sel.startLine == sel.endLine ==> sel.startChar <= sel.endChar)
  }

  predicate ValidSelections(doc: seq<string>, sels: seq<Selection>) {
    forall i :: 0 <= i < |sels| ==> ValidSelection(doc, sels[i])
  }

  /** The active editor as the commands read it. */
  datatype Editor = Editor(doc: seq<string>, selections: seq<Selection>, eol: Eol)

  /** The host's guarantees: selections inside the document, lines without terminators. */
  predicate ValidEditor(e: Editor) {
    && ValidSelections(e.doc, e.selections)
    && forall i :: 0 <= i < |e.doc| ==> NoBreaks(e.doc[i])
  }

  /** One `editBuilder.replace(range, text)` request. */
  datatype Edit = Edit(range: Selection, text: string)
}
