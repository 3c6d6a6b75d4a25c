/**
 The repository's one end-to-end test, "Unindent multiline function call": copy three lines of
 a function call starting after their indentation, paste them at the start of an empty line.
 The general lemmas here take their strings as parameters, so the concrete test document only
 enters through small facts about its lines.
 */
module Scenario {
  import opened Wrappers
  import opened Text
  import opened Scanner
  import opened Documents
  import opened CopyCommand
  import opened PasteCommand
  import opened RoundTrip

  /** The test document. */
  const TestDoc: seq<string> := ["def foo():\"", "    print(\"", "        \"hello\"", "    )", "", ""]

  /** The document the test expects after the paste. */
  const TestExpected: seq<string> :=
    ["def foo():\"", "    print(\"", "        \"hello\"", "    )", "", "print(\"", "    \"hello\"", ")"]

  const TestCopySelection := Selection(1, 4, 3, 5)
  const TestPasteSelection := Selection(5, 0, 5, 0)
  const TestClipboard: string := "print(\"\n    \"hello\"\n)"

  lemma ThreeLines(s: seq<string>, a: string, b: string, c: string)
    requires |s| == 3 && s[0] == a && s[1] == b && s[2] == c
    ensures s == [a, b, c]
  {
  }

  lemma StripThree(s: seq<string>, m: nat)
    requires |s| == 3
    ensures StripAll(s, m) == [Strip(s[0], m), Strip(s[1], m), Strip(s[2], m)]
  {
  }

  lemma JoinThree(s: seq<string>, sep: string)
    requires |s| == 3
    ensures Join(s, sep) == s[0] + sep + s[1] + sep + s[2]
  {
    assert s[1..][1..] == [s[2]];
    assert Join(s[1..], sep) == s[1] + sep + s[2];
  }

  lemma SplitThree(a: string, b: string, c: string)
    requires NoBreaks(a) && NoBreaks(b) && NoBreaks(c)
    ensures Split(a + "\n" + b + "\n" + c) == [a, b, c]
  {
    JoinThree([a, b, c], "\n");
    SplitJoin([a, b, c], "\n");
  }

  lemma CopyUnfold(e: Editor)
    requires ValidEditor(e)
    ensures Copy(Some(e)) == Some(Join(CopyLines(e.doc, e.selections), e.eol.Str()))
  {
  }

  /** Copying three clipboard lines writes them joined by the end-of-line marker. */
  lemma CopyThree(e: Editor, a: string, b: string, c: string)
    requires ValidEditor(e)
    requires CopyLines(e.doc, e.selections) == [a, b, c]
    ensures Copy(Some(e)) == Some(a + e.eol.Str() + b + e.eol.Str() + c)
  {
    CopyUnfold(e);
    JoinThree([a, b, c], e.eol.Str());
  }

  lemma PasteUnfold(clipboard: string, e: Editor)
    requires ValidEditor(e) && clipboard != ""
    ensures Paste(clipboard, Some(e)).Some?
    ensures forall k :: 0 <= k < |e.selections| ==>
              Paste(clipboard, Some(e)).value[k]
              == Edit(e.selections[k], PasteText(e.doc, e.selections[k], Unindent(clipboard), e.eol))
  {
  }

  lemma IndentNothing(lines: seq<string>)
    ensures IndentLines(lines, "") == lines
  {
    var block := IndentLines(lines, "");
    forall i | 0 <= i < |lines|
      ensures block[i] == lines[i]
    {
      assert "" + lines[i] == lines[i];
    }
  }

  /** At a selection with no whitespace in front of it, the pasted text is the lines joined as
      they are. */
  lemma PasteTextUnindented(doc: seq<string>, sel: Selection, lines: seq<string>, eol: Eol)
    requires ValidSelection(doc, sel) && PasteIndentation(doc, sel) == ""
    ensures PasteText(doc, sel, lines, eol) == Join(lines, eol.Str())
  {
    IndentNothing(lines);
  }

  lemma OneEdit(s: seq<Edit>, x: Edit)
    requires |s| == 1 && s[0] == x
    ensures s == [x]
  {
  }

  lemma PasteThree(clipboard: string, e: Editor, a: string, b: string, c: string)
    requires ValidEditor(e) && |e.selections| == 1 && e.eol == LF && clipboard != ""
    requires Split(clipboard) == [a, b, c] && Join([a, b, c], "\n") == clipboard && LeadingWs(a) == 0
    requires PasteIndentation(e.doc, e.selections[0]) == ""
    ensures Paste(clipboard, Some(e)) == Some([Edit(e.selections[0], clipboard)])
  {
    var sel := e.selections[0];
    var pasted := Paste(clipboard, Some(e));
    assert pasted.value[0] == Edit(sel, PasteText(e.doc, sel, Unindent(clipboard), e.eol)) by {
      PasteUnfold(clipboard, e);
    }
    assert PasteText(e.doc, sel, Unindent(clipboard), e.eol) == clipboard by {
      UnindentFlush(clipboard, 0);
      PasteTextUnindented(e.doc, sel, [a, b, c], LF);
      assert LF.Str() == "\n";
    }
    OneEdit(pasted.value, Edit(sel, clipboard));
  }

  /** Pasting three "\n"-joined lines, the first not indented, at a selection with nothing in
      front of it replaces the selection with the clipboard text unchanged. */
  lemma PasteThreeLines(clipboard: string, e: Editor, a: string, b: string, c: string)
    requires ValidEditor(e) && |e.selections| == 1 && e.eol == LF
    requires clipboard == a + "\n" + b + "\n" + c
    requires NoBreaks(a) && NoBreaks(b) && NoBreaks(c) && LeadingWs(a) == 0
    requires PasteIndentation(e.doc, e.selections[0]) == ""
    ensures Paste(clipboard, Some(e)) == Some([Edit(e.selections[0], clipboard)])
  {
    assert Split(clipboard) == [a, b, c] by {
      SplitThree(a, b, c);
    }
    assert Join([a, b, c], "\n") == clipboard by {
      JoinThree([a, b, c], "\n");
    }
    PasteThree(clipboard, e, a, b, c);
  }

  lemma TestLine1Indent()
    ensures LeadingWs(TestDoc[1]) == 4 && !AllWs(TestDoc[1])
  {
    assert TestDoc[1][..4] == "    " && TestDoc[1][4] == 'p';
    LeadingWsUnique(TestDoc[1], 4);
  }

  lemma TestLine2Indent()
    ensures LeadingWs(TestDoc[2]) == 8 && !AllWs(TestDoc[2])
  {
    assert TestDoc[2][..8] == "        " && TestDoc[2][8] == '"';
    LeadingWsUnique(TestDoc[2], 8);
  }

  lemma TestLine3Indent()
    ensures LeadingWs(TestDoc[3]) == 4 && !AllWs(TestDoc[3])
  {
    assert TestDoc[3][..4] == "    " && TestDoc[3][4] == ')';
    LeadingWsUnique(TestDoc[3], 4);
  }

  lemma TestLineIndents()
    ensures LeadingWs(TestDoc[1]) == 4 && !AllWs(TestDoc[1])
    ensures LeadingWs(TestDoc[2]) == 8 && !AllWs(TestDoc[2])
    ensures LeadingWs(TestDoc[3]) == 4 && !AllWs(TestDoc[3])
  {
    TestLine1Indent();
    TestLine2Indent();
    TestLine3Indent();
  }

  lemma TestCopyOrder()
    ensures CopySelections(TestDoc, [TestCopySelection]) == [TestCopySelection]
  {
    assert WholeLines(TestDoc, [TestCopySelection]) == [TestCopySelection];
  }

  lemma TestTouchedLines()
    ensures TouchedLines(TestDoc, [TestCopySelection]) == TestDoc[1..4]
  {
    var doc, sel := TestDoc, TestCopySelection;
    assert [sel][1..] == [];
    assert TouchedLines(doc, [sel]) == RangeLines(doc, sel) + TouchedLines(doc, []);
  }

  lemma TestMinimum()
    ensures CopyMinimum(TestDoc[1..4]) == 4
  {
    var doc := TestDoc;
    var touched := doc[1..4];
    assert touched[0] == doc[1] && touched[1] == doc[2] && touched[2] == doc[3];
    TestLineIndents();
    var m := CopyMinimum(touched);
    assert m <= LeadingWs(touched[0]);
    var j :| 0 <= j < 3 && !AllWs(touched[j]) && m == LeadingWs(touched[j]);
    assert j == 0 || j == 1 || j == 2;
  }

  lemma TestFirstFragment()
    ensures LineFragment(TestDoc, TestCopySelection, 1) == "print(\""
  {
    TestLine1Indent();
    assert TestDoc[1][4..] == "print(\"";
  }

  lemma TestLastFragment()
    ensures LineFragment(TestDoc, TestCopySelection, 3) == "    )"
  {
    TestLine3Indent();
    assert TestDoc[3][..5] == "    )";
  }

  lemma TestFragments()
    ensures Fragments(TestDoc, [TestCopySelection]) == ["print(\"", TestDoc[2], "    )"]
  {
    var sel := TestCopySelection;
    assert [sel][1..] == [];
    assert Fragments(TestDoc, [sel]) == RangeFragments(TestDoc, sel);
    var frags := RangeFragments(TestDoc, sel);
    assert frags[0] == "print(\"" by {
      assert frags[0] == LineFragment(TestDoc, sel, 1);
      TestFirstFragment();
    }
    assert frags[1] == TestDoc[2] by {
      assert frags[1] == LineFragment(TestDoc, sel, 2);
      TestLine2Indent();
    }
    assert frags[2] == "    )" by {
      assert frags[2] == LineFragment(TestDoc, sel, 3);
      TestLastFragment();
    }
  }

  lemma TestStripFirst()
    ensures Strip("print(\"", 4) == "print(\""
  {
  }

  lemma TestStripMiddle()
    ensures Strip(TestDoc[2], 4) == "    \"hello\""
  {
    TestLine2Indent();
    assert TestDoc[2][4..] == "    \"hello\"";
  }

  lemma TestStripLast()
    ensures Strip("    )", 4) == ")"
  {
    assert "    )"[..4] == "    " && "    )"[4] == ')';
    LeadingWsUnique("    )", 4);
  }

  /** A copy whose ordered selections give three fragments and minimum `m` writes the three
      fragments stripped by `m`. */
  lemma CopyThreeFragments(doc: seq<string>, sels: seq<Selection>, a: string, b: string, c: string, m: nat)
    requires ValidSelections(doc, sels)
    requires Fragments(doc, CopySelections(doc, sels)) == [a, b, c]
    requires CopyMinimum(TouchedLines(doc, CopySelections(doc, sels))) == m
    ensures CopyLines(doc, sels) == [Strip(a, m), Strip(b, m), Strip(c, m)]
  {
    StripThree([a, b, c], m);
  }

  /** The copy of the test: the three touched lines lose the 4 columns of their minimum. */
  lemma TestCopyLines(doc: seq<string>, sels: seq<Selection>)
    requires doc == TestDoc && sels == [TestCopySelection] && ValidSelections(doc, sels)
    ensures CopyLines(doc, sels) == ["print(\"", "    \"hello\"", ")"]
  {
    assert CopySelections(doc, sels) == sels by {
      TestCopyOrder();
    }
    assert CopyMinimum(TouchedLines(doc, sels)) == 4 by {
      TestTouchedLines();
      TestMinimum();
    }
    assert Fragments(doc, sels) == ["print(\"", doc[2], "    )"] by {
      TestFragments();
      ThreeLines(Fragments(doc, sels), "print(\"", doc[2], "    )");
    }
    CopyThreeFragments(doc, sels, "print(\"", doc[2], "    )", 4);
    TestStripFirst();
    TestStripMiddle();
    TestStripLast();
  }

  lemma TestEditorsValid()
    ensures ValidEditor(Editor(TestDoc, [TestCopySelection], LF))
    ensures ValidEditor(Editor(TestDoc, [TestPasteSelection], LF))
  {
  }

  lemma TestClipboardLines()
    ensures "print(\"" + "\n" + "    \"hello\"" + "\n" + ")" == TestClipboard
  {
  }

  lemma TestCopyIn(e: Editor)
    requires e == Editor(TestDoc, [TestCopySelection], LF) && ValidEditor(e)
    ensures Copy(Some(e)) == Some(TestClipboard)
  {
    TestCopyLines(e.doc, e.selections);
    CopyThree(e, "print(\"", "    \"hello\"", ")");
    TestClipboardLines();
  }

  lemma TestPasteIn(e: Editor)
    requires e == Editor(TestDoc, [TestPasteSelection], LF) && ValidEditor(e)
    ensures Paste(TestClipboard, Some(e)) == Some([Edit(TestPasteSelection, TestClipboard)])
  {
    TestClipboardLines();
    assert PasteIndentation(e.doc, e.selections[0]) == "";
    assert LeadingWs("print(\"") == 0;
    PasteThreeLines(TestClipboard, e, "print(\"", "    \"hello\"", ")");
  }

  lemma TestExpectedLines()
    ensures TestDoc[..5] + ["print(\"", "    \"hello\"", ")"] + TestDoc[6..] == TestExpected
  {
  }

  lemma TestClipboardSplit(text: string)
    requires text == TestClipboard
    ensures Split(text) == ["print(\"", "    \"hello\"", ")"]
  {
    TestClipboardLines();
    SplitThree("print(\"", "    \"hello\"", ")");
  }

  lemma TestEditIn(doc: seq<string>, text: string)
    requires doc == TestDoc && text == TestClipboard
    ensures ApplyEdit(doc, Edit(TestPasteSelection, text)) == TestExpected
  {
    InsertAtBlankLine(doc, 5, text);
    TestClipboardSplit(text);
    TestExpectedLines();
  }

  /** "Unindent multiline function call": copying from (1,4) to (3,5) of the test document writes
      the three lines unindented by 4, and pasting that at (5,0) yields the expected document. */
  lemma UnindentMultilineFunctionCall(source: Editor, target: Editor)
    requires source == Editor(TestDoc, [TestCopySelection], LF)
    requires target == Editor(TestDoc, [TestPasteSelection], LF)
    requires ValidEditor(source) && ValidEditor(target)
    ensures var copied := Copy(Some(source));
            && copied == Some(TestClipboard)
            && var pasted := Paste(copied.value, Some(target));
               && pasted.Some? && |pasted.value| == 1
               && ApplyEdit(target.doc, pasted.value[0]) == TestExpected
  {
    TestCopyIn(source);
    TestPasteIn(target);
    TestEditIn(target.doc, TestClipboard);
  }
}
