/**
 The two minimum-indentation scans. `copy` takes the minimum over the non-blank lines it
 touches; `paste` takes it over every clipboard line, blank ones included. Both keep a running
 minimum that starts undefined and fall back to 0 when it stays undefined.
 */
module Scanner {
  import opened Wrappers
  import opened Text

  /** One step of the running minimum: `if (min === undefined || indentation < min) min = indentation`. */
  function UpdateMin(current: Option<nat>, indentation: nat): (r: Option<nat>)
    ensures r.Some?
    ensures current.None? ==> r.value == indentation
    ensures current.Some? ==> r.value == Min(current.value, indentation)
  {
    if current.None? || indentation < current.value then Some(indentation) else current
  }

  /** The running minimum of `copy` after scanning `lines` in order: blank lines are skipped. */
  function NonBlankMin(lines: seq<string>): (r: Option<nat>)
    ensures r.None? <==> forall i :: 0 <= i < |lines| ==> AllWs(lines[i])
    ensures r.Some? ==> forall i :: 0 <= i < |lines| && !AllWs(lines[i]) ==> r.value <= LeadingWs(lines[i])
    ensures r.Some? ==> exists i :: 0 <= i < |lines| && !AllWs(lines[i]) && r.value == LeadingWs(lines[i])
  {
    if |lines| == 0 then None
    else
      var init := lines[..|lines| - 1];
      var last := lines[|lines| - 1];
      assert forall i :: 0 <= i < |init| ==> init[i] == lines[i];
      if AllWs(last) then NonBlankMin(init) else UpdateMin(NonBlankMin(init), LeadingWs(last))
  }

  /** The minimum indentation of `copy`: at most the leading whitespace of every non-blank line,
      equal to that of one of them, and 0 when there is no non-blank line. */
  function CopyMinimum(lines: seq<string>): (m: nat)
    ensures forall i :: 0 <= i < |lines| && !AllWs(lines[i]) ==> m <= LeadingWs(lines[i])
    ensures (exists i :: 0 <= i < |lines| && !AllWs(lines[i])) ==>
              exists i :: 0 <= i < |lines| && !AllWs(lines[i]) && m == LeadingWs(lines[i])
    ensures (forall i :: 0 <= i < |lines| ==> AllWs(lines[i])) ==> m == 0
  {
    NonBlankMin(lines).GetOr(0)
  }

  /** The copy minimum depends only on which non-blank lines occur: not on their order, their
      repetition, or any blank line among them. */
  lemma CopyMinimumSameNonBlank(a: seq<string>, b: seq<string>)
    requires forall x :: x in a && !AllWs(x) ==> x in b
    requires forall x :: x in b && !AllWs(x) ==> x in a
    ensures CopyMinimum(a) == CopyMinimum(b)
  {
    var ma, mb := CopyMinimum(a), CopyMinimum(b);
    if exists i :: 0 <= i < |a| && !AllWs(a[i]) {
      var i :| 0 <= i < |a| && !AllWs(a[i]) && ma == LeadingWs(a[i]);
      assert a[i] in b;
      var j :| 0 <= j < |b| && b[j] == a[i];
      var j' :| 0 <= j' < |b| && !AllWs(b[j']) && mb == LeadingWs(b[j']);
      assert b[j'] in a;
      var i' :| 0 <= i' < |a| && a[i'] == b[j'];
      assert mb <= ma && ma <= mb;
    } else {
      assert forall j :: 0 <= j < |b| ==> b[j] in b;
    }
  }

  /** A whitespace-only line inside the copied lines never changes the minimum. */
  lemma CopyMinimumIgnoresBlank(before: seq<string>, blank: string, after: seq<string>)
    requires AllWs(blank)
    ensures CopyMinimum(before + [blank] + after) == CopyMinimum(before + after)
  {
    var a, b := before + [blank] + after, before + after;
    forall x | x in a && !AllWs(x)
      ensures x in b
    {
      var i :| 0 <= i < |a| && a[i] == x;
      if i < |before| {
        assert b[i] == x;
      } else {
        assert i > |before|;
        assert b[i - 1] == x;
      }
    }
    forall x | x in b && !AllWs(x)
      ensures x in a
    {
      var i :| 0 <= i < |b| && b[i] == x;
      if i < |before| {
        assert a[i] == x;
      } else {
        assert a[i + 1] == x;
      }
    }
    CopyMinimumSameNonBlank(a, b);
  }

  /** Unindenting lines by their copy minimum leaves a copy minimum of 0: the normalisation is
      complete after one pass. */
  lemma CopyUnindentNormalises(lines: seq<string>)
    ensures CopyMinimum(StripAll(lines, CopyMinimum(lines))) == 0
  {
    var m := CopyMinimum(lines);
    var r := StripAll(lines, m);
    forall i | 0 <= i < |lines|
      ensures AllWs(r[i]) <==> AllWs(lines[i])
    {
      StripKeepsBlankness(lines[i], m);
    }
    if exists i :: 0 <= i < |lines| && !AllWs(lines[i]) {
      var i :| 0 <= i < |lines| && !AllWs(lines[i]) && m == LeadingWs(lines[i]);
      StripCount(lines[i], m);
      assert LeadingWs(r[i]) == 0;
    }
  }

  /** The running minimum of `paste` after scanning `lines` in order: every line counts. */
  function AllLinesMin(lines: seq<string>): (r: Option<nat>)
    ensures r.None? <==> |lines| == 0
    ensures r.Some? ==> forall i :: 0 <= i < |lines| ==> r.value <= LeadingWs(lines[i])
    ensures r.Some? ==> exists i :: 0 <= i < |lines| && r.value == LeadingWs(lines[i])
  {
    if |lines| == 0 then None
    else
      var init := lines[..|lines| - 1];
      assert forall i :: 0 <= i < |init| ==> init[i] == lines[i];
      UpdateMin(AllLinesMin(init), LeadingWs(lines[|lines| - 1]))
  }

  /** The minimum indentation of `paste`: at most the leading whitespace of every line (an empty
      line included), equal to that of one of them, and 0 for no lines. */
  function PasteMinimum(lines: seq<string>): (m: nat)
    ensures forall i :: 0 <= i < |lines| ==> m <= LeadingWs(lines[i])
    ensures |lines| > 0 ==> exists i :: 0 <= i < |lines| && m == LeadingWs(lines[i])
    ensures |lines| == 0 ==> m == 0
  {
    AllLinesMin(lines).GetOr(0)
  }

  /** Under the paste minimum the bounded unindent is exact: every line loses exactly that many
      characters, all of them whitespace. */
  lemma PasteStripExact(lines: seq<string>, i: nat)
    requires i < |lines|
    ensures StripAll(lines, PasteMinimum(lines))[i] == lines[i][PasteMinimum(lines)..]
    ensures AllWs(lines[i][..PasteMinimum(lines)])
    ensures LeadingWs(StripAll(lines, PasteMinimum(lines))[i]) == LeadingWs(lines[i]) - PasteMinimum(lines)
  {
    StripCount(lines[i], PasteMinimum(lines));
  }

  lemma PasteStripAllExact(lines: seq<string>)
    ensures forall i :: 0 <= i < |lines| ==>
              StripAll(lines, PasteMinimum(lines))[i] == lines[i][PasteMinimum(lines)..]
    ensures forall i :: 0 <= i < |lines| ==> AllWs(lines[i][..PasteMinimum(lines)])
  {
    forall i | 0 <= i < |lines|
      ensures StripAll(lines, PasteMinimum(lines))[i] == lines[i][PasteMinimum(lines)..]
      ensures AllWs(lines[i][..PasteMinimum(lines)])
    {
      PasteStripExact(lines, i);
    }
  }

  /** After the paste unindent the minimum is 0, so running the unindent again changes nothing. */
  lemma PasteUnindentIdempotent(lines: seq<string>)
    ensures PasteMinimum(StripAll(lines, PasteMinimum(lines))) == 0
    ensures var r := StripAll(lines, PasteMinimum(lines)); StripAll(r, PasteMinimum(r)) == r
  {
    var m := PasteMinimum(lines);
    var r := StripAll(lines, m);
    if |lines| > 0 {
      var i :| 0 <= i < |lines| && m == LeadingWs(lines[i]);
      PasteStripExact(lines, i);
    }
    assert PasteMinimum(r) == 0;
    StripAllZero(r);
  }

  /** As written, one empty line in the clipboard makes the paste minimum 0, so the indentation of
      all other lines is kept, unlike the copy minimum, which skips blank lines. */
  lemma PasteMinimumCountsBlankLines(before: seq<string>, after: seq<string>)
    ensures PasteMinimum(before + [""] + after) == 0
  {
    var lines := before + [""] + after;
    assert lines[|before|] == "";
  }
}
