/**
 `selections.sort((a, b) => a.start.line - b.start.line)`: a stable sort by start line
 (`Array.prototype.sort` is stable), modelled as an insertion sort.
 */
module Sorting {
  import opened Documents

  predicate Sorted(s: seq<Selection>) {
    forall i, j :: 0 <= i < j < |s| ==> s[i].startLine <= s[j].startLine
  }

  /** The selections that start on `line`, in their order in `s`. */
  function OnLine(s: seq<Selection>, line: nat): seq<Selection> {
    if |s| == 0 then []
    else (if s[0].startLine == line then [s[0]] else []) + OnLine(s[1..], line)
  }

  lemma OnLineMember(s: seq<Selection>, line: nat, x: Selection)
    requires x in OnLine(s, line)
    ensures x in s && x.startLine == line
  {
    if |s| > 0 && x != s[0] {
      OnLineMember(s[1..], line, x);
    }
  }

  lemma OnLineHead(s: seq<Selection>)
    ensures |s| > 0 ==> |OnLine(s, s[0].startLine)| > 0
  {
  }

  lemma OnLineCons(h: Selection, t: seq<Selection>, line: nat)
    ensures OnLine([h] + t, line) == (if h.startLine == line then [h] else []) + OnLine(t, line)
  {
    assert ([h] + t)[1..] == t;
  }

  lemma SortedTail(s: seq<Selection>)
    requires Sorted(s) && |s| > 0
    ensures Sorted(s[1..])
  {
    forall i, j | 0 <= i < j < |s| - 1
      ensures s[1..][i].startLine <= s[1..][j].startLine
    {
      assert s[1..][i] == s[i + 1] && s[1..][j] == s[j + 1];
    }
  }

  /** Places `x` in front of the first selection that does not start on an earlier line. */
  function Insert(x: Selection, s: seq<Selection>): (r: seq<Selection>)
    requires Sorted(s)
    ensures Sorted(r)
    ensures multiset(r) == multiset(s) + multiset{x}
    ensures forall line :: OnLine(r, line) == (if x.startLine == line then [x] else []) + OnLine(s, line)
  {
    if |s| == 0 then [x]
    else if x.startLine <= s[0].startLine then
      InsertFront(x, s);
      [x] + s
    else
      SortedTail(s);
      var rest := Insert(x, s[1..]);
      InsertBehind(x, s, rest);
      [s[0]] + rest
  }

  lemma InsertFront(x: Selection, s: seq<Selection>)
    requires Sorted(s) && |s| > 0 && x.startLine <= s[0].startLine
    ensures Sorted([x] + s)
    ensures forall line :: OnLine([x] + s, line) == (if x.startLine == line then [x] else []) + OnLine(s, line)
  {
    var r := [x] + s;
    forall i, j | 0 <= i < j < |r|
      ensures r[i].startLine <= r[j].startLine
    {
      assert r[j] == s[j - 1];
      if i > 0 {
        assert r[i] == s[i - 1];
      } else {
        assert s[0].startLine <= s[j - 1].startLine;
      }
    }
    forall line
      ensures OnLine(r, line) == (if x.startLine == line then [x] else []) + OnLine(s, line)
    {
      OnLineCons(x, s, line);
    }
  }

  lemma InsertBehind(x: Selection, s: seq<Selection>, rest: seq<Selection>)
    requires Sorted(s) && |s| > 0 && s[0].startLine < x.startLine
    requires Sorted(rest) && multiset(rest) == multiset(s[1..]) + multiset{x}
    requires forall line :: OnLine(rest, line) == (if x.startLine == line then [x] else []) + OnLine(s[1..], line)
    ensures Sorted([s[0]] + rest)
    ensures multiset([s[0]] + rest) == multiset(s) + multiset{x}
    ensures forall line :: OnLine([s[0]] + rest, line) == (if x.startLine == line then [x] else []) + OnLine(s, line)
  {
    assert s == [s[0]] + s[1..];
    InsertedAfterHead(s[0], rest, x, s[1..]);
    forall line
      ensures OnLine([s[0]] + rest, line) == (if x.startLine == line then [x] else []) + OnLine(s, line)
    {
      OnLineBehind(s[0], x, s[1..], rest, line);
    }
  }

  /** `x` joins the selections of its own line only; a head on an earlier line stays in front. */
  lemma OnLineBehind(h: Selection, x: Selection, tail: seq<Selection>, rest: seq<Selection>, line: nat)
    requires h.startLine < x.startLine
    requires OnLine(rest, line) == (if x.startLine == line then [x] else []) + OnLine(tail, line)
    ensures OnLine([h] + rest, line) == (if x.startLine == line then [x] else []) + OnLine([h] + tail, line)
  {
    var p0: seq<Selection> := if h.startLine == line then [h] else [];
    var px: seq<Selection> := if x.startLine == line then [x] else [];
    var t := OnLine(tail, line);
    OnLineCons(h, rest, line);
    OnLineCons(h, tail, line);
    if line == x.startLine {
      assert p0 == [];
      assert p0 + (px + t) == px + t == px + (p0 + t);
    } else {
      assert px == [];
      assert p0 + (px + t) == p0 + t == px + (p0 + t);
    }
  }

  /** The step that keeps `Insert` sorted: a head no later than `x` and than everything in `tail`
      stays in front of any permutation of `tail` with `x` added. */
  lemma InsertedAfterHead(head: Selection, rest: seq<Selection>, x: Selection, tail: seq<Selection>)
    requires Sorted(rest) && Sorted([head] + tail)
    requires head.startLine <= x.startLine
    requires multiset(rest) == multiset(tail) + multiset{x}
    ensures Sorted([head] + rest)
  {
    forall j | 0 <= j < |rest|
      ensures head.startLine <= rest[j].startLine
    {
      assert rest[j] in multiset(rest);
      if rest[j] != x {
        assert rest[j] in multiset(tail);
        var k :| 0 <= k < |tail| && tail[k] == rest[j];
        var t := [head] + tail;
        assert t[0] == head && t[k + 1] == tail[k];
        assert t[0].startLine <= t[k + 1].startLine;
      }
    }
    var r := [head] + rest;
    forall i, j | 0 <= i < j < |r|
      ensures r[i].startLine <= r[j].startLine
    {
      if i > 0 {
        assert r[i] == rest[i - 1] && r[j] == rest[j - 1];
      } else {
        assert r[j] == rest[j - 1];
      }
    }
  }

  /** The sorted selections: ordered by start line, a permutation of the input, and stable,
      since the selections starting on any one line keep their original relative order. */
  function SortByStartLine(s: seq<Selection>): (r: seq<Selection>)
    ensures Sorted(r)
    ensures multiset(r) == multiset(s)
    ensures forall line :: OnLine(r, line) == OnLine(s, line)
  {
    if |s| == 0 then []
    else
      assert s == [s[0]] + s[1..];
      Insert(s[0], SortByStartLine(s[1..]))
  }

  /** A sorted sequence is determined by what starts on each line: any two stable sorts by start
      line of the same selections agree. */
  lemma {:induction false} SortedStableUnique(a: seq<Selection>, b: seq<Selection>)
    requires Sorted(a) && Sorted(b)
    requires forall line :: OnLine(a, line) == OnLine(b, line)
    ensures a == b
    decreases |a| + |b|
  {
    if |a| == 0 || |b| == 0 {
      OnLineHead(a);
      OnLineHead(b);
    } else {
      var ka, kb := a[0].startLine, b[0].startLine;
      assert OnLine(a, ka)[0] == a[0];
      assert a[0] in OnLine(b, ka);
      OnLineMember(b, ka, a[0]);
      assert kb <= ka;
      assert OnLine(b, kb)[0] == b[0];
      assert b[0] in OnLine(a, kb);
      OnLineMember(a, kb, b[0]);
      assert ka <= kb;
      assert a[0] == OnLine(a, ka)[0] == OnLine(b, ka)[0] == b[0];
      forall line
        ensures OnLine(a[1..], line) == OnLine(b[1..], line)
      {
        var p := if a[0].startLine == line then [a[0]] else [];
        assert OnLine(a, line) == p + OnLine(a[1..], line);
        assert OnLine(b, line) == p + OnLine(b[1..], line);
        assert OnLine(a[1..], line) == OnLine(a, line)[|p|..];
      }
      SortedStableUnique(a[1..], b[1..]);
      assert a == [a[0]] + a[1..];
      assert b == [b[0]] + b[1..];
    }
  }
}
