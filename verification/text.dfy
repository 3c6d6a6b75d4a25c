/**
 Strings as the extension sees them: the whitespace class of the regular expression `\s`,
 leading-whitespace length (`/^(\s*)/`), bounded unindenting (`/^\s{0,m}/` replaced by ""),
 joining lines with an end-of-line marker and splitting clipboard text back into lines.
 */
module Text {

  /** A character matched by `\s` and removed by `String.prototype.trim`: ECMAScript's
      WhiteSpace and LineTerminator classes. */
  predicate IsWs(c: char) {
    || c == '\t' || c == '\n' || c == '\U{000B}' || c == '\U{000C}' || c == '\r' || c == ' '
    || c == '\U{00A0}' || c == '\U{1680}' || ('\U{2000}' <= c && c <= '\U{200A}')
    || c == '\U{2028}' || c == '\U{2029}' || c == '\U{202F}' || c == '\U{205F}'
    || c == '\U{3000}' || c == '\U{FEFF}'
  }

  /** `s.trim().length === 0`: the string is whitespace only (the empty string included). */
  predicate AllWs(s: string) {
    forall i :: 0 <= i < |s| ==> IsWs(s[i])
  }

  /** A line as an editor hands it out: no line terminator inside. */
  predicate NoBreaks(s: string) {
    forall i :: 0 <= i < |s| ==> s[i] != '\n' && s[i] != '\r'
  }

  function Min(a: nat, b: nat): nat {
    if a <= b then a else b
  }

  /** `s.match(/^(\s*)/)[0].length`: the length of the longest whitespace prefix. */
  function LeadingWs(s: string): (n: nat)
    ensures n <= |s|
    ensures AllWs(s[..n])
    ensures n < |s| ==> !IsWs(s[n])
  {
    if |s| == 0 || !IsWs(s[0]) then 0
    else
      var n := 1 + LeadingWs(s[1..]);
      assert forall i :: 1 <= i < n ==> s[i] == s[1..][..n - 1][i - 1];
      n
  }

  /** The leading-whitespace length is the one length whose prefix is all whitespace and is
      followed by a non-whitespace character or the end of the string. */
  lemma {:induction false} LeadingWsUnique(s: string, k: nat)
    requires k <= |s| && AllWs(s[..k])
    requires k < |s| ==> !IsWs(s[k])
    ensures LeadingWs(s) == k
  {
    if k > 0 {
      assert s[..k][0] == s[0];
      assert s[1..][..k - 1] == s[..k][1..];
      LeadingWsUnique(s[1..], k - 1);
    }
  }

  lemma AllWsIsLeadingWs(s: string)
    ensures AllWs(s) <==> LeadingWs(s) == |s|
  {
    assert s[..|s|] == s;
    if AllWs(s) {
      LeadingWsUnique(s, |s|);
    }
  }

  /** Whitespace in front of a string adds exactly its own length to the leading whitespace. */
  lemma LeadingWsAfterIndent(w: string, s: string)
    requires AllWs(w)
    ensures LeadingWs(w + s) == |w| + LeadingWs(s)
  {
    var n := LeadingWs(s);
    var t := w + s;
    assert t[..|w| + n] == w + s[..n];
    if |w| + n < |t| {
      assert t[|w| + n] == s[n];
    }
    LeadingWsUnique(t, |w| + n);
  }

  /** `s.match(/^(\s*)/)[0]`: the whitespace prefix itself. */
  function Indentation(s: string): (r: string)
    ensures r <= s && AllWs(r)
    ensures |r| < |s| ==> !IsWs(s[|r|])
    ensures |r| == LeadingWs(s)
  {
    s[..LeadingWs(s)]
  }

  /** `s.replace(new RegExp("^\\s{0," + m + "}"), "")`: the greedy regular expression removes the
      longest whitespace prefix of at most `m` characters. */
  function Strip(s: string, m: nat): (r: string)
    ensures |r| <= |s| && r == s[|s| - |r|..]
    ensures |s| - |r| <= m && AllWs(s[..|s| - |r|])
    ensures |s| - |r| < m ==> |r| == 0 || !IsWs(r[0])
  {
    var k := Min(m, LeadingWs(s));
    assert s[..k] == s[..LeadingWs(s)][..k];
    s[k..]
  }

  /** Exactly `min(m, leading whitespace)` characters go, and the leading whitespace left over
      is what was not removed. */
  lemma StripCount(s: string, m: nat)
    ensures |s| - |Strip(s, m)| == Min(m, LeadingWs(s))
    ensures Strip(s, m) == s[Min(m, LeadingWs(s))..]
    ensures LeadingWs(Strip(s, m)) == LeadingWs(s) - Min(m, LeadingWs(s))
  {
    var n := LeadingWs(s);
    var k := Min(m, n);
    var r := s[k..];
    assert r[..n - k] == s[..n][k..];
    if n - k < |r| {
      assert r[n - k] == s[n];
    }
    LeadingWsUnique(r, n - k);
  }

  /** Unindenting never turns a blank line into a non-blank one or the other way round. */
  lemma StripKeepsBlankness(s: string, m: nat)
    ensures AllWs(Strip(s, m)) <==> AllWs(s)
  {
    var r := Strip(s, m);
    var k := |s| - |r|;
    if AllWs(r) {
      forall i | 0 <= i < |s|
        ensures IsWs(s[i])
      {
        if i < k {
          assert s[..k][i] == s[i];
        } else {
          assert r[i - k] == s[i];
        }
      }
    }
  }

  lemma StripNoBreaks(s: string, m: nat)
    requires NoBreaks(s)
    ensures NoBreaks(Strip(s, m))
  {
    var r := Strip(s, m);
    assert forall j :: 0 <= j < |r| ==> r[j] == s[|s| - |r| + j];
  }

  lemma StripZero(s: string)
    ensures Strip(s, 0) == s
  {
  }

  /** Every line unindented by up to `m` (the `lines.map(...)` of both commands): one line per
      line, each a suffix of its own with at most `m` whitespace characters gone, and blank
      exactly when it was. */
  function StripAll(lines: seq<string>, m: nat): (r: seq<string>)
    ensures |r| == |lines|
    ensures forall i :: 0 <= i < |r| ==> |r[i]| <= |lines[i]| && r[i] == lines[i][|lines[i]| - |r[i]|..]
    ensures forall i :: 0 <= i < |r| ==> |lines[i]| - |r[i]| <= m
    ensures forall i :: 0 <= i < |r| ==> (AllWs(r[i]) <==> AllWs(lines[i]))
  {
    var r := seq(|lines|, i requires 0 <= i < |lines| => Strip(lines[i], m));
    forall i | 0 <= i < |r|
      ensures AllWs(r[i]) <==> AllWs(lines[i])
    {
      StripKeepsBlankness(lines[i], m);
    }
    r
  }

  lemma StripAllZero(lines: seq<string>)
    ensures StripAll(lines, 0) == lines
  {
    var r := StripAll(lines, 0);
    forall i | 0 <= i < |lines|
      ensures r[i] == lines[i]
    {
      StripZero(lines[i]);
    }
  }

  /** `lines.join(sep)`: the empty list joins to "", no separator before the first or after the
      last line. */
  function Join(lines: seq<string>, sep: string): string {
    if |lines| == 0 then ""
    else if |lines| == 1 then lines[0]
    else lines[0] + sep + Join(lines[1..], sep)
  }

  lemma JoinLength(lines: seq<string>, sep: string)
    requires |lines| >= 1
    ensures |Join(lines, sep)| >= |lines[0]|
    ensures |Join(lines, sep)| >= |lines[|lines| - 1]|
  {
    if |lines| > 1 {
      JoinLength(lines[1..], sep);
    }
  }

  /** Dropping the first `a` characters of the first line drops them from the joined text. */
  lemma JoinDropFirst(lines: seq<string>, sep: string, a: nat)
    requires |lines| >= 1 && a <= |lines[0]|
    ensures Join([lines[0][a..]] + lines[1..], sep) == Join(lines, sep)[a..]
  {
    var lines' := [lines[0][a..]] + lines[1..];
    if |lines| > 1 {
      assert lines'[1..] == lines[1..];
    }
  }

  /** Keeping only the first `b` characters of the last line cuts the rest off the joined text. */
  lemma {:induction false} JoinTakeLast(lines: seq<string>, sep: string, b: nat)
    requires |lines| >= 1 && b <= |lines[|lines| - 1]|
    ensures |Join(lines, sep)| >= |lines[|lines| - 1]| - b
    ensures Join(lines[..|lines| - 1] + [lines[|lines| - 1][..b]], sep)
            == Join(lines, sep)[..|Join(lines, sep)| - (|lines[|lines| - 1]| - b)]
  {
    var n := |lines|;
    var lines' := lines[..n - 1] + [lines[n - 1][..b]];
    JoinLength(lines, sep);
    if n > 1 {
      var tail := lines[1..];
      assert tail[|tail| - 1] == lines[n - 1];
      JoinTakeLast(tail, sep, b);
      assert lines'[1..] == tail[..|tail| - 1] + [tail[|tail| - 1][..b]];
      assert lines'[0] == lines[0];
    }
  }

  /** Terminator-free lines joined with "\n" hold no carriage return. */
  lemma {:induction false} JoinLf(lines: seq<string>)
    requires forall i :: 0 <= i < |lines| ==> NoBreaks(lines[i])
    ensures '\r' !in Join(lines, "\n")
  {
    if |lines| > 1 {
      JoinLf(lines[1..]);
      assert NoBreaks(lines[0]);
    } else if |lines| == 1 {
      assert NoBreaks(lines[0]);
    }
  }

  /** Every line feed in `t` comes right after a carriage return. */
  predicate CrlfOnly(t: string) {
    forall i :: 0 <= i < |t| && t[i] == '\n' ==> 0 < i && t[i - 1] == '\r'
  }

  /** Terminator-free lines joined with "\r\n" have "\r\n" as their only line break. */
  lemma {:induction false} JoinCrlf(lines: seq<string>)
    requires forall i :: 0 <= i < |lines| ==> NoBreaks(lines[i])
    ensures CrlfOnly(Join(lines, "\r\n"))
  {
    if |lines| == 1 {
      assert NoBreaks(lines[0]);
    } else if |lines| > 1 {
      var rest := Join(lines[1..], "\r\n");
      JoinCrlf(lines[1..]);
      var h := lines[0];
      var t := h + "\r\n" + rest;
      assert NoBreaks(h);
      forall i | 0 <= i < |t|
        ensures t[i] == '\n' ==> 0 < i && t[i - 1] == '\r'
      {
        if i < |h| {
          assert t[i] == h[i];
        } else if i == |h| {
          assert t[i] == '\r';
        } else if i == |h| + 1 {
          assert t[i - 1] == '\r';
        } else {
          var j := i - |h| - 2;
          assert t[i] == rest[j];
          if j > 0 {
            assert t[i - 1] == rest[j - 1];
          }
        }
      }
    }
  }

  /** Splitting with a partly built current line `cur`; the separators are those of the regular
      expression `/\n|\r\n|\n\r/`: a line feed, or a carriage return directly followed by one.
      Its third alternative never fires, since a line feed already matches the first. */
  function SplitFrom(s: string, cur: string): (r: seq<string>)
    ensures |r| >= 1
    ensures '\n' !in cur ==> forall i :: 0 <= i < |r| ==> '\n' !in r[i]
    decreases |s|
  {
    if |s| == 0 then [cur]
    else if s[0] == '\n' then [cur] + SplitFrom(s[1..], "")
    else if s[0] == '\r' && |s| >= 2 && s[1] == '\n' then [cur] + SplitFrom(s[2..], "")
    else SplitFrom(s[1..], cur + [s[0]])
  }

  /** `text.split(/\n|\r\n|\n\r/)`: always at least one line, none holding a line feed. */
  function Split(s: string): (r: seq<string>)
    ensures |r| >= 1
    ensures forall i :: 0 <= i < |r| ==> '\n' !in r[i]
  {
    SplitFrom(s, "")
  }

  lemma {:induction false} SplitFromPlain(w: string, rest: string, cur: string)
    requires NoBreaks(w)
    ensures SplitFrom(w + rest, cur) == SplitFrom(rest, cur + w)
    decreases |w|
  {
    if |w| == 0 {
      assert w + rest == rest;
      assert cur + w == cur;
    } else {
      var s := w + rest;
      assert s[0] == w[0] && s[0] != '\n' && s[0] != '\r';
      assert s[1..] == w[1..] + rest;
      SplitFromPlain(w[1..], rest, cur + [w[0]]);
      assert cur + [w[0]] + w[1..] == cur + w;
    }
  }

  /** Joining terminator-free lines with "\n" or "\r\n" and splitting the result gives the lines
      back: no line is lost, merged or added. */
  lemma {:induction false} SplitJoin(lines: seq<string>, sep: string)
    requires |lines| >= 1
    requires forall i :: 0 <= i < |lines| ==> NoBreaks(lines[i])
    requires sep == "\n" || sep == "\r\n"
    ensures Split(Join(lines, sep)) == lines
  {
    if |lines| == 1 {
      SplitFromPlain(lines[0], "", "");
      assert lines[0] + "" == lines[0];
      assert "" + lines[0] == lines[0];
    } else {
      var rest := Join(lines[1..], sep);
      SplitFromPlain(lines[0], sep + rest, "");
      assert lines[0] + sep + rest == lines[0] + (sep + rest);
      assert "" + lines[0] == lines[0];
      if sep == "\n" {
        assert (sep + rest)[1..] == rest;
      } else {
        assert (sep + rest)[2..] == rest;
      }
      SplitJoin(lines[1..], sep);
    }
  }

  lemma {:induction false} JoinSplitFrom(s: string, cur: string)
    requires '\r' !in s
    ensures Join(SplitFrom(s, cur), "\n") == cur + s
    decreases |s|
  {
    if |s| == 0 {
      assert cur + s == cur;
    } else if s[0] == '\n' {
      assert '\r' !in s[1..];
      JoinSplitFrom(s[1..], "");
      assert "" + s[1..] == s[1..];
      assert cur + s == cur + "\n" + s[1..];
    } else {
      assert '\r' !in s[1..];
      JoinSplitFrom(s[1..], cur + [s[0]]);
      assert cur + [s[0]] + s[1..] == cur + s;
    }
  }

  /** Text with line feeds only is the "\n"-join of its split: splitting loses nothing. */
  lemma JoinSplit(s: string)
    requires '\r' !in s
    ensures Join(Split(s), "\n") == s
  {
    JoinSplitFrom(s, "");
    assert "" + s == s;
  }
}
