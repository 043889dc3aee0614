/**
 * The text normaliser of ignite.py: `cleanup_contents(s)`, which is
 * `textwrap.dedent(s).strip()` (the surrounding `''.join` of a string is the
 * identity). Dedenting follows the regular-expression algorithm of Python's
 * `textwrap` module: a text is split at line feeds, lines holding only spaces
 * and tabs become empty, and the longest run of leading spaces and tabs shared
 * by all other lines is removed from each of them. `strip` then removes
 * leading and trailing characters for which Python's `str.isspace` holds.
 */
module Text {

  import opened Wrappers

  /** Python's `str.isspace`: bidirectional class WS, B or S, or category Zs. */
  predicate IsSpace(c: char) {
    || ('\t' <= c <= '\r')
    || ('\U{1c}' <= c <= '\U{1f}')
    || c == ' '
    || c == '\U{85}'
    || c == '\U{a0}'
    || c == '\U{1680}'
    || ('\U{2000}' <= c <= '\U{200a}')
    || c == '\U{2028}'
    || c == '\U{2029}'
    || c == '\U{202f}'
    || c == '\U{205f}'
    || c == '\U{3000}'
  }

  /** The characters `textwrap` counts as indentation (`[ \t]`). */
  predicate IsIndentChar(c: char) {
    c == ' ' || c == '\t'
  }

  /** A line `textwrap` treats as blank: only spaces and tabs (possibly none). */
  predicate IsBlankLine(line: string) {
    forall k :: 0 <= k < |line| ==> IsIndentChar(line[k])
  }

  predicate IsPrefix(p: string, s: string) {
    |p| <= |s| && s[..|p|] == p
  }

  /** No leading and no trailing whitespace. */
  predicate Trimmed(t: string) {
    t == [] || (!IsSpace(t[0]) && !IsSpace(t[|t| - 1]))
  }

  // ---------------------------------------------------------------------------
  // Lines

  /** `s.split('\n')`: the lines of `s`, always at least one. */
  function Split(s: string): (lines: seq<string>)
    ensures |lines| > 0
    ensures forall i :: 0 <= i < |lines| ==> '\n' !in lines[i]
  {
    if s == [] then [""]
    else
      var rest := Split(s[1..]);
      if s[0] == '\n' then [""] + rest
      else [[s[0]] + rest[0]] + rest[1..]
  }

  /** `'\n'.join(lines)`. */
  function Join(lines: seq<string>): string {
    if |lines| == 0 then ""
    else if |lines| == 1 then lines[0]
    else lines[0] + "\n" + Join(lines[1..])
  }

  lemma {:induction false} JoinSplit(s: string)
    ensures Join(Split(s)) == s
  {
    if s != [] {
      JoinSplit(s[1..]);
      var rest := Split(s[1..]);
      if s[0] == '\n' {
        assert Split(s)[1..] == rest;
      } else if |rest| == 1 {
        assert Split(s) == [[s[0]] + rest[0]];
      } else {
        assert Join(rest) == rest[0] + "\n" + Join(rest[1..]);
        assert Split(s)[1..] == rest[1..];
      }
    }
  }

  lemma {:induction false} SplitLine(a: string)
    requires '\n' !in a
    ensures Split(a) == [a]
  {
    if a != [] {
      assert '\n' !in a[1..] by {
        forall k | 0 <= k < |a[1..]| ensures a[1..][k] != '\n' {
          assert a[1..][k] == a[k + 1];
        }
      }
      SplitLine(a[1..]);
      assert a[0] != '\n';
      assert [a[0]] + a[1..] == a;
    }
  }

  /** Splitting a text that starts with the character `c`. */
  lemma SplitCons(c: char, s: string)
    ensures Split([c] + s) == if c == '\n' then [""] + Split(s)
                              else [[c] + Split(s)[0]] + Split(s)[1..]
  {
    assert ([c] + s)[1..] == s;
  }

  /** How the lines of a concatenation come from the lines of its parts. */
  lemma {:induction false} SplitConcat(a: string, b: string)
    ensures var la, lb := Split(a), Split(b);
            Split(a + b) == la[..|la| - 1] + [la[|la| - 1] + lb[0]] + lb[1..]
  {
    if a == [] {
      var lb := Split(b);
      assert a + b == b;
      assert "" + lb[0] == lb[0];
      assert [lb[0]] + lb[1..] == lb;
    } else {
      var c, a' := a[0], a[1..];
      assert a == [c] + a';
      assert a + b == [c] + (a' + b);
      SplitConcat(a', b);
      SplitCons(c, a');
      SplitCons(c, a' + b);
      ConcatStep(c, Split(a'), Split(b), Split(a' + b));
    }
  }

  /** The sequence algebra behind one step of SplitConcat. */
  lemma ConcatStep(c: char, ra: seq<string>, lb: seq<string>, rab: seq<string>)
    requires |ra| > 0 && |lb| > 0
    requires rab == ra[..|ra| - 1] + [ra[|ra| - 1] + lb[0]] + lb[1..]
    ensures var la := if c == '\n' then [""] + ra else [[c] + ra[0]] + ra[1..];
            var lab := if c == '\n' then [""] + rab else [[c] + rab[0]] + rab[1..];
            lab == la[..|la| - 1] + [la[|la| - 1] + lb[0]] + lb[1..]
  {
    if c != '\n' {
      if |ra| == 1 {
        assert rab == [ra[0] + lb[0]] + lb[1..];
        assert [c] + (ra[0] + lb[0]) == ([c] + ra[0]) + lb[0];
      } else {
        assert rab[0] == ra[0];
        assert rab[1..] == ra[1..|ra| - 1] + [ra[|ra| - 1] + lb[0]] + lb[1..];
      }
    }
  }

  lemma {:induction false} SplitJoin(lines: seq<string>)
    requires |lines| > 0
    requires forall i :: 0 <= i < |lines| ==> '\n' !in lines[i]
    ensures Split(Join(lines)) == lines
  {
    SplitLine(lines[0]);
    if |lines| > 1 {
      var rest := lines[1..];
      SplitJoin(rest);
      var tail := "\n" + Join(rest);
      SplitCons('\n', Join(rest));
      assert Split(tail) == [""] + rest;
      SplitConcat(lines[0], tail);
      assert lines[0] + "\n" + Join(rest) == lines[0] + tail;
      assert Split(lines[0] + tail) == [lines[0] + ""] + rest;
      assert lines[0] + "" == lines[0];
      assert lines == [lines[0]] + rest;
    }
  }

  lemma {:induction false} JoinAppend(a: seq<string>, b: seq<string>)
    requires |a| > 0 && |b| > 0
    ensures Join(a + b) == Join(a) + "\n" + Join(b)
  {
    if |a| == 1 {
      assert (a + b)[1..] == b;
    } else {
      JoinAppend(a[1..], b);
      assert (a + b)[1..] == a[1..] + b;
    }
  }

  /** The first line of a text is where the text starts. */
  lemma {:induction false} JoinStartsWith(lines: seq<string>)
    requires |lines| > 0
    ensures IsPrefix(lines[0], Join(lines))
  {
    if |lines| > 1 {
      assert Join(lines)[..|lines[0]|] == lines[0];
    }
  }

  /** The last line of a text is where the text ends. */
  lemma {:induction false} JoinEndsWith(lines: seq<string>)
    requires |lines| > 0
    ensures var last := lines[|lines| - 1];
            |last| <= |Join(lines)| && Join(lines)[|Join(lines)| - |last|..] == last
  {
    if |lines| > 1 {
      JoinEndsWith(lines[1..]);
      var j := Join(lines[1..]);
      assert Join(lines) == (lines[0] + "\n") + j;
    }
  }

  // ---------------------------------------------------------------------------
  // strip

  /** `s.lstrip()`. */
  function TrimStart(s: string): (r: string)
    ensures |r| <= |s| && r == s[|s| - |r|..]
    ensures forall k :: 0 <= k < |s| - |r| ==> IsSpace(s[k])
    ensures r == [] || !IsSpace(r[0])
  {
    if s != [] && IsSpace(s[0]) then TrimStart(s[1..]) else s
  }

  /** `s.rstrip()`. */
  function TrimEnd(s: string): (r: string)
    ensures |r| <= |s| && r == s[..|r|]
    ensures forall k :: |r| <= k < |s| ==> IsSpace(s[k])
    ensures r == [] || !IsSpace(r[|r| - 1])
  {
    if s != [] && IsSpace(s[|s| - 1]) then TrimEnd(s[..|s| - 1]) else s
  }

  /** `r` is what remains of `s` when the whitespace before position `i`
      and after position `i + |r|` is removed. */
  ghost predicate StrippedAt(s: string, r: string, i: nat) {
    && i + |r| <= |s|
    && r == s[i..i + |r|]
    && (forall k :: 0 <= k < i ==> IsSpace(s[k]))
    && (forall k :: i + |r| <= k < |s| ==> IsSpace(s[k]))
  }

  /** `s.strip()`. */
  function Strip(s: string): (r: string)
    ensures Trimmed(r)
    ensures exists i :: StrippedAt(s, r, i)
  {
    var t := TrimStart(s);
    var r := TrimEnd(t);
    assert StrippedAt(s, r, |s| - |t|);
    r
  }

  lemma StripTrimmed(t: string)
    requires Trimmed(t)
    ensures Strip(t) == t
  {
    assert TrimStart(t) == t;
  }

  // ---------------------------------------------------------------------------
  // dedent

  /** The leading spaces and tabs of a line. */
  function Indent(line: string): (r: string)
    ensures IsPrefix(r, line) && IsBlankLine(r)
    ensures |r| == |line| || !IsIndentChar(line[|r|])
  {
    if line != [] && IsIndentChar(line[0]) then [line[0]] + Indent(line[1..]) else []
  }

  /** The first position where two strings differ, when neither is a prefix of the other. */
  function FirstMismatch(a: string, b: string): (i: nat)
    requires !IsPrefix(a, b) && !IsPrefix(b, a)
    ensures i < |a| && i < |b| && a[i] != b[i] && a[..i] == b[..i]
  {
    if a[0] != b[0] then 0
    else
      assert !IsPrefix(a[1..], b[1..]) && !IsPrefix(b[1..], a[1..]);
      1 + FirstMismatch(a[1..], b[1..])
  }

  /** One step of textwrap's margin loop: the new margin after seeing `indent`.
      It is the longest common prefix of the two. */
  function Narrow(margin: string, indent: string): (r: string)
    ensures IsPrefix(r, margin) && IsPrefix(r, indent)
    ensures forall p :: IsPrefix(p, margin) && IsPrefix(p, indent) ==> IsPrefix(p, r)
  {
    if IsPrefix(margin, indent) then margin
    else if IsPrefix(indent, margin) then indent
    else
      var i := FirstMismatch(margin, indent);
      assert forall p :: IsPrefix(p, margin) && IsPrefix(p, indent) ==> |p| <= i;
      margin[..i]
  }

  /** The margin `p` is a prefix of the indentation of every non-blank line. */
  ghost predicate SharedIndent(p: string, lines: seq<string>) {
    forall i :: 0 <= i < |lines| && !IsBlankLine(lines[i]) ==> IsPrefix(p, Indent(lines[i]))
  }

  lemma PrefixTransitive(a: string, b: string, c: string)
    requires IsPrefix(a, b) && IsPrefix(b, c)
    ensures IsPrefix(a, c)
  {
    assert c[..|a|] == c[..|b|][..|a|];
  }

  /** textwrap's loop over the indentations of the non-blank lines, starting
      from the margin found so far (`None` before the first such line). */
  function FoldMargin(margin: Option<string>, lines: seq<string>): (r: Option<string>)
    ensures r.None? <==> margin.None? && forall i :: 0 <= i < |lines| ==> IsBlankLine(lines[i])
    ensures r.Some? ==> SharedIndent(r.value, lines)
    ensures margin.Some? ==> r.Some? && IsPrefix(r.value, margin.value)
    ensures r.Some? ==> forall p :: (SharedIndent(p, lines) && (margin.Some? ==> IsPrefix(p, margin.value)))
                                    ==> IsPrefix(p, r.value)
    decreases |lines|
  {
    if lines == [] then margin
    else if IsBlankLine(lines[0]) then
      var r := FoldMargin(margin, lines[1..]);
      assert forall p :: SharedIndent(p, lines) ==> SharedIndent(p, lines[1..]) by {
        forall p | SharedIndent(p, lines) ensures SharedIndent(p, lines[1..]) {
          forall i | 0 <= i < |lines[1..]| && !IsBlankLine(lines[1..][i])
            ensures IsPrefix(p, Indent(lines[1..][i]))
          {
            assert lines[1..][i] == lines[i + 1];
          }
        }
      }
      assert r.Some? ==> SharedIndent(r.value, lines) by {
        if r.Some? {
          forall i | 0 <= i < |lines| && !IsBlankLine(lines[i]) ensures IsPrefix(r.value, Indent(lines[i])) {
            assert lines[i] == lines[1..][i - 1];
          }
        }
      }
      r
    else
      var indent := Indent(lines[0]);
      var next := if margin.None? then indent else Narrow(margin.value, indent);
      var r := FoldMargin(Some(next), lines[1..]);
      assert forall p :: SharedIndent(p, lines) ==> SharedIndent(p, lines[1..]) && IsPrefix(p, indent) by {
        forall p | SharedIndent(p, lines) ensures SharedIndent(p, lines[1..]) && IsPrefix(p, indent) {
          forall i | 0 <= i < |lines[1..]| && !IsBlankLine(lines[1..][i])
            ensures IsPrefix(p, Indent(lines[1..][i]))
          {
            assert lines[1..][i] == lines[i + 1];
          }
        }
      }
      assert SharedIndent(r.value, lines) by {
        forall i | 0 <= i < |lines| && !IsBlankLine(lines[i]) ensures IsPrefix(r.value, Indent(lines[i])) {
          if i == 0 {
            PrefixTransitive(r.value, next, indent);
          } else {
            assert lines[i] == lines[1..][i - 1];
          }
        }
      }
      assert margin.Some? ==> IsPrefix(r.value, margin.value) by {
        if margin.Some? {
          PrefixTransitive(r.value, next, margin.value);
        }
      }
      r
  }

  /** The margin textwrap removes: the longest indentation shared by all
      non-blank lines, or nothing when every line is blank. */
  function Margin(lines: seq<string>): (m: string)
    ensures IsBlankLine(m)
    ensures SharedIndent(m, lines)
    ensures forall i :: 0 <= i < |lines| && !IsBlankLine(lines[i]) ==> IsPrefix(m, lines[i])
    ensures forall p :: SharedIndent(p, lines) && (exists i :: 0 <= i < |lines| && !IsBlankLine(lines[i]))
                        ==> IsPrefix(p, m)
  {
    var r := FoldMargin(None, lines);
    var m := r.GetOr("");
    assert forall i :: 0 <= i < |lines| && !IsBlankLine(lines[i]) ==> IsPrefix(m, lines[i]) by {
      forall i | 0 <= i < |lines| && !IsBlankLine(lines[i]) ensures IsPrefix(m, lines[i]) {
        PrefixTransitive(m, Indent(lines[i]), lines[i]);
      }
    }
    assert IsBlankLine(m) by {
      if r.Some? {
        var i :| 0 <= i < |lines| && !IsBlankLine(lines[i]);
        forall k | 0 <= k < |m| ensures IsIndentChar(m[k]) {
          assert m[k] == Indent(lines[i])[k];
        }
      }
    }
    m
  }

  /** One line after dedenting: blank lines become empty, others lose the margin. */
  function DedentLine(line: string, margin: string): string
    requires IsBlankLine(line) || IsPrefix(margin, line)
  {
    if IsBlankLine(line) then "" else line[|margin|..]
  }

  function DedentLines(lines: seq<string>): (r: seq<string>)
    ensures |r| == |lines|
  {
    var m := Margin(lines);
    seq(|lines|, i requires 0 <= i < |lines| => DedentLine(lines[i], m))
  }

  /** Dedenting never brings a line break into a line. */
  lemma DedentLinesHaveNoNewline(lines: seq<string>)
    requires forall i :: 0 <= i < |lines| ==> '\n' !in lines[i]
    ensures forall i :: 0 <= i < |lines| ==> '\n' !in DedentLines(lines)[i]
  {
    var m := Margin(lines);
    forall i | 0 <= i < |lines| ensures '\n' !in DedentLines(lines)[i] {
      if !IsBlankLine(lines[i]) {
        NoNewlineInSuffix(lines[i], |m|);
      }
    }
  }

  /** `textwrap.dedent(s)`: the lines of the result are the lines of `s`,
      each dedented against their common margin. */
  function Dedent(s: string): (r: string)
    ensures Split(r) == DedentLines(Split(s))
  {
    var dl := DedentLines(Split(s));
    DedentLinesHaveNoNewline(Split(s));
    SplitJoin(dl);
    Join(dl)
  }

  /** `cleanup_contents(s)` (ignite.py:10-11). */
  function Cleanup(s: string): (r: string)
    ensures Trimmed(r)
  {
    Strip(Dedent(s))
  }

  // ---------------------------------------------------------------------------
  // What the normaliser guarantees

  /** No line of `t` consists of spaces and tabs alone, unless it is empty. */
  ghost predicate NoIndentOnlyLines(t: string) {
    forall i :: 0 <= i < |Split(t)| ==> Split(t)[i] == "" || !IsBlankLine(Split(t)[i])
  }

  /** Text the normaliser leaves alone. */
  ghost predicate IsClean(t: string) {
    Trimmed(t) && NoIndentOnlyLines(t)
  }

  lemma DedentLineHasText(line: string, margin: string)
    requires !IsBlankLine(line) && IsPrefix(margin, Indent(line))
    ensures !IsBlankLine(line[|margin|..])
  {
    var n := |Indent(line)|;
    assert line[|margin|..][n - |margin|] == line[n];
  }

  lemma NoNewlineInSuffix(line: string, k: nat)
    requires '\n' !in line && k <= |line|
    ensures '\n' !in line[k..]
  {
    forall j | 0 <= j < |line[k..]| ensures line[k..][j] != '\n' {
      assert line[k..][j] == line[k + j];
    }
  }

  lemma DedentHasNoIndentOnlyLines(s: string)
    ensures NoIndentOnlyLines(Dedent(s))
  {
    var lines := Split(s);
    var m := Margin(lines);
    var dl := DedentLines(lines);
    forall i | 0 <= i < |dl| ensures dl[i] == "" || !IsBlankLine(dl[i]) {
      if !IsBlankLine(lines[i]) {
        DedentLineHasText(lines[i], m);
      }
    }
  }

  /** The lines strictly between the first and the last of `t` are lines of `x + t + y`. */
  lemma InnerLines(x: string, t: string, y: string, k: nat)
    requires 0 < k < |Split(t)| - 1
    ensures var j := |Split(x)| - 1 + k; j < |Split(x + t + y)| && Split(t)[k] == Split(x + t + y)[j]
  {
    var lx, lt := Split(x), Split(t);
    SplitConcat(x, t);
    var l := Split(x + t);
    assert l[|lx| - 1 + k] == lt[k];
    SplitConcat(x + t, y);
    assert |l| == |lx| + |lt| - 1;
  }

  lemma FirstLineHasText(t: string)
    requires t != [] && Trimmed(t)
    ensures !IsBlankLine(Split(t)[0]) && Indent(Split(t)[0]) == ""
  {
    assert Split(t)[0][0] == t[0];
  }

  lemma LastLineHasText(t: string)
    requires t != [] && Trimmed(t)
    ensures !IsBlankLine(Split(t)[|Split(t)| - 1])
  {
    var c := t[|t| - 1];
    var a := t[..|t| - 1];
    assert t == a + [c];
    SplitConcat(a, [c]);
    SplitLine([c]);
    var la := Split(a);
    var last := la[|la| - 1] + [c];
    assert Split(t)[|Split(t)| - 1] == last;
    assert last[|last| - 1] == c;
  }

  /** One line of a stripped text. */
  lemma StrippedLine(d: string, t: string, i: nat, k: nat)
    requires NoIndentOnlyLines(d) && StrippedAt(d, t, i) && Trimmed(t)
    requires k < |Split(t)|
    ensures Split(t)[k] == "" || !IsBlankLine(Split(t)[k])
  {
    var lt := Split(t);
    if t == [] {
      assert lt == [""];
    } else if k == 0 {
      FirstLineHasText(t);
    } else if k == |lt| - 1 {
      LastLineHasText(t);
    } else {
      var x, y := d[..i], d[i + |t|..];
      assert d == x + t + y;
      InnerLines(x, t, y, k);
      var j := |Split(x)| - 1 + k;
      assert Split(d)[j] == "" || !IsBlankLine(Split(d)[j]);
    }
  }

  /** Stripping whitespace cannot produce a line of spaces and tabs. */
  lemma StripKeepsNoIndentOnlyLines(d: string)
    requires NoIndentOnlyLines(d)
    ensures NoIndentOnlyLines(Strip(d))
  {
    var t := Strip(d);
    var i: nat :| StrippedAt(d, t, i);
    forall k | 0 <= k < |Split(t)| ensures Split(t)[k] == "" || !IsBlankLine(Split(t)[k]) {
      StrippedLine(d, t, i, k);
    }
  }

  /** Normalised text is clean. */
  lemma CleanupIsClean(s: string)
    ensures IsClean(Cleanup(s))
  {
    DedentHasNoIndentOnlyLines(s);
    StripKeepsNoIndentOnlyLines(Dedent(s));
  }

  /** Clean text is left unchanged by the normaliser. */
  lemma CleanupKeepsClean(t: string)
    requires IsClean(t)
    ensures Cleanup(t) == t
  {
    var lines := Split(t);
    var m := Margin(lines);
    if t == [] {
      assert lines == [""];
    } else {
      FirstLineHasText(t);
      assert IsPrefix(m, Indent(lines[0]));
    }
    assert m == "";
    var dl := DedentLines(lines);
    assert dl == lines by {
      forall i | 0 <= i < |lines| ensures dl[i] == lines[i] {
        assert lines[i][|m|..] == lines[i];
      }
    }
    JoinSplit(t);
    StripTrimmed(t);
  }

  /** `cleanup_contents` is idempotent. */
  lemma CleanupIdempotent(s: string)
    ensures Cleanup(Cleanup(s)) == Cleanup(s)
  {
    CleanupIsClean(s);
    CleanupKeepsClean(Cleanup(s));
  }

  /** Exactly the clean texts are fixed points of the normaliser. */
  lemma CleanupFixedPoints(s: string)
    ensures Cleanup(s) == s <==> IsClean(s)
  {
    CleanupIsClean(s);
    if IsClean(s) {
      CleanupKeepsClean(s);
    }
  }

  /** Only whitespace, possibly nothing. */
  predicate AllSpace(t: string) {
    forall k :: 0 <= k < |t| ==> IsSpace(t[k])
  }

  /** The lines of a whitespace text are whitespace. */
  lemma {:induction false} SplitAllSpace(s: string)
    requires AllSpace(s)
    ensures forall i :: 0 <= i < |Split(s)| ==> AllSpace(Split(s)[i])
  {
    if s != [] {
      SplitAllSpace(s[1..]);
      var rest := Split(s[1..]);
      if s[0] != '\n' {
        var first := [s[0]] + rest[0];
        assert forall k :: 0 < k < |first| ==> first[k] == rest[0][k - 1];
        assert Split(s)[0] == first;
        assert forall i :: 0 < i < |Split(s)| ==> Split(s)[i] == rest[i];
      }
    }
  }

  /** Dedenting whitespace lines leaves whitespace lines. */
  lemma DedentLinesAllSpace(lines: seq<string>)
    requires forall i :: 0 <= i < |lines| ==> AllSpace(lines[i])
    ensures forall i :: 0 <= i < |lines| ==> AllSpace(DedentLines(lines)[i])
  {
    var m := Margin(lines);
    forall i | 0 <= i < |lines| ensures AllSpace(DedentLines(lines)[i]) {
      if !IsBlankLine(lines[i]) {
        var d := lines[i][|m|..];
        assert forall k :: 0 <= k < |d| ==> d[k] == lines[i][|m| + k];
      }
    }
  }

  /** Joining whitespace lines gives whitespace, the line feeds included. */
  lemma {:induction false} JoinAllSpace(lines: seq<string>)
    requires forall i :: 0 <= i < |lines| ==> AllSpace(lines[i])
    ensures AllSpace(Join(lines))
  {
    if |lines| > 1 {
      JoinAllSpace(lines[1..]);
      var head, tail := lines[0] + "\n", Join(lines[1..]);
      assert AllSpace(lines[0]);
      assert forall k :: 0 <= k < |head| ==> IsSpace(head[k]);
      assert Join(lines) == head + tail;
    }
  }

  /** Stripping whitespace leaves nothing. */
  lemma StripAllSpace(t: string)
    requires AllSpace(t)
    ensures Strip(t) == ""
  {
    var r := Strip(t);
    var i: nat :| StrippedAt(t, r, i);
  }

  /** A text of whitespace alone, the empty text included, normalises to the empty text. */
  lemma CleanupAllSpace(s: string)
    requires AllSpace(s)
    ensures Cleanup(s) == ""
  {
    SplitAllSpace(s);
    DedentLinesAllSpace(Split(s));
    JoinAllSpace(DedentLines(Split(s)));
    StripAllSpace(Dedent(s));
  }

  // ---------------------------------------------------------------------------
  // Indented triple-quoted literals

  /** Each non-empty line of `body` indented by `margin`; empty lines stay empty. */
  function IndentLines(margin: string, body: seq<string>): (r: seq<string>)
    ensures |r| == |body|
  {
    seq(|body|, i requires 0 <= i < |body| => if body[i] == "" then "" else margin + body[i])
  }

  /** The lines of a triple-quoted literal that opens with a line break,
      indents its lines by `margin` and closes on a line holding only `margin`. */
  function BlockLines(margin: string, body: seq<string>): seq<string> {
    [""] + IndentLines(margin, body) + [margin]
  }

  function IndentedBlock(margin: string, body: seq<string>): string {
    Join(BlockLines(margin, body))
  }

  /** What an indented literal's body must look like for the normaliser to
      give the body back: a text of whole lines whose non-empty lines start
      with text and whose first and last lines start and end with text. */
  ghost predicate WellFormedBody(margin: string, body: seq<string>) {
    && margin != "" && IsBlankLine(margin)
    && |body| > 0
    && (forall i :: 0 <= i < |body| ==> '\n' !in body[i])
    && (forall i :: 0 <= i < |body| ==> body[i] == "" || !IsIndentChar(body[i][0]))
    && body[0] != "" && !IsSpace(body[0][0])
    && body[|body| - 1] != "" && !IsSpace(body[|body| - 1][|body[|body| - 1]| - 1])
  }

  lemma IndentOfIndented(margin: string, text: string)
    requires IsBlankLine(margin) && text != "" && !IsIndentChar(text[0])
    ensures Indent(margin + text) == margin && !IsBlankLine(margin + text)
  {
    var r := Indent(margin + text);
    var l := margin + text;
    assert l[|margin|] == text[0];
    assert |r| == |margin|;
    assert r == l[..|r|] == margin;
  }

  lemma TrimStartSpace(s: string)
    requires s != [] && IsSpace(s[0])
    ensures TrimStart(s) == TrimStart(s[1..])
  {
  }

  lemma TrimEndSpace(s: string)
    requires s != [] && IsSpace(s[|s| - 1])
    ensures TrimEnd(s) == TrimEnd(s[..|s| - 1])
  {
  }

  lemma StripFramed(j: string)
    requires j != [] && Trimmed(j)
    ensures Strip("\n" + j + "\n") == j
  {
    var e := j + "\n";
    var s := "\n" + e;
    assert s == "\n" + j + "\n";
    assert s[1..] == e;
    TrimStartSpace(s);
    assert e[0] == j[0];
    assert TrimStart(e) == e;
    assert e[..|e| - 1] == j;
    TrimEndSpace(e);
    assert TrimEnd(j) == j;
  }

  lemma BlockSplit(margin: string, body: seq<string>)
    requires WellFormedBody(margin, body)
    ensures Split(IndentedBlock(margin, body)) == BlockLines(margin, body)
  {
    var lines := BlockLines(margin, body);
    assert '\n' !in margin by {
      forall k | 0 <= k < |margin| ensures margin[k] != '\n' {
        assert IsIndentChar(margin[k]);
      }
    }
    forall i | 0 <= i < |lines| ensures '\n' !in lines[i] {
      if 0 < i < |lines| - 1 && body[i - 1] != "" {
        assert lines[i] == margin + body[i - 1];
      }
    }
    SplitJoin(lines);
  }

  /** A middle line of an indented literal is the indented body line. */
  lemma BlockLine(margin: string, body: seq<string>, i: nat)
    requires 0 < i <= |body|
    ensures BlockLines(margin, body)[i] == if body[i - 1] == "" then "" else margin + body[i - 1]
  {
  }

  /** Every line of an indented literal that holds text starts with the margin. */
  lemma BlockSharedIndent(margin: string, body: seq<string>)
    requires WellFormedBody(margin, body)
    ensures SharedIndent(margin, BlockLines(margin, body))
  {
    var lines := BlockLines(margin, body);
    forall i | 0 <= i < |lines| && !IsBlankLine(lines[i]) ensures IsPrefix(margin, Indent(lines[i])) {
      assert 0 < i < |lines| - 1;
      BlockLine(margin, body, i);
      IndentOfIndented(margin, body[i - 1]);
    }
  }

  lemma BlockMargin(margin: string, body: seq<string>)
    requires WellFormedBody(margin, body)
    ensures Margin(BlockLines(margin, body)) == margin
  {
    var lines := BlockLines(margin, body);
    BlockSharedIndent(margin, body);
    BlockLine(margin, body, 1);
    IndentOfIndented(margin, body[0]);
    var m := Margin(lines);
    assert IsPrefix(m, Indent(lines[1]));
    assert IsPrefix(margin, m);
  }

  /** Dedenting a body line of an indented literal gives the body line back. */
  lemma DedentBlockLine(margin: string, text: string)
    requires IsBlankLine(margin) && text != "" && !IsIndentChar(text[0])
    ensures IsPrefix(margin, margin + text) && DedentLine(margin + text, margin) == text
  {
    IndentOfIndented(margin, text);
    assert (margin + text)[|margin|..] == text;
  }

  lemma BlockDedent(margin: string, body: seq<string>)
    requires WellFormedBody(margin, body)
    ensures DedentLines(BlockLines(margin, body)) == [""] + body + [""]
  {
    var lines := BlockLines(margin, body);
    BlockMargin(margin, body);
    var framed := [""] + body + [""];
    forall i | 0 <= i < |lines| ensures DedentLines(lines)[i] == framed[i] {
      assert 0 < i <= |body| ==> body[i - 1] == "" || !IsIndentChar(body[i - 1][0]);
      BlockDedentLine(margin, body, i);
    }
  }

  /** Line `i` of an indented literal, dedented against the literal's indentation. */
  lemma BlockDedentLine(margin: string, body: seq<string>, i: nat)
    requires IsBlankLine(margin) && i < |body| + 2
    requires 0 < i <= |body| ==> body[i - 1] == "" || !IsIndentChar(body[i - 1][0])
    ensures var line := BlockLines(margin, body)[i];
            && (IsBlankLine(line) || IsPrefix(margin, line))
            && DedentLine(line, margin) == ([""] + body + [""])[i]
  {
    var lines := BlockLines(margin, body);
    if 0 < i <= |body| {
      BlockLine(margin, body, i);
      if body[i - 1] != "" {
        DedentBlockLine(margin, body[i - 1]);
      }
    }
  }

  /** Joining framed lines puts a line break before and after the body. */
  lemma JoinFramed(body: seq<string>)
    requires |body| > 0
    ensures Join([""] + body + [""]) == "\n" + Join(body) + "\n"
  {
    var j := Join(body);
    var front := [""] + body;
    JoinAppend([""], body);
    assert Join(front) == "\n" + j;
    JoinAppend(front, [""]);
    assert Join(front + [""]) == "\n" + j + "\n";
  }

  /** Dedenting an indented literal gives its body between two line breaks. */
  lemma DedentIndentedBlock(margin: string, body: seq<string>)
    requires WellFormedBody(margin, body)
    ensures Dedent(IndentedBlock(margin, body)) == "\n" + Join(body) + "\n"
  {
    BlockSplit(margin, body);
    BlockDedent(margin, body);
    JoinFramed(body);
  }

  /** The normaliser turns an indented literal back into its body. */
  lemma CleanupIndentedBlock(margin: string, body: seq<string>)
    requires WellFormedBody(margin, body)
    ensures Cleanup(IndentedBlock(margin, body)) == Join(body)
  {
    DedentIndentedBlock(margin, body);
    JoinStartsWith(body);
    JoinEndsWith(body);
    var j := Join(body);
    assert j[0] == body[0][0];
    var last := body[|body| - 1];
    assert j[|j| - 1] == last[|last| - 1];
    StripFramed(j);
  }
}
