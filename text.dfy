/**
 * The part of Python's string library that the three generators rely on:
 * `pat in s`, `s.find(pat)`, `s.split(sep)`, `sep.join(parts)`,
 * `s.splitlines()` (for text whose only line separator is "\n"), the line
 * terminator that `print` adds, `s.strip()` and `textwrap.indent`.
 */
module Text {

  lemma ConcatAssoc<T>(a: seq<T>, b: seq<T>, c: seq<T>)
    ensures a + (b + c) == a + b + c
  {
  }

  /** `pat` occurs in `s` starting at index `i`. */
  predicate OccursAt(s: string, pat: string, i: int)
  {
    0 <= i && i + |pat| <= |s| && s[i..i + |pat|] == pat
  }

  /** Python's `pat in s`, as a specification. */
  ghost predicate Occurs(s: string, pat: string)
  {
    exists i :: OccursAt(s, pat, i)
  }

  /** Python's `s.startswith(prefix)`. */
  predicate StartsWith(s: string, prefix: string)
  {
    OccursAt(s, prefix, 0)
  }

  /** The first index `>= k` at which `pat` occurs in `s`, or -1. */
  function IndexFrom(s: string, pat: string, k: nat): (r: int)
    decreases |s| - k
    ensures r == -1 || (k <= r && OccursAt(s, pat, r))
    ensures forall j :: k <= j && (r == -1 || j < r) ==> !OccursAt(s, pat, j)
  {
    if k + |pat| > |s| then -1
    else if s[k..k + |pat|] == pat then k
    else IndexFrom(s, pat, k + 1)
  }

  /** Python's `s.find(pat)`: the first index at which `pat` occurs, or -1. */
  function IndexOf(s: string, pat: string): (r: int)
    ensures r == -1 <==> !Occurs(s, pat)
    ensures r != -1 ==> OccursAt(s, pat, r) && forall j :: 0 <= j < r ==> !OccursAt(s, pat, j)
  {
    IndexFrom(s, pat, 0)
  }

  /** Python's `pat in s`. */
  function Contains(s: string, pat: string): (b: bool)
    ensures b <==> Occurs(s, pat)
  {
    IndexOf(s, pat) >= 0
  }

  /** Python's `s.split(sep)` for a non-empty separator. */
  function SplitOn(s: string, sep: string): (r: seq<string>)
    requires sep != []
    decreases |s|
    ensures |r| >= 1
  {
    var i := IndexOf(s, sep);
    if i < 0 then [s] else [s[..i]] + SplitOn(s[i + |sep|..], sep)
  }

  /** `s.split(sep)[0]`: the text before the first separator, or all of it. */
  lemma FirstPiece(s: string, sep: string)
    requires sep != []
    ensures var i := IndexOf(s, sep);
            SplitOn(s, sep)[0] == if i < 0 then s else s[..i]
  {
  }

  /** The first piece of a split ends where the text ends or where the separator first occurs. */
  lemma FirstPieceEnds(s: string, sep: string)
    requires sep != []
    ensures var p := SplitOn(s, sep)[0];
            p <= s && (|p| == |s| || OccursAt(s, sep, |p|))
  {
    FirstPiece(s, sep);
  }

  /** The first piece of a split on one character is a prefix of the text free of that character. */
  lemma FirstPieceFree(s: string, c: char)
    ensures var p := SplitOn(s, [c])[0];
            p <= s && c !in p
  {
    var i := IndexOf(s, [c]);
    FirstPiece(s, [c]);
    var p := if i < 0 then s else s[..i];
    forall k | 0 <= k < |p|
      ensures p[k] != c
    {
      if p[k] == c {
        assert s[k..k + 1] == [c];
        assert OccursAt(s, [c], k);
      }
    }
  }

  /** Python's `sep.join(parts)`. */
  function JoinWith(parts: seq<string>, sep: string): string
  {
    if |parts| == 0 then ""
    else if |parts| == 1 then parts[0]
    else parts[0] + sep + JoinWith(parts[1..], sep)
  }

  lemma OccursInPrefix(s: string, pat: string, n: nat, j: int)
    requires n <= |s| && OccursAt(s[..n], pat, j)
    ensures OccursAt(s, pat, j)
  {
    assert s[..n][j..j + |pat|] == s[j..j + |pat|];
  }

  /** No piece that `split` returns contains the separator. */
  lemma {:induction false} SplitOnPieces(s: string, sep: string)
    requires sep != []
    ensures forall k :: 0 <= k < |SplitOn(s, sep)| ==> !Occurs(SplitOn(s, sep)[k], sep)
    decreases |s|
  {
    var i := IndexOf(s, sep);
    if i >= 0 {
      forall j | OccursAt(s[..i], sep, j)
        ensures false
      {
        OccursInPrefix(s, sep, i, j);
      }
      SplitOnPieces(s[i + |sep|..], sep);
      assert SplitOn(s, sep) == [s[..i]] + SplitOn(s[i + |sep|..], sep);
    }
  }

  /** Joining the pieces of a split with the same separator gives back the text. */
  lemma {:induction false} JoinSplit(s: string, sep: string)
    requires sep != []
    ensures JoinWith(SplitOn(s, sep), sep) == s
    decreases |s|
  {
    var i := IndexOf(s, sep);
    if i >= 0 {
      var rest := s[i + |sep|..];
      var parts := SplitOn(s, sep);
      JoinSplit(rest, sep);
      assert parts == [s[..i]] + SplitOn(rest, sep);
      assert |parts| > 1 && parts[1..] == SplitOn(rest, sep);
      assert JoinWith(parts, sep) == s[..i] + sep + JoinWith(SplitOn(rest, sep), sep);
      assert s == s[..i] + sep + rest;
    }
  }

  /** Every line of `ls` is free of "\n". */
  predicate NoNewlines(ls: seq<string>)
  {
    forall k :: 0 <= k < |ls| ==> '\n' !in ls[k]
  }

  lemma NewlineOccurs(p: string, k: nat)
    requires k < |p| && p[k] == '\n'
    ensures Occurs(p, "\n")
  {
    assert p[k..k + 1] == "\n";
    assert OccursAt(p, "\n", k);
  }

  /** The pieces of a split on "\n" are lines. */
  lemma SplitOnNewlinePieces(s: string)
    ensures NoNewlines(SplitOn(s, "\n"))
  {
    var parts := SplitOn(s, "\n");
    SplitOnPieces(s, "\n");
    forall k | 0 <= k < |parts|
      ensures '\n' !in parts[k]
    {
      if '\n' in parts[k] {
        var m :| 0 <= m < |parts[k]| && parts[k][m] == '\n';
        NewlineOccurs(parts[k], m);
      }
    }
  }

  /** Python's `s.splitlines()` for text whose only line separator is "\n". */
  function Lines(s: string): (r: seq<string>)
    ensures NoNewlines(r)
  {
    var parts := SplitOn(s, "\n");
    SplitOnNewlinePieces(s);
    if parts[|parts| - 1] == "" then parts[..|parts| - 1] else parts
  }

  /** The text that `print(l)` writes for each line `l`, one after the other. */
  function Unlines(ls: seq<string>): string
  {
    if |ls| == 0 then "" else ls[0] + "\n" + Unlines(ls[1..])
  }

  lemma UnlinesCons(x: string, ls: seq<string>)
    ensures Unlines([x] + ls) == x + "\n" + Unlines(ls)
  {
    assert ([x] + ls)[1..] == ls;
  }

  lemma {:induction false} UnlinesAppend(a: seq<string>, b: seq<string>)
    ensures Unlines(a + b) == Unlines(a) + Unlines(b)
    decreases |a|
  {
    if |a| > 0 {
      assert (a + b)[1..] == a[1..] + b;
      UnlinesAppend(a[1..], b);
      calc {
        Unlines(a + b);
        a[0] + "\n" + Unlines(a[1..] + b);
        a[0] + "\n" + (Unlines(a[1..]) + Unlines(b));
        (a[0] + "\n" + Unlines(a[1..])) + Unlines(b);
      }
    } else {
      assert a + b == b;
    }
  }

  lemma {:induction false} UnlinesJoin(ls: seq<string>)
    requires |ls| >= 1
    ensures Unlines(ls) == JoinWith(ls, "\n") + "\n"
    decreases |ls|
  {
    if |ls| == 1 {
      assert Unlines(ls) == ls[0] + "\n" + Unlines([]);
    } else {
      UnlinesJoin(ls[1..]);
      assert Unlines(ls) == ls[0] + "\n" + (JoinWith(ls[1..], "\n") + "\n");
    }
  }

  /** Printing the pieces of `s.split("\n")` one per line writes `s` and a final "\n". */
  lemma UnlinesSplit(s: string)
    ensures Unlines(SplitOn(s, "\n")) == s + "\n"
  {
    UnlinesJoin(SplitOn(s, "\n"));
    JoinSplit(s, "\n");
  }

  lemma FirstNewline(a: string, t: string)
    requires '\n' !in a
    ensures IndexOf(a + "\n" + t, "\n") == |a|
  {
    var u := a + "\n" + t;
    assert u[|a|..|a| + 1] == "\n";
    assert OccursAt(u, "\n", |a|);
    assert Occurs(u, "\n");
    var r := IndexOf(u, "\n");
    forall j | 0 <= j < |a|
      ensures !OccursAt(u, "\n", j)
    {
      assert u[j..j + 1] == [a[j]];
      assert a[j] != '\n';
      assert [a[j]][0] != "\n"[0];
    }
  }

  /** Splitting at a first "\n" that ends `a`. */
  lemma SplitAtNewline(a: string, t: string)
    requires '\n' !in a
    ensures SplitOn(a + "\n" + t, "\n") == [a] + SplitOn(t, "\n")
  {
    var u := a + "\n" + t;
    FirstNewline(a, t);
    assert u[..|a|] == a;
    assert u[|a| + 1..] == t;
  }

  lemma {:induction false} SplitUnlines(ls: seq<string>)
    requires NoNewlines(ls)
    ensures SplitOn(Unlines(ls), "\n") == ls + [""]
    decreases |ls|
  {
    if |ls| > 0 {
      var rest := ls[1..];
      assert SplitOn(Unlines(ls), "\n") == [ls[0]] + SplitOn(Unlines(rest), "\n") by {
        assert '\n' !in ls[0];
        assert Unlines(ls) == ls[0] + "\n" + Unlines(rest);
        SplitAtNewline(ls[0], Unlines(rest));
      }
      SplitUnlines(rest);
      assert ls + [""] == [ls[0]] + (rest + [""]) by {
        assert ls == [ls[0]] + rest;
      }
    } else {
      assert SplitOn("", "\n") == [""];
    }
  }

  /** Reading back what was printed line by line gives the same lines. */
  lemma LinesUnlines(ls: seq<string>)
    requires NoNewlines(ls)
    ensures Lines(Unlines(ls)) == ls
  {
    SplitUnlines(ls);
    assert (ls + [""])[..|ls|] == ls;
  }

  /** The last piece of `s.split("\n")` is empty exactly when `s` is empty or ends with "\n". */
  lemma {:induction false} LastPieceEmpty(s: string)
    ensures var parts := SplitOn(s, "\n");
            parts[|parts| - 1] == "" <==> (s == "" || s[|s| - 1] == '\n')
    decreases |s|
  {
    var i := IndexOf(s, "\n");
    if i < 0 {
      if s != "" && s[|s| - 1] == '\n' {
        NewlineOccurs(s, |s| - 1);
      }
    } else {
      var rest := s[i + 1..];
      var tail := SplitOn(rest, "\n");
      LastPieceEmpty(rest);
      assert SplitOn(s, "\n") == [s[..i]] + tail;
      assert SplitOn(s, "\n")[|tail|] == tail[|tail| - 1];
      if rest == "" {
        assert s[i..i + 1] == "\n";
        assert s[|s| - 1] == '\n';
      } else {
        assert s[|s| - 1] == rest[|rest| - 1];
      }
    }
  }

  /**
   * Printing the lines of `s` reproduces `s`, except that a missing final
   * "\n" is added.
   */
  lemma UnlinesLines(s: string)
    ensures Unlines(Lines(s)) == if s == "" || s[|s| - 1] == '\n' then s else s + "\n"
  {
    LastPieceEmpty(s);
    if s == "" || s[|s| - 1] == '\n' {
      UnlinesClosedLines(s);
    } else {
      assert Lines(s) == SplitOn(s, "\n");
      UnlinesSplit(s);
    }
  }

  /** Text that ends with its line terminator is reproduced exactly. */
  lemma UnlinesClosedLines(s: string)
    requires var parts := SplitOn(s, "\n"); parts[|parts| - 1] == ""
    ensures Unlines(Lines(s)) == s
  {
    var parts := SplitOn(s, "\n");
    var init := parts[..|parts| - 1];
    assert parts == init + [""];
    UnlinesSplit(s);
    DropEmptyLine(init, s);
  }

  lemma DropEmptyLine(init: seq<string>, s: string)
    requires Unlines(init + [""]) == s + "\n"
    ensures Unlines(init) == s
  {
    UnlinesAppend(init, [""]);
    UnlinesCons("", []);
    CancelNewline(Unlines(init), s);
  }

  lemma CancelNewline(a: string, b: string)
    requires a + "\n" == b + "\n"
    ensures a == b
  {
    assert |a| == |b|;
    assert a == (a + "\n")[..|a|];
    assert b == (b + "\n")[..|b|];
  }

  /** Python's `str.isspace()` for a single character. */
  predicate IsSpace(c: char)
  {
    || c == ' '
    || ('\t' <= c <= '\r')
    || ('\U{1C}' <= c <= '\U{1F}')
    || c == '\U{85}' || c == '\U{A0}' || c == '\U{1680}'
    || ('\U{2000}' <= c <= '\U{200A}')
    || c == '\U{2028}' || c == '\U{2029}' || c == '\U{202F}' || c == '\U{205F}' || c == '\U{3000}'
  }

  /** `s` has no non-whitespace character. */
  predicate IsBlank(s: string)
  {
    forall k :: 0 <= k < |s| ==> IsSpace(s[k])
  }

  /** The end of the run of whitespace that starts at `i`. */
  function SpaceRunEnd(s: string, i: nat): (j: nat)
    requires i <= |s|
    ensures i <= j <= |s|
    ensures forall k :: i <= k < j ==> IsSpace(s[k])
    ensures j < |s| ==> !IsSpace(s[j])
    decreases |s| - i
  {
    if i < |s| && IsSpace(s[i]) then SpaceRunEnd(s, i + 1) else i
  }

  /** The start of the run of whitespace that ends at `j`, going no further left than `lo`. */
  function SpaceRunStart(s: string, lo: nat, j: nat): (i: nat)
    requires lo <= j <= |s|
    ensures lo <= i <= j
    ensures forall k :: i <= k < j ==> IsSpace(s[k])
    ensures lo < i ==> !IsSpace(s[i - 1])
    decreases j
  {
    if lo < j && IsSpace(s[j - 1]) then SpaceRunStart(s, lo, j - 1) else j
  }

  /**
   * Python's `s.strip()`: the slice of `s` from its first to its last
   * non-whitespace character; what is cut on either side is blank.
   */
  function Strip(s: string): (r: string)
    ensures r == [] || (!IsSpace(r[0]) && !IsSpace(r[|r| - 1]))
    ensures exists i :: 0 <= i <= |s| - |r| && r == s[i..i + |r|] && IsBlank(s[..i]) && IsBlank(s[i + |r|..])
  {
    var i := SpaceRunEnd(s, 0);
    var j := SpaceRunStart(s, i, |s|);
    assert IsBlank(s[..i]);
    assert IsBlank(s[j..]);
    s[i..j]
  }

  /** Text that neither starts nor ends with whitespace is its own strip. */
  lemma StripTrimmed(s: string)
    requires s == [] || (!IsSpace(s[0]) && !IsSpace(s[|s| - 1]))
    ensures Strip(s) == s
  {
    var i := SpaceRunEnd(s, 0);
    assert i == 0;
    var j := SpaceRunStart(s, i, |s|);
    assert j == |s|;
    assert s[0..|s|] == s;
  }

  /** `textwrap.indent(text, prefix)`: every line that is not blank gets `prefix` in front. */
  function Indent(text: string, prefix: string): string
  {
    var ls := SplitOn(text, "\n");
    JoinWith(seq(|ls|, k requires 0 <= k < |ls| => if IsBlank(ls[k]) then ls[k] else prefix + ls[k]), "\n")
  }

  /** A text without "\n" is a single line. */
  lemma SplitSingleLine(p: string)
    requires '\n' !in p
    ensures SplitOn(p, "\n") == [p]
  {
    forall j
      ensures !OccursAt(p, "\n", j)
    {
      if 0 <= j && j + 1 <= |p| {
        assert p[j..j + 1] == [p[j]];
      }
    }
  }

  /** Splitting lines joined with "\n" gives the lines back. */
  lemma {:induction false} SplitJoinLines(ps: seq<string>)
    requires |ps| >= 1 && NoNewlines(ps)
    ensures SplitOn(JoinWith(ps, "\n"), "\n") == ps
    decreases |ps|
  {
    if |ps| == 1 {
      SplitSingleLine(ps[0]);
    } else {
      var rest := ps[1..];
      assert NoNewlines(rest) by {
        forall k | 0 <= k < |rest|
          ensures '\n' !in rest[k]
        {
          assert rest[k] == ps[k + 1];
        }
      }
      SplitAtNewline(ps[0], JoinWith(rest, "\n"));
      SplitJoinLines(rest);
      assert ps == [ps[0]] + rest;
    }
  }

  /**
   * `textwrap.indent` keeps the lines of the text: the result has as many
   * lines, and each line that is not blank gains the prefix while a blank
   * one is kept as it is.
   */
  lemma IndentLines(text: string, prefix: string)
    requires '\n' !in prefix
    ensures var ls := SplitOn(text, "\n");
            var out := SplitOn(Indent(text, prefix), "\n");
            && |out| == |ls|
            && forall k :: 0 <= k < |ls| ==> out[k] == if IsBlank(ls[k]) then ls[k] else prefix + ls[k]
  {
    var ls := SplitOn(text, "\n");
    var ps := seq(|ls|, k requires 0 <= k < |ls| => if IsBlank(ls[k]) then ls[k] else prefix + ls[k]);
    SplitOnNewlinePieces(text);
    assert NoNewlines(ps) by {
      forall k | 0 <= k < |ps|
        ensures '\n' !in ps[k]
      {
        assert '\n' !in ls[k];
        if !IsBlank(ls[k]) {
          assert forall c :: c in prefix + ls[k] ==> c in prefix || c in ls[k];
        }
      }
    }
    SplitJoinLines(ps);
  }
}
