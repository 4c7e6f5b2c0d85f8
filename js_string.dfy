/**
 * The few JavaScript string operations the pages rely on, stated on
 * `seq<char>`: `\s` (the white space class of regular expressions and of
 * `trim`), `trim`, `replace(/\s+/g, ' ')`, `toUpperCase`/`toLowerCase`
 * restricted to ASCII letters, `includes`/`indexOf`, `replace` with a plain
 * string pattern (first occurrence only) and `join`.
 */
module JsString {
  import opened Wrappers

  /** The characters of `\s`: ASCII white space, the line terminators and the Unicode space separators. */
  predicate IsWhitespace(c: char)
  {
    c == ' ' || c == '\t' || c == '\n' || c == '\r' || c == '\U{000B}' || c == '\U{000C}'
    || c == '\U{00A0}' || c == '\U{1680}' || ('\U{2000}' <= c <= '\U{200A}')
    || c == '\U{2028}' || c == '\U{2029}' || c == '\U{202F}' || c == '\U{205F}'
    || c == '\U{3000}' || c == '\U{FEFF}'
  }

  // ---------------------------------------------------------------------
  // trim
  // ---------------------------------------------------------------------

  /** `s` with its leading white space removed. */
  function TrimStart(s: string): (r: string)
    ensures |r| <= |s| && r == s[|s| - |r|..]
    ensures r == [] || !IsWhitespace(r[0])
    ensures forall i :: 0 <= i < |s| - |r| ==> IsWhitespace(s[i])
  {
    if s != [] && IsWhitespace(s[0]) then TrimStart(s[1..]) else s
  }

  /** `s` with its trailing white space removed. */
  function TrimEnd(s: string): (r: string)
    ensures |r| <= |s| && r == s[..|r|]
    ensures r == [] || !IsWhitespace(r[|r| - 1])
    ensures forall i :: |r| <= i < |s| ==> IsWhitespace(s[i])
  {
    if s != [] && IsWhitespace(s[|s| - 1]) then TrimEnd(s[..|s| - 1]) else s
  }

  /** `s.trim()`: the slice of `s` between its leading and its trailing white space. */
  function Trim(s: string): (r: string)
  {
    TrimEnd(TrimStart(s))
  }

  /**
   * What trim keeps is a slice of the input that neither begins nor ends
   * with white space, and all it drops is white space.
   */
  lemma TrimIsSlice(s: string)
    ensures exists i, j ::
      && 0 <= i <= j <= |s| && Trim(s) == s[i..j]
      && (forall k :: 0 <= k < i ==> IsWhitespace(s[k]))
      && (forall k :: j <= k < |s| ==> IsWhitespace(s[k]))
    ensures Trim(s) == [] || (!IsWhitespace(Trim(s)[0]) && !IsWhitespace(Trim(s)[|Trim(s)| - 1]))
  {
    var t := TrimStart(s);
    var i := |s| - |t|;
    var j := i + |TrimEnd(t)|;
    assert Trim(s) == s[i..j];
    forall k | j <= k < |s| ensures IsWhitespace(s[k]) {
      assert s[k] == t[k - i];
    }
  }

  /** A string that neither begins nor ends with white space is its own trim. */
  lemma TrimOfTrimmed(s: string)
    requires s == [] || (!IsWhitespace(s[0]) && !IsWhitespace(s[|s| - 1]))
    ensures Trim(s) == s
  {
  }

  // ---------------------------------------------------------------------
  // replace(/\s+/g, ' ')
  // ---------------------------------------------------------------------

  /** Every run of white space becomes one space; everything else is kept in order. */
  function CollapseWhitespace(s: string): (r: string)
    ensures |r| <= |s|
    ensures r != [] && s != [] ==> (IsWhitespace(r[0]) <==> IsWhitespace(s[0]))
    decreases |s|
  {
    if s == [] then []
    else if IsWhitespace(s[0]) then [' '] + CollapseWhitespace(TrimStart(s[1..]))
    else [s[0]] + CollapseWhitespace(s[1..])
  }

  /** After the collapse no two white space characters stand side by side, and the only one left is the space. */
  lemma {:induction false} CollapsedHasSingleSpaces(s: string)
    decreases |s|
    ensures forall i :: 0 <= i < |CollapseWhitespace(s)| && IsWhitespace(CollapseWhitespace(s)[i]) ==>
      CollapseWhitespace(s)[i] == ' '
    ensures forall i :: 0 <= i < |CollapseWhitespace(s)| - 1 ==>
      !(IsWhitespace(CollapseWhitespace(s)[i]) && IsWhitespace(CollapseWhitespace(s)[i + 1]))
  {
    if s != [] {
      var r := CollapseWhitespace(s);
      if IsWhitespace(s[0]) {
        var rest := TrimStart(s[1..]);
        CollapsedHasSingleSpaces(rest);
        assert r == [' '] + CollapseWhitespace(rest);
      } else {
        CollapsedHasSingleSpaces(s[1..]);
        assert r == [s[0]] + CollapseWhitespace(s[1..]);
      }
    }
  }

  /** A string whose only white space is single spaces is left as it is. */
  lemma {:induction false} CollapseOfSingleSpaced(s: string)
    requires forall i :: 0 <= i < |s| && IsWhitespace(s[i]) ==> s[i] == ' '
    requires forall i :: 0 <= i < |s| - 1 ==> !(IsWhitespace(s[i]) && IsWhitespace(s[i + 1]))
    decreases |s|
    ensures CollapseWhitespace(s) == s
  {
    if s != [] {
      var t := s[1..];
      assert forall i :: 0 <= i < |t| ==> t[i] == s[i + 1];
      CollapseOfSingleSpaced(t);
      if IsWhitespace(s[0]) {
        assert t == [] || !IsWhitespace(t[0]);
        assert TrimStart(t) == t;
      }
    }
  }

  // ---------------------------------------------------------------------
  // toUpperCase / toLowerCase
  // ---------------------------------------------------------------------

  function UpperChar(c: char): char
  {
    if 'a' <= c <= 'z' then (c as int - 32) as char else c
  }

  function LowerChar(c: char): char
  {
    if 'A' <= c <= 'Z' then (c as int + 32) as char else c
  }

  /** `s.toUpperCase()` on ASCII letters; every other character is kept. */
  function ToUpper(s: string): (r: string)
    ensures |r| == |s| && forall i :: 0 <= i < |s| ==> r[i] == UpperChar(s[i])
  {
    seq(|s|, i requires 0 <= i < |s| => UpperChar(s[i]))
  }

  /** `s.toLowerCase()` on ASCII letters; every other character is kept. */
  function ToLower(s: string): (r: string)
    ensures |r| == |s| && forall i :: 0 <= i < |s| ==> r[i] == LowerChar(s[i])
  {
    seq(|s|, i requires 0 <= i < |s| => LowerChar(s[i]))
  }

  /** Lowering twice is lowering once, and lowering does not care about the case it is given. */
  lemma ToLowerIdempotent(s: string)
    ensures ToLower(ToLower(s)) == ToLower(s)
    ensures ToLower(ToUpper(s)) == ToLower(s)
  {
    assert forall i :: 0 <= i < |s| ==> LowerChar(LowerChar(s[i])) == LowerChar(s[i]);
    assert forall i :: 0 <= i < |s| ==> LowerChar(UpperChar(s[i])) == LowerChar(s[i]);
  }

  /** A string without lower-case ASCII letters is its own upper case. */
  lemma ToUpperOfUpper(s: string)
    requires forall i :: 0 <= i < |s| ==> !('a' <= s[i] <= 'z')
    ensures ToUpper(s) == s
  {
  }

  // ---------------------------------------------------------------------
  // indexOf / includes
  // ---------------------------------------------------------------------

  /** `s` holds `pat` at position `i`. */
  predicate OccursAt(s: string, pat: string, i: int)
  {
    0 <= i && i + |pat| <= |s| && s[i..i + |pat|] == pat
  }

  /** `s.indexOf(pat)`: the first position where `pat` occurs, if any (the empty pattern occurs at 0). */
  function IndexOf(s: string, pat: string): (r: Option<nat>)
    ensures r.Some? ==> OccursAt(s, pat, r.value) && forall j :: 0 <= j < r.value ==> !OccursAt(s, pat, j)
    ensures r.None? ==> forall j :: !OccursAt(s, pat, j)
    decreases |s|
  {
    if |pat| > |s| then None
    else if s[..|pat|] == pat then Some(0)
    else match IndexOf(s[1..], pat)
      case None =>
        assert forall j :: OccursAt(s, pat, j) && j > 0 ==> OccursAt(s[1..], pat, j - 1);
        None
      case Some(i) =>
        assert forall j :: OccursAt(s, pat, j) && j > 0 ==> OccursAt(s[1..], pat, j - 1);
        assert s[1..][i..i + |pat|] == s[i + 1..i + 1 + |pat|];
        Some(i + 1)
  }

  /** `s.includes(pat)`. */
  predicate Includes(s: string, pat: string)
  {
    IndexOf(s, pat).Some?
  }

  /** `includes` holds exactly when the pattern occurs somewhere. */
  lemma IncludesIff(s: string, pat: string)
    ensures Includes(s, pat) <==> exists i :: OccursAt(s, pat, i)
  {
    if Includes(s, pat) {
      assert OccursAt(s, pat, IndexOf(s, pat).value);
    }
  }

  /** Every string includes itself. */
  lemma IncludesItself(s: string)
    ensures Includes(s, s)
  {
    assert OccursAt(s, s, 0) by {
      assert s[0..|s|] == s;
    }
    IncludesIff(s, s);
  }

  // ---------------------------------------------------------------------
  // replace(pattern, replacement) with a string pattern, and join
  // ---------------------------------------------------------------------

  /** `s.replace(pat, rep)`: only the first occurrence of `pat` is replaced. */
  function ReplaceFirst(s: string, pat: string, rep: string): (r: string)
    decreases |s|
  {
    if |pat| > |s| then s
    else if s[..|pat|] == pat then rep + s[|pat|..]
    else [s[0]] + ReplaceFirst(s[1..], pat, rep)
  }

  /** Regrouping a concatenation, stated once so that proofs can name the step. */
  lemma ConcatAssociative<T>(a: seq<T>, b: seq<T>, c: seq<T>)
    ensures a + (b + c) == (a + b) + c
  {
  }

  /**
   * The string is cut at the first occurrence that indexOf reports and the
   * replacement put in its place; without an occurrence nothing changes.
   */
  lemma {:induction false} ReplaceFirstAtIndexOf(s: string, pat: string, rep: string)
    decreases |s|
    ensures IndexOf(s, pat).None? ==> ReplaceFirst(s, pat, rep) == s
    ensures IndexOf(s, pat).Some? ==>
      var i := IndexOf(s, pat).value;
      ReplaceFirst(s, pat, rep) == s[..i] + rep + s[i + |pat|..]
  {
    if |pat| > |s| {
      assert IndexOf(s, pat) == None;
    } else if s[..|pat|] == pat {
      assert IndexOf(s, pat) == Some(0);
      assert s[..0] + rep + s[|pat|..] == rep + s[|pat|..];
    } else {
      ReplaceFirstAtIndexOf(s[1..], pat, rep);
      ReplaceFirstPastHead(s, pat, rep);
    }
  }

  /** Past a first character where the pattern does not start, the cut moves one place on. */
  lemma ReplaceFirstPastHead(s: string, pat: string, rep: string)
    requires |pat| <= |s| && s[..|pat|] != pat
    requires IndexOf(s[1..], pat).None? ==> ReplaceFirst(s[1..], pat, rep) == s[1..]
    requires IndexOf(s[1..], pat).Some? ==>
      var i := IndexOf(s[1..], pat).value;
      ReplaceFirst(s[1..], pat, rep) == s[1..][..i] + rep + s[1..][i + |pat|..]
    ensures IndexOf(s, pat).None? ==> ReplaceFirst(s, pat, rep) == s
    ensures IndexOf(s, pat).Some? ==>
      var i := IndexOf(s, pat).value;
      ReplaceFirst(s, pat, rep) == s[..i] + rep + s[i + |pat|..]
  {
    match IndexOf(s[1..], pat)
    case None =>
      assert IndexOf(s, pat) == None;
      assert s == [s[0]] + s[1..];
    case Some(i) =>
      assert IndexOf(s, pat) == Some(i + 1);
      ReplaceFirstShift(s, pat, rep, i);
  }

  /** An occurrence found after the first character keeps that character in front of the cut. */
  lemma ReplaceFirstShift(s: string, pat: string, rep: string, i: nat)
    requires |pat| <= |s| && s[..|pat|] != pat && i + |pat| < |s|
    requires ReplaceFirst(s[1..], pat, rep) == s[1..][..i] + rep + s[1..][i + |pat|..]
    ensures ReplaceFirst(s, pat, rep) == s[..i + 1] + rep + s[i + 1 + |pat|..]
  {
    var a, b := s[1..i + 1], s[i + 1 + |pat|..];
    assert s[1..][..i] == a && s[1..][i + |pat|..] == b;
    assert ReplaceFirst(s, pat, rep) == [s[0]] + ((a + rep) + b);
    ConcatAssociative([s[0]], a + rep, b);
    ConcatAssociative([s[0]], a, rep);
    assert [s[0]] + a == s[..i + 1];
  }

  /** The same, with the cut position handed out: -1 when nothing was replaced. */
  lemma ReplaceFirstSplit(s: string, pat: string, rep: string) returns (i: int)
    ensures i < 0 ==> ReplaceFirst(s, pat, rep) == s && !Includes(s, pat)
    ensures i >= 0 ==> OccursAt(s, pat, i) && ReplaceFirst(s, pat, rep) == s[..i] + rep + s[i + |pat|..]
  {
    ReplaceFirstAtIndexOf(s, pat, rep);
    i := match IndexOf(s, pat) case None => -1 case Some(k) => k;
  }

  /** A prefix holding no first character of the pattern is passed over unchanged. */
  lemma {:induction false} ReplaceFirstSkips(pre: string, rest: string, pat: string, rep: string)
    requires pat != [] && forall k :: 0 <= k < |pre| ==> pre[k] != pat[0]
    ensures ReplaceFirst(pre + rest, pat, rep) == pre + ReplaceFirst(rest, pat, rep)
    decreases |pre|
  {
    var s := pre + rest;
    if pre == [] {
      assert s == rest;
    } else {
      ReplaceFirstSkips(pre[1..], rest, pat, rep);
      assert s[1..] == pre[1..] + rest;
      if |pat| <= |s| {
        assert s[..|pat|][0] == pre[0];
        assert ReplaceFirst(s, pat, rep) == [pre[0]] + (pre[1..] + ReplaceFirst(rest, pat, rep));
        assert [pre[0]] + pre[1..] == pre;
      } else {
        assert ReplaceFirst(rest, pat, rep) == rest;
      }
    }
  }

  /** A string that starts with the pattern has that occurrence replaced. */
  lemma ReplaceFirstAtStart(pat: string, post: string, rep: string)
    ensures ReplaceFirst(pat + post, pat, rep) == rep + post
  {
    var s := pat + post;
    assert s[..|pat|] == pat && s[|pat|..] == post;
  }

  /** The first occurrence right after a prefix that cannot start one. */
  lemma ReplaceFirstAfterPrefix(pre: string, pat: string, rep: string)
    requires pat != [] && forall k :: 0 <= k < |pre| ==> pre[k] != pat[0]
    ensures ReplaceFirst(pre + pat, pat, rep) == pre + rep
  {
    ReplaceFirstSkips(pre, pat, pat, rep);
    ReplaceFirstAtStart(pat, [], rep);
    assert pat + [] == pat && rep + [] == rep;
  }

  /** The same under trim, when neither the prefix nor the replacement brings white space to an end. */
  lemma TrimReplaceAfterPrefix(pre: string, pat: string, rep: string)
    requires pat != [] && forall k :: 0 <= k < |pre| ==> pre[k] != pat[0]
    requires pre == [] || !IsWhitespace(pre[0])
    requires rep != [] && !IsWhitespace(rep[0]) && !IsWhitespace(rep[|rep| - 1])
    ensures Trim(ReplaceFirst(pre + pat, pat, rep)) == pre + rep
  {
    ReplaceFirstAfterPrefix(pre, pat, rep);
    var t := pre + rep;
    assert t[|t| - 1] == rep[|rep| - 1];
    if pre != [] {
      assert t[0] == pre[0];
    }
    TrimOfTrimmed(t);
  }

  /** `parts.join(sep)`. */
  function Join(parts: seq<string>, sep: string): (r: string)
    ensures parts == [] ==> r == []
    ensures |parts| == 1 ==> r == parts[0]
  {
    if parts == [] then []
    else if |parts| == 1 then parts[0]
    else parts[0] + sep + Join(parts[1..], sep)
  }
}
