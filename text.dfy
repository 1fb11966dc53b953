/**
 * The JavaScript string primitives the retrieval core relies on: the `\s`
 * character class (which is also the set `String.prototype.trim` strips),
 * `toLowerCase`, `includes`, `trim` and `split(/\s+/)`.
 */
module Text {

  /** JavaScript's `\s`: WhiteSpace and LineTerminator code points. */
  predicate IsSpace(c: char) {
    || c == '\t' || c == '\n' || c == '\U{000B}' || c == '\U{000C}' || c == '\r' || c == ' '
    || c == '\U{00A0}' || c == '\U{1680}' || ('\U{2000}' <= c <= '\U{200A}')
    || c == '\U{2028}' || c == '\U{2029}' || c == '\U{202F}' || c == '\U{205F}'
    || c == '\U{3000}' || c == '\U{FEFF}'
  }

  predicate IsWordChar(c: char) {
    !IsSpace(c)
  }

  /** Case folding of one character; only the ASCII letters are folded. */
  function LowerChar(c: char): char {
    if 'A' <= c <= 'Z' then (c as int + 32) as char else c
  }

  /** `s.toLowerCase()`, character by character. */
  function Lower(s: string): (r: string)
    ensures |r| == |s|
    ensures forall i :: 0 <= i < |s| ==> r[i] == LowerChar(s[i])
  {
    if s == [] then [] else [LowerChar(s[0])] + Lower(s[1..])
  }

  // ---------------------------------------------------------------- includes

  predicate OccursAt(hay: string, needle: string, i: int) {
    0 <= i && i + |needle| <= |hay| && hay[i..i + |needle|] == needle
  }

  /** `hay.includes(needle)`: the needle is a prefix of some suffix of the hay. */
  predicate Contains(hay: string, needle: string)
    decreases |hay|
  {
    needle <= hay || (hay != [] && Contains(hay[1..], needle))
  }

  lemma {:induction false} ContainsIff(hay: string, needle: string)
    ensures Contains(hay, needle) <==> exists i :: OccursAt(hay, needle, i)
    decreases |hay|
  {
    if needle <= hay {
      assert OccursAt(hay, needle, 0);
    } else {
      assert !OccursAt(hay, needle, 0);
      if hay != [] {
        ContainsIff(hay[1..], needle);
        forall i | OccursAt(hay[1..], needle, i)
          ensures OccursAt(hay, needle, i + 1)
        {
          assert hay[1..][i..i + |needle|] == hay[i + 1..i + 1 + |needle|];
        }
        forall i | OccursAt(hay, needle, i)
          ensures OccursAt(hay[1..], needle, i - 1)
        {
          assert hay[1..][i - 1..i - 1 + |needle|] == hay[i..i + |needle|];
        }
      } else {
        assert forall i :: OccursAt(hay, needle, i) ==> i == 0;
      }
    }
  }

  lemma ContainsAt(hay: string, needle: string, i: int)
    requires OccursAt(hay, needle, i)
    ensures Contains(hay, needle)
  {
    ContainsIff(hay, needle);
  }

  lemma ContainsEmpty(hay: string)
    ensures Contains(hay, [])
  {
    assert OccursAt(hay, [], 0);
    ContainsIff(hay, []);
  }

  /** A needle longer than the hay is never contained in it. */
  lemma NotContainsLonger(hay: string, needle: string)
    requires |hay| < |needle|
    ensures !Contains(hay, needle)
  {
    ContainsIff(hay, needle);
  }

  // -------------------------------------------------------------- char runs

  /** Length of the longest prefix of `s` whose characters all satisfy `p`. */
  function SpanLength(s: string, p: char -> bool): (n: nat)
    ensures n <= |s|
    ensures forall k :: 0 <= k < n ==> p(s[k])
    ensures n == |s| || !p(s[n])
    decreases |s|
  {
    if s == [] || !p(s[0]) then 0 else 1 + SpanLength(s[1..], p)
  }

  // -------------------------------------------------------------------- trim

  function TrimStart(s: string): (r: string)
    ensures |r| <= |s| && r == s[|s| - |r|..]
    ensures forall k :: 0 <= k < |s| - |r| ==> IsSpace(s[k])
    ensures r == [] || !IsSpace(r[0])
    decreases |s|
  {
    if s != [] && IsSpace(s[0]) then TrimStart(s[1..]) else s
  }

  function TrimEnd(s: string): (r: string)
    ensures |r| <= |s| && r == s[..|r|]
    ensures forall k :: |r| <= k < |s| ==> IsSpace(s[k])
    ensures r == [] || !IsSpace(r[|r| - 1])
    decreases |s|
  {
    if s != [] && IsSpace(s[|s| - 1]) then TrimEnd(s[..|s| - 1]) else s
  }

  /** `s.trim()`: whitespace is removed from both ends and nowhere else. */
  function Trim(s: string): (r: string)
  {
    TrimEnd(TrimStart(s))
  }

  /**
   * `Trim(s)` is the slice of `s` between its first and its last non-space
   * character; everything cut off is whitespace.
   */
  lemma TrimSlice(s: string) returns (a: nat, b: nat)
    ensures a <= b <= |s| && Trim(s) == s[a..b]
    ensures forall k :: 0 <= k < a ==> IsSpace(s[k])
    ensures forall k :: b <= k < |s| ==> IsSpace(s[k])
    ensures Trim(s) == [] || (!IsSpace(Trim(s)[0]) && !IsSpace(Trim(s)[|Trim(s)| - 1]))
  {
    var t := TrimStart(s);
    var r := TrimEnd(t);
    a := |s| - |t|;
    b := a + |r|;
    SuffixPrefix(s, a, |r|);
    TrailingSpace(s, a, |r|);
    if r != [] {
      assert r[0] == t[0];
    }
  }

  lemma SuffixPrefix(s: string, a: nat, n: nat)
    requires a + n <= |s|
    ensures s[a..][..n] == s[a..a + n]
  {
  }

  lemma TrailingSpace(s: string, a: nat, n: nat)
    requires a + n <= |s| && forall k :: n <= k < |s[a..]| ==> IsSpace(s[a..][k])
    ensures forall k :: a + n <= k < |s| ==> IsSpace(s[k])
  {
    forall k | a + n <= k < |s|
      ensures IsSpace(s[k])
    {
      assert s[k] == s[a..][k - a];
    }
  }

  lemma TrimIdempotent(s: string)
    ensures Trim(Trim(s)) == Trim(s)
  {
    var a, b := TrimSlice(s);
    var t := Trim(s);
    assert TrimStart(t) == t;
    assert TrimEnd(t) == t;
  }

  /** A string with no whitespace at either end is its own trim. */
  lemma TrimNoop(s: string)
    requires s == [] || (!IsSpace(s[0]) && !IsSpace(s[|s| - 1]))
    ensures Trim(s) == s
  {
    assert TrimStart(s) == s;
  }

  // -------------------------------------------------------------- split(\s+)

  /**
   * The non-empty pieces of `s.split(/\s+/)`: the maximal runs of
   * non-whitespace characters, in order.  (The empty strings that `split`
   * yields at the two ends are dropped by every caller in this core.)
   */
  function Words(s: string): seq<string>
    decreases |s|
  {
    if s == [] then []
    else if IsSpace(s[0]) then Words(s[1..])
    else
      var n := SpanLength(s, IsWordChar);
      assert n > 0 by { assert IsWordChar(s[0]); }
      [s[..n]] + Words(s[n..])
  }

  function Concat(ws: seq<string>): string {
    if ws == [] then [] else ws[0] + Concat(ws[1..])
  }

  function NonSpace(s: string): (r: string)
    ensures forall k :: 0 <= k < |r| ==> !IsSpace(r[k])
  {
    if s == [] then [] else (if IsSpace(s[0]) then [] else [s[0]]) + NonSpace(s[1..])
  }

  /**
   * Every word is non-empty and free of whitespace, and the words put back
   * together give the input with its whitespace deleted.  The pieces are
   * maximal: a whitespace character splits the input in two, and a
   * non-empty run without whitespace is a single word.
   */
  lemma WordsPartition(s: string)
    ensures forall w :: w in Words(s) ==> w != [] && forall k :: 0 <= k < |w| ==> !IsSpace(w[k])
    ensures Concat(Words(s)) == NonSpace(s)
    ensures forall i :: 0 <= i < |s| && IsSpace(s[i]) ==> Words(s) == Words(s[..i]) + Words(s[i + 1..])
    ensures s != [] && (forall k :: 0 <= k < |s| ==> !IsSpace(s[k])) ==> Words(s) == [s]
  {
    WordsPieces(s);
    forall i | 0 <= i < |s| && IsSpace(s[i])
      ensures Words(s) == Words(s[..i]) + Words(s[i + 1..])
    {
      WordsSplitIndex(s, i);
    }
    if s != [] && forall k :: 0 <= k < |s| ==> !IsSpace(s[k]) {
      WordsSingle(s);
    }
  }

  lemma WordsSplitIndex(s: string, i: nat)
    requires i < |s| && IsSpace(s[i])
    ensures Words(s) == Words(s[..i]) + Words(s[i + 1..])
  {
    assert s == s[..i] + [s[i]] + s[i + 1..];
    WordsSplitAt(s[..i], s[i], s[i + 1..]);
  }

  lemma {:induction false} WordsPieces(s: string)
    ensures forall w :: w in Words(s) ==> w != [] && forall k :: 0 <= k < |w| ==> !IsSpace(w[k])
    ensures Concat(Words(s)) == NonSpace(s)
    decreases |s|
  {
    if s == [] {
    } else if IsSpace(s[0]) {
      WordsPieces(s[1..]);
    } else {
      var n := SpanLength(s, IsWordChar);
      assert IsWordChar(s[0]);
      WordsPieces(s[n..]);
      NonSpaceRun(s, n);
      assert Words(s) == [s[..n]] + Words(s[n..]);
      assert Concat(Words(s)) == s[..n] + Concat(Words(s[n..]));
    }
  }

  /** A whitespace character separates the words before it from those after it. */
  lemma {:induction false} WordsSplitAt(a: string, c: char, b: string)
    requires IsSpace(c)
    ensures Words(a + [c] + b) == Words(a) + Words(b)
    decreases |a|
  {
    var s := a + [c] + b;
    if a == [] {
      assert s == [c] + b;
      assert s[1..] == b;
    } else if IsSpace(a[0]) {
      assert s[0] == a[0] && s[1..] == a[1..] + [c] + b;
      WordsSplitAt(a[1..], c, b);
    } else {
      var m := SpanLength(a, IsWordChar);
      assert IsWordChar(a[0]) && s[0] == a[0];
      SpanBeforeSpace(a, c, b);
      assert s[..m] == a[..m];
      assert s[m..] == a[m..] + [c] + b;
      assert Words(s) == [a[..m]] + Words(a[m..] + [c] + b);
      WordsSplitAt(a[m..], c, b);
      assert Words(a) == [a[..m]] + Words(a[m..]);
    }
  }

  /** The run of word characters at the start of `a` stops at the latest at the space after `a`. */
  lemma SpanBeforeSpace(a: string, c: char, b: string)
    requires IsSpace(c)
    ensures SpanLength(a + [c] + b, IsWordChar) == SpanLength(a, IsWordChar)
  {
    var s := a + [c] + b;
    var m := SpanLength(a, IsWordChar);
    forall k | 0 <= k < m
      ensures IsWordChar(s[k])
    {
      assert s[k] == a[k];
    }
    if m < |a| {
      assert s[m] == a[m];
    } else {
      assert s[m] == c;
    }
    SpanUnique(s, IsWordChar, m);
  }

  /** A non-empty string without whitespace is one word. */
  lemma WordsSingle(w: string)
    requires w != [] && forall k :: 0 <= k < |w| ==> !IsSpace(w[k])
    ensures Words(w) == [w]
  {
    assert IsWordChar(w[0]);
    SpanUnique(w, IsWordChar, |w|);
    assert w[..|w|] == w && w[|w|..] == [];
  }

  /** `SpanLength` is the only position that bounds a run of `p` and is followed by a non-`p` or the end. */
  lemma SpanUnique(s: string, p: char -> bool, m: nat)
    requires m <= |s| && forall k :: 0 <= k < m ==> p(s[k])
    requires m == |s| || !p(s[m])
    ensures SpanLength(s, p) == m
  {
  }

  lemma {:induction false} NonSpaceRun(s: string, n: nat)
    requires n <= |s|
    requires forall k :: 0 <= k < n ==> !IsSpace(s[k])
    ensures NonSpace(s) == s[..n] + NonSpace(s[n..])
    decreases n
  {
    if n > 0 {
      NonSpaceRun(s[1..], n - 1);
      assert s[1..][n - 1..] == s[n..];
      assert s[..n] == [s[0]] + s[1..][..n - 1];
    }
  }
}
