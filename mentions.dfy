/**
 * `parseFileMentions`: the `@name` tokens of a chat query (the regular
 * expression `/@([^\s@]+)/g`) and the query with those tokens deleted.
 */
module Mentions {
  import opened Text

  /** A character of `[^\s@]`. */
  predicate IsNameChar(c: char) {
    !IsSpace(c) && c != '@'
  }

  /** Position `i` starts a match: an `@` directly followed by a name character. */
  predicate MentionAt(s: string, i: int) {
    0 <= i && i + 1 < |s| && s[i] == '@' && IsNameChar(s[i + 1])
  }

  /** Where the maximal run of name characters starting at `i` ends. */
  function NameEnd(s: string, i: nat): (e: nat)
    requires i <= |s|
    ensures i <= e <= |s|
    ensures forall k :: i <= k < e ==> IsNameChar(s[k])
    ensures e == |s| || !IsNameChar(s[e])
  {
    var n := SpanLength(s[i..], IsNameChar);
    assert forall k :: i <= k < i + n ==> s[k] == s[i..][k - i];
    i + n
  }

  /** The captured group of the match at `i`, lower-cased. */
  function Mention(s: string, i: int): string
    requires MentionAt(s, i)
  {
    Lower(s[i + 1..NameEnd(s, i + 1)])
  }

  /**
   * The global `exec` loop from position `i`: a match consumes its `@` and
   * its whole run; where there is no match the search moves on by one.
   */
  function MatchesFrom(s: string, i: nat): seq<string>
    requires i <= |s|
    decreases |s| - i
  {
    if i == |s| then []
    else if MentionAt(s, i) then [Mention(s, i)] + MatchesFrom(s, NameEnd(s, i + 1))
    else MatchesFrom(s, i + 1)
  }

  /**
   * Reference reading: one token for every position that holds an `@`
   * directly followed by a name character, in order of position.
   */
  function MentionsFrom(s: string, i: nat): seq<string>
    requires i <= |s|
    decreases |s| - i
  {
    if i == |s| then []
    else (if MentionAt(s, i) then [Mention(s, i)] else []) + MentionsFrom(s, i + 1)
  }

  /** `s.replace(/@[^\s@]+/g, '')` from position `i`. */
  function RemoveFrom(s: string, i: nat): string
    requires i <= |s|
    decreases |s| - i
  {
    if i == |s| then []
    else if MentionAt(s, i) then RemoveFrom(s, NameEnd(s, i + 1))
    else [s[i]] + RemoveFrom(s, i + 1)
  }

  function CleanQuery(query: string): string {
    Trim(RemoveFrom(query, 0))
  }

  /** The two results of `parseFileMentions`. */
  method ParseFileMentions(query: string) returns (mentions: seq<string>, cleanQuery: string)
    ensures mentions == MentionsFrom(query, 0)
    ensures cleanQuery == CleanQuery(query)
  {
    mentions := [];
    var i := 0;
    while i < |query|
      invariant 0 <= i <= |query|
      invariant mentions + MatchesFrom(query, i) == MatchesFrom(query, 0)
    {
      if i + 1 < |query| && query[i] == '@' && IsNameChar(query[i + 1]) {
        var end := NameEnd(query, i + 1);
        mentions := mentions + [Lower(query[i + 1..end])];
        i := end;
      } else {
        i := i + 1;
      }
    }
    MatchesAreMentions(query, 0);
    cleanQuery := Trim(RemoveFrom(query, 0));
  }

  // ------------------------------------------------------------ properties

  /** Inside a run of name characters no match can start. */
  lemma {:induction false} SkipRun(s: string, j: nat, e: nat)
    requires j <= e <= |s|
    requires forall k :: j <= k < e ==> IsNameChar(s[k])
    ensures MentionsFrom(s, j) == MentionsFrom(s, e)
    decreases e - j
  {
    if j < e {
      assert !MentionAt(s, j);
      SkipRun(s, j + 1, e);
    }
  }

  /**
   * The `exec` loop finds exactly the reference tokens: a match never hides
   * another, because a run cannot contain an `@`.
   */
  lemma {:induction false} MatchesAreMentions(s: string, i: nat)
    requires i <= |s|
    ensures MatchesFrom(s, i) == MentionsFrom(s, i)
    decreases |s| - i
  {
    if i < |s| {
      if MentionAt(s, i) {
        var e := NameEnd(s, i + 1);
        MatchesAreMentions(s, e);
        SkipRun(s, i + 1, e);
      } else {
        MatchesAreMentions(s, i + 1);
      }
    }
  }

  /** No position of `s` starts a match. */
  predicate NoMention(s: string) {
    forall i :: 0 <= i < |s| ==> !MentionAt(s, i)
  }

  /** After a non-name character, what remains of the removal starts with one too. */
  lemma {:induction false} RemoveHead(s: string, i: nat)
    requires i <= |s|
    requires i == |s| || !IsNameChar(s[i])
    ensures RemoveFrom(s, i) == [] || !IsNameChar(RemoveFrom(s, i)[0])
    decreases |s| - i
  {
    if i < |s| && MentionAt(s, i) {
      RemoveHead(s, NameEnd(s, i + 1));
    }
  }

  /** Deleting the matches never creates a new one. */
  lemma {:induction false} RemovedHasNoMention(s: string, i: nat)
    requires i <= |s|
    ensures NoMention(RemoveFrom(s, i))
    decreases |s| - i
  {
    if i < |s| {
      if MentionAt(s, i) {
        RemovedHasNoMention(s, NameEnd(s, i + 1));
      } else {
        RemovedHasNoMention(s, i + 1);
        if s[i] == '@' {
          RemoveHead(s, i + 1);
        }
        ConsNoMention(s[i], RemoveFrom(s, i + 1));
      }
    }
  }

  /** Prefixing a character keeps a string free of matches unless it is an `@` before a name character. */
  lemma ConsNoMention(c: char, rest: string)
    requires NoMention(rest)
    requires c == '@' ==> rest == [] || !IsNameChar(rest[0])
    ensures NoMention([c] + rest)
  {
    var r := [c] + rest;
    forall k | 0 <= k < |r|
      ensures !MentionAt(r, k)
    {
      if k > 0 {
        assert !MentionAt(rest, k - 1);
      }
    }
  }

  /** A slice of a string without matches has none either. */
  lemma NoMentionSlice(s: string, a: nat, b: nat)
    requires a <= b <= |s| && NoMention(s)
    ensures NoMention(s[a..b])
  {
    var t := s[a..b];
    forall k | 0 <= k < |t|
      ensures !MentionAt(t, k)
    {
      assert !MentionAt(s, a + k);
    }
  }

  /** On a string without matches, both the scan and the removal change nothing. */
  lemma {:induction false} NoMentionScan(s: string, i: nat)
    requires i <= |s| && forall k :: i <= k < |s| ==> !MentionAt(s, k)
    ensures MatchesFrom(s, i) == [] && RemoveFrom(s, i) == s[i..]
    decreases |s| - i
  {
    if i < |s| {
      NoMentionScan(s, i + 1);
      assert s[i..] == [s[i]] + s[i + 1..];
    }
  }

  /** The cleaned query contains no `@name` token at all. */
  lemma CleanQueryHasNoMention(query: string)
    ensures NoMention(CleanQuery(query))
  {
    var r := RemoveFrom(query, 0);
    RemovedHasNoMention(query, 0);
    var a, b := TrimSlice(r);
    NoMentionSlice(r, a, b);
  }

  /**
   * Parsing the cleaned query again finds no mentions and leaves it as it
   * is.
   */
  lemma ParseCleanQueryAgain(query: string)
    ensures MentionsFrom(CleanQuery(query), 0) == []
    ensures CleanQuery(CleanQuery(query)) == CleanQuery(query)
  {
    var c := CleanQuery(query);
    CleanQueryHasNoMention(query);
    NoMentionScan(c, 0);
    MatchesAreMentions(c, 0);
    assert c[0..] == c;
    TrimIdempotent(RemoveFrom(query, 0));
  }

  /** A query without mentions yields no tokens and is only trimmed. */
  lemma QueryWithoutMentions(query: string)
    requires NoMention(query)
    ensures MentionsFrom(query, 0) == []
    ensures CleanQuery(query) == Trim(query)
  {
    NoMentionScan(query, 0);
    MatchesAreMentions(query, 0);
    assert query[0..] == query;
  }

  /** "@a @b hi" yields the tokens "a" and "b" and the cleaned query "hi". */
  lemma ExampleTwoMentions(s: string)
    requires s == "@a @b hi"
    ensures MentionsFrom(s, 0) == ["a", "b"]
    ensures CleanQuery(s) == "hi"
  {
    ExampleTwoMentionsTokens(s);
    ExampleTwoMentionsClean(s);
  }

  lemma ExampleTwoMentionsTokens(s: string)
    requires s == "@a @b hi"
    ensures MentionsFrom(s, 0) == ["a", "b"]
  {
    ExampleMatches(s);
    assert Mention(s, 0) == "a" by { assert s[1..2] == "a"; }
    assert Mention(s, 3) == "b" by { assert s[4..5] == "b"; }
    NoMentionScan(s, 5);
    assert MatchesFrom(s, 3) == ["b"];
    assert MatchesFrom(s, 2) == ["b"];
    assert MatchesFrom(s, 0) == ["a", "b"];
    MatchesAreMentions(s, 0);
  }

  lemma ExampleTwoMentionsClean(s: string)
    requires s == "@a @b hi"
    ensures CleanQuery(s) == "hi"
  {
    ExampleMatches(s);
    NoMentionScan(s, 5);
    var r := RemoveFrom(s, 0);
    assert RemoveFrom(s, 3) == s[5..];
    assert RemoveFrom(s, 2) == [s[2]] + s[5..];
    assert r == [s[2]] + s[5..];
    assert r == "  hi";
    assert IsSpace(r[0]) && IsSpace(r[1..][0]) && !IsSpace(r[2..][0]);
    assert r[1..][1..] == r[2..];
    assert TrimStart(r) == r[2..];
    assert r[2..] == "hi";
    assert !IsSpace('i');
  }

  lemma ExampleMatches(s: string)
    requires s == "@a @b hi"
    ensures MentionAt(s, 0) && NameEnd(s, 1) == 2
    ensures !MentionAt(s, 2)
    ensures MentionAt(s, 3) && NameEnd(s, 4) == 5
    ensures forall k :: 5 <= k < |s| ==> !MentionAt(s, k)
  {
    assert IsSpace(' ') && IsNameChar('a') && IsNameChar('b');
    NameEndIs(s, 1, 2);
    NameEndIs(s, 4, 5);
    assert forall k :: 5 <= k < |s| ==> s[k] != '@';
  }

  /** The end of a name run is the first position that is not a name character. */
  lemma NameEndIs(s: string, i: nat, e: nat)
    requires i <= e <= |s|
    requires forall k :: i <= k < e ==> IsNameChar(s[k])
    requires e == |s| || !IsNameChar(s[e])
    ensures NameEnd(s, i) == e
  {
  }

  /** "hi all" yields no tokens and is returned as it is. */
  lemma ExampleNoMentions(s: string)
    requires s == "hi all"
    ensures MentionsFrom(s, 0) == []
    ensures CleanQuery(s) == s
  {
    NoMentionLiteral(s);
    QueryWithoutMentions(s);
    SpaceFreeEnds(s);
    TrimNoop(s);
  }
  /** Helpers of the example above, kept apart so that each works on the literal alone. */
  lemma NoMentionLiteral(s: string)
    requires s == "hi all"
    ensures NoMention(s)
  {
    assert forall i :: 0 <= i < |s| ==> s[i] != '@';
  }
  lemma SpaceFreeEnds(s: string)
    requires s == "hi all"
    ensures !IsSpace(s[0]) && !IsSpace(s[|s| - 1])
  {
  }
}
