/**
 * `docMatchesMentions`: whether a stored document's file name answers one of
 * the `@` tokens of a query.  Matching is a permissive, two-way substring
 * test on the lower-cased name, its base name, and both with `_` and `-`
 * removed.
 */
module Matcher {
  import opened Text

  /** Position of the last `.` in `s`, or -1. */
  function LastDot(s: string): (p: int)
    ensures -1 <= p < |s|
    ensures p >= 0 ==> s[p] == '.'
    ensures forall k :: p < k < |s| ==> s[k] != '.'
    decreases |s|
  {
    if s == [] then -1
    else if s[|s| - 1] == '.' then |s| - 1
    else LastDot(s[..|s| - 1])
  }

  /** `\.[^.]+$` matches at `p`: a dot followed by one or more non-dots up to the end. */
  predicate ExtensionAt(s: string, p: int) {
    0 <= p && p + 1 < |s| && s[p] == '.' && forall k :: p < k < |s| ==> s[k] != '.'
  }

  /**
   * `name.replace(/\.[^.]+$/, '')`: a trailing `.ext` is cut off when `ext`
   * is one or more non-dot characters; otherwise (no dot, or a name ending
   * in `.`) the name is kept whole.
   */
  function BaseName(s: string): (r: string)
    ensures if exists p :: ExtensionAt(s, p) then ExtensionAt(s, |r|) && r == s[..|r|] else r == s
  {
    var p := LastDot(s);
    if 0 <= p && p + 1 < |s| then
      assert ExtensionAt(s, p);
      s[..p]
    else
      assert forall q :: ExtensionAt(s, q) ==> q == p;
      s
  }

  /** `s.replace(/[_-]/g, '')`. */
  function StripSeparators(s: string): (r: string)
    ensures forall k :: 0 <= k < |r| ==> r[k] != '_' && r[k] != '-'
  {
    if s == [] then []
    else (if s[0] == '_' || s[0] == '-' then [] else [s[0]]) + StripSeparators(s[1..])
  }

  /** The four-way test of one target against the lower-cased file name. */
  predicate MatchesTarget(nameLower: string, target: string) {
    var base := BaseName(nameLower);
    || Contains(nameLower, target)
    || Contains(target, base)
    || Contains(StripSeparators(base), StripSeparators(target))
    || Contains(StripSeparators(target), StripSeparators(base))
  }

  /** `targetMentions.some(...)`: some target matches the document's name. */
  function DocMatchesMentions(fileName: string, targets: seq<string>): (r: bool)
    ensures r <==> exists k :: 0 <= k < |targets| && MatchesTarget(Lower(fileName), targets[k])
  {
    if targets == [] then false
    else
      MatchesTarget(Lower(fileName), targets[0]) || DocMatchesMentions(fileName, targets[1..])
  }

  // ------------------------------------------------------------ properties

  /** No targets, no match. */
  lemma NoTargetsNoMatch(fileName: string)
    ensures !DocMatchesMentions(fileName, [])
  {
  }

  /** A target that occurs in the lower-cased file name always matches. */
  lemma MatchesWhenNameContains(fileName: string, targets: seq<string>, k: nat)
    requires k < |targets| && Contains(Lower(fileName), targets[k])
    ensures DocMatchesMentions(fileName, targets)
  {
    assert MatchesTarget(Lower(fileName), targets[k]);
  }

  /**
   * Adding targets never turns a match into a non-match: every target list
   * that contains all the old targets still matches.
   */
  lemma MatchMonotone(fileName: string, targets: seq<string>, more: seq<string>)
    requires DocMatchesMentions(fileName, targets)
    requires forall t :: t in targets ==> t in more
    ensures DocMatchesMentions(fileName, more)
  {
    var k :| 0 <= k < |targets| && MatchesTarget(Lower(fileName), targets[k]);
    assert targets[k] in more;
    var j :| 0 <= j < |more| && more[j] == targets[k];
  }

  /** A name whose base is empty, such as ".pdf", matches every non-empty target list. */
  lemma EmptyBaseMatchesAll(fileName: string, targets: seq<string>)
    requires BaseName(Lower(fileName)) == [] && targets != []
    ensures DocMatchesMentions(fileName, targets)
  {
    ContainsEmpty(targets[0]);
    assert MatchesTarget(Lower(fileName), targets[0]);
  }

  /** "Q3_Report.pdf" matches the target "report". */
  lemma ExampleReportMatches(fileName: string, targets: seq<string>)
    requires fileName == "Q3_Report.pdf" && targets == ["report"]
    ensures DocMatchesMentions(fileName, targets)
  {
    var lower := Lower(fileName);
    assert lower[3..9] == "report";
    ContainsAt(lower, "report", 3);
    MatchesWhenNameContains(fileName, targets, 0);
  }

  /** "notes.txt" does not match the target "report". */
  lemma ExampleNotesDoesNotMatch(fileName: string, targets: seq<string>)
    requires fileName == "notes.txt" && targets == ["report"]
    ensures !DocMatchesMentions(fileName, targets)
  {
    var lower := Lower(fileName);
    NotesName(fileName);
    NotesSeparators(BaseName(lower), targets[0]);
    NotesAbsent(lower, BaseName(lower), targets[0]);
    assert !MatchesTarget(lower, targets[0]);
  }

  /** Helpers of the example above, each working on literals alone. */
  lemma NotesName(fileName: string)
    requires fileName == "notes.txt"
    ensures Lower(fileName) == fileName && BaseName(fileName) == "notes"
  {
    assert Lower(fileName) == fileName;
    assert ExtensionAt(fileName, 5);
    assert fileName[..5] == "notes";
  }

  lemma NotesSeparators(base: string, target: string)
    requires base == "notes" && target == "report"
    ensures StripSeparators(base) == base && StripSeparators(target) == target
  {
    assert forall k :: 0 <= k < |base| ==> base[k] != '_' && base[k] != '-';
    assert forall k :: 0 <= k < |target| ==> target[k] != '_' && target[k] != '-';
    StripNoSeparators(base);
    StripNoSeparators(target);
  }

  lemma NotesAbsent(lower: string, base: string, target: string)
    requires lower == "notes.txt" && base == "notes" && target == "report"
    ensures !Contains(lower, target) && !Contains(target, base) && !Contains(base, target)
  {
    assert forall k :: 0 <= k < |lower| ==> lower[k] != 'r';
    assert forall k :: 0 <= k < |target| ==> target[k] != 'n';
    Absent(lower, target);
    Absent(target, base);
    NotContainsLonger(base, target);
  }

  /** A needle whose first character never occurs in the hay is not contained in it. */
  lemma {:induction false} Absent(hay: string, needle: string)
    requires needle != [] && forall k :: 0 <= k < |hay| ==> hay[k] != needle[0]
    ensures !Contains(hay, needle)
    decreases |hay|
  {
    if hay != [] {
      assert hay[0] != needle[0];
      Absent(hay[1..], needle);
    }
  }

  /**
   * Only `_` and `-` are deleted: the stripping distributes over every split
   * of the input, and a single character is kept exactly when it is not a
   * separator.
   */
  lemma StripSeparatorsSplit(s: string)
    ensures forall i :: 0 <= i <= |s| ==> StripSeparators(s) == StripSeparators(s[..i]) + StripSeparators(s[i..])
    ensures |s| == 1 ==> StripSeparators(s) == if s[0] == '_' || s[0] == '-' then [] else s
  {
    forall i | 0 <= i <= |s|
      ensures StripSeparators(s) == StripSeparators(s[..i]) + StripSeparators(s[i..])
    {
      assert s == s[..i] + s[i..];
      StripConcat(s[..i], s[i..]);
    }
    if |s| == 1 {
      assert s[1..] == [];
    }
  }

  lemma {:induction false} StripConcat(a: string, b: string)
    ensures StripSeparators(a + b) == StripSeparators(a) + StripSeparators(b)
    decreases |a|
  {
    if a == [] {
      assert a + b == b;
    } else {
      assert (a + b)[0] == a[0] && (a + b)[1..] == a[1..] + b;
      StripConcat(a[1..], b);
    }
  }

  lemma {:induction false} StripNoSeparators(s: string)
    requires forall k :: 0 <= k < |s| ==> s[k] != '_' && s[k] != '-'
    ensures StripSeparators(s) == s
  {
    if s != [] {
      StripNoSeparators(s[1..]);
    }
  }
}
