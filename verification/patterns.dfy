/**
 * Hand-written recognisers for the seven regular expressions of the rejection
 * filters, each deciding Java's `String.matches`, which accepts only when the
 * pattern matches the WHOLE string. Java semantics kept here: `.` matches any
 * character except a line terminator; a bracketed class such as `[.]`, `[^.]`
 * or `[^p]` is literal and matches line terminators like any other character;
 * `\w` is `[a-zA-Z_0-9]`.
 */
module Patterns {
  import opened Wrappers
  import opened Text

  // ---------------------------------------------------------------------------
  // Character classes and `[...]*`

  /** `[^.]` */
  predicate NotDot(c: char) { c != '.' }

  /** `[.]` */
  predicate IsDot(c: char) { c == '.' }

  /** `.` */
  predicate AnyChar(c: char) { !IsLineTerminator(c) }

  /** `\w` */
  predicate IsWordChar(c: char) {
    'a' <= c <= 'z' || 'A' <= c <= 'Z' || '0' <= c <= '9' || c == '_'
  }

  /** `X*` for a one-character pattern `X`, consuming the string from the left. */
  predicate Star(s: string, cls: char -> bool)
    decreases |s|
  {
    s == [] || (cls(s[0]) && Star(s[1..], cls))
  }

  /** `X*` matches exactly the strings whose every character matches `X`. */
  lemma {:induction false} StarAll(s: string, cls: char -> bool)
    ensures Star(s, cls) <==> forall i :: 0 <= i < |s| ==> cls(s[i])
    decreases |s|
  {
    if s != [] {
      StarAll(s[1..], cls);
      assert forall i :: 1 <= i < |s| ==> s[i] == s[1..][i - 1];
    }
  }

  /** `.*` */
  predicate DotStar(s: string) {
    Star(s, AnyChar)
  }

  // ---------------------------------------------------------------------------
  // rejectNone: "[^.]*"

  predicate MatchesRejectNone(s: string) {
    Star(s, NotDot)
  }

  /** "[^.]*" matches every string without a '.', and only those. */
  lemma RejectNoneExactly(s: string)
    ensures MatchesRejectNone(s) <==> '.' !in s
  {
    StarAll(s, NotDot);
  }

  // ---------------------------------------------------------------------------
  // rejectAll: "[.]*"

  predicate MatchesRejectAll(s: string) {
    Star(s, IsDot)
  }

  /** "[.]*" matches only strings made wholly of '.', the empty string among them. */
  lemma RejectAllExactly(s: string)
    ensures MatchesRejectAll(s) <==> forall i :: 0 <= i < |s| ==> s[i] == '.'
    ensures MatchesRejectAll("")
  {
    StarAll(s, IsDot);
  }

  // ---------------------------------------------------------------------------
  // rejectDetNoun: "dt nn([^p]|$).*"

  /**
   * After the literal "dt nn" either the string ends (`$`), or one character other
   * than 'p' follows (`[^p]`, which may be a line terminator) and then `.*`.
   */
  predicate MatchesDetNoun(s: string) {
    |s| >= 5 && s[..5] == "dt nn" && (|s| == 5 || (s[5] != 'p' && DotStar(s[6..])))
  }

  lemma DetNounExamples()
    ensures MatchesDetNoun("dt nn") && MatchesDetNoun("dt nns") && MatchesDetNoun("dt nn nn")
    ensures !MatchesDetNoun("dt nnp") && !MatchesDetNoun("dt nnps") && !MatchesDetNoun("nn")
    ensures !MatchesDetNoun("dt jj nn")
  {
    assert "dt nns"[6..] == [];
    assert "dt jj nn"[3] == 'j';
    assert " nn"[1..] == "nn";
    assert DotStar("nn"[1..][1..]);
  }

  // ---------------------------------------------------------------------------
  // rejectSingleNounOrProper: "(nn|nnp)"

  predicate MatchesSingleNounOrProper(s: string) {
    s == "nn" || s == "nnp"
  }

  /** "nnp" is rejected as a single proper noun, but "dt nn([^p]|$).*" lets it through. */
  lemma SingleNounExamples()
    ensures MatchesSingleNounOrProper("nn") && MatchesSingleNounOrProper("nnp")
    ensures !MatchesSingleNounOrProper("nns") && !MatchesSingleNounOrProper("dt nn")
    ensures !MatchesDetNoun("nnp")
  {
  }

  // ---------------------------------------------------------------------------
  // rejectContainAnyProperNoun: ".*nnp.*"

  /** "nnp" occurs in `s` starting at index `i`. */
  predicate NnpAt(s: string, i: int) {
    0 <= i && i + 3 <= |s| && s[i..i + 3] == "nnp"
  }

  /**
   * Backtracking reading of ".*nnp.*": either "nnp" starts here and `.*` takes the
   * rest, or the leading `.*` consumes one more character and the search moves on.
   */
  predicate MatchesContainsProperNoun(s: string)
    decreases |s|
  {
    (|s| >= 3 && s[..3] == "nnp" && DotStar(s[3..]))
    || (s != [] && AnyChar(s[0]) && MatchesContainsProperNoun(s[1..]))
  }

  lemma {:induction false} ContainsProperNounSound(s: string)
    requires MatchesContainsProperNoun(s)
    ensures DotStar(s) && exists i :: NnpAt(s, i)
    decreases |s|
  {
    StarAll(s, AnyChar);
    if |s| >= 3 && s[..3] == "nnp" && DotStar(s[3..]) {
      StarAll(s[3..], AnyChar);
      assert forall i :: 3 <= i < |s| ==> s[i] == s[3..][i - 3];
      assert NnpAt(s, 0);
    } else {
      ContainsProperNounSound(s[1..]);
      StarAll(s[1..], AnyChar);
      assert forall i :: 1 <= i < |s| ==> s[i] == s[1..][i - 1];
      var j :| NnpAt(s[1..], j);
      assert s[j + 1..j + 4] == s[1..][j..j + 3];
      assert NnpAt(s, j + 1);
    }
  }

  lemma {:induction false} ContainsProperNounComplete(s: string, i: int)
    requires DotStar(s) && NnpAt(s, i)
    ensures MatchesContainsProperNoun(s)
    decreases |s|
  {
    StarAll(s, AnyChar);
    if i == 0 {
      StarAll(s[3..], AnyChar);
    } else {
      StarAll(s[1..], AnyChar);
      assert s[1..][i - 1..i + 2] == s[i..i + 3];
      ContainsProperNounComplete(s[1..], i - 1);
    }
  }

  /** ".*nnp.*" matches a string exactly when it has "nnp" inside and no line terminator. */
  lemma ContainsProperNounExactly(s: string)
    ensures MatchesContainsProperNoun(s) <==> DotStar(s) && exists i :: NnpAt(s, i)
  {
    if MatchesContainsProperNoun(s) {
      ContainsProperNounSound(s);
    }
    if DotStar(s) && exists i :: NnpAt(s, i) {
      var i :| NnpAt(s, i);
      ContainsProperNounComplete(s, i);
    }
  }

  /** On a string without line terminators, ".*nnp.*" is "contains nnp". */
  lemma ContainsProperNounExamples()
    ensures MatchesContainsProperNoun("dt nnp") && MatchesContainsProperNoun("nnps")
    ensures !MatchesContainsProperNoun("dt nn") && !MatchesContainsProperNoun("nn p")
  {
    StarAll("dt nnp", AnyChar);
    assert NnpAt("dt nnp", 3);
    ContainsProperNounComplete("dt nnp", 3);
    StarAll("nnps", AnyChar);
    assert NnpAt("nnps", 0);
    ContainsProperNounComplete("nnps", 0);
    forall i | 0 <= i <= 2
      ensures !NnpAt("dt nn", i)
    {
      assert "dt nn"[i + 2] != 'p';
    }
    ContainsProperNounExactly("dt nn");
    assert !NnpAt("nn p", 0) by { assert "nn p"[2] == ' '; }
    assert !NnpAt("nn p", 1) by { assert "nn p"[2] == ' '; }
    ContainsProperNounExactly("nn p");
  }

  // ---------------------------------------------------------------------------
  // rejectConsecutive: "(nn|nnp){2,}"

  predicate NounWords(ws: seq<string>) {
    forall i :: 0 <= i < |ws| ==> ws[i] == "nn" || ws[i] == "nnp"
  }

  function Concat(ws: seq<string>): (r: string) {
    if ws == [] then "" else ws[0] + Concat(ws[1..])
  }

  /**
   * Reads the string as a run of "nn" and "nnp" tokens. The reading is forced:
   * no token starts with 'p', so "nnp" can never be "nn" followed by a token.
   */
  function NounTokens(s: string): (r: Option<seq<string>>)
    ensures r.Some? ==> NounWords(r.value) && Concat(r.value) == s
    decreases |s|
  {
    if s == [] then Some([])
    else if |s| >= 3 && s[..3] == "nnp" then
      match NounTokens(s[3..])
      case None => None
      case Some(ws) => Some(["nnp"] + ws)
    else if |s| >= 2 && s[..2] == "nn" then
      match NounTokens(s[2..])
      case None => None
      case Some(ws) => Some(["nn"] + ws)
    else None
  }

  predicate MatchesConsecutive(s: string) {
    NounTokens(s).Some? && |NounTokens(s).value| >= 2
  }

  /** Every run of "nn" and "nnp" tokens is read back as exactly those tokens. */
  lemma {:induction false} NounTokensComplete(ws: seq<string>)
    requires NounWords(ws)
    ensures NounTokens(Concat(ws)) == Some(ws)
  {
    if ws != [] {
      var s := Concat(ws);
      NounTokensComplete(ws[1..]);
      assert s == ws[0] + Concat(ws[1..]);
      if ws[0] == "nn" {
        if ws[1..] != [] {
          assert Concat(ws[1..]) == ws[1] + Concat(ws[1..][1..]);
          assert s[2] == ws[1][0] == 'n';
        }
        assert s[2..] == Concat(ws[1..]);
      } else {
        assert s[3..] == Concat(ws[1..]);
      }
      assert [ws[0]] + ws[1..] == ws;
    }
  }

  /** "(nn|nnp){2,}" matches exactly the concatenations of two or more "nn"/"nnp" tokens. */
  lemma ConsecutiveExactly(s: string)
    ensures MatchesConsecutive(s) <==> exists ws :: NounWords(ws) && |ws| >= 2 && Concat(ws) == s
  {
    if exists ws :: NounWords(ws) && |ws| >= 2 && Concat(ws) == s {
      var ws :| NounWords(ws) && |ws| >= 2 && Concat(ws) == s;
      NounTokensComplete(ws);
    }
  }

  lemma {:induction false} NounWordsNoSpace(ws: seq<string>)
    requires NounWords(ws)
    ensures ' ' !in Concat(ws)
  {
    if ws != [] {
      NounWordsNoSpace(ws[1..]);
    }
  }

  /** The pattern has no space in it, so it never matches a string with a space. */
  lemma ConsecutiveNoSpace(s: string)
    requires ' ' in s
    ensures !MatchesConsecutive(s)
  {
    if NounTokens(s).Some? {
      NounWordsNoSpace(NounTokens(s).value);
    }
  }

  /** Any two tokens written together are matched. */
  lemma ConsecutivePair(a: string, b: string)
    requires (a == "nn" || a == "nnp") && (b == "nn" || b == "nnp")
    ensures MatchesConsecutive(a + b)
  {
    assert Concat([a, b]) == a + Concat([b]);
    assert Concat([b]) == b + Concat([]);
    assert b + "" == b;
    NounTokensComplete([a, b]);
  }

  /** Two or more tokens written together are matched. */
  lemma ConsecutiveExamples()
    ensures MatchesConsecutive("nnnn") && MatchesConsecutive("nnpnn") && MatchesConsecutive("nnnnp")
  {
    ConsecutivePair("nn", "nn");
    assert "nn" + "nn" == "nnnn";
    ConsecutivePair("nnp", "nn");
    assert "nnp" + "nn" == "nnpnn";
    ConsecutivePair("nn", "nnp");
    assert "nn" + "nnp" == "nnnnp";
  }

  /** A single token is not matched, and neither are tokens separated by a space. */
  lemma ConsecutiveCounterExamples()
    ensures !MatchesConsecutive("nn") && !MatchesConsecutive("nnp") && !MatchesConsecutive("nn nn")
  {
    NounTokensComplete(["nn"]);
    NounTokensComplete(["nnp"]);
    assert "nn nn"[2] == ' ';
    ConsecutiveNoSpace("nn nn");
  }

  // ---------------------------------------------------------------------------
  // rejectLong: "(\w{2,4} ){4,}.*"

  /** The length of the longest run of word characters at the start of `s`. */
  function WordRun(s: string): (n: nat)
    ensures n <= |s|
    ensures forall i :: 0 <= i < n ==> IsWordChar(s[i])
    ensures n < |s| ==> !IsWordChar(s[n])
    decreases |s|
  {
    if s != [] && IsWordChar(s[0]) then 1 + WordRun(s[1..]) else 0
  }

  /**
   * `(\w{2,4} ){k,}.*`. A group `\w{2,4} ` can only end at the first character
   * that is not a word character, so a group is there exactly when the leading
   * word run has 2 to 4 characters and a space follows it.
   */
  predicate GroupsThenAny(s: string, k: nat)
    decreases |s|
  {
    (k == 0 && DotStar(s))
    || (var n := WordRun(s);
        2 <= n <= 4 && n < |s| && s[n] == ' ' && GroupsThenAny(s[n + 1..], if k == 0 then 0 else k - 1))
  }

  predicate MatchesLong(s: string) {
    GroupsThenAny(s, 4)
  }

  /** Groups never hold a line terminator, so `(\w{2,4} ){0,}.*` is just `.*`. */
  lemma {:induction false} GroupsThenAnyZero(s: string)
    ensures GroupsThenAny(s, 0) <==> DotStar(s)
    decreases |s|
  {
    var n := WordRun(s);
    if GroupsThenAny(s, 0) && 2 <= n <= 4 && n < |s| && s[n] == ' ' && GroupsThenAny(s[n + 1..], 0) {
      GroupsThenAnyZero(s[n + 1..]);
      StarAll(s[n + 1..], AnyChar);
      forall i | 0 <= i < |s|
        ensures AnyChar(s[i])
      {
        if i > n {
          assert s[i] == s[n + 1..][i - n - 1];
        }
      }
      StarAll(s, AnyChar);
    }
  }

  /** `\w{2,4}`: two to four word characters. */
  predicate ValidWord(w: string) {
    2 <= |w| <= 4 && forall i :: 0 <= i < |w| ==> IsWordChar(w[i])
  }

  /** The word run of a word followed by a space ends at that space. */
  lemma WordRunBeforeSpace(w: string, t: string)
    requires forall i :: 0 <= i < |w| ==> IsWordChar(w[i])
    ensures WordRun(w + " " + t) == |w|
  {
    var s := w + " " + t;
    assert s[|w|] == ' ';
    assert forall i :: 0 <= i < |w| ==> s[i] == w[i];
  }

  /** The word run of a word with a non-word character stops inside it. */
  lemma WordRunInside(w: string, t: string, j: nat)
    requires j < |w| && !IsWordChar(w[j])
    ensures WordRun(w + t) <= j && (w + t)[WordRun(w + t)] == w[WordRun(w + t)]
  {
    assert (w + t)[j] == w[j];
  }

  /** A valid word and a space make one group: `(\w{2,4} ){k+1,}.*` on it is `(\w{2,4} ){k,}.*` on the rest. */
  lemma GroupStep(w: string, t: string, k: nat)
    requires ValidWord(w)
    ensures GroupsThenAny(w + " " + t, k + 1) <==> GroupsThenAny(t, k)
  {
    WordRunBeforeSpace(w, t);
    assert (w + " " + t)[|w| + 1..] == t;
  }

  /**
   * A match with groups still required starts with a group: a word run of two to
   * four characters and a space. What follows that space matches with one group
   * fewer, and holds at least one space fewer.
   */
  lemma FirstGroup(s: string, k: nat) returns (rest: string)
    requires k > 0 && GroupsThenAny(s, k)
    ensures 2 <= WordRun(s) <= 4 && WordRun(s) < |s| && s[WordRun(s)] == ' '
    ensures rest == s[WordRun(s) + 1..]
    ensures |rest| < |s| && GroupsThenAny(rest, k - 1)
    ensures Spaces(s) >= 1 + Spaces(rest)
  {
    rest := s[WordRun(s) + 1..];
    SpacesAfter(s, WordRun(s));
  }

  /**
   * What follows the first group, stated without the slice so that the
   * induction over the groups stays small.
   */
  lemma AfterFirstGroup(s: string, k: nat) returns (rest: string)
    requires k > 0 && GroupsThenAny(s, k)
    ensures |rest| < |s| && GroupsThenAny(rest, k - 1)
    ensures Spaces(s) >= 1 + Spaces(rest)
  {
    var n := WordRun(s);
    rest := s[n + 1..];
    SpacesAfter(s, n);
  }

  /** A space at index n: the string holds one more space than what follows it. */
  lemma SpacesAfter(s: string, n: nat)
    requires n < |s| && s[n] == ' '
    ensures Spaces(s) >= 1 + Spaces(s[n + 1..])
  {
    var group, rest := s[..n + 1], s[n + 1..];
    assert s == group + rest;
    assert multiset(s) == multiset(group) + multiset(rest);
    assert group[n] in multiset(group);
  }

  /** Each group holds one space, so a string with k groups holds at least k spaces. */
  lemma {:induction false} GroupsSpaces(s: string, k: nat)
    requires GroupsThenAny(s, k)
    ensures Spaces(s) >= k
    decreases |s|
  {
    if k > 0 {
      var rest := AfterFirstGroup(s, k);
      GroupsSpaces(rest, k - 1);
    }
  }

  /** "(\w{2,4} ){4,}.*" needs four spaces. */
  lemma LongNeedsFourSpaces(s: string)
    requires MatchesLong(s)
    ensures Spaces(s) >= 4
  {
    GroupsSpaces(s, 4);
  }

  /** Four valid words, each followed by a space, and then anything `.*` accepts. */
  lemma LongFromWords(a: string, b: string, c: string, d: string, rest: string)
    requires ValidWord(a) && ValidWord(b) && ValidWord(c) && ValidWord(d) && DotStar(rest)
    ensures MatchesLong(a + " " + (b + " " + (c + " " + (d + " " + rest))))
  {
    var t4 := d + " " + rest;
    var t3 := c + " " + t4;
    var t2 := b + " " + t3;
    GroupStep(d, rest, 0);
    assert GroupsThenAny(t4, 1);
    GroupStep(c, t4, 1);
    assert GroupsThenAny(t3, 2);
    GroupStep(b, t3, 2);
    assert GroupsThenAny(t2, 3);
    GroupStep(a, t2, 3);
  }

  /** Four groups and nothing after them is enough: `.*` matches the empty rest. */
  lemma LongExampleFourGroups(s: string)
    requires s == "dt jj nn nn "
    ensures MatchesLong(s)
  {
    assert s[0] == 'd' && s[1] == 't' && s[3] == 'j' && s[4] == 'j';
    assert s[6] == 'n' && s[7] == 'n' && s[9] == 'n' && s[10] == 'n';
    assert s[..2] == "dt" && s[3..5] == "jj";
    assert s[6..8] == "nn" && s[9..11] == "nn";
    FourWordsThen(s, "dt", "jj", "nn", "nn", "");
    LongFromWords("dt", "jj", "nn", "nn", "");
  }

  /** `s` is four two-letter words, each followed by a space, and then `rest`. */
  lemma FourWordsThen(s: string, a: string, b: string, c: string, d: string, rest: string)
    requires |a| == |b| == |c| == |d| == 2
    requires |s| == 12 + |rest| && s[12..] == rest
    requires s[..2] == a && s[3..5] == b && s[6..8] == c && s[9..11] == d
    requires s[2] == s[5] == s[8] == s[11] == ' '
    ensures s == a + " " + (b + " " + (c + " " + (d + " " + rest)))
  {
  }

  /** Three spaces are too few. */
  lemma LongExampleFourTags(s: string)
    requires s == "dt jj nn nn"
    ensures !MatchesLong(s)
  {
    assert multiset(s)[' '] == 3;
    if MatchesLong(s) {
      LongNeedsFourSpaces(s);
      assert false;
    }
  }
}
