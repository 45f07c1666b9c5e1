/**
 * `NounPhrases.NounPhraseFilter`: a rejection rule is one of seven fixed regular
 * expressions, tested with a whole-string match against a node's tag path. The
 * lemmas here restate each pattern in terms of the tags the path was joined from.
 */
module Filters {
  import opened Text
  import opened Trees
  import opened TagPaths
  import opened Patterns

  /**
   * The seven factory methods, one constructor each. The regular expression each
   * installs is given on its recogniser in `Patterns`.
   */
  datatype Filter =
    | RejectNone
    | RejectAll
    | RejectDetNoun
    | RejectSingleNounOrProper
    | RejectContainAnyProperNoun
    | RejectConsecutive
    | RejectLong

  /** `path.matches(regex)`, decided by the recogniser written for that regular expression. */
  predicate Matches(f: Filter, path: string) {
    match f
    case RejectNone => MatchesRejectNone(path)
    case RejectAll => MatchesRejectAll(path)
    case RejectDetNoun => MatchesDetNoun(path)
    case RejectSingleNounOrProper => MatchesSingleNounOrProper(path)
    case RejectContainAnyProperNoun => MatchesContainsProperNoun(path)
    case RejectConsecutive => MatchesConsecutive(path)
    case RejectLong => MatchesLong(path)
  }

  /** `NounPhraseFilter.isRejected`: computes the node's tag path and matches it against the pattern. */
  method FilterRejects(f: Filter, p: Parse) returns (rejected: bool)
    ensures rejected <==> Matches(f, TagPath(p))
  {
    var path := PosAsString(p);
    rejected := Matches(f, path);
  }

  // ---------------------------------------------------------------------------
  // The shape of a joined tag path

  /** Where the first tag ends in a joined path, and what follows it. */
  lemma JoinHead(ws: seq<string>)
    requires |ws| >= 1
    ensures |Join(ws)| >= |ws[0]|
    ensures forall k :: 0 <= k < |ws[0]| ==> Join(ws)[k] == ws[0][k]
    ensures |ws| == 1 ==> Join(ws) == ws[0]
    ensures |ws| >= 2 ==> Join(ws) == ws[0] + " " + Join(ws[1..])
    ensures |ws| >= 2 ==> Join(ws)[|ws[0]|] == ' ' && Join(ws)[|ws[0]| + 1..] == Join(ws[1..])
  {
    if |ws| >= 2 {
      assert (ws[0] + " " + Join(ws[1..]))[|ws[0]| + 1..] == Join(ws[1..]);
    }
  }

  /** Apart from the separating spaces, a joined path holds exactly the characters of its tags. */
  lemma {:induction false} JoinChar(ws: seq<string>, c: char)
    requires c != ' '
    ensures c in Join(ws) <==> exists i :: 0 <= i < |ws| && c in ws[i]
  {
    if |ws| == 1 {
      assert ws[0] == Join(ws);
    } else if |ws| >= 2 {
      JoinChar(ws[1..], c);
      JoinHead(ws);
      assert c in Join(ws) <==> c in ws[0] || c in Join(ws[1..]);
      if c in Join(ws[1..]) {
        var i :| 0 <= i < |ws[1..]| && c in ws[1..][i];
        assert c in ws[i + 1];
      }
      forall i | 1 <= i < |ws| && c in ws[i]
        ensures c in Join(ws[1..])
      {
        assert ws[1..][i - 1] == ws[i];
      }
    }
  }

  /** A path of plain tags holds no line terminator, so `.*` matches all of it. */
  lemma JoinPlainDotStar(ws: seq<string>)
    requires PlainTags(ws)
    ensures DotStar(Join(ws))
  {
    var s := Join(ws);
    forall k | 0 <= k < |s|
      ensures AnyChar(s[k])
    {
      if s[k] != ' ' {
        JoinChar(ws, s[k]);
        var i :| 0 <= i < |ws| && s[k] in ws[i];
        var j :| 0 <= j < |ws[i]| && ws[i][j] == s[k];
      }
    }
    StarAll(s, AnyChar);
  }

  // ---------------------------------------------------------------------------
  // Each pattern, read on a path of plain tags

  /** "[^.]*" rejects a path exactly when no tag holds a '.'. */
  lemma RejectNoneOnTags(ws: seq<string>)
    ensures Matches(RejectNone, Join(ws)) <==> forall i :: 0 <= i < |ws| ==> '.' !in ws[i]
  {
    RejectNoneExactly(Join(ws));
    JoinChar(ws, '.');
  }

  /** "[.]*" rejects a path exactly when there is no tag, or one tag made only of '.'. */
  lemma RejectAllOnTags(ws: seq<string>)
    ensures Matches(RejectAll, Join(ws)) <==>
              |ws| == 0 || (|ws| == 1 && forall j :: 0 <= j < |ws[0]| ==> ws[0][j] == '.')
  {
    RejectAllExactly(Join(ws));
    if |ws| >= 1 {
      JoinHead(ws);
    }
  }

  /** What "dt nn([^p]|$).*" asks of the text after "dt ": "nn([^p]|$).*". */
  predicate NnRest(r: string) {
    |r| >= 2 && r[..2] == "nn" && (|r| == 2 || (r[2] != 'p' && DotStar(r[3..])))
  }

  /** With a space-free first tag, "dt nn([^p]|$).*" needs that tag to be "dt". */
  lemma DetNounFirstTag(w0: string, r: string)
    requires NoSpace(w0)
    ensures MatchesDetNoun(w0 + " " + r) <==> w0 == "dt" && NnRest(r)
  {
    var s := w0 + " " + r;
    assert s[|w0|] == ' ';
    assert s[|w0| + 1..] == r;
    assert forall i :: 0 <= i < |w0| ==> s[i] == w0[i];
    if MatchesDetNoun(s) {
      assert s[..5][0] == s[0] == 'd' && s[..5][1] == s[1] == 't' && s[..5][2] == s[2] == ' ';
      assert |w0| == 2;
      assert w0 == s[..2];
      assert r[..2] == s[3..5] == s[..5][3..];
      if |r| > 2 {
        assert r[2] == s[5];
        assert r[3..] == s[6..];
      }
    }
    if w0 == "dt" && NnRest(r) {
      assert s[..5] == "dt " + r[..2];
      if |s| > 5 {
        assert s[5] == r[2];
        assert s[6..] == r[3..];
      }
    }
  }

  /** A single space-free tag is never rejected by "dt nn([^p]|$).*". */
  lemma DetNounOneTag(w0: string)
    requires NoSpace(w0)
    ensures !MatchesDetNoun(w0)
  {
    if |w0| >= 5 {
      assert w0[2] != ' ';
    }
  }

  /** "nn([^p]|$).*" on the rest of a plain path: the next tag starts with "nn", not followed by 'p'. */
  lemma NnRestOnTags(vs: seq<string>)
    requires PlainTags(vs) && |vs| >= 1
    ensures NnRest(Join(vs)) <==> |vs[0]| >= 2 && vs[0][..2] == "nn" && (|vs[0]| == 2 || vs[0][2] != 'p')
  {
    var r := Join(vs);
    JoinHead(vs);
    JoinPlainDotStar(vs);
    StarAll(r, AnyChar);
    if |r| > 3 {
      StarAll(r[3..], AnyChar);
      assert forall k :: 3 <= k < |r| ==> r[k] == r[3..][k - 3];
    }
    if |vs[0]| < 2 && |r| >= 2 {
      assert |vs| >= 2;
      assert r[|vs[0]|] == ' ';
    }
    if |vs[0]| >= 2 {
      assert r[..2] == vs[0][..2];
    }
    if |vs[0]| == 2 && |r| > 2 {
      assert r[2] == ' ';
    }
  }

  /**
   * "dt nn([^p]|$).*" rejects a path of plain tags exactly when the first tag is
   * "dt" and the second starts with "nn" not followed by 'p': "dt nn", "dt nns"
   * and "dt nn jj" are rejected, "dt nnp" and "dt nnps" are not.
   */
  lemma DetNounOnTags(ws: seq<string>)
    requires PlainTags(ws)
    ensures Matches(RejectDetNoun, Join(ws)) <==>
              && |ws| >= 2 && ws[0] == "dt"
              && |ws[1]| >= 2 && ws[1][..2] == "nn"
              && (|ws[1]| == 2 || ws[1][2] != 'p')
  {
    if |ws| == 1 {
      JoinHead(ws);
      DetNounOneTag(ws[0]);
    } else if |ws| >= 2 {
      JoinHead(ws);
      DetNounFirstTag(ws[0], Join(ws[1..]));
      assert PlainTags(ws[1..]) && ws[1..][0] == ws[1];
      NnRestOnTags(ws[1..]);
    }
  }

  /** "(nn|nnp)" rejects a path exactly when it has one tag, "nn" or "nnp". */
  lemma SingleNounOrProperOnTags(ws: seq<string>)
    ensures Matches(RejectSingleNounOrProper, Join(ws)) <==> ws == ["nn"] || ws == ["nnp"]
  {
    if |ws| >= 2 {
      JoinHasSpace(ws);
    } else if |ws| == 1 {
      JoinHead(ws);
    }
  }

  /** ".*nnp.*" rejects a path of plain tags exactly when "nnp" occurs in it. */
  lemma ContainAnyProperNounOnTags(ws: seq<string>)
    requires PlainTags(ws)
    ensures Matches(RejectContainAnyProperNoun, Join(ws)) <==> exists i :: NnpAt(Join(ws), i)
  {
    JoinPlainDotStar(ws);
    ContainsProperNounExactly(Join(ws));
  }

  /** "(nn|nnp){2,}" has no space in it, so it rejects no path of two or more tags. */
  lemma ConsecutiveOnTags(ws: seq<string>)
    requires Matches(RejectConsecutive, Join(ws))
    ensures |ws| == 1
  {
    if |ws| >= 2 {
      JoinHasSpace(ws);
      ConsecutiveNoSpace(Join(ws));
    }
  }

  /** A group cannot start with a word that holds a non-word character other than a space. */
  lemma NoGroupAtNonWord(w: string, t: string, j: nat, k: nat)
    requires NoSpace(w) && j < |w| && !IsWordChar(w[j]) && k >= 1
    ensures !GroupsThenAny(w + t, k)
  {
    WordRunInside(w, t, j);
  }

  /** A group cannot be made of a word of the wrong length. */
  lemma NoGroupAtBadLength(w: string, t: string, k: nat)
    requires forall j :: 0 <= j < |w| ==> IsWordChar(w[j])
    requires !ValidWord(w) && k >= 1
    ensures !GroupsThenAny(w + " " + t, k)
  {
    WordRunBeforeSpace(w, t);
  }

  /** A lone word is not followed by the space a group needs. */
  lemma NoGroupInLastWord(w: string, k: nat)
    requires forall j :: 0 <= j < |w| ==> IsWordChar(w[j])
    requires k >= 1
    ensures !GroupsThenAny(w, k)
  {
  }

  /** No group can be read from the first tag of a path when that tag is not a valid word, or is the last tag. */
  lemma NoGroupAtHead(ws: seq<string>, k: nat)
    requires PlainTags(ws) && |ws| >= 1 && k >= 1
    requires !ValidWord(ws[0]) || |ws| == 1
    ensures !GroupsThenAny(Join(ws), k)
  {
    JoinHead(ws);
    var w0 := ws[0];
    if j :| 0 <= j < |w0| && !IsWordChar(w0[j]) {
      if |ws| == 1 {
        NoGroupAtNonWord(w0, "", j, k);
        assert w0 + "" == Join(ws);
      } else {
        NoGroupAtNonWord(w0, " " + Join(ws[1..]), j, k);
        assert w0 + (" " + Join(ws[1..])) == Join(ws);
      }
    } else if |ws| == 1 {
      NoGroupInLastWord(w0, k);
    } else {
      NoGroupAtBadLength(w0, Join(ws[1..]), k);
    }
  }

  /** A valid first tag, followed by more tags, is one group. */
  lemma GroupAtHead(ws: seq<string>, k: nat)
    requires |ws| >= 2 && ValidWord(ws[0])
    ensures GroupsThenAny(Join(ws), k + 1) <==> GroupsThenAny(Join(ws[1..]), k)
  {
    JoinHead(ws);
    GroupStep(ws[0], Join(ws[1..]), k);
  }

  /** With a valid first tag, the first k tags are valid exactly when the first k - 1 after it are. */
  lemma ValidPrefixShift(ws: seq<string>, k: nat)
    requires |ws| >= 2 && k >= 1 && ValidWord(ws[0])
    ensures (|ws| - 1 > k - 1 && forall i :: 0 <= i < k - 1 ==> ValidWord(ws[1..][i]))
        <==> (|ws| > k && forall i :: 0 <= i < k ==> ValidWord(ws[i]))
  {
    assert forall i :: 1 <= i < |ws| ==> ws[1..][i - 1] == ws[i];
  }

  /**
   * `(\w{2,4} ){k,}.*` on a path of plain tags, k >= 1: more than k tags, the
   * first k of them two to four word characters long.
   */
  lemma {:induction false} GroupsOnTags(ws: seq<string>, k: nat)
    requires PlainTags(ws) && k >= 1
    ensures GroupsThenAny(Join(ws), k) <==> |ws| > k && forall i :: 0 <= i < k ==> ValidWord(ws[i])
    decreases k
  {
    if |ws| >= 1 {
      if !ValidWord(ws[0]) || |ws| == 1 {
        NoGroupAtHead(ws, k);
      } else if k == 1 {
        LastGroupOnTags(ws);
      } else {
        assert PlainTags(ws[1..]);
        GroupsOnTags(ws[1..], k - 1);
        NextGroupOnTags(ws, k);
      }
    }
  }

  /** One required group and a valid first tag followed by more tags: matched. */
  lemma LastGroupOnTags(ws: seq<string>)
    requires PlainTags(ws) && |ws| >= 2 && ValidWord(ws[0])
    ensures GroupsThenAny(Join(ws), 1)
  {
    GroupAtHead(ws, 0);
    assert PlainTags(ws[1..]);
    JoinPlainDotStar(ws[1..]);
    GroupsThenAnyZero(Join(ws[1..]));
  }

  /** The step of `GroupsOnTags`: the first group is the valid first tag. */
  lemma NextGroupOnTags(ws: seq<string>, k: nat)
    requires |ws| >= 2 && k >= 2 && ValidWord(ws[0])
    requires GroupsThenAny(Join(ws[1..]), k - 1)
         <==> |ws[1..]| > k - 1 && forall i :: 0 <= i < k - 1 ==> ValidWord(ws[1..][i])
    ensures GroupsThenAny(Join(ws), k) <==> |ws| > k && forall i :: 0 <= i < k ==> ValidWord(ws[i])
  {
    GroupAtHead(ws, k - 1);
    ValidPrefixShift(ws, k);
  }

  /**
   * "(\w{2,4} ){4,}.*" rejects a path of plain tags exactly when it has at least
   * five tags and each of the first four has two to four word characters. So a
   * path of four or fewer tags is never rejected as long.
   */
  lemma LongOnTags(ws: seq<string>)
    requires PlainTags(ws)
    ensures Matches(RejectLong, Join(ws)) <==> |ws| >= 5 && forall i :: 0 <= i < 4 ==> ValidWord(ws[i])
  {
    GroupsOnTags(ws, 4);
  }

  /** Six tags, the first four of two letters: rejected as long. */
  lemma LongExampleSixTags(ws: seq<string>)
    requires ws == ["dt", "jj", "nn", "nn", "nnp", "nn"]
    ensures Matches(RejectLong, Join(ws))
  {
    assert PlainTag("dt") && PlainTag("jj") && PlainTag("nn") && PlainTag("nnp");
    assert ValidWord(ws[0]) && ValidWord(ws[1]) && ValidWord(ws[2]) && ValidWord(ws[3]);
    LongOnTags(ws);
  }
}
