/**
 * `NounPhrases`: walks a parse tree, keeps the surface text of every node
 * labelled "NP" whose tag path no filter of the chain rejects, and unions the
 * results over the top-level parses of a sentence.
 */
module Extraction {
  import opened Wrappers
  import opened Text
  import opened Trees
  import opened TagPaths
  import opened Patterns
  import opened Filters

  /** An extractor: the sentence to parse and the ordered filter chain. */
  datatype NounPhrases = NounPhrases(sentence: string, filters: seq<Filter>)

  /** The chain the one-argument constructor installs. */
  const DefaultFilters: seq<Filter> := [RejectDetNoun, RejectSingleNounOrProper, RejectLong]

  /** The one-argument constructor. */
  function WithDefaultFilters(sentence: string): (r: NounPhrases) {
    NounPhrases(sentence, DefaultFilters)
  }

  // ---------------------------------------------------------------------------
  // The filter chain

  /** Some filter of the chain matches the path; the filters are tried in order. */
  predicate Rejected(filters: seq<Filter>, path: string) {
    |filters| > 0 && (Matches(filters[0], path) || Rejected(filters[1..], path))
  }

  /** The chain rejects exactly when one of its filters matches; an empty chain rejects nothing. */
  lemma {:induction false} RejectedIff(filters: seq<Filter>, path: string)
    ensures Rejected(filters, path) <==> exists i :: 0 <= i < |filters| && Matches(filters[i], path)
  {
    if filters != [] {
      RejectedIff(filters[1..], path);
      assert forall i :: 1 <= i < |filters| ==> filters[1..][i - 1] == filters[i];
    }
  }

  /** A chain whose filters all occur in a second chain rejects no path the second accepts. */
  lemma RejectedWiden(f1: seq<Filter>, f2: seq<Filter>, path: string)
    requires forall f :: f in f1 ==> f in f2
    ensures Rejected(f1, path) ==> Rejected(f2, path)
  {
    RejectedIff(f1, path);
    RejectedIff(f2, path);
    if Rejected(f1, path) {
      var i :| 0 <= i < |f1| && Matches(f1[i], path);
      assert f1[i] in f2;
    }
  }

  /**
   * `isRejected`: tries the filters in order and stops at the first that rejects.
   * Each filter recomputes the node's tag path.
   */
  method IsRejected(filters: seq<Filter>, p: Parse) returns (rejected: bool)
    ensures rejected <==> exists i :: 0 <= i < |filters| && Matches(filters[i], TagPath(p))
  {
    for i := 0 to |filters|
      invariant forall j :: 0 <= j < i ==> !Matches(filters[j], TagPath(p))
    {
      var r := FilterRejects(filters[i], p);
      if r {
        return true;
      }
    }
    return false;
  }

  // ---------------------------------------------------------------------------
  // The tree walk

  /** A node whose text is kept: labelled exactly "NP", and no filter rejects its tag path. */
  predicate Accepted(filters: seq<Filter>, n: Parse) {
    n.category == "NP" && !Rejected(filters, TagPath(n))
  }

  /** The phrases `extractNounPhrases` returns for `p`. */
  function Phrases(filters: seq<Filter>, p: Parse): (r: set<string>)
    decreases p
  {
    (if Accepted(filters, p) then {p.text} else {}) + PhrasesOf(filters, p.children)
  }

  /** The union of the phrases of a sequence of trees; the last tree is taken off first. */
  function PhrasesOf(filters: seq<Filter>, ps: seq<Parse>): (r: set<string>)
    decreases ps
  {
    if ps == [] then {} else PhrasesOf(filters, ps[..|ps| - 1]) + Phrases(filters, ps[|ps| - 1])
  }

  /**
   * `extractNounPhrases`: adds this node's text when it is an accepted "NP",
   * then always walks every child, adding what each child's walk returns.
   */
  method ExtractNounPhrases(filters: seq<Filter>, p: Parse) returns (phrases: set<string>)
    ensures phrases == Phrases(filters, p)
    decreases p
  {
    phrases := {};
    if p.category == "NP" {
      var rejected := IsRejected(filters, p);
      RejectedIff(filters, TagPath(p));
      if !rejected {
        phrases := phrases + {p.text};
      }
    }
    ghost var own := phrases;
    for i := 0 to |p.children|
      invariant phrases == own + PhrasesOf(filters, p.children[..i])
    {
      var found := ExtractNounPhrases(filters, p.children[i]);
      phrases := phrases + found;
      assert p.children[..i + 1][..i] == p.children[..i];
    }
    assert p.children[..|p.children|] == p.children;
  }

  /**
   * `get`: parses the sentence and unions the phrases of every top-level parse.
   * The parser is a parameter; `None` stands for the `IOException` of loading the
   * model, which is caught and printed, leaving the set empty.
   */
  method Get(np: NounPhrases, parser: string -> Option<seq<Parse>>) returns (phrases: set<string>)
    ensures parser(np.sentence).None? ==> phrases == {}
    ensures parser(np.sentence).Some? ==> phrases == PhrasesOf(np.filters, parser(np.sentence).value)
  {
    phrases := {};
    match parser(np.sentence)
    case None =>
    case Some(top) =>
      for i := 0 to |top|
        invariant phrases == PhrasesOf(np.filters, top[..i])
      {
        var found := ExtractNounPhrases(np.filters, top[i]);
        phrases := phrases + found;
        assert top[..i + 1][..i] == top[..i];
      }
      assert top[..|top|] == top;
  }

  // ---------------------------------------------------------------------------
  // What the walk returns

  /** The texts of the accepted nodes among `ns`. */
  ghost function AcceptedTexts(filters: seq<Filter>, ns: set<Parse>): set<string> {
    set n | n in ns && Accepted(filters, n) :: n.text
  }

  lemma AcceptedTextsUnion(filters: seq<Filter>, a: set<Parse>, b: set<Parse>)
    ensures AcceptedTexts(filters, a + b) == AcceptedTexts(filters, a) + AcceptedTexts(filters, b)
  {
  }

  /**
   * The walk returns exactly the texts of the accepted nodes of the tree: every
   * node is visited, whatever its ancestors, and nothing else is added.
   */
  lemma {:induction false} PhrasesAreAcceptedTexts(filters: seq<Filter>, p: Parse)
    ensures Phrases(filters, p) == AcceptedTexts(filters, Nodes(p))
    decreases p
  {
    PhrasesOfAreAcceptedTexts(filters, p.children);
    AcceptedTextsUnion(filters, {p}, NodesOf(p.children));
  }

  lemma {:induction false} PhrasesOfAreAcceptedTexts(filters: seq<Filter>, ps: seq<Parse>)
    ensures PhrasesOf(filters, ps) == AcceptedTexts(filters, NodesOf(ps))
    decreases ps
  {
    if ps != [] {
      PhrasesOfAreAcceptedTexts(filters, ps[..|ps| - 1]);
      PhrasesAreAcceptedTexts(filters, ps[|ps| - 1]);
      AcceptedTextsUnion(filters, NodesOf(ps[..|ps| - 1]), Nodes(ps[|ps| - 1]));
    }
  }

  /**
   * A string is extracted from a tree exactly when some node of the tree is
   * labelled "NP", has that string as its text, and no filter rejects its tag path.
   */
  lemma PhraseMembership(filters: seq<Filter>, t: Parse, x: string)
    ensures x in Phrases(filters, t) <==>
              exists n :: n in Nodes(t) && n.category == "NP" && n.text == x
                          && !exists i :: 0 <= i < |filters| && Matches(filters[i], TagPath(n))
  {
    PhrasesAreAcceptedTexts(filters, t);
    forall n | n in Nodes(t)
      ensures Accepted(filters, n) <==>
                n.category == "NP" && !exists i :: 0 <= i < |filters| && Matches(filters[i], TagPath(n))
    {
      RejectedIff(filters, TagPath(n));
    }
  }

  /**
   * Rejection is local: an accepted "NP" anywhere below any node of the tree,
   * a rejected "NP" among them, is still extracted, because the walk never prunes.
   */
  lemma NestedPhraseKept(filters: seq<Filter>, t: Parse, outer: Parse, inner: Parse)
    requires outer in Nodes(t) && inner in Nodes(outer)
    requires Accepted(filters, inner)
    ensures inner.text in Phrases(filters, t)
  {
    NodesTransitive(t, outer, inner);
    PhrasesAreAcceptedTexts(filters, t);
  }

  /** The result over several top-level parses is the union of their results. */
  lemma {:induction false} PhrasesOfMembership(filters: seq<Filter>, ps: seq<Parse>, x: string)
    ensures x in PhrasesOf(filters, ps) <==> exists i :: 0 <= i < |ps| && x in Phrases(filters, ps[i])
    decreases ps
  {
    if ps != [] {
      var init := ps[..|ps| - 1];
      PhrasesOfMembership(filters, init, x);
      assert forall i :: 0 <= i < |init| ==> init[i] == ps[i];
    }
  }

  // ---------------------------------------------------------------------------
  // How the result depends on the chain

  /** Using more filters can only shrink the result. */
  lemma MoreFiltersFewerPhrases(f1: seq<Filter>, f2: seq<Filter>, t: Parse)
    requires forall f :: f in f1 ==> f in f2
    ensures Phrases(f2, t) <= Phrases(f1, t)
  {
    PhrasesAreAcceptedTexts(f1, t);
    PhrasesAreAcceptedTexts(f2, t);
    forall n | n in Nodes(t) && Accepted(f2, n)
      ensures Accepted(f1, n)
    {
      RejectedWiden(f1, f2, TagPath(n));
    }
  }

  /** Appending a filter to the chain can only shrink the result. */
  lemma AppendFilterShrinks(filters: seq<Filter>, g: Filter, t: Parse)
    ensures Phrases(filters + [g], t) <= Phrases(filters, t)
  {
    MoreFiltersFewerPhrases(filters, filters + [g], t);
  }

  /** Reordering the chain, or repeating filters in it, leaves the result unchanged. */
  lemma ChainOrderIrrelevant(f1: seq<Filter>, f2: seq<Filter>, t: Parse)
    requires forall f :: f in f1 <==> f in f2
    ensures Phrases(f1, t) == Phrases(f2, t)
  {
    MoreFiltersFewerPhrases(f1, f2, t);
    MoreFiltersFewerPhrases(f2, f1, t);
  }

  /** With no filter, the text of every "NP" node is extracted. */
  lemma EmptyChainKeepsEveryNounPhrase(t: Parse)
    ensures Phrases([], t) == set n | n in Nodes(t) && n.category == "NP" :: n.text
  {
    PhrasesAreAcceptedTexts([], t);
  }

  /**
   * The tags the default chain rejects: a determiner followed by a common noun
   * ("dt nn", "dt nns", ... but not "dt nnp"), a lone "nn" or "nnp", or five or
   * more tags whose first four have two to four word characters.
   */
  predicate DefaultRejectsTags(ws: seq<string>) {
    || (&& |ws| >= 2 && ws[0] == "dt"
        && |ws[1]| >= 2 && ws[1][..2] == "nn"
        && (|ws[1]| == 2 || ws[1][2] != 'p'))
    || ws == ["nn"] || ws == ["nnp"]
    || (|ws| >= 5 && forall i :: 0 <= i < 4 ==> ValidWord(ws[i]))
  }

  /**
   * The default chain rejects a path of plain tags exactly when the tags are of
   * one of those three shapes.
   */
  lemma DefaultFiltersOnTags(ws: seq<string>)
    requires PlainTags(ws)
    ensures Rejected(DefaultFilters, Join(ws)) <==> DefaultRejectsTags(ws)
  {
    RejectedIff(DefaultFilters, Join(ws));
    assert DefaultFilters[0] == RejectDetNoun && DefaultFilters[1] == RejectSingleNounOrProper;
    assert DefaultFilters[2] == RejectLong;
    DetNounOnTags(ws);
    SingleNounOrProperOnTags(ws);
    LongOnTags(ws);
  }

  /**
   * What an extractor built with the one-argument constructor keeps from a tree
   * whose tags are plain: the text of every "NP" node whose lower-cased tags the
   * default chain does not reject.
   */
  lemma DefaultPhraseMembership(sentence: string, t: Parse, x: string)
    requires forall n :: n in Nodes(t) ==> HasPlainTags(n)
    ensures x in Phrases(WithDefaultFilters(sentence).filters, t) <==>
              exists n :: n in Nodes(t) && n.category == "NP" && n.text == x
                          && !DefaultRejectsTags(LowerTags(TagNodes(n)))
  {
    PhrasesAreAcceptedTexts(DefaultFilters, t);
    forall n | n in Nodes(t)
      ensures Accepted(DefaultFilters, n) <==> n.category == "NP" && !DefaultRejectsTags(LowerTags(TagNodes(n)))
    {
      LowerTagsPlain(TagNodes(n));
      DefaultFiltersOnTags(LowerTags(TagNodes(n)));
    }
  }
}
