/**
 * The tag path of a node (`NounPhraseFilter.posAsString`): the lower-cased
 * part-of-speech tags of the node's tag nodes, left to right, joined by single
 * spaces. It is the only thing about a node that the rejection filters look at.
 */
module TagPaths {
  import opened Text
  import opened Trees

  /** The lower-cased categories of a sequence of nodes, in order. */
  function LowerTags(ts: seq<Parse>): (r: seq<string>)
    ensures |r| == |ts|
    ensures forall i :: 0 <= i < |ts| ==> r[i] == LowerCase(ts[i].category)
  {
    if ts == [] then [] else LowerTags(ts[..|ts| - 1]) + [LowerCase(ts[|ts| - 1].category)]
  }

  /** The tag path of `p`, as a value. */
  function TagPath(p: Parse): (r: string) {
    Join(LowerTags(TagNodes(p)))
  }

  /** A tag the parser produces: no spaces and no line terminators. */
  predicate PlainTag(w: string) {
    forall i :: 0 <= i < |w| ==> w[i] != ' ' && !IsLineTerminator(w[i])
  }

  predicate PlainTags(ws: seq<string>) {
    forall i :: 0 <= i < |ws| ==> PlainTag(ws[i])
  }

  /** The categories of a node's tag nodes, all plain. */
  predicate HasPlainTags(p: Parse) {
    forall i :: 0 <= i < |TagNodes(p)| ==> PlainTag(TagNodes(p)[i].category)
  }

  /**
   * `posAsString`: collects the lower-cased tags in a list, one tag node at a
   * time, then joins them with single spaces.
   */
  method PosAsString(p: Parse) returns (path: string)
    ensures path == TagPath(p)
  {
    var tags := TagNodes(p);
    var pos: seq<string> := [];
    for i := 0 to |tags|
      invariant pos == LowerTags(tags[..i])
    {
      pos := pos + [LowerCase(tags[i].category)];
      assert tags[..i + 1][..i] == tags[..i];
    }
    assert tags[..|tags|] == tags;
    path := Join(pos);
  }

  /** Lower-casing keeps a tag plain. */
  lemma LowerCasePlain(w: string)
    requires PlainTag(w)
    ensures PlainTag(LowerCase(w))
  {
    forall j | 0 <= j < |w|
      ensures LowerCase(w)[j] != ' ' && !IsLineTerminator(LowerCase(w)[j])
    {
      assert LowerCase(w)[j] == ToLower(w[j]);
    }
  }

  /** Lower-casing keeps every tag of a sequence plain. */
  lemma LowerTagsPlain(ts: seq<Parse>)
    requires forall i :: 0 <= i < |ts| ==> PlainTag(ts[i].category)
    ensures PlainTags(LowerTags(ts))
  {
    forall i | 0 <= i < |ts|
      ensures PlainTag(LowerTags(ts)[i])
    {
      LowerCasePlain(ts[i].category);
    }
  }

  /**
   * The tag path of a node with n plain tag nodes has exactly n - 1 spaces, and
   * is empty when the node has no tag nodes.
   */
  lemma TagPathSpaces(p: Parse)
    requires HasPlainTags(p)
    ensures Spaces(TagPath(p)) == if |TagNodes(p)| == 0 then 0 else |TagNodes(p)| - 1
    ensures |TagNodes(p)| == 0 ==> TagPath(p) == ""
  {
    LowerTagsPlain(TagNodes(p));
    JoinSpaces(LowerTags(TagNodes(p)));
  }

  /**
   * The tag path determines the lower-cased tags: two nodes with at least one plain
   * tag node each have the same tag path exactly when their lower-cased tag
   * sequences are equal. Nothing else about a node (its category, text or shape)
   * enters the tag path.
   */
  lemma TagPathDeterminesTags(p: Parse, q: Parse)
    requires HasPlainTags(p) && |TagNodes(p)| >= 1
    requires HasPlainTags(q) && |TagNodes(q)| >= 1
    ensures TagPath(p) == TagPath(q) <==> LowerTags(TagNodes(p)) == LowerTags(TagNodes(q))
  {
    LowerTagsPlain(TagNodes(p));
    LowerTagsPlain(TagNodes(q));
    if TagPath(p) == TagPath(q) {
      JoinInjective(LowerTags(TagNodes(p)), LowerTags(TagNodes(q)));
    }
  }

  /** Splitting the tag path at its spaces gives back the lower-cased tags. */
  lemma TagPathSplits(p: Parse)
    requires HasPlainTags(p) && |TagNodes(p)| >= 1
    ensures Split(TagPath(p)) == LowerTags(TagNodes(p))
  {
    LowerTagsPlain(TagNodes(p));
    SplitJoin(LowerTags(TagNodes(p)));
  }
}
