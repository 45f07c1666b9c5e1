/**
 * The parser's output tree, consumed read-only. A node has a constituent
 * category ("NP", "VP", or a part-of-speech tag such as "NN" on a pre-terminal),
 * its children in surface order, and its rendered surface text. A childless
 * node is a tag node: it carries a part-of-speech tag, and its word is its text
 * (the token node OpenNLP keeps below each tag is folded into it).
 */
module Trees {

  datatype Parse = Parse(category: string, children: seq<Parse>, text: string)

  predicate IsTagNode(p: Parse) {
    p.children == []
  }

  /**
   * The tag nodes below `p`, left to right. The search starts at the children of
   * `p`, so a tag node has no tag nodes of its own.
   */
  function TagNodes(p: Parse): (r: seq<Parse>)
    ensures forall i :: 0 <= i < |r| ==> IsTagNode(r[i])
    decreases p, 0
  {
    TagNodesOf(p.children)
  }

  function TagNodesOf(cs: seq<Parse>): (r: seq<Parse>)
    ensures forall i :: 0 <= i < |r| ==> IsTagNode(r[i])
    decreases cs
  {
    if cs == [] then []
    else TagNodesAt(cs[0]) + TagNodesOf(cs[1..])
  }

  /** What one child adds to its parent's tag nodes: itself if it is a tag node, else its own tag nodes. */
  function TagNodesAt(c: Parse): (r: seq<Parse>)
    ensures forall i :: 0 <= i < |r| ==> IsTagNode(r[i])
    decreases c, 1
  {
    if IsTagNode(c) then [c] else TagNodes(c)
  }

  /** Every node of the tree rooted at `p`, `p` included. */
  function Nodes(p: Parse): (r: set<Parse>)
    decreases p
  {
    {p} + NodesOf(p.children)
  }

  /** The nodes of a sequence of trees; the last tree is taken off first. */
  function NodesOf(cs: seq<Parse>): (r: set<Parse>)
    decreases cs
  {
    if cs == [] then {} else NodesOf(cs[..|cs| - 1]) + Nodes(cs[|cs| - 1])
  }

  /** The nodes of a sequence of trees are the nodes of its members, whatever their number. */
  lemma {:induction false} NodesOfMembers(cs: seq<Parse>, n: Parse)
    ensures n in NodesOf(cs) <==> exists i :: 0 <= i < |cs| && n in Nodes(cs[i])
    decreases cs
  {
    if cs != [] {
      var init := cs[..|cs| - 1];
      NodesOfMembers(init, n);
      assert forall i :: 0 <= i < |init| ==> init[i] == cs[i];
    }
  }

  /** Being a node of is transitive: the subtree of a node holds only nodes of the whole tree. */
  lemma {:induction false} NodesTransitive(t: Parse, n: Parse, m: Parse)
    requires n in Nodes(t) && m in Nodes(n)
    ensures m in Nodes(t)
    decreases t
  {
    if n != t {
      NodesOfTransitive(t.children, n, m);
    }
  }

  lemma {:induction false} NodesOfTransitive(cs: seq<Parse>, n: Parse, m: Parse)
    requires n in NodesOf(cs) && m in Nodes(n)
    ensures m in NodesOf(cs)
    decreases cs
  {
    var last := cs[|cs| - 1];
    if n in Nodes(last) {
      NodesTransitive(last, n, m);
    } else {
      NodesOfTransitive(cs[..|cs| - 1], n, m);
    }
  }

  /** The tag nodes of consecutive trees are those of the first followed by those of the second. */
  lemma {:induction false} TagNodesOfAppend(a: seq<Parse>, b: seq<Parse>)
    ensures TagNodesOf(a + b) == TagNodesOf(a) + TagNodesOf(b)
    decreases a
  {
    if a == [] {
      assert a + b == b;
    } else {
      assert (a + b)[0] == a[0] && (a + b)[1..] == a[1..] + b;
      TagNodesOfAppend(a[1..], b);
    }
  }

  /**
   * `getTagNodes` finds every tag node below `p` and nothing else: a node is
   * returned exactly when it is a childless node of one of `p`'s subtrees.
   */
  lemma {:induction false} TagNodesExactly(p: Parse, n: Parse)
    ensures n in TagNodes(p) <==> n in NodesOf(p.children) && IsTagNode(n)
    decreases p, 0
  {
    TagNodesOfExactly(p.children, n);
  }

  lemma {:induction false} TagNodesAtExactly(c: Parse, n: Parse)
    ensures n in TagNodesAt(c) <==> n in Nodes(c) && IsTagNode(n)
    decreases c, 1
  {
    if !IsTagNode(c) {
      TagNodesExactly(c, n);
    }
  }

  lemma {:induction false} TagNodesOfExactly(cs: seq<Parse>, n: Parse)
    ensures n in TagNodesOf(cs) <==> n in NodesOf(cs) && IsTagNode(n)
    decreases cs
  {
    NodesOfMembers(cs, n);
    if cs != [] {
      TagNodesAtExactly(cs[0], n);
      TagNodesOfExactly(cs[1..], n);
      NodesOfMembers(cs[1..], n);
      assert forall i :: 1 <= i < |cs| ==> cs[1..][i - 1] == cs[i];
    }
  }
}
