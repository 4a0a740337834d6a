/**
 The parts of an lxml HTML element tree that libextract's formatters read:
 an element's tag, its attributes, its leading `text`, the `tail` text that
 follows its closing tag inside the parent, and its ordered children. Built
 from this are `text_content()` (all text of the subtree, in document order)
 and `iter(tag)` (the elements of the subtree with a given tag, the element
 itself included, in document order).
 */
module Html {
  import opened Seqs

  datatype Option<+T> = None | Some(value: T)

  /** One element of the parsed document. `text` and `tail` are `None` where
      lxml returns Python's `None`. */
  datatype Node = Node(
    tag: string,
    attrs: map<string, string>,
    text: Option<string>,
    tail: Option<string>,
    children: seq<Node>)

  function OrEmpty(s: Option<string>): string
  {
    match s
    case None => ""
    case Some(t) => t
  }

  /** lxml's `text_content()`: the element's text, then each child's text
      content followed by that child's tail. The element's own tail is not
      part of it. */
  function TextContent(n: Node): string
    decreases n, 1
  {
    OrEmpty(n.text) + Flatten(ChildTexts(n))
  }

  function ChildTexts(n: Node): (r: seq<string>)
    ensures |r| == |n.children|
    decreases n, 0
  {
    seq(|n.children|, i requires 0 <= i < |n.children| =>
      TextContent(n.children[i]) + OrEmpty(n.children[i].tail))
  }

  /** Every element of the subtree rooted at `n`, in document (pre-)order. */
  function Subtree(n: Node): (r: seq<Node>)
    ensures |r| > 0 && r[0] == n
    decreases n, 1
  {
    [n] + Flatten(ChildSubtrees(n))
  }

  function ChildSubtrees(n: Node): (r: seq<seq<Node>>)
    ensures |r| == |n.children|
    decreases n, 0
  {
    seq(|n.children|, i requires 0 <= i < |n.children| => Subtree(n.children[i]))
  }

  /** The elements of `ns` whose tag is `tag`, in order. */
  function WithTag(ns: seq<Node>, tag: string): (r: seq<Node>)
    ensures |r| <= |ns|
  {
    if ns == [] then []
    else (if ns[0].tag == tag then [ns[0]] else []) + WithTag(ns[1..], tag)
  }

  /** lxml's `iter(tag)`: the element itself when its tag matches, then the
      matching elements of each child's subtree, child by child. */
  function Iter(n: Node, tag: string): (r: seq<Node>)
    ensures forall i :: 0 <= i < |r| ==> r[i].tag == tag
    decreases n, 1
  {
    var here := if n.tag == tag then [n] else [];
    var below := ChildIters(n, tag);
    FlattenKeepsProperty(below, tag);
    here + Flatten(below)
  }

  function ChildIters(n: Node, tag: string): (r: seq<seq<Node>>)
    ensures |r| == |n.children|
    ensures forall i, j :: 0 <= i < |r| && 0 <= j < |r[i]| ==> r[i][j].tag == tag
    decreases n, 0
  {
    seq(|n.children|, i requires 0 <= i < |n.children| => Iter(n.children[i], tag))
  }

  lemma {:induction false} FlattenKeepsProperty(xss: seq<seq<Node>>, tag: string)
    requires forall i, j :: 0 <= i < |xss| && 0 <= j < |xss[i]| ==> xss[i][j].tag == tag
    ensures forall k :: 0 <= k < |Flatten(xss)| ==> Flatten(xss)[k].tag == tag
  {
    if xss != [] {
      FlattenKeepsProperty(xss[1..], tag);
      var f := Flatten(xss);
      assert f == xss[0] + Flatten(xss[1..]);
      forall k | 0 <= k < |f| ensures f[k].tag == tag {
        if k < |xss[0]| {
          assert f[k] == xss[0][k];
        } else {
          assert f[k] == Flatten(xss[1..])[k - |xss[0]|];
        }
      }
    }
  }

  /** Filtering by tag distributes over concatenation. */
  lemma {:induction false} WithTagAppend(a: seq<Node>, b: seq<Node>, tag: string)
    ensures WithTag(a + b, tag) == WithTag(a, tag) + WithTag(b, tag)
  {
    if a == [] {
      assert a + b == b;
    } else {
      var head := if a[0].tag == tag then [a[0]] else [];
      calc {
        WithTag(a + b, tag);
        { assert (a + b)[0] == a[0]; assert (a + b)[1..] == a[1..] + b; }
        head + WithTag(a[1..] + b, tag);
        { WithTagAppend(a[1..], b, tag); }
        head + (WithTag(a[1..], tag) + WithTag(b, tag));
        (head + WithTag(a[1..], tag)) + WithTag(b, tag);
      }
    }
  }

  /** Filtering a flattened sequence is flattening the filtered pieces. */
  lemma {:induction false} WithTagFlatten(xss: seq<seq<Node>>, tag: string)
    ensures WithTag(Flatten(xss), tag)
         == Flatten(seq(|xss|, i requires 0 <= i < |xss| => WithTag(xss[i], tag)))
  {
    var m := seq(|xss|, i requires 0 <= i < |xss| => WithTag(xss[i], tag));
    if xss != [] {
      WithTagAppend(xss[0], Flatten(xss[1..]), tag);
      WithTagFlatten(xss[1..], tag);
      assert m[1..] == seq(|xss[1..]|, i requires 0 <= i < |xss[1..]| => WithTag(xss[1..][i], tag));
    }
  }

  /** `iter(tag)` is exactly the document-order walk of the subtree filtered
      by tag: it misses no matching element, adds none, and keeps their order. */
  lemma {:induction false} IterIsFilteredSubtree(n: Node, tag: string)
    ensures Iter(n, tag) == WithTag(Subtree(n), tag)
    decreases n
  {
    var subs := ChildSubtrees(n);
    WithTagAppend([n], Flatten(subs), tag);
    WithTagFlatten(subs, tag);
    var filtered := seq(|subs|, i requires 0 <= i < |subs| => WithTag(subs[i], tag));
    forall i | 0 <= i < |n.children|
      ensures ChildIters(n, tag)[i] == filtered[i]
    {
      IterIsFilteredSubtree(n.children[i], tag);
    }
    assert ChildIters(n, tag) == filtered;
  }
}
