/**
 * The crash reporter's description of where an element sits in the page:
 * a CSS-like selector per node, the path of tagged ancestors down to the
 * element, and its indented rendering.
 */
module NodeTree {
  import opened Wrappers
  import opened Text

  /**
   * A node, named by its position in document order: a parent always comes
   * before its children.
   */
  type NodeId = nat

  /**
   * The fields the reporter reads. An empty `tagName` stands for a node that
   * has none (the document itself); an empty `id` is one that is unset.
   */
  datatype NodeInfo = NodeInfo(nodeName: string, tagName: string, id: string, classes: seq<string>)

  /** A document: the fields of every node, and `parentNode` for the nodes that have one. */
  datatype Dom = Dom(info: NodeId -> NodeInfo, parent: map<NodeId, NodeId>)

  /** Parents precede their children in document order, so walking up ends. */
  predicate WellFormed(d: Dom)
  {
    forall n :: n in d.parent ==> d.parent[n] < n
  }

  /** `.a.b.c` for the classes sorted, or nothing when there are none. */
  function ClassSelector(classes: seq<string>): (s: string)
    ensures s == "" <==> |classes| == 0
  {
    if |classes| == 0 then "" else "." + Join(Sort(classes), '.')
  }

  /**
   * `getNodeSelector`: the node name of an untagged node; otherwise the
   * lower-cased tag, then `#id` when the id is set, then the sorted classes.
   */
  function NodeSelector(n: NodeInfo): (s: string)
    ensures n.tagName == "" ==> s == n.nodeName
    ensures n.tagName != "" ==> |s| >= |n.tagName| && s[..|n.tagName|] == ToLowerAscii(n.tagName)
    ensures n.tagName != "" && n.id == "" && |n.classes| == 0 ==> s == ToLowerAscii(n.tagName)
  {
    if n.tagName == "" then n.nodeName
    else ToLowerAscii(n.tagName) + (if n.id != "" then "#" + n.id else "") + ClassSelector(n.classes)
  }

  /** The order in which an element lists its classes does not show in its selector. */
  lemma SelectorIgnoresClassOrder(n: NodeInfo, classes: seq<string>)
    requires multiset(classes) == multiset(n.classes)
    ensures NodeSelector(n.(classes := classes)) == NodeSelector(n)
  {
    assert |classes| == |multiset(classes)| == |n.classes|;
    SortPermutationInvariant(classes, n.classes);
  }

  /** The node has a parent, and that parent has a tag name. */
  predicate HasTaggedParent(d: Dom, n: NodeId)
  {
    n in d.parent && d.info(d.parent[n]).tagName != ""
  }

  /** The tagged ancestors of `n`, outermost first, then `n` itself. */
  function AncestorPath(d: Dom, n: NodeId): seq<NodeId>
    requires WellFormed(d)
    decreases n
  {
    if HasTaggedParent(d, n) then AncestorPath(d, d.parent[n]) + [n] else [n]
  }

  /** Node `i - 1` of the path is the tagged parent of node `i`. */
  predicate ParentLink(d: Dom, path: seq<NodeId>, i: nat)
    requires 1 <= i < |path|
  {
    path[i] in d.parent && d.parent[path[i]] == path[i - 1] && d.info(path[i - 1]).tagName != ""
  }

  /**
   * A path of nodes each of which is the parent of the next and has a tag
   * name, and whose first node has no tagged parent.
   */
  predicate IsParentChain(d: Dom, path: seq<NodeId>)
  {
    && |path| >= 1
    && !HasTaggedParent(d, path[0])
    && forall i :: 1 <= i < |path| ==> ParentLink(d, path, i)
  }

  /** The ancestor path of `n` ends at `n` and is a parent chain. */
  lemma {:induction false} AncestorPathIsChain(d: Dom, n: NodeId)
    requires WellFormed(d)
    ensures IsParentChain(d, AncestorPath(d, n))
    ensures AncestorPath(d, n)[|AncestorPath(d, n)| - 1] == n
    decreases n
  {
    if HasTaggedParent(d, n) {
      var up := AncestorPath(d, d.parent[n]);
      AncestorPathIsChain(d, d.parent[n]);
      var path := up + [n];
      assert path[0] == up[0];
      forall i | 1 <= i < |path| ensures ParentLink(d, path, i) {
        if i < |up| {
          assert ParentLink(d, up, i);
          assert path[i] == up[i] && path[i - 1] == up[i - 1];
        }
      }
    }
  }

  /** A parent chain ending at `n` is the ancestor path of `n`: there is no other. */
  lemma {:induction false} ChainIsAncestorPath(d: Dom, path: seq<NodeId>)
    requires WellFormed(d) && IsParentChain(d, path)
    ensures path == AncestorPath(d, path[|path| - 1])
    decreases |path|
  {
    var n := path[|path| - 1];
    if |path| > 1 {
      var prefix := path[..|path| - 1];
      assert IsParentChain(d, prefix) by {
        forall i | 1 <= i < |prefix| ensures ParentLink(d, prefix, i) {
          assert ParentLink(d, path, i);
          assert prefix[i] == path[i] && prefix[i - 1] == path[i - 1];
        }
      }
      ChainIsAncestorPath(d, prefix);
      assert ParentLink(d, path, |path| - 1);
      assert path == prefix + [n];
    }
  }

  /** `getNodeTree` as a value: nothing for a missing element, else its ancestor path. */
  function NodePath(d: Dom, elem: Option<NodeId>): seq<NodeId>
    requires WellFormed(d)
  {
    if elem.None? then [] else AncestorPath(d, elem.value)
  }

  /** `getNodeTree`: walk up while the parent has a tag name, prepending each parent. */
  method GetNodeTree(d: Dom, elem: Option<NodeId>) returns (tree: seq<NodeId>)
    requires WellFormed(d)
    ensures tree == NodePath(d, elem)
  {
    if elem.None? {
      return [];
    }
    var e := elem.value;
    tree := [e];
    while e in d.parent && d.info(d.parent[e]).tagName != ""
      invariant |tree| >= 1 && tree[0] == e
      invariant AncestorPath(d, elem.value) == AncestorPath(d, e) + tree[1..]
      decreases e
    {
      tree := [d.parent[e]] + tree;
      e := d.parent[e];
    }
  }

  /** One line of the reporter's output: `level` spaces, then the node's selector. */
  function Line(d: Dom, level: nat, node: NodeId): string
  {
    Indent(level) + NodeSelector(d.info(node))
  }

  /** `getNodeTreeString`: the path's lines, the i-th indented by `i`, joined by newlines. */
  function GetNodeTreeString(d: Dom, elem: Option<NodeId>): (s: string)
    requires WellFormed(d)
    ensures elem.None? ==> s == ""
  {
    var path := NodePath(d, elem);
    Join(seq(|path|, i requires 0 <= i < |path| => Line(d, i, path[i])), '\n')
  }

  /** No selector in the document holds a line break. */
  ghost predicate SingleLineSelectors(d: Dom)
  {
    forall n: NodeId :: '\n' !in NodeSelector(d.info(n))
  }

  /**
   * Read back line by line, the rendering of an element's path has one line
   * per path node, the i-th being i spaces and then that node's selector.
   */
  lemma NodeTreeStringLines(d: Dom, elem: NodeId)
    requires WellFormed(d) && SingleLineSelectors(d)
    ensures var path := AncestorPath(d, elem);
            var lines := Split(GetNodeTreeString(d, Some(elem)), '\n');
            && |lines| == |path|
            && forall i :: 0 <= i < |lines| ==> lines[i] == Indent(i) + NodeSelector(d.info(path[i]))
  {
    var path := AncestorPath(d, elem);
    AncestorPathIsChain(d, elem);
    var lines := seq(|path|, i requires 0 <= i < |path| => Line(d, i, path[i]));
    forall k | 0 <= k < |lines| ensures '\n' !in lines[k] {
      assert '\n' !in Indent(k);
      assert '\n' !in NodeSelector(d.info(path[k]));
    }
    SplitJoin(lines, '\n');
  }

  /** A node of the merged tree: its depth, the DOM node it stands for, and its children in insertion order. */
  datatype Entry = Entry(level: nat, node: NodeId, children: seq<Entry>)

  /** Every child sits one level below its parent, all the way down. */
  predicate Leveled(e: Entry)
    decreases e
  {
    forall i :: 0 <= i < |e.children| ==> e.children[i].level == e.level + 1 && Leveled(e.children[i])
  }

  /** No entry has two children for the same node, all the way down. */
  predicate DistinctChildren(e: Entry)
    decreases e
  {
    && (forall i, j :: 0 <= i < j < |e.children| ==> e.children[i].node != e.children[j].node)
    && (forall i :: 0 <= i < |e.children| ==> DistinctChildren(e.children[i]))
  }

  /** `createNodeEntry(node, level)`: a childless entry, trivially leveled and distinct. */
  function CreateNodeEntry(node: NodeId, level: nat): (e: Entry)
    ensures e.node == node && e.level == level && |e.children| == 0
    ensures Leveled(e) && DistinctChildren(e)
  {
    Entry(level, node, [])
  }

  /** The entries of a tree in depth-first pre-order. */
  function PreOrder(e: Entry): (es: seq<Entry>)
    ensures |es| >= 1 && es[0] == e
    decreases e, 1
  {
    [e] + PreOrderAll(e.children)
  }

  /** The pre-orders of a list of sibling trees, one after the other. */
  function PreOrderAll(cs: seq<Entry>): seq<Entry>
    decreases cs, 0
  {
    if |cs| == 0 then [] else PreOrder(cs[0]) + PreOrderAll(cs[1..])
  }

  /** The position of the first entry for `node`, or the length when there is none. */
  function FirstIndex(es: seq<Entry>, node: NodeId): (k: nat)
    ensures k <= |es|
    ensures k < |es| ==> es[k].node == node
    ensures forall j :: 0 <= j < k ==> es[j].node != node
  {
    if |es| == 0 then 0
    else if es[0].node == node then 0
    else 1 + FirstIndex(es[1..], node)
  }

  /** The first match in a concatenation is the first match in the front part, if it has one. */
  lemma FirstIndexAppend(a: seq<Entry>, b: seq<Entry>, node: NodeId)
    ensures FirstIndex(a + b, node) == if FirstIndex(a, node) < |a| then FirstIndex(a, node) else |a| + FirstIndex(b, node)
  {
    var k := FirstIndex(a + b, node);
    var ka := FirstIndex(a, node);
    if ka < |a| {
      assert (a + b)[ka] == a[ka];
    } else {
      var kb := FirstIndex(b, node);
      assert forall j :: 0 <= j < |a| ==> (a + b)[j] == a[j];
      if kb < |b| {
        assert (a + b)[|a| + kb] == b[kb];
      }
      assert forall j :: |a| <= j < |a| + kb ==> (a + b)[j] == b[j - |a|];
    }
  }

  /** `findEntry(node, entry)`: the entry itself when it is for `node`, else the first find among its children. */
  function FindEntry(node: NodeId, e: Entry): Option<Entry>
    decreases e, 1
  {
    if e.node == node then Some(e) else FindInChildren(node, e.children)
  }

  /** The loop of `findEntry` over the children: the first child subtree holding `node` answers. */
  function FindInChildren(node: NodeId, cs: seq<Entry>): Option<Entry>
    decreases cs, 0
  {
    if |cs| == 0 then None
    else match FindEntry(node, cs[0])
      case Some(found) => Some(found)
      case None => FindInChildren(node, cs[1..])
  }

  /**
   * `findEntry` answers the first entry for `node` in depth-first pre-order,
   * and nothing when no entry of the tree is for `node`.
   */
  lemma {:induction false} FindEntryIsFirstInPreOrder(node: NodeId, e: Entry)
    ensures var pre := PreOrder(e);
            var k := FirstIndex(pre, node);
            FindEntry(node, e) == if k < |pre| then Some(pre[k]) else None
    decreases e, 1
  {
    if e.node != node {
      FindInChildrenIsFirstInPreOrder(node, e.children);
      FirstIndexAppend([e], PreOrderAll(e.children), node);
      var pre := PreOrder(e);
      var k := FirstIndex(PreOrderAll(e.children), node);
      if k < |PreOrderAll(e.children)| {
        assert pre[1 + k] == PreOrderAll(e.children)[k];
      }
    }
  }

  lemma {:induction false} FindInChildrenIsFirstInPreOrder(node: NodeId, cs: seq<Entry>)
    ensures var pre := PreOrderAll(cs);
            var k := FirstIndex(pre, node);
            FindInChildren(node, cs) == if k < |pre| then Some(pre[k]) else None
    decreases cs, 0
  {
    if |cs| > 0 {
      var first, rest := PreOrder(cs[0]), PreOrderAll(cs[1..]);
      FindEntryIsFirstInPreOrder(node, cs[0]);
      FindInChildrenIsFirstInPreOrder(node, cs[1..]);
      FirstIndexAppend(first, rest, node);
      var ka, kb := FirstIndex(first, node), FirstIndex(rest, node);
      if ka < |first| {
        assert (first + rest)[ka] == first[ka];
      } else if kb < |rest| {
        assert (first + rest)[|first| + kb] == rest[kb];
      }
    }
  }

  /** The line of one entry: indented by its level. */
  function EntryLine(d: Dom, e: Entry): string
  {
    Line(d, e.level, e.node)
  }

  /** `entryToString(entry)`: the entry's line, then each child's rendering, joined by newlines. */
  function EntryToString(d: Dom, e: Entry): string
    decreases e, 1
  {
    Join([EntryLine(d, e)] + ChildStrings(d, e.children), '\n')
  }

  /** The renderings of the children, in order. */
  function ChildStrings(d: Dom, cs: seq<Entry>): (ss: seq<string>)
    ensures |ss| == |cs|
    decreases cs, 0
  {
    if |cs| == 0 then [] else [EntryToString(d, cs[0])] + ChildStrings(d, cs[1..])
  }

  /** The lines of a list of entries. */
  function EntryLines(d: Dom, es: seq<Entry>): (lines: seq<string>)
    ensures |lines| == |es|
    ensures forall i :: 0 <= i < |es| ==> lines[i] == EntryLine(d, es[i])
  {
    seq(|es|, i requires 0 <= i < |es| => EntryLine(d, es[i]))
  }

  /** `entryToString` prints one line per entry, in depth-first pre-order, each indented by its level. */
  lemma {:induction false} EntryToStringIsPreOrder(d: Dom, e: Entry)
    ensures EntryToString(d, e) == Join(EntryLines(d, PreOrder(e)), '\n')
    decreases e, 1
  {
    var rest := PreOrderAll(e.children);
    assert EntryLines(d, PreOrder(e)) == [EntryLine(d, e)] + EntryLines(d, rest);
    if |e.children| > 0 {
      ChildStringsArePreOrder(d, e.children);
      JoinAppend([EntryLine(d, e)], ChildStrings(d, e.children), '\n');
      JoinAppend([EntryLine(d, e)], EntryLines(d, rest), '\n');
      assert |rest| >= 1;
    } else {
      assert [EntryLine(d, e)] + ChildStrings(d, e.children) == [EntryLine(d, e)];
      assert rest == [];
      assert EntryLines(d, PreOrder(e)) == [EntryLine(d, e)];
    }
  }

  lemma {:induction false} ChildStringsArePreOrder(d: Dom, cs: seq<Entry>)
    requires |cs| > 0
    ensures Join(ChildStrings(d, cs), '\n') == Join(EntryLines(d, PreOrderAll(cs)), '\n')
    decreases cs, 0
  {
    EntryToStringIsPreOrder(d, cs[0]);
    var first := EntryLines(d, PreOrder(cs[0]));
    assert EntryLines(d, PreOrderAll(cs)) == first + EntryLines(d, PreOrderAll(cs[1..]));
    if |cs| == 1 {
      assert ChildStrings(d, cs) == [EntryToString(d, cs[0])];
      assert cs[1..] == [];
      assert EntryLines(d, PreOrderAll(cs)) == first;
    } else {
      ChildStringsArePreOrder(d, cs[1..]);
      assert |PreOrderAll(cs[1..])| >= 1;
      JoinAppend([EntryToString(d, cs[0])], ChildStrings(d, cs[1..]), '\n');
      JoinAppend(first, EntryLines(d, PreOrderAll(cs[1..])), '\n');
    }
  }

  /** A cursor is a list of child positions leading from the root to one entry. */
  predicate ValidCursor(e: Entry, c: seq<nat>)
    decreases |c|
  {
    |c| == 0 || (c[0] < |e.children| && ValidCursor(e.children[c[0]], c[1..]))
  }

  /** The entry a cursor leads to. */
  function At(e: Entry, c: seq<nat>): Entry
    requires ValidCursor(e, c)
    decreases |c|
  {
    if |c| == 0 then e else At(e.children[c[0]], c[1..])
  }

  /** The nodes of the entries on the way from the root to the cursor's entry. */
  function NodesAlong(e: Entry, c: seq<nat>): (nodes: seq<NodeId>)
    requires ValidCursor(e, c)
    ensures |nodes| == |c| + 1 && nodes[0] == e.node
    decreases |c|
  {
    if |c| == 0 then [e.node] else [e.node] + NodesAlong(e.children[c[0]], c[1..])
  }

  /** `children.push(child)` on the entry a cursor leads to. */
  function PushAt(e: Entry, c: seq<nat>, child: Entry): (r: Entry)
    requires ValidCursor(e, c)
    ensures r.node == e.node && r.level == e.level
    decreases |c|
  {
    if |c| == 0 then e.(children := e.children + [child])
    else e.(children := e.children[c[0] := PushAt(e.children[c[0]], c[1..], child)])
  }

  /** Stepping from a cursor to one of its entry's children extends the nodes along by that child's node. */
  lemma {:induction false} CursorDown(e: Entry, c: seq<nat>, i: nat)
    requires ValidCursor(e, c) && i < |At(e, c).children|
    ensures ValidCursor(e, c + [i])
    ensures At(e, c + [i]) == At(e, c).children[i]
    ensures NodesAlong(e, c + [i]) == NodesAlong(e, c) + [At(e, c).children[i].node]
    decreases |c|
  {
    if |c| > 0 {
      assert (c + [i])[1..] == c[1..] + [i];
      CursorDown(e.children[c[0]], c[1..], i);
    }
  }

  /**
   * After a push, the cursor of the pushed child leads to it, with the
   * pushed node last on the way.
   */
  lemma {:induction false} PushAtReachesChild(e: Entry, c: seq<nat>, child: Entry)
    requires ValidCursor(e, c)
    ensures ValidCursor(PushAt(e, c, child), c)
    ensures At(PushAt(e, c, child), c).children == At(e, c).children + [child]
    ensures At(PushAt(e, c, child), c).level == At(e, c).level
    ensures NodesAlong(PushAt(e, c, child), c) == NodesAlong(e, c)
    decreases |c|
  {
    if |c| > 0 {
      PushAtReachesChild(e.children[c[0]], c[1..], child);
    }
  }

  /** A push keeps every entry that was there: each old cursor still leads along the same nodes. */
  lemma {:induction false} PushAtKeepsCursor(e: Entry, c: seq<nat>, child: Entry, other: seq<nat>)
    requires ValidCursor(e, c) && ValidCursor(e, other)
    ensures ValidCursor(PushAt(e, c, child), other)
    ensures NodesAlong(PushAt(e, c, child), other) == NodesAlong(e, other)
    decreases |c|
  {
    if |c| > 0 && |other| > 0 && other[0] == c[0] {
      PushAtKeepsCursor(e.children[c[0]], c[1..], child, other[1..]);
    } else if |other| > 0 {
      var r := PushAt(e, c, child);
      assert r.children[other[0]] == e.children[other[0]];
    }
  }

  /** Pushing a leveled child one level below its parent keeps the tree leveled. */
  lemma {:induction false} PushAtKeepsLeveled(e: Entry, c: seq<nat>, child: Entry)
    requires ValidCursor(e, c) && Leveled(e)
    requires Leveled(child) && child.level == At(e, c).level + 1
    ensures Leveled(PushAt(e, c, child))
    decreases |c|
  {
    if |c| > 0 {
      PushAtKeepsLeveled(e.children[c[0]], c[1..], child);
      var r := PushAt(e, c, child);
      forall i | 0 <= i < |r.children| ensures r.children[i].level == r.level + 1 && Leveled(r.children[i]) {
        if i != c[0] {
          assert r.children[i] == e.children[i];
        }
      }
    } else {
      var r := PushAt(e, c, child);
      forall i | 0 <= i < |r.children| ensures r.children[i].level == r.level + 1 && Leveled(r.children[i]) {
        if i < |e.children| {
          assert r.children[i] == e.children[i];
        }
      }
    }
  }

  /** Pushing a child for a node its new parent has no child for keeps children distinct. */
  lemma {:induction false} PushAtKeepsDistinct(e: Entry, c: seq<nat>, child: Entry)
    requires ValidCursor(e, c) && DistinctChildren(e) && DistinctChildren(child)
    requires forall i :: 0 <= i < |At(e, c).children| ==> At(e, c).children[i].node != child.node
    ensures DistinctChildren(PushAt(e, c, child))
    decreases |c|
  {
    var r := PushAt(e, c, child);
    if |c| > 0 {
      assert At(e, c) == At(e.children[c[0]], c[1..]);
      PushAtKeepsDistinct(e.children[c[0]], c[1..], child);
      forall i | 0 <= i < |r.children| ensures DistinctChildren(r.children[i]) {
        if i != c[0] {
          assert r.children[i] == e.children[i];
        }
      }
      assert forall i :: 0 <= i < |r.children| ==> r.children[i].node == e.children[i].node;
    } else {
      assert r.children == e.children + [child];
      forall i | 0 <= i < |r.children| ensures DistinctChildren(r.children[i]) {
        if i < |e.children| {
          assert r.children[i] == e.children[i];
        }
      }
      forall i, j | 0 <= i < j < |r.children| ensures r.children[i].node != r.children[j].node {
        assert r.children[i] == e.children[i];
        if j < |e.children| {
          assert r.children[j] == e.children[j];
        } else {
          assert At(e, c) == e && r.children[j] == child;
        }
      }
    }
  }

  /** The error `getSelectorTreeString` throws when a path starts elsewhere than the tree's root. */
  const NotSameDocument: string := "Cannot create tree of nodes that are not in the same document."

  /** The answer when the selector matches nothing. */
  function NoNodesFound(selector: string): string
  {
    "No nodes found for selector: '" + selector + "'"
  }

  /**
   * The merge's state: `documentTree`, absent until the first node, and
   * `previousEntry` as the cursor of that entry, absent at the start of each path.
   */
  datatype Merge = Merge(tree: Option<Entry>, cursor: Option<seq<nat>>)

  /** A cursor, when there is one, leads into the tree. */
  predicate MergeOk(m: Merge)
  {
    m.cursor.Some? ==> m.tree.Some? && ValidCursor(m.tree.value, m.cursor.value)
  }

  /** The shape the merged tree keeps: root at level 0, every child one level down, no duplicate children. */
  predicate TreeShape(m: Merge)
  {
    m.tree.Some? ==> m.tree.value.level == 0 && Leveled(m.tree.value) && DistinctChildren(m.tree.value)
  }

  /** The nodes from the root to the cursor's entry, or none before a path has started. */
  function Trail(m: Merge): seq<NodeId>
    requires MergeOk(m)
  {
    if m.cursor.Some? then NodesAlong(m.tree.value, m.cursor.value) else []
  }

  /**
   * One node of one path: create the root from the very first node; at the
   * start of a later path, accept only the root's node; below, move to the
   * child for the node or push a new one a level deeper.
   */
  function MergeStep(m: Merge, node: NodeId): (r: Result<Merge, string>)
    requires MergeOk(m)
    ensures r.Failure? <==> m.tree.Some? && m.cursor.None? && m.tree.value.node != node
    ensures r.Failure? ==> r.error == NotSameDocument
    ensures r.Success? ==> MergeOk(r.value) && r.value.cursor.Some?
  {
    if m.tree.None? then Success(Merge(Some(CreateNodeEntry(node, 0)), Some([])))
    else if m.cursor.None? then
      if m.tree.value.node == node then Success(Merge(m.tree, Some([]))) else Failure(NotSameDocument)
    else
      var t, c := m.tree.value, m.cursor.value;
      var previous := At(t, c);
      var i := FirstIndex(previous.children, node);
      if i < |previous.children| then
        CursorDown(t, c, i);
        Success(Merge(m.tree, Some(c + [i])))
      else
        var child := CreateNodeEntry(node, previous.level + 1);
        PushAtReachesChild(t, c, child);
        CursorDown(PushAt(t, c, child), c, i);
        Success(Merge(Some(PushAt(t, c, child)), Some(c + [i])))
  }

  /** The nodes of one path, in order. */
  function MergePath(m: Merge, path: seq<NodeId>): (r: Result<Merge, string>)
    requires MergeOk(m)
    ensures r.Success? ==> MergeOk(r.value)
    ensures r.Failure? ==> r.error == NotSameDocument
    decreases |path|
  {
    if |path| == 0 then Success(m)
    else match MergeStep(m, path[0])
      case Failure(e) => Failure(e)
      case Success(next) => MergePath(next, path[1..])
  }

  /** Every path in turn; `previousEntry` is local to each path, so none survives it. */
  function MergePaths(m: Merge, paths: seq<seq<NodeId>>): (r: Result<Merge, string>)
    ensures r.Failure? ==> r.error == NotSameDocument
    decreases |paths|
  {
    if |paths| == 0 then Success(m)
    else match MergePath(Merge(m.tree, None), paths[0])
      case Failure(e) => Failure(e)
      case Success(next) => MergePaths(Merge(next.tree, None), paths[1..])
  }

  /** A step keeps the root at level 0, every child one level below its parent, and children distinct. */
  lemma MergeStepKeepsShape(m: Merge, node: NodeId)
    requires MergeOk(m) && TreeShape(m) && MergeStep(m, node).Success?
    ensures TreeShape(MergeStep(m, node).value)
  {
    if m.tree.Some? && m.cursor.Some? {
      var t, c := m.tree.value, m.cursor.value;
      var previous := At(t, c);
      if FirstIndex(previous.children, node) == |previous.children| {
        var child := CreateNodeEntry(node, previous.level + 1);
        PushAtKeepsLeveled(t, c, child);
        PushAtKeepsDistinct(t, c, child);
      }
    }
  }

  /**
   * A step moves the cursor one entry further down, to an entry for the
   * node, and every entry that was reachable stays reachable along the same
   * nodes.
   */
  lemma MergeStepExtendsTrail(m: Merge, node: NodeId, other: seq<nat>)
    requires MergeOk(m) && MergeStep(m, node).Success?
    ensures Trail(MergeStep(m, node).value) == Trail(m) + [node]
    ensures m.tree.Some? && ValidCursor(m.tree.value, other) ==>
              var t := MergeStep(m, node).value.tree.value;
              ValidCursor(t, other) && NodesAlong(t, other) == NodesAlong(m.tree.value, other)
  {
    if m.tree.Some? && m.cursor.Some? {
      var t, c := m.tree.value, m.cursor.value;
      var previous := At(t, c);
      var i := FirstIndex(previous.children, node);
      if i < |previous.children| {
        CursorDown(t, c, i);
      } else {
        var child := CreateNodeEntry(node, previous.level + 1);
        PushAtReachesChild(t, c, child);
        CursorDown(PushAt(t, c, child), c, i);
        if ValidCursor(t, other) {
          PushAtKeepsCursor(t, c, child, other);
        }
      }
    }
  }

  /** Merging a path keeps the tree's shape. */
  lemma {:induction false} MergePathKeepsShape(m: Merge, path: seq<NodeId>)
    requires MergeOk(m) && TreeShape(m) && MergePath(m, path).Success?
    ensures TreeShape(MergePath(m, path).value)
    decreases |path|
  {
    if |path| > 0 {
      MergeStepKeepsShape(m, path[0]);
      MergePathKeepsShape(MergeStep(m, path[0]).value, path[1..]);
    }
  }

  /**
   * After a path is merged the cursor stands at the path's last node, the
   * nodes on the way being the trail so far followed by the path; entries
   * reachable before stay reachable along the same nodes.
   */
  lemma {:induction false} MergePathExtendsTrail(m: Merge, path: seq<NodeId>, other: seq<nat>)
    requires MergeOk(m) && MergePath(m, path).Success?
    ensures Trail(MergePath(m, path).value) == Trail(m) + path
    ensures m.tree.Some? && ValidCursor(m.tree.value, other) ==>
              var t := MergePath(m, path).value.tree.value;
              ValidCursor(t, other) && NodesAlong(t, other) == NodesAlong(m.tree.value, other)
    decreases |path|
  {
    if |path| > 0 {
      var next := MergeStep(m, path[0]).value;
      MergeStepExtendsTrail(m, path[0], other);
      MergePathExtendsTrail(next, path[1..], other);
      assert Trail(m) + path == Trail(m) + [path[0]] + path[1..];
    }
  }

  /**
   * A path fails to merge exactly when it starts a fresh walk (no cursor)
   * at a node other than the root; once under way it cannot fail.
   */
  lemma {:induction false} MergePathFailure(m: Merge, path: seq<NodeId>)
    requires MergeOk(m) && |path| > 0
    ensures MergePath(m, path).Failure? <==> m.tree.Some? && m.cursor.None? && m.tree.value.node != path[0]
    decreases |path|
  {
    var r := MergeStep(m, path[0]);
    if r.Success? {
      MergePathUnderWay(r.value, path[1..]);
    }
  }

  lemma {:induction false} MergePathUnderWay(m: Merge, path: seq<NodeId>)
    requires MergeOk(m) && m.cursor.Some?
    ensures MergePath(m, path).Success?
    decreases |path|
  {
    if |path| > 0 {
      MergePathUnderWay(MergeStep(m, path[0]).value, path[1..]);
    }
  }

  /** Merging every path keeps the tree's shape. */
  lemma {:induction false} MergePathsKeepsShape(m: Merge, paths: seq<seq<NodeId>>)
    requires TreeShape(m) && MergePaths(m, paths).Success?
    ensures TreeShape(MergePaths(m, paths).value)
    decreases |paths|
  {
    if |paths| > 0 {
      MergePathKeepsShape(Merge(m.tree, None), paths[0]);
      var next := MergePath(Merge(m.tree, None), paths[0]).value;
      MergePathsKeepsShape(Merge(next.tree, None), paths[1..]);
    }
  }

  /** Later paths never remove or move an entry. */
  lemma {:induction false} MergePathsKeepsEntries(m: Merge, paths: seq<seq<NodeId>>, other: seq<nat>)
    requires m.tree.Some? && ValidCursor(m.tree.value, other) && MergePaths(m, paths).Success?
    ensures MergePaths(m, paths).value.tree.Some?
    ensures var t := MergePaths(m, paths).value.tree.value;
            ValidCursor(t, other) && NodesAlong(t, other) == NodesAlong(m.tree.value, other)
    decreases |paths|
  {
    if |paths| > 0 {
      MergePathExtendsTrail(Merge(m.tree, None), paths[0], other);
      var next := MergePath(Merge(m.tree, None), paths[0]).value;
      MergePathsKeepsEntries(Merge(next.tree, None), paths[1..], other);
    }
  }

  /** Some cursor of the tree leads along exactly the nodes of `path`. */
  ghost predicate HoldsPath(t: Entry, path: seq<NodeId>)
  {
    exists c :: ValidCursor(t, c) && NodesAlong(t, c) == path
  }

  /** Every non-empty merged path can be followed from the root of the final tree. */
  lemma {:induction false} MergePathsHoldsEveryPath(m: Merge, paths: seq<seq<NodeId>>, k: nat)
    requires MergePaths(m, paths).Success? && k < |paths| && |paths[k]| > 0
    ensures MergePaths(m, paths).value.tree.Some?
    ensures HoldsPath(MergePaths(m, paths).value.tree.value, paths[k])
    decreases |paths|
  {
    var start := Merge(m.tree, None);
    var next := MergePath(start, paths[0]).value;
    var rest := Merge(next.tree, None);
    if k == 0 {
      MergePathExtendsTrail(start, paths[0], []);
      var c := next.cursor.value;
      MergePathsKeepsEntries(rest, paths[1..], c);
      assert NodesAlong(MergePaths(m, paths).value.tree.value, c) == paths[0];
    } else {
      MergePathsHoldsEveryPath(rest, paths[1..], k - 1);
      assert paths[1..][k - 1] == paths[k];
    }
  }

  /**
   * Once there is a root, merging non-empty paths fails exactly when one of
   * them starts at another node, and the root stays.
   */
  lemma {:induction false} MergePathsFailure(m: Merge, paths: seq<seq<NodeId>>)
    requires m.tree.Some?
    requires forall k :: 0 <= k < |paths| ==> |paths[k]| > 0
    ensures MergePaths(m, paths).Failure? <==> exists k :: 0 <= k < |paths| && paths[k][0] != m.tree.value.node
    ensures MergePaths(m, paths).Success? ==>
              MergePaths(m, paths).value.tree.Some? && MergePaths(m, paths).value.tree.value.node == m.tree.value.node
    decreases |paths|
  {
    if |paths| > 0 {
      var start := Merge(m.tree, None);
      MergePathFailure(start, paths[0]);
      if MergePath(start, paths[0]).Success? {
        MergePathExtendsTrail(start, paths[0], []);
        var next := MergePath(start, paths[0]).value;
        MergePathsFailure(Merge(next.tree, None), paths[1..]);
        assert forall k :: 1 <= k < |paths| ==> paths[k] == paths[1..][k - 1];
        if MergePaths(m, paths).Failure? {
          var k :| 0 <= k < |paths| - 1 && paths[1..][k][0] != m.tree.value.node;
          assert paths[k + 1][0] != m.tree.value.node;
        }
      }
    }
  }

  /** The ancestor paths of the matched elements. */
  function Paths(d: Dom, matches: seq<NodeId>): (paths: seq<seq<NodeId>>)
    requires WellFormed(d)
    ensures |paths| == |matches|
    ensures forall k :: 0 <= k < |matches| ==> paths[k] == AncestorPath(d, matches[k])
  {
    seq(|matches|, k requires 0 <= k < |matches| => AncestorPath(d, matches[k]))
  }

  /** What `getSelectorTreeString` returns, or the error it throws, for the elements the selector matches. */
  function SelectorTreeString(d: Dom, selector: string, matches: seq<NodeId>): Result<string, string>
    requires WellFormed(d)
  {
    match MergePaths(Merge(None, None), Paths(d, matches))
    case Failure(e) => Failure(e)
    case Success(m) => Success(if m.tree.Some? then EntryToString(d, m.tree.value) else NoNodesFound(selector))
  }

  /** Every entry of the tree lies on one of `paths`: the nodes leading to it start one of them. */
  ghost predicate OnSomePath(tree: Option<Entry>, paths: seq<seq<NodeId>>)
  {
    tree.Some? ==>
      forall x :: ValidCursor(tree.value, x) ==> exists k :: 0 <= k < |paths| && NodesAlong(tree.value, x) <= paths[k]
  }

  /** After a push of a childless entry, a cursor leads either to an old entry or to the new one. */
  lemma {:induction false} PushAtCursors(e: Entry, c: seq<nat>, child: Entry, x: seq<nat>)
    requires ValidCursor(e, c) && |child.children| == 0 && ValidCursor(PushAt(e, c, child), x)
    ensures || (ValidCursor(e, x) && NodesAlong(PushAt(e, c, child), x) == NodesAlong(e, x))
            || NodesAlong(PushAt(e, c, child), x) == NodesAlong(e, c) + [child.node]
    decreases |c|
  {
    var r := PushAt(e, c, child);
    if |x| > 0 {
      if |c| > 0 && x[0] == c[0] {
        PushAtCursors(e.children[c[0]], c[1..], child, x[1..]);
      } else if |c| > 0 {
        assert r.children[x[0]] == e.children[x[0]];
      } else if x[0] < |e.children| {
        assert r.children[x[0]] == e.children[x[0]];
      } else {
        assert r.children[x[0]] == child;
        assert x[1..] == [];
      }
    }
  }

  /** A step whose trail stays on a known path keeps every entry on a known path. */
  lemma MergeStepOnPaths(m: Merge, node: NodeId, paths: seq<seq<NodeId>>, j: nat)
    requires MergeOk(m) && MergeStep(m, node).Success? && OnSomePath(m.tree, paths)
    requires j < |paths| && Trail(m) + [node] <= paths[j]
    ensures OnSomePath(MergeStep(m, node).value.tree, paths)
  {
    var r := MergeStep(m, node).value;
    MergeStepExtendsTrail(m, node, []);
    if m.tree.None? {
      forall x | ValidCursor(r.tree.value, x)
        ensures exists k :: 0 <= k < |paths| && NodesAlong(r.tree.value, x) <= paths[k]
      {
        assert x == [];
        assert NodesAlong(r.tree.value, x) == Trail(m) + [node];
      }
    } else if m.cursor.Some? {
      var t, c := m.tree.value, m.cursor.value;
      var previous := At(t, c);
      if FirstIndex(previous.children, node) == |previous.children| {
        var child := CreateNodeEntry(node, previous.level + 1);
        forall x | ValidCursor(r.tree.value, x)
          ensures exists k :: 0 <= k < |paths| && NodesAlong(r.tree.value, x) <= paths[k]
        {
          PushAtCursors(t, c, child, x);
          if !ValidCursor(t, x) || NodesAlong(r.tree.value, x) != NodesAlong(t, x) {
            assert NodesAlong(r.tree.value, x) <= paths[j];
          }
        }
      }
    }
  }

  /** Merging a path that is one of `paths` keeps every entry on one of them. */
  lemma {:induction false} MergePathOnPaths(m: Merge, path: seq<NodeId>, paths: seq<seq<NodeId>>, j: nat)
    requires MergeOk(m) && MergePath(m, path).Success? && OnSomePath(m.tree, paths)
    requires j < |paths| && Trail(m) + path <= paths[j]
    ensures OnSomePath(MergePath(m, path).value.tree, paths)
    decreases |path|
  {
    if |path| > 0 {
      assert Trail(m) + path == Trail(m) + [path[0]] + path[1..];
      MergeStepOnPaths(m, path[0], paths, j);
      MergeStepExtendsTrail(m, path[0], []);
      MergePathOnPaths(MergeStep(m, path[0]).value, path[1..], paths, j);
    }
  }

  /** Merging the paths from position `i` on keeps every entry on one of the paths. */
  lemma {:induction false} MergePathsOnPaths(m: Merge, paths: seq<seq<NodeId>>, i: nat)
    requires i <= |paths| && OnSomePath(m.tree, paths) && MergePaths(m, paths[i..]).Success?
    ensures OnSomePath(MergePaths(m, paths[i..]).value.tree, paths)
    decreases |paths| - i
  {
    if i < |paths| {
      var start := Merge(m.tree, None);
      assert paths[i..][0] == paths[i] && paths[i..][1..] == paths[i + 1..];
      MergePathOnPaths(start, paths[i], paths, i);
      var next := MergePath(start, paths[i]).value;
      MergePathsOnPaths(Merge(next.tree, None), paths, i + 1);
    }
  }

  /**
   * `getSelectorTreeString` throws exactly when some matched element's path
   * starts at another node than the first element's path does, and then
   * with the "same document" error; with no match it reports that nothing
   * was found.
   */
  lemma SelectorTreeStringOutcome(d: Dom, selector: string, matches: seq<NodeId>)
    requires WellFormed(d)
    ensures |matches| == 0 ==> SelectorTreeString(d, selector, matches) == Success(NoNodesFound(selector))
    ensures SelectorTreeString(d, selector, matches).Failure? <==>
              exists k :: 0 <= k < |matches| && AncestorPath(d, matches[k])[0] != AncestorPath(d, matches[0])[0]
    ensures SelectorTreeString(d, selector, matches).Failure? ==>
              SelectorTreeString(d, selector, matches).error == NotSameDocument
  {
    var paths := Paths(d, matches);
    if |matches| > 0 {
      var start := Merge(None, None);
      MergePathFailure(start, paths[0]);
      var next := MergePath(start, paths[0]).value;
      MergePathExtendsTrail(start, paths[0], []);
      assert next.tree.value.node == paths[0][0];
      MergePathsFailure(Merge(next.tree, None), paths[1..]);
      assert forall k :: 1 <= k < |paths| ==> paths[k] == paths[1..][k - 1];
      if MergePaths(start, paths).Failure? {
        var k :| 0 <= k < |paths| - 1 && paths[1..][k][0] != paths[0][0];
        assert paths[k + 1][0] != paths[0][0];
      }
    }
  }

  /**
   * When it succeeds on at least one element, `getSelectorTreeString`
   * renders a tree rooted at the first path's root at level 0, with every
   * child one level below its parent, no two children for the same node,
   * every matched element's path followable from the root, and no entry
   * off those paths.
   */
  lemma SelectorTreeStringTree(d: Dom, selector: string, matches: seq<NodeId>)
    requires WellFormed(d) && |matches| > 0 && SelectorTreeString(d, selector, matches).Success?
    ensures var m := MergePaths(Merge(None, None), Paths(d, matches)).value;
            && m.tree.Some?
            && SelectorTreeString(d, selector, matches).value == EntryToString(d, m.tree.value)
            && TreeShape(m)
            && m.tree.value.node == AncestorPath(d, matches[0])[0]
            && (forall k :: 0 <= k < |matches| ==> HoldsPath(m.tree.value, AncestorPath(d, matches[k])))
            && OnSomePath(m.tree, Paths(d, matches))
  {
    var paths := Paths(d, matches);
    var start := Merge(None, None);
    MergePathsKeepsShape(start, paths);
    MergePathsHoldsEveryPath(start, paths, 0);
    var m := MergePaths(start, paths).value;
    var next := MergePath(start, paths[0]).value;
    MergePathExtendsTrail(start, paths[0], []);
    MergePathsFailure(Merge(next.tree, None), paths[1..]);
    assert paths[0..] == paths;
    MergePathsOnPaths(start, paths, 0);
    forall k | 0 <= k < |matches| ensures HoldsPath(m.tree.value, AncestorPath(d, matches[k])) {
      AncestorPathIsChain(d, matches[k]);
      MergePathsHoldsEveryPath(start, paths, k);
    }
  }

  /** `getSelectorTreeString`, with the matched elements given in document order. */
  method GetSelectorTreeString(d: Dom, selector: string, matches: seq<NodeId>) returns (r: Result<string, string>)
    requires WellFormed(d)
    ensures r == SelectorTreeString(d, selector, matches)
  {
    var paths := Paths(d, matches);
    var documentTree: Option<Entry> := None;
    var k := 0;
    while k < |matches|
      invariant 0 <= k <= |matches|
      invariant MergePaths(Merge(None, None), paths) == MergePaths(Merge(documentTree, None), paths[k..])
    {
      var nodeTree := GetNodeTree(d, Some(matches[k]));
      assert nodeTree == paths[k];
      ghost var before := Merge(documentTree, None);
      var previousEntry: Option<seq<nat>> := None;
      var j := 0;
      while j < |nodeTree|
        invariant 0 <= j <= |nodeTree|
        invariant MergeOk(Merge(documentTree, previousEntry))
        invariant MergePath(before, nodeTree) == MergePath(Merge(documentTree, previousEntry), nodeTree[j..])
      {
        var node := nodeTree[j];
        ghost var m := Merge(documentTree, previousEntry);
        assert nodeTree[j..][1..] == nodeTree[j + 1..];
        if documentTree.None? {
          documentTree := Some(CreateNodeEntry(node, 0));
          previousEntry := Some([]);
        } else if previousEntry.None? {
          if documentTree.value.node != node {
            assert MergePaths(Merge(None, None), paths) == Failure(NotSameDocument) by {
              assert paths[k..][0] == nodeTree && paths[k..][1..] == paths[k + 1..];
            }
            return Failure(NotSameDocument);
          }
          previousEntry := Some([]);
        } else {
          var tree, cursor := documentTree.value, previousEntry.value;
          var previous := At(tree, cursor);
          var existing := FirstIndex(previous.children, node);
          if existing < |previous.children| {
            previousEntry := Some(cursor + [existing]);
          } else {
            documentTree := Some(PushAt(tree, cursor, CreateNodeEntry(node, previous.level + 1)));
            previousEntry := Some(cursor + [existing]);
          }
        }
        assert MergeStep(m, node) == Success(Merge(documentTree, previousEntry));
        j := j + 1;
      }
      assert paths[k..][0] == nodeTree && paths[k..][1..] == paths[k + 1..];
      k := k + 1;
    }
    if documentTree.Some? {
      return Success(EntryToString(d, documentTree.value));
    }
    return Success(NoNodesFound(selector));
  }
}
