/**
The id index of src/bptree.c as it works: nodes on the heap, filled, shifted and split in place.
Every method is proved against the trees and contexts of BPTreeShape.
*/
module BPTree {
  import opened Wrappers
  import opened BPTreeShape

  ghost predicate IsKey(key: int) {
    KEY_LO <= key < KEY_HI
  }

  // ---------- Insertion into one node ----------

  /** The first position in a node's keys whose key is not below `key`. */
  method FindSlot(node: Node, key: int) returns (at: nat)
    requires node.Sized()
    ensures at <= node.keyCount
    ensures forall j :: 0 <= j < at ==> node.keys[j] < key
    ensures at < node.keyCount ==> key <= node.keys[at]
  {
    at := 0;
    while at < node.keyCount && node.keys[at] < key
      invariant at <= node.keyCount
      invariant forall j :: 0 <= j < at ==> node.keys[j] < key
    {
      at := at + 1;
    }
  }

  /** The loop of bptree_insert_into_leaf: open a gap among the pairs. */
  method ShiftPairs(leaf: Node, at: nat)
    requires leaf.Sized() && leaf.keyCount < MAX_KEYS && at <= leaf.keyCount
    modifies leaf`keys, leaf`rowIndices
    ensures |leaf.keys| == |leaf.rowIndices| == MAX_KEYS
    ensures leaf.keys[..at] == old(leaf.keys[..at])
    ensures leaf.rowIndices[..at] == old(leaf.rowIndices[..at])
    ensures leaf.keys[at + 1..leaf.keyCount + 1] == old(leaf.keys[at..leaf.keyCount])
    ensures leaf.rowIndices[at + 1..leaf.keyCount + 1] == old(leaf.rowIndices[at..leaf.keyCount])
  {
    var i := leaf.keyCount;
    while i > at
      invariant at <= i <= leaf.keyCount
      invariant |leaf.keys| == |leaf.rowIndices| == MAX_KEYS
      invariant forall j :: 0 <= j < i ==>
        leaf.keys[j] == old(leaf.keys)[j] && leaf.rowIndices[j] == old(leaf.rowIndices)[j]
      invariant forall j :: i <= j < leaf.keyCount ==>
        leaf.keys[j + 1] == old(leaf.keys)[j] && leaf.rowIndices[j + 1] == old(leaf.rowIndices)[j]
    {
      leaf.keys := leaf.keys[i := leaf.keys[i - 1]];
      leaf.rowIndices := leaf.rowIndices[i := leaf.rowIndices[i - 1]];
      i := i - 1;
    }
  }

  /** bptree_insert_into_leaf: the pair goes into a leaf with room, at the first key not below it. */
  method InsertIntoLeaf(leaf: Node, key: int, row: int) returns (ok: bool, ghost at: nat)
    requires leaf.Sized()
    modifies leaf`keys, leaf`rowIndices, leaf`keyCount
    ensures ok == (leaf.isLeaf && old(leaf.keyCount) < MAX_KEYS)
    ensures !ok ==> unchanged(leaf)
    ensures leaf.Sized() && at <= old(leaf.keyCount)
    ensures ok ==> leaf.keyCount == old(leaf.keyCount) + 1
    ensures ok ==> forall j :: 0 <= j < at ==> old(leaf.keys)[j] < key
    ensures ok && at < old(leaf.keyCount) ==> key <= old(leaf.keys)[at]
    ensures ok ==> (
      leaf.keys[..leaf.keyCount]
        == old(leaf.keys[..at]) + [key] + old(leaf.keys[at..leaf.keyCount]) &&
      leaf.rowIndices[..leaf.keyCount]
        == old(leaf.rowIndices[..at]) + [row] + old(leaf.rowIndices[at..leaf.keyCount]))
  {
    if !leaf.isLeaf || leaf.keyCount >= MAX_KEYS {
      return false, 0;
    }
    var slot := FindSlot(leaf, key);
    ShiftPairs(leaf, slot);
    Gap(leaf.keys, slot, leaf.keyCount, key);
    Gap(leaf.rowIndices, slot, leaf.keyCount, row);
    leaf.keys := leaf.keys[slot := key];
    leaf.rowIndices := leaf.rowIndices[slot := row];
    leaf.keyCount := leaf.keyCount + 1;
    return true, slot;
  }

  /** The two loops of bptree_insert_into_internal: open a gap among the keys, then the children. */
  method ShiftKeys(node: Node, at: nat)
    requires node.Sized() && node.keyCount < MAX_KEYS && at <= node.keyCount
    modifies node`keys
    ensures |node.keys| == MAX_KEYS && node.keys[..at] == old(node.keys[..at])
    ensures node.keys[at + 1..node.keyCount + 1] == old(node.keys[at..node.keyCount])
  {
    var i := node.keyCount;
    while i > at
      invariant at <= i <= node.keyCount && |node.keys| == MAX_KEYS
      invariant forall j :: 0 <= j < i ==> node.keys[j] == old(node.keys)[j]
      invariant forall j :: i <= j < node.keyCount ==> node.keys[j + 1] == old(node.keys)[j]
    {
      node.keys := node.keys[i := node.keys[i - 1]];
      i := i - 1;
    }
  }

  method ShiftChildren(node: Node, at: nat)
    requires node.Sized() && node.keyCount < MAX_KEYS && at <= node.keyCount
    modifies node`children
    ensures |node.children| == MAX_KEYS + 1 && node.children[..at + 1] == old(node.children[..at + 1])
    ensures node.children[at + 2..node.keyCount + 2] == old(node.children[at + 1..node.keyCount + 1])
  {
    var i := node.keyCount + 1;
    while i > at + 1
      invariant at + 1 <= i <= node.keyCount + 1 && |node.children| == MAX_KEYS + 1
      invariant forall j :: 0 <= j < i ==> node.children[j] == old(node.children)[j]
      invariant forall j :: i <= j <= node.keyCount ==> node.children[j + 1] == old(node.children)[j]
    {
      node.children := node.children[i := node.children[i - 1]];
      i := i - 1;
    }
  }

  lemma SizedOf(n: Node)
    requires n.Sized()
    ensures |n.keys| == MAX_KEYS && |n.children| == MAX_KEYS + 1 && 0 <= n.keyCount <= MAX_KEYS
  {
  }

  lemma Slices<T>(cells: seq<T>, prefix: seq<T>, at: nat)
    requires |prefix| <= |cells| && cells[..|prefix|] == prefix && at <= |prefix|
    ensures cells[..at] == prefix[..at] && cells[at..|prefix|] == prefix[at..]
  {
  }

  lemma SlotsOf<T>(a: seq<T>, x: T, b: seq<T>)
    ensures (a + [x] + b)[..|a| + 1] == a + [x] && (a + [x] + b)[|a| + 1..] == b
  {
  }

  lemma Gap<T>(cells: seq<T>, at: nat, count: nat, x: T)
    requires at <= count < |cells|
    ensures cells[at := x][..count + 1] == cells[..at] + [x] + cells[at + 1..count + 1]
  {
  }

  /** bptree_insert_into_internal: a separator and the child to its right go into a node with room. */
  method InsertIntoInternal(node: Node, at: nat, key: int, right: Node)
    requires node.Sized() && node.keyCount < MAX_KEYS && at <= node.keyCount && node != right
    modifies node`keys, node`children, node`keyCount, right`parent
    ensures node.Sized() && node.keyCount == old(node.keyCount) + 1 && right.parent == node
    ensures
      var ks, slots := old(node.keys[..node.keyCount]), old(node.children[..node.keyCount + 1]);
      node.keys[..node.keyCount] == ks[..at] + [key] + ks[at..] &&
      node.children[..node.keyCount + 1] == slots[..at + 1] + [right] + slots[at + 1..]
  {
    ghost var count := node.keyCount;
    ghost var ks, slots := node.keys[..count], node.children[..count + 1];
    assert ks[..at] == node.keys[..at] && ks[at..] == node.keys[at..count];
    assert slots[..at + 1] == node.children[..at + 1] && slots[at + 1..] == node.children[at + 1..count + 1];
    ShiftKeys(node, at);
    ShiftChildren(node, at);
    Gap(node.keys, at, node.keyCount, key);
    Gap(node.children, at + 1, node.keyCount + 1, right);
    node.keys := node.keys[at := key];
    node.children := node.children[at + 1 := right];
    right.parent := node;
    node.keyCount := node.keyCount + 1;
  }

  /** The loops of the two splits that lay out count + 1 cells in a temporary array. */
  method LayOut<T>(cells: seq<T>, count: nat, at: nat, x: T) returns (temp: seq<T>)
    requires at <= count <= |cells|
    ensures temp == cells[..at] + [x] + cells[at..count]
  {
    temp := [];
    var i, j := 0, 0;
    while i < count + 1
      invariant 0 <= i <= count + 1 && j == (if i <= at then i else i - 1)
      invariant temp == if i <= at then cells[..i] else cells[..at] + [x] + cells[at..j]
    {
      if i == at {
        temp := temp + [x];
      } else {
        temp := temp + [cells[j]];
        j := j + 1;
      }
      i := i + 1;
    }
  }

  /** One more cell copied. */
  lemma Grow<T>(cells: seq<T>, j: nat, src: seq<T>, lo: nat, i: nat)
    requires j < |cells| && lo <= i < |src| && cells[..j] == src[lo..i]
    ensures cells[j := src[i]][..j + 1] == src[lo..i + 1]
  {
    assert src[lo..i + 1] == src[lo..i] + [src[i]];
  }

  ghost function NonNull(ns: seq<Node?>): set<Node> {
    set n: Node | n in ns
  }

  /** The first copying loops of bptree_split_internal: the split node keeps the keys before
      position `promote` and the children up to it. */
  method TakeLeft(node: Node, tempKeys: seq<int>, tempChildren: seq<Node?>, promote: nat)
    requires node.Sized() && promote < |tempKeys| && promote < MAX_KEYS && |tempChildren| == |tempKeys| + 1
    requires node !in tempChildren
    modifies node`keyCount, node`keys, node`children, NonNull(tempChildren[..promote + 1])`parent
    ensures node.Sized() && node.keyCount == promote
    ensures node.keys[..promote] == tempKeys[..promote]
    ensures node.children[..promote + 1] == tempChildren[..promote + 1]
    ensures forall n <- NonNull(tempChildren[..promote + 1]) :: n.parent == node
  {
    node.keyCount := 0;
    var i := 0;
    while i < MAX_KEYS + 1
      invariant 0 <= i <= MAX_KEYS + 1 && |node.children| == MAX_KEYS + 1
      modifies node`children
    {
      node.children := node.children[i := null];
      i := i + 1;
    }
    i := 0;
    while i < promote
      invariant 0 <= i <= promote && node.Sized() && node.keyCount == i
      invariant node.keys[..i] == tempKeys[..i] && node.children[..i] == tempChildren[..i]
      invariant forall n <- NonNull(tempChildren[..i]) :: n.parent == node
      modifies node`keyCount, node`keys, node`children, NonNull(tempChildren[..promote + 1])`parent
    {
      Grow(node.keys, i, tempKeys, 0, i);
      Grow(node.children, i, tempChildren, 0, i);
      node.keys := node.keys[i := tempKeys[i]];
      node.children := node.children[i := tempChildren[i]];
      assert tempChildren[..i + 1] == tempChildren[..i] + [tempChildren[i]];
      if node.children[i] != null {
        node.children[i].parent := node;
      }
      node.keyCount := node.keyCount + 1;
      i := i + 1;
    }
    node.children := node.children[promote := tempChildren[promote]];
    assert tempChildren[..promote + 1] == tempChildren[..promote] + [tempChildren[promote]];
    if node.children[promote] != null {
      node.children[promote].parent := node;
    }
  }

  /** The last copying loops: the new node takes the keys and children after `promote`. */
  method TakeRightKeys(newNode: Node, tempKeys: seq<int>, promote: nat)
    requires newNode.Sized() && newNode.keyCount == 0 && promote < |tempKeys| <= MAX_KEYS + 1
    modifies newNode`keyCount, newNode`keys
    ensures newNode.Sized() && newNode.keyCount == |tempKeys| - promote - 1
    ensures newNode.keys[..newNode.keyCount] == tempKeys[promote + 1..]
  {
    var i, j := promote + 1, 0;
    while i < |tempKeys|
      invariant promote + 1 <= i <= |tempKeys| && j == i - promote - 1
      invariant newNode.Sized() && newNode.keyCount == j && newNode.keys[..j] == tempKeys[promote + 1..i]
    {
      Grow(newNode.keys, j, tempKeys, promote + 1, i);
      newNode.keys := newNode.keys[j := tempKeys[i]];
      newNode.keyCount := newNode.keyCount + 1;
      i, j := i + 1, j + 1;
    }
  }

  method TakeRightChildren(newNode: Node, tempChildren: seq<Node?>, promote: nat)
    requires newNode.Sized() && promote + 1 < |tempChildren| <= MAX_KEYS + 2
    requires newNode !in tempChildren
    modifies newNode`children, NonNull(tempChildren[promote + 1..])`parent
    ensures newNode.Sized()
    ensures newNode.children[..|tempChildren| - promote - 1] == tempChildren[promote + 1..]
    ensures forall n <- NonNull(tempChildren[promote + 1..]) :: n.parent == newNode
  {
    var i, j := promote + 1, 0;
    while i < |tempChildren|
      invariant promote + 1 <= i <= |tempChildren| && j == i - promote - 1
      invariant newNode.Sized() && newNode.children[..j] == tempChildren[promote + 1..i]
      invariant forall n <- NonNull(tempChildren[promote + 1..i]) :: n.parent == newNode
    {
      Grow(newNode.children, j, tempChildren, promote + 1, i);
      newNode.children := newNode.children[j := tempChildren[i]];
      assert tempChildren[promote + 1..i + 1] == tempChildren[promote + 1..i] + [tempChildren[i]];
      if newNode.children[j] != null {
        assert tempChildren[promote + 1..][j] == tempChildren[i];
        newNode.children[j].parent := newNode;
      }
      i, j := i + 1, j + 1;
    }
  }

  /** bptree_find_child_index. */
  method FindChildIndex(parent: Node, child: Node) returns (r: Option<nat>)
    requires parent.Sized()
    ensures r.Some? ==> r.value <= parent.keyCount && parent.children[r.value] == child
    ensures r.Some? ==> child !in parent.children[..r.value]
    ensures r.None? ==> child !in parent.children[..parent.keyCount + 1]
  {
    var i := 0;
    while i <= parent.keyCount
      invariant 0 <= i <= parent.keyCount + 1
      invariant child !in parent.children[..i]
    {
      if parent.children[i] == child {
        return Some(i);
      }
      i := i + 1;
    }
    return None;
  }

  // ---------- Between a split and the parent insertion ----------

  /** A subtree has been split: l is in its place, r hangs on the leaf chain only. */
  ghost predicate Halved(c: Ctx, l: Tree, r: Tree)
    reads CtxNodes(c), Nodes(l), Nodes(r)
  {
    HoldsCtx(c, l.node, FirstLeaf(l)) &&
    l.node.parent == CtxNode(c) && Spells(l, FirstLeaf(r)) &&
    r.node.parent == CtxNode(c) && Spells(r, CtxNext(c)) &&
    CtxNodes(c) !! Nodes(l) && CtxNodes(c) !! Nodes(r) && Nodes(l) !! Nodes(r)
  }

  /** The halves of h levels fit the context once sep stands between them. */
  ghost predicate HalvesSuit(c: Ctx, l: Tree, sep: int, r: Tree, h: nat) {
    GoodCtx(c, h) && h >= 1 && CtxLo(c) < sep < CtxHi(c) && Full(l) && Full(r) &&
    Good(l, h, CtxLo(c), sep) && Good(r, h, sep, CtxHi(c))
  }

  /** The siblings with the hole's two halves among them. */
  ghost function WithHalves(c: Ctx, l: Tree, r: Tree): seq<Tree>
    requires c.Under?
  {
    c.left + [l] + ([r] + c.right)
  }

  ghost function WithSep(c: Ctx, sep: int): seq<int>
    requires c.Under? && |c.left| <= |c.keys|
  {
    c.keys[..|c.left|] + [sep] + c.keys[|c.left|..]
  }

  /** What the parent of the halves and its surroundings look like. */
  lemma {:induction false} HalvesTogether(c: Ctx, l: Tree, r: Tree)
    requires c.Under? && Halved(c, l, r)
    ensures
      var all, n := WithHalves(c, l, r), c.node;
      SpellEach(all, CtxNext(c.up)) && ParentOf(n, all) &&
      Roots(all) == Roots(c.left) + [l.node] + ([r.node] + Roots(c.right)) &&
      n.Sized() && !n.isLeaf && n.parent == CtxNode(c.up) &&
      n.keyCount == |c.keys| == |c.left| + |c.right| && n.keys[..n.keyCount] == c.keys &&
      n.children[..n.keyCount + 1] == Roots(c.left) + [l.node] + Roots(c.right) &&
      |Roots(c.left)| == |c.left| && |Roots(c.right)| == |c.right| && |Roots(all)| == |all| &&
      HoldsCtx(c.up, n, LeafAt(c.left, 0, FirstLeaf(l)))
  {
    hide *;
    HalvedUnder(c, l, r);
    var rs := [r] + c.right;
    assert rs == [] + [r] + c.right;
    NoTrees();
    Around([], r, c.right);
    SpellEachAround([], r, c.right, c.node, CtxNext(c.up));
    SpellEachAround(c.left, l, rs, c.node, CtxNext(c.up));
    assert SpellEach([], FirstLeaf(r)) && ParentOf(c.node, []);
    assert Roots([]) + [r.node] + Roots(c.right) == [r.node] + Roots(c.right);
    RootsLength(WithHalves(c, l, r));
  }

  lemma RootsLength(ts: seq<Tree>)
    ensures |Roots(ts)| == |ts|
  {
  }

  /** The definitions, spelled out. */
  lemma {:induction false} HalvedUnder(c: Ctx, l: Tree, r: Tree)
    requires c.Under? && Halved(c, l, r)
    ensures
      var all, n, rs := WithHalves(c, l, r), c.node, [r] + c.right;
      all == c.left + [l] + rs && LeafAt(rs, 0, CtxNext(c.up)) == FirstLeaf(r) &&
      CtxNext(c) == LeafAt(c.right, 0, CtxNext(c.up)) &&
      n.Sized() && !n.isLeaf && n.parent == CtxNode(c.up) &&
      n.keyCount == |c.keys| == |c.left| + |c.right| && n.keys[..n.keyCount] == c.keys &&
      n.children[..n.keyCount + 1] == Roots(c.left) + [l.node] + Roots(c.right) &&
      |Roots(c.left)| == |c.left| && |Roots(c.right)| == |c.right| &&
      HoldsCtx(c.up, n, LeafAt(c.left, 0, FirstLeaf(l)))
    ensures
      ParentOf(c.node, c.left) && ParentOf(c.node, c.right) && l.node.parent == c.node && r.node.parent == c.node &&
      SpellEach(c.left, FirstLeaf(l)) && SpellEach(c.right, CtxNext(c.up)) &&
      Spells(l, FirstLeaf(r)) && Spells(r, CtxNext(c)) &&
      NodesOf(c.left) !! NodesOf(c.right) && NodesOf(c.left) !! CtxNodes(c.up) && NodesOf(c.right) !! CtxNodes(c.up) &&
      c.node !in NodesOf(c.left) + NodesOf(c.right) + CtxNodes(c.up) &&
      CtxNodes(c) == {c.node} + CtxNodes(c.up) + NodesOf(c.left) + NodesOf(c.right) &&
      CtxNodes(c) !! Nodes(l) && CtxNodes(c) !! Nodes(r) && Nodes(l) !! Nodes(r) &&
      PairsBefore(c) == PairsBefore(c.up) + PairsOf(c.left) && PairsAfter(c) == PairsOf(c.right) + PairsAfter(c.up)
  {
    hide SpellEach, Spells, ParentOf, NodesOf, Nodes;
  }

  /** Which nodes and pairs that involves. */
  lemma {:induction false} HalvesCount(c: Ctx, l: Tree, r: Tree)
    requires c.Under? && Halved(c, l, r)
    ensures
      var all := WithHalves(c, l, r);
      NodesOf(all) + {c.node} + CtxNodes(c.up) == CtxNodes(c) + Nodes(l) + Nodes(r) &&
      c.node !in NodesOf(all) && NodesOf(all) !! CtxNodes(c.up) && c.node !in CtxNodes(c.up) &&
      r.node in RootSet(all) && RootSet(all) <= NodesOf(all) &&
      RootSet(all) <= CtxNodes(c) + {l.node, r.node} && {c.node} + CtxNodes(c.up) <= CtxNodes(c) &&
      PairsBefore(c.up) + PairsOf(all) + PairsAfter(c.up)
        == PairsBefore(c) + Pairs(l) + Pairs(r) + PairsAfter(c)
  {
    hide *;
    HalvedUnder(c, l, r);
    var rs := [r] + c.right;
    assert rs == [] + [r] + c.right;
    NoTrees();
    Around([], r, c.right);
    Around(c.left, l, rs);
    SpellEachAround([], r, c.right, null, null);
    SpellEachAround(c.left, l, rs, null, null);
    RootsIn(WithHalves(c, l, r));
    RootsIn(c.left);
    RootsIn(c.right);
    RootsNil();
    assert PairsOf([]) + Pairs(r) + PairsOf(c.right) == Pairs(r) + PairsOf(c.right);
    Regroup(PairsBefore(c.up), PairsOf(c.left), Pairs(l) + Pairs(r), PairsOf(c.right), PairsAfter(c.up));
    assert PairsOf(c.left) + Pairs(l) + (Pairs(r) + PairsOf(c.right))
      == PairsOf(c.left) + (Pairs(l) + Pairs(r)) + PairsOf(c.right);
  }

  lemma RootsNil()
    ensures RootSet([]) == {}
  {
  }

  /** The parent's tree once both halves are in it. */
  ghost function Joined(c: Ctx, l: Tree, sep: int, r: Tree): Tree
    requires c.Under? && |c.left| <= |c.keys|
  {
    Inner(c.node, WithSep(c, sep), WithHalves(c, l, r))
  }

  lemma {:induction false} JoinedCount(c: Ctx, l: Tree, sep: int, r: Tree)
    requires c.Under? && Halved(c, l, r)
    ensures |c.left| <= |c.keys|
    ensures
      var t := Joined(c, l, sep, r);
      CtxNodes(c.up) + Nodes(t) == CtxNodes(c) + Nodes(l) + Nodes(r) &&
      PairsBefore(c.up) + Pairs(t) + PairsAfter(c.up)
        == PairsBefore(c) + Pairs(l) + Pairs(r) + PairsAfter(c) &&
      t.node == c.node && TopNode(c, l.node) == TopNode(c.up, c.node) &&
      WithSep(c, sep) == c.keys[..|c.left|] + [sep] + c.keys[|c.left|..]
  {
    HalvesCount(c, l, r);
    NodesInner(Joined(c, l, sep, r));
  }

  lemma NoTrees()
    ensures NodesOf([]) == {} && Apart([]) && PairsOf([]) == [] && Roots([]) == []
    ensures forall x {:trigger SpellEach([], x)} :: SpellEach([], x)
    ensures forall p {:trigger ParentOf(p, [])} :: ParentOf(p, [])
  {
  }

  lemma {:induction false} HalvesGood(c: Ctx, l: Tree, sep: int, r: Tree, h: nat)
    requires c.Under? && HalvesSuit(c, l, sep, r, h)
    ensures GoodKids(WithSep(c, sep), 0, WithHalves(c, l, r), h, CtxLo(c.up), CtxHi(c.up))
  {
    var ks, ks', all, s := c.keys, WithSep(c, sep), WithHalves(c, l, r), |c.left|;
    var lo, hi, s1 := CtxLo(c.up), CtxHi(c.up), |c.left| + 1;
    forall i | 0 <= i < |all| ensures GoodKid(ks', 0, all, i, h, lo, hi) {
      if i < s {
        assert GoodKid(ks, 0, c.left, i, h, lo, hi);
      } else if i > s + 1 {
        assert GoodKid(ks, s1, c.right, i - s - 2, h, lo, hi);
      }
    }
  }

  lemma {:induction false} GoodKidsSplit(ks: seq<int>, m: nat, kids: seq<Tree>, h: nat, lo: int, hi: int)
    requires GoodKids(ks, 0, kids, h, lo, hi) && m < |ks| && |kids| == |ks| + 1
    ensures GoodKids(ks[..m], 0, kids[..m + 1], h, lo, ks[m]) && lo < ks[m]
    ensures GoodKids(ks[m + 1..], 0, kids[m + 1..], h, ks[m], hi) && ks[m] < hi
  {
    var a, b := kids[..m + 1], kids[m + 1..];
    var ka, kb := ks[..m], ks[m + 1..];
    forall i | 0 <= i < |a| ensures GoodKid(ka, 0, a, i, h, lo, ks[m]) {
      assert GoodKid(ks, 0, kids, i, h, lo, hi);
    }
    forall i | 0 <= i < |b| ensures GoodKid(kb, 0, b, i, h, ks[m], hi) {
      assert GoodKid(ks, 0, kids, m + 1 + i, h, lo, hi);
    }
    assert GoodKids(ka, 0, a, h, lo, ks[m]) && GoodKids(kb, 0, b, h, ks[m], hi);
    GoodKidsSorted(ka, 0, a, h, lo, ks[m]);
    GoodKidsSorted(kb, 0, b, h, ks[m], hi);
  }

  lemma {:induction false} ChildIndex(c: Ctx, l: Tree, r: Tree, i: nat)
    requires c.Under? && Halved(c, l, r)
    requires i <= c.node.keyCount && c.node.children[i] == l.node
    ensures i == |c.left|
  {
    var slots := Roots(c.left) + [l.node] + Roots(c.right);
    assert slots[i] == c.node.children[..c.node.keyCount + 1][i];
    RootsIn(c.left);
    RootsIn(c.right);
    assert forall j :: 0 <= j < |c.left| ==> Roots(c.left)[j] in RootSet(c.left);
    assert forall j :: 0 <= j < |c.right| ==> Roots(c.right)[j] in RootSet(c.right);
  }

  lemma HalvedTop(l: Tree, r: Tree)
    requires Halved(Top, l, r)
    ensures Spells(l, FirstLeaf(r)) && Spells(r, null) && Nodes(l) !! Nodes(r)
    ensures l.node in Nodes(l) && r.node in Nodes(r)
  {
  }

  method LinkRoot(left: Node, sep: int, right: Node) returns (newRoot: Node)
    modifies left`parent, right`parent
    ensures fresh(newRoot) && newRoot.Sized() && !newRoot.isLeaf && newRoot.parent == null
    ensures newRoot.keyCount == 1 && |newRoot.keys| > 0 && newRoot.keys[0] == sep
    ensures |newRoot.children| > 1 && newRoot.children[0] == left && newRoot.children[1] == right
    ensures left.parent == newRoot && right.parent == newRoot
  {
    newRoot := new Node(false);
    newRoot.keys := newRoot.keys[0 := sep];
    newRoot.children := newRoot.children[0 := left][1 := right];
    newRoot.keyCount := 1;
    left.parent := newRoot;
    right.parent := newRoot;
  }

  /** A new root above the two halves of the old one. */
  lemma {:induction false} RootAbove(root: Node, l: Tree, sep: int, r: Tree, h: nat)
    requires Spells(l, FirstLeaf(r)) && Spells(r, null) && Nodes(l) !! Nodes(r) && root !in Nodes(l) + Nodes(r)
    requires root.Sized() && !root.isLeaf && root.parent == null && root.keyCount == 1 && |root.keys| > 0 &&
      root.keys[0] == sep
    requires |root.children| > 1 && root.children[0] == l.node && root.children[1] == r.node
    requires l.node.parent == root && r.node.parent == root && HalvesSuit(Top, l, sep, r, h)
    ensures
      var t := Inner(root, [sep], [l, r]);
      Fits(Top, t) && Suits(Top, t, h + 1) &&
      Pairs(t) == Pairs(l) + Pairs(r) && Nodes(t) == {root} + Nodes(l) + Nodes(r)
  {
    var t, kids := Inner(root, [sep], [l, r]), [l, r];
    assert SpellNth(kids, 0, null) && SpellNth(kids, 1, null);
    assert root.children[..2] == Roots(kids);
    assert GoodKids([sep], 0, kids, h, KEY_LO, KEY_HI);
    assert kids == [l] + [r];
    Single(l);
    Single(r);
    NodesOfConcat([l], [r]);
    PairsOfConcat([l], [r]);
    NodesInner(t);
  }

  /** The parent has taken in both halves. */
  lemma {:induction false} ParentHolds(c: Ctx, l: Tree, sep: int, r: Tree, h: nat)
    requires c.Under? && |c.left| + |c.right| == |c.keys| && HalvesSuit(c, l, sep, r, h)
    requires |c.keys| < MAX_KEYS
    requires var n := c.node;
      n.Sized() && !n.isLeaf && n.parent == CtxNode(c.up) && n.keyCount == |c.keys| + 1 &&
      n.keys[..n.keyCount] == WithSep(c, sep) &&
      n.children[..n.keyCount + 1] == Roots(WithHalves(c, l, r))
    requires var all := WithHalves(c, l, r);
      SpellEach(all, CtxNext(c.up)) && ParentOf(c.node, all) && c.node !in NodesOf(all) &&
      NodesOf(all) !! CtxNodes(c.up) && c.node !in CtxNodes(c.up)
    requires HoldsCtx(c.up, c.node, LeafAt(c.left, 0, FirstLeaf(l)))
    ensures Fits(c.up, Joined(c, l, sep, r)) && Suits(c.up, Joined(c, l, sep, r), h + 1)
  {
    var t := Joined(c, l, sep, r);
    HalvesGood(c, l, sep, r, h);
    NodesInner(t);
    hide SpellEach, ParentOf, Apart, NodesOf, Roots, GoodKids, Full;
    assert |t.kids| == |c.keys| + 2;
    assert c.up.Under? ==> Full(t) by {
      FullOf(t);
    }
  }

  lemma FullOf(t: Tree)
    requires t.Inner?
    ensures Full(t) == (|t.kids| >= MIN_FILL)
  {
  }

  lemma NonNullRoots(ts: seq<Tree>)
    ensures NonNull(Roots(ts)) == RootSet(ts)
  {
    assert forall i :: 0 <= i < |ts| ==> Roots(ts)[i] == ts[i].node;
  }

  /** all == a + b, as the heap sees it. */
  lemma {:induction false} CutEach(all: seq<Tree>, m: nat, next: Node?)
    requires m < |all| && SpellEach(all, next)
    ensures SpellEach(all[..m], FirstLeaf(all[m])) && SpellEach(all[m..], next)
    ensures NodesOf(all[..m]) !! NodesOf(all[m..]) && NodesOf(all) == NodesOf(all[..m]) + NodesOf(all[m..])
    ensures Roots(all)[..m] == Roots(all[..m]) && Roots(all)[m..] == Roots(all[m..])
    ensures RootSet(all) == RootSet(all[..m]) + RootSet(all[m..])
    ensures RootSet(all[..m]) <= NodesOf(all[..m]) && RootSet(all[m..]) <= NodesOf(all[m..])
    ensures PairsOf(all) == PairsOf(all[..m]) + PairsOf(all[m..])
  {
    var a, b := all[..m], all[m..];
    assert all == a + b && b[0] == all[m];
    SpellEachConcat(a, b, next);
    NodesOfConcat(a, b);
    RootsConcat(a, b);
    PairsOfConcat(a, b);
    RootsIn(a);
    RootsIn(b);
    hide SpellEach, NodesOf, RootSet, PairsOf, FirstLeaf;
    assert |Roots(a)| == m;
  }

  lemma ParentOfEach(p: Node?, ts: seq<Tree>)
    ensures ParentOf(p, ts) <==> forall n <- RootSet(ts) :: n.parent == p
  {
  }

  method FillParent(parent: Node, at: nat, sep: int, right: Node, ghost c: Ctx, ghost l: Tree, ghost r: Tree)
    requires c.Under? && c.node == parent && r.node == right && at == |c.left| && parent.keyCount < MAX_KEYS
    requires Halved(c, l, r)
    modifies parent, right`parent
    ensures
      var all := WithHalves(c, l, r);
      parent.Sized() && !parent.isLeaf && parent.parent == CtxNode(c.up) &&
      parent.keyCount == |c.keys| + 1 && |c.left| + |c.right| == |c.keys| < MAX_KEYS &&
      parent.keys[..parent.keyCount] == WithSep(c, sep) &&
      parent.children[..parent.keyCount + 1] == Roots(all) &&
      SpellEach(all, CtxNext(c.up)) && ParentOf(parent, all) &&
      HoldsCtx(c.up, parent, LeafAt(c.left, 0, FirstLeaf(l)))
  {
    hide *;
    HalvesTogether(c, l, r);
    HalvesCount(c, l, r);
    JoinedCount(c, l, sep, r);
    ghost var all := WithHalves(c, l, r);
    TreesAllocated(all);
    CtxAllocated(c.up);
    ghost var a, b := Roots(c.left), Roots(c.right);
    SlotsOf(a, l.node, b);
    ParentOfEach(parent, all);
    InsertIntoInternal(parent, at, sep, right);
    ParentOfEach(parent, all);
    assert a + [l.node] + ([right] + b) == a + [l.node] + [right] + b;
  }

  const PROMOTE: nat := (MAX_KEYS + 1) / 2

  /** The moves of bptree_split_internal: lay out keys and children with the new pair among them,
      keep the left part in the node and give the rest to a new node. */
  method DivideNode(node: Node, at: nat, key: int, right: Node, ghost c: Ctx, ghost l: Tree, ghost r: Tree)
    returns (newNode: Node, promoted: int)
    requires c.Under? && c.node == node && r.node == right && at == |c.left| && node.keyCount == MAX_KEYS
    requires Halved(c, l, r)
    modifies node`keyCount, node`keys, node`children, RootSet(WithHalves(c, l, r))`parent
    ensures |c.left| + |c.right| == |c.keys| == MAX_KEYS && fresh(newNode)
    ensures
      var ks, all := WithSep(c, key), WithHalves(c, l, r);
      |all| == |ks| + 1 == MAX_KEYS + 2 && promoted == ks[PROMOTE] &&
      node.Sized() && !node.isLeaf && node.parent == CtxNode(c.up) && node.keyCount == PROMOTE &&
      node.keys[..PROMOTE] == ks[..PROMOTE] && node.children[..PROMOTE + 1] == Roots(all[..PROMOTE + 1]) &&
      ParentOf(node, all[..PROMOTE + 1]) &&
      newNode.Sized() && !newNode.isLeaf && newNode.parent == node.parent &&
      newNode.keyCount == MAX_KEYS - PROMOTE &&
      newNode.keys[..newNode.keyCount] == ks[PROMOTE + 1..] &&
      newNode.children[..newNode.keyCount + 1] == Roots(all[PROMOTE + 1..]) &&
      ParentOf(newNode, all[PROMOTE + 1..]) &&
      SpellEach(all, CtxNext(c.up)) && HoldsCtx(c.up, node, LeafAt(c.left, 0, FirstLeaf(l)))
  {
    hide *;
    HalvesTogether(c, l, r);
    HalvesCount(c, l, r);
    ghost var all := WithHalves(c, l, r);
    TreesAllocated(all);
    CtxAllocated(c.up);
    newNode := new Node(false);
    var tempKeys, tempChildren := LayOutNode(node, at, key, right, c, l, r);
    var promote := |tempKeys| / 2;
    Middle();
    promoted := tempKeys[promote];
    CutEach(all, promote + 1, CtxNext(c.up));
    NonNullRoots(all[..promote + 1]);
    NonNullRoots(all[promote + 1..]);
    NonNullRoots(all);
    MoveParts(node, newNode, tempKeys, tempChildren, promote);
    ParentOfEach(node, all[..promote + 1]);
    ParentOfEach(newNode, all[promote + 1..]);
  }

  /** The copying of bptree_split_internal as a whole. */
  method MoveParts(node: Node, newNode: Node, tempKeys: seq<int>, tempChildren: seq<Node?>, promote: nat)
    requires node != newNode && node.Sized() && newNode.Sized() && newNode.keyCount == 0
    requires promote < |tempKeys| <= MAX_KEYS + 1 && promote < MAX_KEYS && |tempChildren| == |tempKeys| + 1
    requires node !in NonNull(tempChildren) && newNode !in NonNull(tempChildren)
    requires NonNull(tempChildren[..promote + 1]) !! NonNull(tempChildren[promote + 1..])
    modifies node`keyCount, node`keys, node`children, NonNull(tempChildren)`parent
    modifies newNode`keyCount, newNode`keys, newNode`children, newNode`parent
    ensures node.Sized() && node.keyCount == promote && node.keys[..promote] == tempKeys[..promote]
    ensures node.children[..promote + 1] == tempChildren[..promote + 1]
    ensures newNode.Sized() && newNode.keyCount == |tempKeys| - promote - 1
    ensures newNode.keys[..newNode.keyCount] == tempKeys[promote + 1..]
    ensures newNode.children[..newNode.keyCount + 1] == tempChildren[promote + 1..]
    ensures newNode.parent == node.parent
    ensures forall n <- NonNull(tempChildren[..promote + 1]) :: n.parent == node
    ensures forall n <- NonNull(tempChildren[promote + 1..]) :: n.parent == newNode
  {
    NotAmong(node, tempChildren);
    NotAmong(newNode, tempChildren);
    NonNullParts(tempChildren, promote + 1);
    hide *;
    TakeLeft(node, tempKeys, tempChildren, promote);
    TakeRightKeys(newNode, tempKeys, promote);
    TakeRightChildren(newNode, tempChildren, promote);
    newNode.parent := node.parent;
  }

  lemma NonNullParts(ns: seq<Node?>, m: nat)
    requires m <= |ns|
    ensures NonNull(ns) == NonNull(ns[..m]) + NonNull(ns[m..])
  {
    assert ns == ns[..m] + ns[m..];
  }

  lemma Middle()
    ensures MAX_KEYS == 31 && PROMOTE == 16
  {
  }

  method LayOutNode(node: Node, at: nat, key: int, right: Node, ghost c: Ctx, ghost l: Tree, ghost r: Tree)
    returns (tempKeys: seq<int>, tempChildren: seq<Node?>)
    requires c.Under? && c.node == node && r.node == right && at == |c.left|
    requires Halved(c, l, r)
    ensures |c.left| + |c.right| == |c.keys|
    ensures tempKeys == WithSep(c, key) && tempChildren == Roots(WithHalves(c, l, r))
    ensures |tempKeys| == node.keyCount + 1 && |tempChildren| == |WithHalves(c, l, r)| == node.keyCount + 2
  {
    hide *;
    HalvesTogether(c, l, r);
    JoinedCount(c, l, key, r);
    SizedOf(node);
    ghost var slots := Roots(c.left) + [l.node] + Roots(c.right);
    Slices(node.keys, c.keys, at);
    Slices(node.children, slots, at + 1);
    SlotsOf(Roots(c.left), l.node, Roots(c.right));
    tempKeys := LayOut(node.keys, node.keyCount, at, key);
    tempChildren := LayOut(node.children, node.keyCount + 1, at + 1, right);
  }

  lemma HalvedLeft(c: Ctx, l: Tree, r: Tree)
    requires Halved(c, l, r)
    ensures l.node.parent == CtxNode(c) == if c.Top? then null else c.node
  {
  }

  lemma TopPairs(c: Ctx)
    requires c.Top?
    ensures PairsBefore(c) == [] && PairsAfter(c) == [] && CtxNodes(c) == {}
  {
  }

  lemma LeftAmong(c: Ctx, l: Tree, r: Tree)
    requires c.Under? && Halved(c, l, r)
    ensures l.node in c.node.children[..c.node.keyCount + 1]
  {
    var slots := Roots(c.left) + [l.node] + Roots(c.right);
    assert slots[|Roots(c.left)|] == l.node;
  }

  lemma NotAmong(n: Node, ns: seq<Node?>)
    ensures n !in NonNull(ns) ==> n !in ns
  {
  }

  ghost function LeftPart(c: Ctx, l: Tree, key: int, r: Tree): Tree
    requires c.Under? && |c.left| + |c.right| == |c.keys| == MAX_KEYS
  {
    Inner(c.node, WithSep(c, key)[..PROMOTE], WithHalves(c, l, r)[..PROMOTE + 1])
  }

  ghost function RightPart(newNode: Node, c: Ctx, l: Tree, key: int, r: Tree): Tree
    requires c.Under? && |c.left| + |c.right| == |c.keys| == MAX_KEYS
  {
    Inner(newNode, WithSep(c, key)[PROMOTE + 1..], WithHalves(c, l, r)[PROMOTE + 1..])
  }

  /** The two parts of a split inner node are halves one level up. */
  lemma {:induction false} PartsSuit(newNode: Node, c: Ctx, l: Tree, key: int, r: Tree, h: nat)
    requires c.Under? && |c.left| + |c.right| == |c.keys| == MAX_KEYS && HalvesSuit(c, l, key, r, h)
    ensures HalvesSuit(c.up, LeftPart(c, l, key, r), WithSep(c, key)[PROMOTE], RightPart(newNode, c, l, key, r), h + 1)
  {
    HalvesGood(c, l, key, r, h);
    Middle();
    hide GoodKids, WithSep, WithHalves;
    assert |WithSep(c, key)| == MAX_KEYS + 1 && |WithHalves(c, l, r)| == MAX_KEYS + 2 by {
      PartLengths(c, l, key, r);
    }
    GoodKidsSplit(WithSep(c, key), PROMOTE, WithHalves(c, l, r), h, CtxLo(c.up), CtxHi(c.up));
  }

  lemma PartLengths(c: Ctx, l: Tree, key: int, r: Tree)
    requires c.Under? && |c.left| + |c.right| == |c.keys| == MAX_KEYS
    ensures |WithSep(c, key)| == MAX_KEYS + 1 && |WithHalves(c, l, r)| == MAX_KEYS + 2
  {
  }

  lemma {:induction false} PartsHold(newNode: Node, c: Ctx, l: Tree, key: int, r: Tree)
    requires c.Under? && |c.left| + |c.right| == |c.keys| == MAX_KEYS
    requires
      var ks, all, node := WithSep(c, key), WithHalves(c, l, r), c.node;
      |all| == |ks| + 1 == MAX_KEYS + 2 &&
      node.Sized() && !node.isLeaf && node.parent == CtxNode(c.up) && node.keyCount == PROMOTE &&
      node.keys[..PROMOTE] == ks[..PROMOTE] && node.children[..PROMOTE + 1] == Roots(all[..PROMOTE + 1]) &&
      ParentOf(node, all[..PROMOTE + 1]) &&
      newNode.Sized() && !newNode.isLeaf && newNode.parent == CtxNode(c.up) &&
      newNode.keyCount == MAX_KEYS - PROMOTE && newNode.keys[..newNode.keyCount] == ks[PROMOTE + 1..] &&
      newNode.children[..newNode.keyCount + 1] == Roots(all[PROMOTE + 1..]) &&
      ParentOf(newNode, all[PROMOTE + 1..]) &&
      SpellEach(all, CtxNext(c.up)) && HoldsCtx(c.up, node, LeafAt(c.left, 0, FirstLeaf(l)))
    requires
      var all := WithHalves(c, l, r);
      c.node !in NodesOf(all) && NodesOf(all) !! CtxNodes(c.up) && c.node !in CtxNodes(c.up) &&
      newNode !in NodesOf(all) + CtxNodes(c.up) && newNode != c.node
    ensures Halved(c.up, LeftPart(c, l, key, r), RightPart(newNode, c, l, key, r))
    ensures
      var a, b := LeftPart(c, l, key, r), RightPart(newNode, c, l, key, r);
      Nodes(a) + Nodes(b) == NodesOf(WithHalves(c, l, r)) + {c.node, newNode} &&
      Pairs(a) + Pairs(b) == PairsOf(WithHalves(c, l, r)) && a.node == c.node && b.node == newNode
  {
    hide *;
    var all, a, b := WithHalves(c, l, r), LeftPart(c, l, key, r), RightPart(newNode, c, l, key, r);
    PartsAre(newNode, c, l, key, r);
    Middle();
    CutEach(all, PROMOTE + 1, CtxNext(c.up));
    NodesInner(a);
    NodesInner(b);
    SpellsInner(a, FirstLeaf(all[PROMOTE + 1]));
    SpellsInner(b, CtxNext(c.up));
    HalvedIs(c.up, a, b);
  }

  lemma PartsAre(newNode: Node, c: Ctx, l: Tree, key: int, r: Tree)
    requires c.Under? && |c.left| + |c.right| == |c.keys| == MAX_KEYS
    ensures
      var ks, all := WithSep(c, key), WithHalves(c, l, r);
      var a, b := LeftPart(c, l, key, r), RightPart(newNode, c, l, key, r);
      PROMOTE + 1 < |all| == |ks| + 1 == MAX_KEYS + 2 &&
      a == Inner(c.node, ks[..PROMOTE], all[..PROMOTE + 1]) &&
      b == Inner(newNode, ks[PROMOTE + 1..], all[PROMOTE + 1..]) &&
      Pairs(a) == PairsOf(a.kids) && Pairs(b) == PairsOf(b.kids) &&
      FirstLeaf(a) == LeafAt(c.left, 0, FirstLeaf(l)) && FirstLeaf(b) == FirstLeaf(all[PROMOTE + 1])
  {
  }

  lemma SpellsInner(t: Tree, next: Node?)
    requires t.Inner? && t.node.Sized() && !t.node.isLeaf && t.node.keyCount == |t.keys| && |t.kids| == |t.keys| + 1
    requires t.node.keys[..t.node.keyCount] == t.keys && t.node.children[..t.node.keyCount + 1] == Roots(t.kids)
    requires t.node !in NodesOf(t.kids) && ParentOf(t.node, t.kids) && SpellEach(t.kids, next)
    ensures Spells(t, next)
  {
    hide ParentOf, SpellEach, NodesOf, Roots;
  }

  lemma HalvedIs(c: Ctx, l: Tree, r: Tree)
    requires HoldsCtx(c, l.node, FirstLeaf(l))
    requires l.node.parent == CtxNode(c) && Spells(l, FirstLeaf(r))
    requires r.node.parent == CtxNode(c) && Spells(r, CtxNext(c))
    requires CtxNodes(c) !! Nodes(l) && CtxNodes(c) !! Nodes(r) && Nodes(l) !! Nodes(r)
    ensures Halved(c, l, r)
  {
  }

  // ---------- Finding a leaf ----------

  /** A subtree and the place it has in the whole tree. */
  datatype Focus = Focus(c: Ctx, t: Tree)

  /** On the way down to `key`: t is a subtree of `whole`, at height h, and the key belongs to it. */
  ghost predicate Reached(whole: Tree, c: Ctx, t: Tree, h: nat, key: int)
    reads CtxNodes(c)`isLeaf, CtxNodes(c)`keyCount, CtxNodes(c)`keys, CtxNodes(c)`children
    reads CtxNodes(c)`rowIndices, CtxNodes(c)`next, CtxNodes(c)`parent
    reads Nodes(t)`isLeaf, Nodes(t)`keyCount, Nodes(t)`keys, Nodes(t)`children
    reads Nodes(t)`rowIndices, Nodes(t)`next, Nodes(t)`parent
  {
    Fits(c, t) && Suits(c, t, h) && Plug(c, t) == whole && (IsKey(key) ==> CtxLo(c) <= key < CtxHi(c))
  }

  ghost function Below(c: Ctx, t: Tree, i: nat): Ctx
    requires t.Inner? && i < |t.kids|
  {
    Under(c, t.node, t.keys, t.kids[..i], t.kids[i + 1..])
  }

  /** One step down from an inner node to the child that the key selects. */
  lemma {:induction false} StepDown(whole: Tree, c: Ctx, t: Tree, h: nat, i: nat, key: int)
    requires Reached(whole, c, t, h, key) && t.Inner? && i <= t.node.keyCount && t.node.Sized()
    requires forall j :: 0 <= j < i ==> t.node.keys[j] <= key
    requires i < t.node.keyCount ==> key < t.node.keys[i]
    ensures i < |t.kids| && t.node.children[i] == t.kids[i].node && h >= 2
    ensures Reached(whole, Below(c, t, i), t.kids[i], h - 1, key)
  {
    hide *;
    StepBounds(whole, c, t, h, i, key);
    Descend(c, t, h, i);
    ReachedIs(whole, Below(c, t, i), t.kids[i], h - 1, key);
  }

  lemma ReachedIs(whole: Tree, c: Ctx, t: Tree, h: nat, key: int)
    ensures Reached(whole, c, t, h, key)
      <==> Fits(c, t) && Suits(c, t, h) && Plug(c, t) == whole && (IsKey(key) ==> CtxLo(c) <= key < CtxHi(c))
  {
  }

  lemma {:induction false} StepBounds(whole: Tree, c: Ctx, t: Tree, h: nat, i: nat, key: int)
    requires Reached(whole, c, t, h, key) && t.Inner? && i <= t.node.keyCount && t.node.Sized()
    requires forall j :: 0 <= j < i ==> t.node.keys[j] <= key
    requires i < t.node.keyCount ==> key < t.node.keys[i]
    ensures i < |t.kids| && t.node.children[i] == t.kids[i].node && Fits(c, t) && Suits(c, t, h) && Plug(c, t) == whole
    ensures IsKey(key) ==> CtxLo(Below(c, t, i)) <= key < CtxHi(Below(c, t, i))
    ensures Below(c, t, i) == Under(c, t.node, t.keys, t.kids[..i], t.kids[i + 1..])
  {
    hide HoldsCtx, SpellEach, ParentOf, GoodKids, GoodCtx, NodesOf, CtxNodes, Nodes;
    assert t.node.children[i] == Roots(t.kids)[i];
    assert t.node.keys[..t.node.keyCount] == t.keys;
    assert i < |t.keys| ==> t.node.keys[i] == t.keys[i];
    assert i > 0 ==> t.node.keys[i - 1] == t.keys[i - 1];
  }

  lemma ReachedNode(whole: Tree, c: Ctx, t: Tree, h: nat, key: int)
    requires Reached(whole, c, t, h, key)
    ensures t.node.Sized() && |t.node.keys| == MAX_KEYS && |t.node.children| == MAX_KEYS + 1
    ensures 0 <= t.node.keyCount <= MAX_KEYS && t.node.isLeaf == t.Leaf? && (t.Leaf? ==> h == 1)
  {
  }

  /** A key within the bounds of a leaf in place is bound by the whole tree as the leaf binds it. */
  lemma {:induction false} Located(c: Ctx, t: Tree, key: int)
    requires Fits(c, t) && Suits(c, t, 1) && t.Leaf? && CtxLo(c) <= key < CtxHi(c)
    ensures |t.keys| == |t.rows|
    ensures key in MapOf(Pairs(Plug(c, t))) <==> key in t.keys
    ensures forall i :: 0 <= i < |t.keys| ==> (t.keys[i], t.rows[i]) in Pairs(Plug(c, t))
    ensures Sorted(Pairs(Plug(c, t)))
  {
    hide *;
    PlugFits(c, t, 1);
    var whole, a, z, b := Pairs(Plug(c, t)), PairsBefore(c), Pairs(t), PairsAfter(c);
    WholeSorted(c, t, key);
    MapOfSorted(whole);
    assert whole == a + z + b;
    forall i | 0 <= i < |t.keys| ensures (t.keys[i], t.rows[i]) in whole {
      assert whole[|a| + i] == z[i];
    }
    if key in MapOf(whole) {
      assert (key, MapOf(whole)[key]) in whole;
      var j :| 0 <= j < |whole| && whole[j] == (key, MapOf(whole)[key]);
      assert |a| <= j < |a| + |z|;
      assert whole[j] == z[j - |a|];
    }
    if key in t.keys {
      var i :| 0 <= i < |t.keys| && t.keys[i] == key;
      assert (t.keys[i], t.rows[i]) in whole;
    }
  }

  lemma CellsAre<T>(cells: seq<T>, xs: seq<T>)
    requires |xs| <= |cells| && cells[..|xs|] == xs
    ensures forall i :: 0 <= i < |xs| ==> cells[i] == xs[i]
  {
  }

  lemma {:induction false} WholeSorted(c: Ctx, t: Tree, key: int)
    requires Fits(c, t) && Suits(c, t, 1) && t.Leaf? && CtxLo(c) <= key < CtxHi(c)
    ensures |t.keys| == |t.rows| == |Pairs(t)|
    ensures forall i :: 0 <= i < |t.keys| ==> Pairs(t)[i] == (t.keys[i], t.rows[i])
    ensures Sorted(Pairs(Plug(c, t)))
    ensures forall i :: 0 <= i < |PairsBefore(c)| ==> PairsBefore(c)[i].0 < key
    ensures forall i :: 0 <= i < |PairsAfter(c)| ==> key < PairsAfter(c)[i].0
  {
    PlugFits(c, t, 1);
    GoodSorted(Plug(c, t), 1 + CtxHeight(c), KEY_LO, KEY_HI);
    CtxSorted(c, 1);
    ZipAt(t.keys, t.rows);
    hide Fits, Sorted, Zip, PairsBefore, PairsAfter, Plug, GoodCtx;
  }

  // ---------- A leaf takes one more pair ----------

  ghost function Added<T>(xs: seq<T>, at: nat, x: T): seq<T> {
    if at <= |xs| then xs[..at] + [x] + xs[at..] else xs + [x]
  }

  /** `at` is where `key` belongs among the sorted keys. */
  ghost predicate SlotFor(ks: seq<int>, at: nat, key: int) {
    at <= |ks| && (forall j :: 0 <= j < at ==> ks[j] < key) && (at < |ks| ==> key < ks[at])
  }

  lemma AddedIs<T>(xs: seq<T>, at: nat, x: T)
    requires at <= |xs|
    ensures Added(xs, at, x) == xs[..at] + [x] + xs[at..] && |Added(xs, at, x)| == |xs| + 1
  {
  }

  lemma LeafTree(c: Ctx, t: Tree, t': Tree)
    requires t.Leaf? && t'.Leaf? && t'.node == t.node
    ensures Nodes(t') == Nodes(t) == {t.node} && Pairs(t) == Zip(t.keys, t.rows)
  {
  }

  lemma {:induction false} AddedSorted(ks: seq<int>, at: nat, key: int, lo: int, hi: int)
    requires forall i :: 0 <= i < |ks| ==> lo <= ks[i] < hi
    requires forall i, j :: 0 <= i < j < |ks| ==> ks[i] < ks[j]
    requires SlotFor(ks, at, key) && lo <= key < hi
    ensures
      var k := Added(ks, at, key);
      |k| == |ks| + 1 && (forall i :: 0 <= i < |k| ==> lo <= k[i] < hi) &&
      (forall i, j :: 0 <= i < j < |k| ==> k[i] < k[j])
  {
  }

  lemma {:induction false} AddedZip(ks: seq<int>, rs: seq<int>, at: nat, key: int, row: int)
    requires |ks| == |rs| && at <= |ks|
    ensures at <= |Zip(ks, rs)| && Zip(Added(ks, at, key), Added(rs, at, row)) == Added(Zip(ks, rs), at, (key, row))
  {
    ZipAt(ks, rs);
    ZipAt(Added(ks, at, key), Added(rs, at, row));
  }

  lemma {:induction false} ZipSplit(ks: seq<int>, rs: seq<int>, m: nat)
    requires |ks| == |rs| && m <= |ks|
    ensures Zip(ks[..m], rs[..m]) + Zip(ks[m..], rs[m..]) == Zip(ks, rs)
  {
    ZipAt(ks, rs);
    ZipAt(ks[..m], rs[..m]);
    ZipAt(ks[m..], rs[m..]);
  }

  /** The two leaves that a full leaf and one more pair make. */
  lemma {:induction false} LeavesSuit(c: Ctx, t: Tree, at: nat, key: int, row: int, newLeaf: Node)
    requires Suits(c, t, 1) && t.Leaf? && |t.keys| == MAX_KEYS && |t.rows| == MAX_KEYS
    requires SlotFor(t.keys, at, key) && CtxLo(c) <= key < CtxHi(c)
    ensures
      var ks, rs := Added(t.keys, at, key), Added(t.rows, at, row);
      var l, r := Leaf(t.node, ks[..PROMOTE], rs[..PROMOTE]), Leaf(newLeaf, ks[PROMOTE..], rs[PROMOTE..]);
      HalvesSuit(c, l, ks[PROMOTE], r, 1) && Pairs(l) + Pairs(r) == Added(Zip(t.keys, t.rows), at, (key, row))
  {
    hide *;
    var ks, rs := Added(t.keys, at, key), Added(t.rows, at, row);
    SuitsGoodCtx(c, t);
    SlotForIs(t.keys, at, key);
    AddedSorted(t.keys, at, key, CtxLo(c), CtxHi(c));
    AddedIs(t.keys, at, key);
    AddedIs(t.rows, at, row);
    Middle();
    ZipSplit(ks, rs, PROMOTE);
    AddedZip(t.keys, t.rows, at, key, row);
    assert ks[0] < ks[PROMOTE];
    var l, r := Leaf(t.node, ks[..PROMOTE], rs[..PROMOTE]), Leaf(newLeaf, ks[PROMOTE..], rs[PROMOTE..]);
    assert forall i :: 0 <= i < PROMOTE ==> l.keys[i] == ks[i] && ks[i] < ks[PROMOTE];
    GoodLeaf(l, CtxLo(c), ks[PROMOTE]);
    GoodLeaf(r, ks[PROMOTE], CtxHi(c));
    HalvesSuitIs(c, l, ks[PROMOTE], r, 1);
  }

  lemma SlotForIs(ks: seq<int>, at: nat, key: int)
    ensures SlotFor(ks, at, key) ==> at <= |ks|
  {
  }

  lemma SuitsGoodCtx(c: Ctx, t: Tree)
    requires Suits(c, t, 1) && t.Leaf?
    ensures GoodCtx(c, 1)
    ensures forall i :: 0 <= i < |t.keys| ==> CtxLo(c) <= t.keys[i] < CtxHi(c)
    ensures forall i, j :: 0 <= i < j < |t.keys| ==> t.keys[i] < t.keys[j]
  {
    hide GoodCtx;
  }

  lemma GoodLeaf(t: Tree, lo: int, hi: int)
    requires t.Leaf? && 1 <= |t.keys| == |t.rows| <= MAX_KEYS
    requires forall i :: 0 <= i < |t.keys| ==> lo <= t.keys[i] < hi
    requires forall i, j :: 0 <= i < j < |t.keys| ==> t.keys[i] < t.keys[j]
    ensures Good(t, 1, lo, hi) && (Full(t) <==> |t.keys| >= 16) && Pairs(t) == Zip(t.keys, t.rows)
  {
  }

  lemma HalvesSuitIs(c: Ctx, l: Tree, sep: int, r: Tree, h: nat)
    requires GoodCtx(c, h) && h >= 1 && CtxLo(c) < sep < CtxHi(c) && Full(l) && Full(r)
    requires Good(l, h, CtxLo(c), sep) && Good(r, h, sep, CtxHi(c))
    ensures HalvesSuit(c, l, sep, r, h)
  {
  }

  lemma {:induction false} LeafSuits(c: Ctx, t: Tree, at: nat, key: int, row: int)
    requires Suits(c, t, 1) && t.Leaf? && |t.keys| < MAX_KEYS && |t.rows| == |t.keys|
    requires SlotFor(t.keys, at, key) && CtxLo(c) <= key < CtxHi(c)
    ensures
      var t' := Leaf(t.node, Added(t.keys, at, key), Added(t.rows, at, row));
      Suits(c, t', 1) && Pairs(t') == Added(Zip(t.keys, t.rows), at, (key, row))
  {
    AddedSorted(t.keys, at, key, CtxLo(c), CtxHi(c));
    AddedZip(t.keys, t.rows, at, key, row);
  }

  /** The loops of bptree_split_leaf: the lower half stays, the upper half moves to newLeaf. */
  method DealOut(leaf: Node, newLeaf: Node, tempKeys: seq<int>, tempRows: seq<int>)
    requires leaf != newLeaf && leaf.Sized() && newLeaf.Sized() && newLeaf.keyCount == 0
    requires |tempKeys| == |tempRows| == MAX_KEYS + 1
    modifies leaf`keys, leaf`rowIndices, leaf`keyCount, newLeaf`keys, newLeaf`rowIndices, newLeaf`keyCount
    ensures leaf.Sized() && leaf.keyCount == PROMOTE
    ensures leaf.keys[..PROMOTE] == tempKeys[..PROMOTE] && leaf.rowIndices[..PROMOTE] == tempRows[..PROMOTE]
    ensures newLeaf.Sized() && newLeaf.keyCount == MAX_KEYS + 1 - PROMOTE
    ensures newLeaf.keys[..newLeaf.keyCount] == tempKeys[PROMOTE..]
    ensures newLeaf.rowIndices[..newLeaf.keyCount] == tempRows[PROMOTE..]
  {
    var split := |tempKeys| / 2;
    leaf.keyCount := 0;
    var i := 0;
    while i < split
      invariant 0 <= i <= split == PROMOTE && leaf.Sized() && leaf.keyCount == i
      invariant leaf.keys[..i] == tempKeys[..i] && leaf.rowIndices[..i] == tempRows[..i]
      modifies leaf`keys, leaf`rowIndices, leaf`keyCount
    {
      Grow(leaf.keys, i, tempKeys, 0, i);
      Grow(leaf.rowIndices, i, tempRows, 0, i);
      leaf.keys := leaf.keys[i := tempKeys[i]];
      leaf.rowIndices := leaf.rowIndices[i := tempRows[i]];
      leaf.keyCount := leaf.keyCount + 1;
      i := i + 1;
    }
    var j := 0;
    while i < |tempKeys|
      invariant split <= i <= |tempKeys| && j == i - split && newLeaf.Sized() && newLeaf.keyCount == j
      invariant newLeaf.keys[..j] == tempKeys[split..i] && newLeaf.rowIndices[..j] == tempRows[split..i]
      modifies newLeaf`keys, newLeaf`rowIndices, newLeaf`keyCount
    {
      Grow(newLeaf.keys, j, tempKeys, split, i);
      Grow(newLeaf.rowIndices, j, tempRows, split, i);
      newLeaf.keys := newLeaf.keys[j := tempKeys[i]];
      newLeaf.rowIndices := newLeaf.rowIndices[j := tempRows[i]];
      newLeaf.keyCount := newLeaf.keyCount + 1;
      i, j := i + 1, j + 1;
    }
  }

  /** A leaf's cells, as the heap and as the tree have them. */
  lemma {:induction false} LeafCells(c: Ctx, t: Tree, key: int)
    requires Fits(c, t) && Suits(c, t, 1) && t.Leaf? && CtxLo(c) <= key < CtxHi(c)
    ensures t.node.Sized() && t.node.isLeaf && t.node.keyCount == |t.keys| == |t.rows| <= MAX_KEYS
    ensures t.node.keys[..t.node.keyCount] == t.keys && t.node.rowIndices[..t.node.keyCount] == t.rows
    ensures t.node.parent == CtxNode(c) && t.node.next == CtxNext(c)
    ensures HoldsCtx(c, t.node, t.node) && t.node !in CtxNodes(c) && FirstLeaf(t) == t.node
  {
  }

  /** A position found among the cells is the slot among the keys. */
  lemma {:induction false} SlotAmong(cells: seq<int>, ks: seq<int>, at: nat, key: int)
    requires |ks| <= |cells| && cells[..|ks|] == ks && key !in ks && at <= |ks|
    requires forall j :: 0 <= j < at ==> cells[j] < key
    requires at < |ks| ==> key <= cells[at]
    ensures SlotFor(ks, at, key)
  {
    assert forall j :: 0 <= j < |ks| ==> cells[j] == ks[j];
  }

  lemma {:induction false} LeafFits(c: Ctx, leaf: Node, ks: seq<int>, rs: seq<int>)
    requires leaf.Sized() && leaf.isLeaf && leaf.keyCount == |ks| == |rs|
    requires leaf.keys[..leaf.keyCount] == ks && leaf.rowIndices[..leaf.keyCount] == rs
    requires leaf.parent == CtxNode(c) && leaf.next == CtxNext(c)
    requires HoldsCtx(c, leaf, leaf) && leaf !in CtxNodes(c)
    ensures Fits(c, Leaf(leaf, ks, rs))
  {
  }

  lemma {:induction false} LeavesFit(
      c: Ctx, leaf: Node, ks: seq<int>, rs: seq<int>, newLeaf: Node, ks': seq<int>, rs': seq<int>)
    requires leaf.Sized() && leaf.isLeaf && leaf.keyCount == |ks| == |rs|
    requires leaf.keys[..leaf.keyCount] == ks && leaf.rowIndices[..leaf.keyCount] == rs
    requires newLeaf.Sized() && newLeaf.isLeaf && newLeaf.keyCount == |ks'| == |rs'|
    requires newLeaf.keys[..newLeaf.keyCount] == ks' && newLeaf.rowIndices[..newLeaf.keyCount] == rs'
    requires leaf.parent == CtxNode(c) == newLeaf.parent && leaf.next == newLeaf && newLeaf.next == CtxNext(c)
    requires HoldsCtx(c, leaf, leaf) && leaf !in CtxNodes(c) && newLeaf !in CtxNodes(c) && leaf != newLeaf
    ensures Halved(c, Leaf(leaf, ks, rs), Leaf(newLeaf, ks', rs'))
    ensures Nodes(Leaf(leaf, ks, rs)) == {leaf} && Nodes(Leaf(newLeaf, ks', rs')) == {newLeaf}
  {
  }

  /** The body of bptree_split_leaf up to the parent insertion. */
  method SplitCells(leaf: Node, key: int, row: int, ghost ks: seq<int>, ghost rs: seq<int>)
    returns (newLeaf: Node, ghost at: nat)
    requires leaf.Sized() && leaf.keyCount == |ks| == |rs| == MAX_KEYS && key !in ks
    requires leaf.keys[..leaf.keyCount] == ks && leaf.rowIndices[..leaf.keyCount] == rs
    modifies leaf`keys, leaf`rowIndices, leaf`keyCount, leaf`next
    ensures fresh(newLeaf) && SlotFor(ks, at, key)
    ensures |Added(ks, at, key)| == |Added(rs, at, row)| == MAX_KEYS + 1 > PROMOTE
    ensures
      var k, r := Added(ks, at, key), Added(rs, at, row);
      leaf.Sized() && leaf.keyCount == PROMOTE &&
      leaf.keys[..leaf.keyCount] == k[..PROMOTE] && leaf.rowIndices[..leaf.keyCount] == r[..PROMOTE] &&
      newLeaf.Sized() && newLeaf.isLeaf && newLeaf.keyCount == MAX_KEYS + 1 - PROMOTE &&
      newLeaf.keys[..newLeaf.keyCount] == k[PROMOTE..] && newLeaf.rowIndices[..newLeaf.keyCount] == r[PROMOTE..] &&
      |newLeaf.keys| > 0 && newLeaf.keys[0] == k[PROMOTE]
    ensures leaf.next == newLeaf && newLeaf.next == old(leaf.next) && newLeaf.parent == leaf.parent
  {
    newLeaf := new Node(true);
    var slot := FindSlot(leaf, key);
    at := slot;
    SlotAmong(leaf.keys, ks, at, key);
    Slices(leaf.keys, ks, at);
    Slices(leaf.rowIndices, rs, at);
    AddedIs(ks, at, key);
    AddedIs(rs, at, row);
    hide Added, SlotFor;
    var tempKeys := LayOut(leaf.keys, leaf.keyCount, slot, key);
    var tempRows := LayOut(leaf.rowIndices, leaf.keyCount, slot, row);
    DealOut(leaf, newLeaf, tempKeys, tempRows);
    CellsAre(newLeaf.keys, tempKeys[PROMOTE..]);
    newLeaf.next := leaf.next;
    leaf.next := newLeaf;
    newLeaf.parent := leaf.parent;
  }

  /** Contents before and after, as lists and as maps. */
  lemma {:induction false} ContentsGrow(a: seq<Pair>, z: seq<Pair>, b: seq<Pair>, at: nat, key: int, row: int)
    requires Sorted(a + z + b) && Sorted(a + Added(z, at, (key, row)) + b)
    ensures key !in MapOf(a + z + b)
    ensures MapOf(a + Added(z, at, (key, row)) + b) == MapOf(a + z + b)[key := row]
  {
    var m := if at <= |z| then at else |z|;
    var p, q := a + z[..m], z[m..] + b;
    assert p + q == a + z + b;
    assert p + [(key, row)] + q == a + Added(z, at, (key, row)) + b;
    MapOfInsert(p, key, row, q);
  }

  class BPTree {
    var root: Node?
    ghost var shape: Option<Tree>
    ghost var height: nat

    ghost function Repr(): set<Node>
      reads this
    {
      if shape.None? then {} else Nodes(shape.value)
    }

    /** An empty tree, or a tree whose nodes spell out `shape`: in order, balanced and filled. */
    ghost predicate Valid()
      reads this, Repr()
    {
      (root == null <==> shape.None?) &&
      (shape.Some? ==>
        root == shape.value.node && Fits(Top, shape.value) && Suits(Top, shape.value, height))
    }

    /** The (key, row index) pairs in key order. */
    ghost function Contents(): seq<Pair>
      reads this
    {
      if shape.None? then [] else Pairs(shape.value)
    }

    ghost function Map(): map<int, int>
      reads this
    {
      MapOf(Contents())
    }

    constructor ()
      ensures Valid() && root == null && Repr() == {} && Contents() == []
    {
      root, shape, height := null, None, 0;
    }

    /** t is the tree from now on. */
    ghost method Adopt(t: Tree, h: nat)
      requires root == t.node && Fits(Top, t) && Suits(Top, t, h)
      modifies this`shape, this`height
      ensures Valid() && shape == Some(t) && height == h
      ensures Contents() == Pairs(t) && Repr() == Nodes(t)
    {
      hide Fits, Suits, Nodes, Pairs;
      shape, height := Some(t), h;
    }

    /** bptree_insert_into_parent, when the split node was the root. */
    method GrowRoot(left: Node, sep: int, right: Node, ghost l: Tree, ghost r: Tree, ghost h: nat)
      returns (ghost news: set<Node>)
      requires l.node == left && r.node == right && left.parent == null
      requires Halved(Top, l, r) && HalvesSuit(Top, l, sep, r, h)
      modifies this`root, this`shape, this`height, left`parent, right`parent
      ensures Valid() && Contents() == Pairs(l) + Pairs(r)
      ensures Repr() == Nodes(l) + Nodes(r) + news && fresh(news)
    {
      hide *;
      TreeAllocated(l);
      TreeAllocated(r);
      HalvedTop(l, r);
      var newRoot := LinkRoot(left, sep, right);
      RootAbove(newRoot, l, sep, r, h);
      root := newRoot;
      Adopt(Inner(newRoot, [sep], [l, r]), h + 1);
      news := {newRoot};
    }

    /** bptree_insert_into_parent, when the parent has room. */
    method JoinParent(
        parent: Node, at: nat, sep: int, right: Node, ghost c: Ctx, ghost l: Tree, ghost r: Tree, ghost h: nat)
      requires c.Under? && c.node == parent && r.node == right && at == |c.left| && parent.keyCount < MAX_KEYS
      requires Halved(c, l, r) && HalvesSuit(c, l, sep, r, h) && root == TopNode(c, l.node)
      modifies this, parent, right`parent
      ensures Valid() && root == old(root)
      ensures Contents() == PairsBefore(c) + Pairs(l) + Pairs(r) + PairsAfter(c)
      ensures Repr() == CtxNodes(c) + Nodes(l) + Nodes(r)
    {
      hide *;
      JoinedCount(c, l, sep, r);
      HalvesCount(c, l, r);
      FillParent(parent, at, sep, right, c, l, r);
      ParentHolds(c, l, sep, r, h);
      ghost var t := Joined(c, l, sep, r);
      PlugFits(c.up, t, h + 1);
      Adopt(Plug(c.up, t), h + 1 + CtxHeight(c.up));
    }

    /** bptree_insert_into_parent: the right half and its separator go to the parent of the left. */
    method InsertIntoParent(left: Node, sep: int, right: Node, ghost c: Ctx, ghost l: Tree, ghost r: Tree, ghost h: nat)
      returns (ok: bool, ghost news: set<Node>)
      requires l.node == left && r.node == right && root == TopNode(c, left)
      requires Halved(c, l, r) && HalvesSuit(c, l, sep, r, h)
      modifies this, CtxNodes(c), left`parent, right`parent
      ensures ok && Valid()
      ensures Contents() == PairsBefore(c) + Pairs(l) + Pairs(r) + PairsAfter(c)
      ensures Repr() == CtxNodes(c) + Nodes(l) + Nodes(r) + news && fresh(news)
      decreases c, 1
    {
      hide Halved, HalvesSuit, Fits, Suits, Spells, SpellEach, ParentOf, HoldsCtx, Good, GoodCtx, Full, CtxNodes;
      hide Nodes, NodesOf, RootSet, Roots, Pairs, PairsOf, PairsBefore, PairsAfter, FirstLeaf, CtxNext, CtxLo, CtxHi;
      TreeAllocated(l);
      TreeAllocated(r);
      CtxAllocated(c);
      HalvedLeft(c, l, r);
      var parent := left.parent;
      if parent == null {
        TopPairs(c);
        news := GrowRoot(left, sep, right, l, r, h);
        return true, news;
      }
      HalvesTogether(c, l, r);
      HalvesCount(c, l, r);
      var at := FindChildIndex(parent, left);
      SizedOf(parent);
      LeftAmong(c, l, r);
      if at.None? {
        assert false;
        return false, {};
      }
      ChildIndex(c, l, r, at.value);
      if parent.keyCount < MAX_KEYS {
        JoinParent(parent, at.value, sep, right, c, l, r, h);
        return true, {};
      }
      ok, news := SplitInternal(parent, at.value, sep, right, c, l, r, h);
    }

    /** bptree_split_internal: the full parent is split around the middle key, which goes up. */
    method SplitInternal(
        node: Node, at: nat, key: int, right: Node, ghost c: Ctx, ghost l: Tree, ghost r: Tree, ghost h: nat)
      returns (ok: bool, ghost news: set<Node>)
      requires c.Under? && c.node == node && r.node == right && at == |c.left| && node.keyCount == MAX_KEYS
      requires Halved(c, l, r) && HalvesSuit(c, l, key, r, h) && root == TopNode(c, l.node)
      modifies this, CtxNodes(c), l.node`parent, right`parent
      ensures ok && Valid()
      ensures Contents() == PairsBefore(c) + Pairs(l) + Pairs(r) + PairsAfter(c)
      ensures Repr() == CtxNodes(c) + Nodes(l) + Nodes(r) + news && fresh(news)
      decreases c, 0
    {
      hide Halved, HalvesSuit, Fits, Suits, Spells, SpellEach, ParentOf, HoldsCtx, Good, GoodCtx, Full, CtxNodes;
      hide Nodes, NodesOf, RootSet, Roots, Pairs, PairsOf, PairsBefore, PairsAfter, FirstLeaf, CtxNext, CtxLo, CtxHi;
      HalvesCount(c, l, r);
      JoinedCount(c, l, key, r);
      ghost var all := WithHalves(c, l, r);
      TreesAllocated(all);
      CtxAllocated(c.up);
      var newNode, promoted := DivideNode(node, at, key, right, c, l, r);
      PartsHold(newNode, c, l, key, r);
      PartsSuit(newNode, c, l, key, r, h);
      ghost var a, b := LeftPart(c, l, key, r), RightPart(newNode, c, l, key, r);
      assert Nodes(a) <= Nodes(a) + Nodes(b) && Nodes(b) <= Nodes(a) + Nodes(b);
      ok, news := InsertIntoParent(node, promoted, newNode, c.up, a, b, h + 1);
      news := news + {newNode};
    }

    lemma WhenEmpty()
      requires Valid()
      ensures root == null <==> shape.None?
      ensures root == null ==> Contents() == [] && Map() == map[] && Repr() == {}
    {
      hide Fits, Suits;
    }

    lemma StartDown(key: int)
      requires Valid() && root != null
      ensures Reached(shape.value, Top, shape.value, height, key) && shape.value.node == root
    {
      hide Fits, Suits;
    }

    /** bptree_find_leaf: the leaf where a key belongs, in as many steps as the tree has levels. */
    method FindLeaf(key: int) returns (leaf: Node?, ghost focus: Option<Focus>, ghost steps: nat)
      requires Valid()
      ensures leaf == null <==> root == null
      ensures focus.Some? <==> root != null
      ensures focus.Some? ==>
        var Focus(c, t) := focus.value;
        t.Leaf? && t.node == leaf && Reached(shape.value, c, t, 1, key)
      ensures root != null ==> steps == height
    {
      hide *;
      WhenEmpty();
      if root == null {
        return null, None, 0;
      }
      StartDown(key);
      ghost var whole := shape.value;
      var current := root;
      ghost var c, t, h := Top, whole, height;
      steps := 1;
      while !current.isLeaf
        invariant Reached(whole, c, t, h, key) && t.node == current
        invariant steps + h == height + 1
        decreases t
      {
        ReachedNode(whole, c, t, h, key);
        var i := 0;
        while i < current.keyCount && !(key < current.keys[i])
          invariant 0 <= i <= current.keyCount
          invariant forall j :: 0 <= j < i ==> current.keys[j] <= key
        {
          i := i + 1;
        }
        StepDown(whole, c, t, h, i, key);
        current := current.children[i];
        c, t, h := Below(c, t, i), t.kids[i], h - 1;
        steps := steps + 1;
      }
      ReachedNode(whole, c, t, h, key);
      return current, Some(Focus(c, t)), steps;
    }

    /** A key that finds a leaf: the leaf's place in the whole tree. */
    lemma {:induction false} PlaceOf(c: Ctx, t: Tree, key: int)
      requires shape.Some? && Reached(shape.value, c, t, 1, key) && IsKey(key) && t.Leaf? && Valid()
      ensures Fits(c, t) && Suits(c, t, 1) && CtxLo(c) <= key < CtxHi(c) && root == TopNode(c, t.node)
      ensures Repr() == CtxNodes(c) + Nodes(t)
      ensures Contents() == PairsBefore(c) + Pairs(t) + PairsAfter(c)
      ensures key in Map() <==> key in t.keys
      ensures forall i :: 0 <= i < |t.keys| && t.keys[i] == key ==>
        |t.rows| == |t.keys| && key in Map() && Map()[key] == t.rows[i]
      ensures t.node.Sized() && 0 <= t.node.keyCount <= MAX_KEYS && t.node in Nodes(t)
    {
      PlugFits(c, t, 1);
      Located(c, t, key);
      MapOfSorted(Contents());
      hide Fits, Suits, Plug, PairsBefore, PairsAfter, CtxNodes, Sorted, MapOf;
      LeafCells(c, t, key);
      SizedOf(t.node);
    }

    lemma ReprAllocated()
      ensures forall n <- Repr() :: allocated(n)
    {
      if shape.Some? {
        TreeAllocated(shape.value);
      }
    }

    /** bptree_search: what the map binds the key to. */
    method Search(key: int) returns (r: Option<int>)
      requires Valid() && IsKey(key)
      ensures r == if key in Map() then Some(Map()[key]) else None
    {
      hide *;
      WhenEmpty();
      ReprAllocated();
      if root == null {
        return None;
      }
      var leaf, focus, _ := FindLeaf(key);
      ghost var c, t := focus.value.c, focus.value.t;
      PlaceOf(c, t, key);
      LeafCells(c, t, key);
      CellsAre(leaf.keys, t.keys);
      CellsAre(leaf.rowIndices, t.rows);
      var i := 0;
      while i < leaf.keyCount
        invariant 0 <= i <= leaf.keyCount
        invariant forall j :: 0 <= j < i ==> t.keys[j] != key
      {
        if leaf.keys[i] == key {
          return Some(leaf.rowIndices[i]);
        }
        i := i + 1;
      }
      return None;
    }

    /** bptree_insert into a leaf with room. */
    method InsertAtLeaf(leaf: Node, key: int, row: int, ghost c: Ctx, ghost t: Tree) returns (ok: bool, ghost at: nat)
      requires Fits(c, t) && Suits(c, t, 1) && t.Leaf? && t.node == leaf && root == TopNode(c, leaf)
      requires CtxLo(c) <= key < CtxHi(c) && key !in t.keys && leaf.keyCount < MAX_KEYS
      modifies this`shape, this`height, leaf
      ensures ok && Valid() && Repr() == CtxNodes(c) + Nodes(t)
      ensures Contents() == PairsBefore(c) + Added(Pairs(t), at, (key, row)) + PairsAfter(c)
    {
      hide *;
      CtxAllocated(c);
      LeafCells(c, t, key);
      SizedOf(leaf);
      ok, at := InsertIntoLeaf(leaf, key, row);
      SlotAmong(old(leaf.keys), t.keys, at, key);
      Slices(old(leaf.keys), t.keys, at);
      Slices(old(leaf.rowIndices), t.rows, at);
      LeafSuits(c, t, at, key, row);
      AddedIs(t.keys, at, key);
      AddedIs(t.rows, at, row);
      ghost var ks, rs := Added(t.keys, at, key), Added(t.rows, at, row);
      LeafFits(c, leaf, ks, rs);
      LeafTree(c, t, Leaf(leaf, ks, rs));
      PlugFits(c, Leaf(leaf, ks, rs), 1);
      Adopt(Plug(c, Leaf(leaf, ks, rs)), 1 + CtxHeight(c));
    }

    /** bptree_split_leaf: the upper half of a full leaf and the new pair moves to a leaf of its
        own, next in the chain, and the first key there goes to the parent. */
    method SplitLeaf(leaf: Node, key: int, row: int, ghost c: Ctx, ghost t: Tree)
      returns (ok: bool, ghost at: nat, ghost news: set<Node>)
      requires Fits(c, t) && Suits(c, t, 1) && t.Leaf? && t.node == leaf && root == TopNode(c, leaf)
      requires CtxLo(c) <= key < CtxHi(c) && key !in t.keys && leaf.keyCount == MAX_KEYS
      modifies this, CtxNodes(c), leaf
      ensures ok && Valid() && Repr() == CtxNodes(c) + Nodes(t) + news && fresh(news)
      ensures Contents() == PairsBefore(c) + Added(Pairs(t), at, (key, row)) + PairsAfter(c)
    {
      hide *;
      CtxAllocated(c);
      LeafCells(c, t, key);
      var newLeaf;
      newLeaf, at := SplitCells(leaf, key, row, t.keys, t.rows);
      ghost var ks, rs := Added(t.keys, at, key), Added(t.rows, at, row);
      ghost var l, r := Leaf(leaf, ks[..PROMOTE], rs[..PROMOTE]), Leaf(newLeaf, ks[PROMOTE..], rs[PROMOTE..]);
      LeavesSuit(c, t, at, key, row, newLeaf);
      LeavesFit(c, leaf, l.keys, l.rows, newLeaf, r.keys, r.rows);
      LeafTree(c, t, l);
      ok, news := InsertIntoParent(leaf, newLeaf.keys[0], newLeaf, c, l, r, 1);
      news := news + {newLeaf};
    }

    lemma ContentsSorted()
      requires Valid()
      ensures Sorted(Contents()) && Within(Contents(), KEY_LO, KEY_HI)
    {
      if shape.Some? {
        GoodSorted(shape.value, height, KEY_LO, KEY_HI);
      }
    }

    /** bptree_insert on an empty tree: the root is a leaf with one pair. */
    method InsertFirst(key: int, row: int) returns (ghost news: set<Node>)
      requires Valid() && root == null && IsKey(key)
      modifies this
      ensures Valid() && Repr() == news && fresh(news) && Contents() == [(key, row)] && root != null
    {
      var leaf := new Node(true);
      leaf.keys := leaf.keys[0 := key];
      leaf.rowIndices := leaf.rowIndices[0 := row];
      leaf.keyCount := 1;
      root := leaf;
      LeafFits(Top, leaf, [key], [row]);
      Adopt(Leaf(leaf, [key], [row]), 1);
      ZipAt([key], [row]);
      news := {leaf};
    }

    lemma MapIs()
      ensures Map() == MapOf(Contents())
    {
    }

    /** bptree_insert: a key that is not there yet is bound to `row`; one that is there is refused. */
    method Insert(key: int, row: int) returns (ok: bool, ghost news: set<Node>)
      requires Valid() && IsKey(key)
      modifies this, Repr()
      ensures Valid() && Repr() == old(Repr()) + news && fresh(news)
      ensures ok == (key !in old(Map()))
      ensures ok ==> Map() == old(Map())[key := row] && root != null
      ensures !ok ==> unchanged(this) && forall n <- old(Repr()) :: old(allocated(n)) ==> unchanged(n)
    {
      hide Valid, MapOf, Pairs, PairsBefore, PairsAfter, Sorted, CtxNodes, Nodes, Fits, Suits, Added, BPTree.Map,
        BPTree.Contents, BPTree.Repr;
      ReprAllocated();
      WhenEmpty();
      MapIs();
      ContentsSorted();
      if root == null {
        news := InsertFirst(key, row);
        MapIs();
        ContentsSorted();
        assert [] + [] == Contents()[..0] && [] + [(key, row)] + [] == Contents();
        MapOfInsert([], key, row, []);
        return true, news;
      }
      var found := Search(key);
      if found.Some? {
        return false, {};
      }
      var leaf, focus, _ := FindLeaf(key);
      ghost var c, t := focus.value.c, focus.value.t;
      PlaceOf(c, t, key);
      ghost var a, z, b := PairsBefore(c), Pairs(t), PairsAfter(c);
      ghost var at;
      if leaf.keyCount < MAX_KEYS {
        ok, at := InsertAtLeaf(leaf, key, row, c, t);
        news := {};
      } else {
        ok, at, news := SplitLeaf(leaf, key, row, c, t);
      }
      MapIs();
      ContentsSorted();
      ContentsGrow(a, z, b, at, key, row);
      WhenEmpty();
      assert key in Map();
    }

    /** All leaves lie `height` levels down, and every level multiplies the keys by at least 16. */
    lemma HeightBound()
      requires Valid() && root != null
      ensures shape.Some? && shape.value.node == root && LeavesAt(shape.value, height)
      ensures height >= 1 && (height >= 2 ==> |Contents()| >= 2 * Pow16(height - 1))
    {
      FullCount(shape.value, height, KEY_LO, KEY_HI);
      GoodLevels(shape.value, height, KEY_LO, KEY_HI);
    }

    /** The chain of `next` pointers from the leftmost leaf visits every leaf once, in order, and
        lists the whole map in strictly increasing key order. */
    lemma LeafChain() returns (leaves: seq<Node>)
      requires Valid() && root != null
      ensures leaves == Leaves(shape.value) && leaves != [] && leaves[0] == FirstLeaf(shape.value)
      ensures Chained(leaves, null) && NoRepeats(leaves)
      ensures ChainPairs(leaves) == Contents() && Sorted(Contents())
    {
      leaves := Leaves(shape.value);
      LeavesChained(shape.value, height, KEY_LO, KEY_HI, null);
      ContentsSorted();
    }
  }
}
