/**
The value-level view of the id index of src/bptree.c: the tree that a set of heap nodes spells
out, the context that is left when one subtree is taken out of it, and what both mean as a
sorted list of (key, row index) pairs.
*/
module BPTreeShape {

  const MAX_KEYS: nat := 31   // BPTREE_MAX_KEYS
  const MIN_FILL: nat := 16   // keys of a leaf, children of an inner node, left by a split
  const KEY_LO: int := -0x8000_0000
  const KEY_HI: int := 0x8000_0000   // one past INT_MAX

  /** struct BPTreeNode. Its arrays are embedded in the struct, so each is a field of fixed
      length, updated cell by cell; cells past keyCount hold leftovers. */
  class Node {
    var isLeaf: bool
    var keyCount: int
    var keys: seq<int>
    var parent: Node?
    var children: seq<Node?>
    var rowIndices: seq<int>
    var next: Node?

    ghost predicate Sized()
      reads this`keys, this`children, this`rowIndices, this`keyCount
    {
      |keys| == MAX_KEYS && |children| == MAX_KEYS + 1 && |rowIndices| == MAX_KEYS &&
      0 <= keyCount <= MAX_KEYS
    }

    /** bptree_create_node: zeroed memory. */
    constructor (isLeaf: bool)
      ensures this.isLeaf == isLeaf && keyCount == 0 && parent == null && next == null && Sized()
    {
      this.isLeaf, keyCount := isLeaf, 0;
      keys, rowIndices := seq(MAX_KEYS, _ => 0), seq(MAX_KEYS, _ => 0);
      children := seq(MAX_KEYS + 1, _ => null);
      parent, next := null, null;
    }
  }

  datatype Tree =
    | Leaf(node: Node, keys: seq<int>, rows: seq<int>)
    | Inner(node: Node, keys: seq<int>, kids: seq<Tree>)

  /** A tree with one subtree missing: the hole sits below `node`, between `left` and `right`. */
  datatype Ctx =
    | Top
    | Under(up: Ctx, node: Node, keys: seq<int>, left: seq<Tree>, right: seq<Tree>)

  // ---------- The nodes of a tree and of a context ----------

  ghost function Nodes(t: Tree): (s: set<Node>)
    ensures t.node in s
  {
    match t
    case Leaf(n, _, _) => {n}
    case Inner(n, _, kids) => {n} + set i, m | 0 <= i < |kids| && m in Nodes(kids[i]) :: m
  }

  ghost function NodesOf(ts: seq<Tree>): set<Node> {
    set i, m | 0 <= i < |ts| && m in Nodes(ts[i]) :: m
  }

  ghost function CtxNodes(c: Ctx): set<Node> {
    match c
    case Top => {}
    case Under(up, n, _, ls, rs) => {n} + CtxNodes(up) + NodesOf(ls) + NodesOf(rs)
  }

  ghost function CtxNode(c: Ctx): Node? {
    if c.Top? then null else c.node
  }

  /** The leftmost leaf below t. */
  ghost function FirstLeaf(t: Tree): Node {
    if t.Leaf? || t.kids == [] then t.node else FirstLeaf(t.kids[0])
  }

  /** The leaf that follows subtree i - 1 among siblings whose own successor is `next`. */
  ghost function LeafAt(kids: seq<Tree>, i: nat, next: Node?): Node? {
    if i < |kids| then FirstLeaf(kids[i]) else next
  }

  /** The leaf that follows the hole. */
  ghost function CtxNext(c: Ctx): Node? {
    if c.Top? then null else LeafAt(c.right, 0, CtxNext(c.up))
  }

  ghost predicate Apart(ts: seq<Tree>) {
    forall i, j :: 0 <= i < j < |ts| ==> Nodes(ts[i]) !! Nodes(ts[j])
  }

  // ---------- The heap spells out a tree ----------

  /** The nodes of t, followed by the leaf `next`, hold exactly t: keys, row indices and children
      in their slots, parent pointers below the root, leaf chain, and no node used twice. What the
      root's own parent pointer says is left open. */
  ghost predicate Spells(t: Tree, next: Node?)
    reads Nodes(t)`isLeaf, Nodes(t)`keyCount, Nodes(t)`keys, Nodes(t)`children
    reads Nodes(t)`rowIndices, Nodes(t)`next, (Nodes(t) - {t.node})`parent
    decreases t, 1
  {
    var n := t.node;
    n.Sized() && n.keyCount == |t.keys| && n.keys[..n.keyCount] == t.keys &&
    match t
    case Leaf(_, ks, rs) =>
      n.isLeaf && |rs| == |ks| && n.rowIndices[..n.keyCount] == rs && n.next == next
    case Inner(_, ks, kids) =>
      !n.isLeaf && |kids| == |ks| + 1 && n !in NodesOf(kids) &&
      n.children[..|kids|] == Roots(kids) &&
      (RootsIn(kids); ParentOf(n, kids) && SpellEach(kids, next))
  }

  /** The roots of siblings, as the cells of a children array hold them. */
  ghost function Roots(ts: seq<Tree>): seq<Node?> {
    seq(|ts|, i requires 0 <= i < |ts| => ts[i].node)
  }

  ghost function RootSet(ts: seq<Tree>): set<Node> {
    set i | 0 <= i < |ts| :: ts[i].node
  }

  lemma {:induction false} RootsIn(ts: seq<Tree>)
    ensures RootSet(ts) <= NodesOf(ts)
  {
    forall i | 0 <= i < |ts| ensures ts[i].node in NodesOf(ts) {
      assert Nodes(ts[i]) <= NodesOf(ts);
    }
  }

  ghost predicate ParentOf(parent: Node?, ts: seq<Tree>)
    reads RootSet(ts)`parent
  {
    forall n <- RootSet(ts) :: n.parent == parent
  }

  /** The heap spells out siblings that share no node, the last followed by the leaf `next`. */
  ghost predicate SpellEach(ts: seq<Tree>, next: Node?)
    reads NodesOf(ts)`isLeaf, NodesOf(ts)`keyCount, NodesOf(ts)`keys, NodesOf(ts)`children
    reads NodesOf(ts)`rowIndices, NodesOf(ts)`next, (NodesOf(ts) - RootSet(ts))`parent
    decreases ts, 0
  {
    Apart(ts) && forall i :: 0 <= i < |ts| ==> (Own(ts, i); SpellNth(ts, i, next))
  }

  /** Of all the roots, tree i holds only its own. */
  lemma {:induction false} Own(ts: seq<Tree>, i: nat)
    requires Apart(ts) && i < |ts|
    ensures Nodes(ts[i]) <= NodesOf(ts) && Nodes(ts[i]) - {ts[i].node} <= NodesOf(ts) - RootSet(ts)
  {
  }

  ghost predicate SpellNth(ts: seq<Tree>, i: nat, next: Node?)
    requires i < |ts|
    reads Nodes(ts[i])`isLeaf, Nodes(ts[i])`keyCount, Nodes(ts[i])`keys, Nodes(ts[i])`children
    reads Nodes(ts[i])`rowIndices, Nodes(ts[i])`next, (Nodes(ts[i]) - {ts[i].node})`parent
    decreases ts[i], 2
  {
    Spells(ts[i], LeafAt(ts, i + 1, next))
  }

  /** The same for a context whose hole is filled by some tree with root `hole` and leftmost leaf
      `first`. */
  ghost predicate HoldsCtx(c: Ctx, hole: Node, first: Node)
    reads CtxNodes(c)`isLeaf, CtxNodes(c)`keyCount, CtxNodes(c)`keys, CtxNodes(c)`children
    reads CtxNodes(c)`rowIndices, CtxNodes(c)`next, CtxNodes(c)`parent
  {
    match c
    case Top => true
    case Under(up, n, ks, ls, rs) =>
      n.Sized() && !n.isLeaf && n.parent == CtxNode(up) && n.keyCount == |ks| == |ls| + |rs| &&
      n.keys[..n.keyCount] == ks && n.children[..|ks| + 1] == Roots(ls) + [hole] + Roots(rs) &&
      NodesOf(ls) !! NodesOf(rs) && NodesOf(ls) !! CtxNodes(up) && NodesOf(rs) !! CtxNodes(up) &&
      n !in NodesOf(ls) + NodesOf(rs) + CtxNodes(up) &&
      (RootsIn(ls); RootsIn(rs); ParentOf(n, ls) && ParentOf(n, rs)) &&
      SpellEach(ls, first) && SpellEach(rs, CtxNext(up)) &&
      HoldsCtx(up, n, LeafAt(ls, 0, first))
  }

  // ---------- Order, balance and fill ----------

  /** Bounds of child i between separator keys. */
  ghost function Lo(ks: seq<int>, i: int, lo: int): int {
    if 0 < i <= |ks| then ks[i - 1] else lo
  }

  ghost function Hi(ks: seq<int>, i: int, hi: int): int {
    if 0 <= i < |ks| then ks[i] else hi
  }

  ghost predicate Full(t: Tree) {
    if t.Leaf? then |t.keys| >= MIN_FILL else |t.kids| >= MIN_FILL
  }

  /** A search tree of h levels with all leaves at the bottom, its keys within [lo, hi), no node
      over its capacity and none below the root under its minimum. */
  ghost predicate Good(t: Tree, h: nat, lo: int, hi: int)
    decreases t, 1
  {
    match t
    case Leaf(_, ks, rs) =>
      h == 1 && 1 <= |ks| <= MAX_KEYS && |rs| == |ks| &&
      (forall i :: 0 <= i < |ks| ==> lo <= ks[i] < hi) &&
      (forall i, j :: 0 <= i < j < |ks| ==> ks[i] < ks[j])
    case Inner(_, ks, kids) =>
      h >= 2 && 1 <= |ks| <= MAX_KEYS && |kids| == |ks| + 1 && GoodKids(ks, 0, kids, h - 1, lo, hi)
  }

  /** The trees `kids` fit between the separators ks from slot s on. */
  ghost predicate GoodKids(ks: seq<int>, s: nat, kids: seq<Tree>, h: nat, lo: int, hi: int)
    decreases kids, 0
  {
    forall i :: 0 <= i < |kids| ==> GoodKid(ks, s, kids, i, h, lo, hi)
  }

  ghost predicate GoodKid(ks: seq<int>, s: nat, kids: seq<Tree>, i: nat, h: nat, lo: int, hi: int)
    requires i < |kids|
    decreases kids[i], 2
  {
    Full(kids[i]) && Lo(ks, s + i, lo) < Hi(ks, s + i, hi) &&
    Good(kids[i], h, Lo(ks, s + i, lo), Hi(ks, s + i, hi))
  }

  ghost function CtxLo(c: Ctx): int {
    if c.Top? then KEY_LO else Lo(c.keys, |c.left|, CtxLo(c.up))
  }

  ghost function CtxHi(c: Ctx): int {
    if c.Top? then KEY_HI else Hi(c.keys, |c.left|, CtxHi(c.up))
  }

  /** The context accepts a subtree of h levels with keys in [CtxLo(c), CtxHi(c)). */
  ghost predicate GoodCtx(c: Ctx, h: nat) {
    match c
    case Top => true
    case Under(up, n, ks, ls, rs) =>
      h >= 1 && 1 <= |ks| <= MAX_KEYS && |ks| == |ls| + |rs| && CtxLo(c) < CtxHi(c) &&
      GoodKids(ks, 0, ls, h, CtxLo(up), CtxHi(up)) &&
      GoodKids(ks, |ls| + 1, rs, h, CtxLo(up), CtxHi(up)) &&
      (up.Under? ==> |ks| + 1 >= MIN_FILL) &&
      GoodCtx(up, h + 1)
  }

  ghost function CtxHeight(c: Ctx): nat {
    if c.Top? then 0 else 1 + CtxHeight(c.up)
  }

  // ---------- Meaning ----------

  type Pair = (int, int)

  ghost function Zip(ks: seq<int>, rs: seq<int>): (ps: seq<Pair>) {
    if |ks| == 0 || |rs| == 0 then [] else [(ks[0], rs[0])] + Zip(ks[1..], rs[1..])
  }

  /** The (key, row index) pairs of t from left to right. */
  ghost function Pairs(t: Tree): seq<Pair>
    decreases t, 0
  {
    match t
    case Leaf(_, ks, rs) => Zip(ks, rs)
    case Inner(_, _, kids) => PairsOf(kids)
  }

  ghost function PairsOf(ts: seq<Tree>): seq<Pair>
    decreases ts
  {
    if ts == [] then [] else Pairs(ts[0]) + PairsOf(ts[1..])
  }

  /** The pairs to the left and to the right of the hole. */
  ghost function PairsBefore(c: Ctx): seq<Pair> {
    if c.Top? then [] else PairsBefore(c.up) + PairsOf(c.left)
  }

  ghost function PairsAfter(c: Ctx): seq<Pair> {
    if c.Top? then [] else PairsOf(c.right) + PairsAfter(c.up)
  }

  // ---------- Every node of a tree one can name is allocated ----------

  lemma {:induction false} TreeAllocated(t: Tree)
    ensures forall n <- Nodes(t) :: allocated(n)
  {
    if t.Inner? {
      forall i | 0 <= i < |t.kids| ensures forall n <- Nodes(t.kids[i]) :: allocated(n) {
        TreeAllocated(t.kids[i]);
      }
    }
  }

  lemma {:induction false} TreesAllocated(ts: seq<Tree>)
    ensures forall n <- NodesOf(ts) :: allocated(n)
  {
    forall i | 0 <= i < |ts| ensures forall n <- Nodes(ts[i]) :: allocated(n) {
      TreeAllocated(ts[i]);
    }
  }

  lemma {:induction false} CtxAllocated(c: Ctx)
    ensures forall n <- CtxNodes(c) :: allocated(n)
  {
    if c.Under? {
      CtxAllocated(c.up);
      TreesAllocated(c.left);
      TreesAllocated(c.right);
    }
  }

  // ---------- Sequences of subtrees ----------

  lemma {:induction false} PairsOfConcat(a: seq<Tree>, b: seq<Tree>)
    ensures PairsOf(a + b) == PairsOf(a) + PairsOf(b)
  {
    if a == [] {
      assert a + b == b;
    } else {
      assert (a + b)[1..] == a[1..] + b;
      PairsOfConcat(a[1..], b);
    }
  }

  lemma {:induction false} NodesOfConcat(a: seq<Tree>, b: seq<Tree>)
    ensures NodesOf(a + b) == NodesOf(a) + NodesOf(b)
    ensures Apart(a + b) <==> Apart(a) && Apart(b) && NodesOf(a) !! NodesOf(b)
  {
    hide Nodes;
    var all := a + b;
    assert forall i :: 0 <= i < |a| ==> all[i] == a[i];
    assert forall i :: 0 <= i < |b| ==> all[|a| + i] == b[i];
    if Apart(all) {
      assert Apart(b) by {
        forall i, j | 0 <= i < j < |b|
          ensures Nodes(b[i]) !! Nodes(b[j])
        {
          assert Nodes(all[|a| + i]) !! Nodes(all[|a| + j]);
        }
      }
      forall i, j | 0 <= i < |a| && 0 <= j < |b|
        ensures Nodes(a[i]) !! Nodes(b[j])
      {
        assert Nodes(all[i]) !! Nodes(all[|a| + j]);
      }
    }
    if Apart(a) && Apart(b) && NodesOf(a) !! NodesOf(b) {
      forall i, j | 0 <= i < j < |all|
        ensures Nodes(all[i]) !! Nodes(all[j])
      {
        if i < |a| <= j {
          assert Nodes(a[i]) <= NodesOf(a) && Nodes(b[j - |a|]) <= NodesOf(b);
        }
      }
    }
  }

  lemma {:induction false} SpellEachConcat(a: seq<Tree>, b: seq<Tree>, next: Node?)
    ensures SpellEach(a + b, next)
      <==> (SpellEach(a, LeafAt(b, 0, next)) && SpellEach(b, next) && NodesOf(a) !! NodesOf(b))
  {
    var all, mid := a + b, LeafAt(b, 0, next);
    NodesOfConcat(a, b);
    hide Apart, NodesOf;
    if SpellEach(all, next) {
      forall i | 0 <= i < |a| ensures SpellNth(a, i, mid) {
        assert SpellNth(all, i, next);
      }
      forall i | 0 <= i < |b| ensures SpellNth(b, i, next) {
        assert SpellNth(all, |a| + i, next);
      }
      assert SpellEach(a, mid);
    }
    if SpellEach(a, mid) && SpellEach(b, next) && NodesOf(a) !! NodesOf(b) {
      forall i | 0 <= i < |all| ensures SpellNth(all, i, next) {
        if i < |a| {
          assert SpellNth(a, i, mid);
        } else {
          assert SpellNth(b, i - |a|, next);
        }
      }
    }
  }

  lemma {:induction false} RootsConcat(a: seq<Tree>, b: seq<Tree>)
    ensures RootSet(a + b) == RootSet(a) + RootSet(b)
    ensures Roots(a + b) == Roots(a) + Roots(b)
  {
    var all := a + b;
    assert forall i :: 0 <= i < |a| ==> a[i] == all[i];
    assert forall i :: 0 <= i < |b| ==> b[i] == all[|a| + i];
  }

  lemma {:induction false} GoodKidsConcat(ks: seq<int>, s: nat, a: seq<Tree>, b: seq<Tree>, h: nat, lo: int, hi: int)
    ensures GoodKids(ks, s, a + b, h, lo, hi)
      <==> (GoodKids(ks, s, a, h, lo, hi) && GoodKids(ks, s + |a|, b, h, lo, hi))
  {
    var all, s' := a + b, s + |a|;
    if GoodKids(ks, s, all, h, lo, hi) {
      forall i | 0 <= i < |a| ensures GoodKid(ks, s, a, i, h, lo, hi) {
        assert GoodKid(ks, s, all, i, h, lo, hi);
      }
      forall i | 0 <= i < |b| ensures GoodKid(ks, s', b, i, h, lo, hi) {
        assert GoodKid(ks, s, all, |a| + i, h, lo, hi);
      }
    }
    if GoodKids(ks, s, a, h, lo, hi) && GoodKids(ks, s + |a|, b, h, lo, hi) {
      forall i | 0 <= i < |all| ensures GoodKid(ks, s, all, i, h, lo, hi) {
        if i < |a| {
          assert GoodKid(ks, s, a, i, h, lo, hi);
        } else {
          assert GoodKid(ks, s', b, i - |a|, h, lo, hi);
        }
      }
    }
  }

  lemma {:induction false} Single(t: Tree)
    ensures NodesOf([t]) == Nodes(t) && Apart([t]) && PairsOf([t]) == Pairs(t)
  {
    assert [t][0] == t;
    assert PairsOf([t][1..]) == [];
  }

  lemma NodesInner(t: Tree)
    requires t.Inner?
    ensures Nodes(t) == {t.node} + NodesOf(t.kids)
  {
  }

  lemma {:induction false} Regroup<T>(a: seq<T>, b: seq<T>, x: seq<T>, d: seq<T>, e: seq<T>)
    ensures a + b + x + (d + e) == a + (b + x + d) + e
  {
  }

  /** ls + [t] + rs, as sets of nodes and as pairs. */
  lemma {:induction false} Around(ls: seq<Tree>, t: Tree, rs: seq<Tree>)
    ensures NodesOf(ls + [t] + rs) == NodesOf(ls) + Nodes(t) + NodesOf(rs)
    ensures PairsOf(ls + [t] + rs) == PairsOf(ls) + Pairs(t) + PairsOf(rs)
    ensures Apart(ls + [t] + rs)
      <==> Apart(ls) && Apart(rs) && NodesOf(ls) !! Nodes(t) && NodesOf(rs) !! NodesOf(ls) + Nodes(t)
  {
    hide NodesOf, PairsOf, Apart;
    Single(t);
    NodesOfConcat(ls, [t]);
    NodesOfConcat(ls + [t], rs);
    PairsOfConcat(ls, [t]);
    PairsOfConcat(ls + [t], rs);
  }

  /** The same on the heap. */
  lemma {:induction false} SpellEachAround(ls: seq<Tree>, t: Tree, rs: seq<Tree>, p: Node?, next: Node?)
    ensures SpellEach(ls + [t] + rs, next)
      <==> (SpellEach(ls, FirstLeaf(t)) && SpellEach(rs, next) && Spells(t, LeafAt(rs, 0, next)) &&
            NodesOf(ls) !! Nodes(t) && NodesOf(rs) !! NodesOf(ls) + Nodes(t))
    ensures ParentOf(p, ls + [t] + rs) <==> ParentOf(p, ls) && t.node.parent == p && ParentOf(p, rs)
    ensures RootSet(ls + [t] + rs) == RootSet(ls) + {t.node} + RootSet(rs)
    ensures Roots(ls + [t] + rs) == Roots(ls) + [t.node] + Roots(rs)
  {
    hide FirstLeaf;
    Single(t);
    NodesOfConcat(ls, [t]);
    SpellEachConcat(ls, [t], LeafAt(rs, 0, next));
    SpellEachConcat(ls + [t], rs, next);
    RootsConcat(ls, [t]);
    RootsConcat(ls + [t], rs);
    assert [t][0] == t && RootSet([t]) == {t.node};
    assert SpellEach([t], LeafAt(rs, 0, next)) == SpellNth([t], 0, LeafAt(rs, 0, next));
  }

  lemma {:induction false} GoodKidsAround(ks: seq<int>, ls: seq<Tree>, t: Tree, rs: seq<Tree>, h: nat, lo: int, hi: int)
    ensures GoodKids(ks, 0, ls + [t] + rs, h, lo, hi)
      <==> GoodKids(ks, 0, ls, h, lo, hi) && GoodKids(ks, |ls| + 1, rs, h, lo, hi) &&
           Full(t) && Lo(ks, |ls|, lo) < Hi(ks, |ls|, hi) && Good(t, h, Lo(ks, |ls|, lo), Hi(ks, |ls|, hi))
  {
    hide Full, Lo, Hi;
    GoodKidsConcat(ks, 0, ls, [t], h, lo, hi);
    GoodKidsConcat(ks, 0, ls + [t], rs, h, lo, hi);
    assert GoodKids(ks, |ls|, [t], h, lo, hi) == GoodKid(ks, |ls|, [t], 0, h, lo, hi);
  }

  // ---------- Taking a tree apart and putting it back together ----------

  /** t sits in the hole of c: the heap spells out both, and they share no node. */
  ghost predicate Fits(c: Ctx, t: Tree)
    reads CtxNodes(c)`isLeaf, CtxNodes(c)`keyCount, CtxNodes(c)`keys, CtxNodes(c)`children
    reads CtxNodes(c)`rowIndices, CtxNodes(c)`next, CtxNodes(c)`parent
    reads Nodes(t)`isLeaf, Nodes(t)`keyCount, Nodes(t)`keys, Nodes(t)`children
    reads Nodes(t)`rowIndices, Nodes(t)`next, Nodes(t)`parent
  {
    HoldsCtx(c, t.node, FirstLeaf(t)) && t.node.parent == CtxNode(c) && Spells(t, CtxNext(c)) &&
    CtxNodes(c) !! Nodes(t)
  }

  /** t is a subtree of h levels as c demands it. */
  ghost predicate Suits(c: Ctx, t: Tree, h: nat) {
    GoodCtx(c, h) && Good(t, h, CtxLo(c), CtxHi(c)) && (c.Under? ==> Full(t))
  }

  /** The tree that c and t make. */
  ghost function Plug(c: Ctx, t: Tree): Tree {
    match c
    case Top => t
    case Under(up, n, ks, ls, rs) => Plug(up, Inner(n, ks, ls + [t] + rs))
  }

  ghost function TopNode(c: Ctx, hole: Node): Node {
    if c.Top? then hole else TopNode(c.up, c.node)
  }

  /** What c and t hold together is what c.up holds with t put among its siblings. */
  lemma {:induction false} FocusStep(c: Ctx, t: Tree, h: nat)
    requires c.Under?
    ensures
      var t' := Inner(c.node, c.keys, c.left + [t] + c.right);
      CtxNodes(c.up) + Nodes(t') == CtxNodes(c) + Nodes(t) &&
      PairsBefore(c.up) + Pairs(t') + PairsAfter(c.up)
        == PairsBefore(c) + Pairs(t) + PairsAfter(c)
  {
    hide PairsOf, Apart;
    var t' := Inner(c.node, c.keys, c.left + [t] + c.right);
    Around(c.left, t, c.right);
    NodesInner(t');
    Regroup(PairsBefore(c.up), PairsOf(c.left), Pairs(t), PairsOf(c.right), PairsAfter(c.up));
  }

  lemma {:induction false} HoldsStep(c: Ctx, t: Tree)
    requires c.Under?
    ensures Fits(c.up, Inner(c.node, c.keys, c.left + [t] + c.right)) <==> Fits(c, t)
  {
    hide SpellEach, Roots, ParentOf, Apart, NodesOf, RootSet, PairsOf;
    var t' := Inner(c.node, c.keys, c.left + [t] + c.right);
    Around(c.left, t, c.right);
    SpellEachAround(c.left, t, c.right, c.node, CtxNext(c.up));
    NodesInner(t');
    assert FirstLeaf(t') == LeafAt(c.left, 0, FirstLeaf(t));
  }

  lemma {:induction false} SuitsStep(c: Ctx, t: Tree, h: nat)
    requires c.Under?
    ensures Suits(c.up, Inner(c.node, c.keys, c.left + [t] + c.right), h + 1) && h >= 1 <==> Suits(c, t, h)
  {
    hide GoodKids;
    GoodKidsAround(c.keys, c.left, t, c.right, h, CtxLo(c.up), CtxHi(c.up));
  }

  /** All the way up: the whole tree. */
  lemma {:induction false} PlugFits(c: Ctx, t: Tree, h: nat)
    requires Fits(c, t) && Suits(c, t, h)
    ensures Fits(Top, Plug(c, t)) && Suits(Top, Plug(c, t), h + CtxHeight(c))
    ensures Nodes(Plug(c, t)) == CtxNodes(c) + Nodes(t)
    ensures Pairs(Plug(c, t)) == PairsBefore(c) + Pairs(t) + PairsAfter(c)
    ensures Plug(c, t).node == TopNode(c, t.node)
  {
    hide Fits, Suits, PairsOf, Nodes;
    if c.Under? {
      var t' := Inner(c.node, c.keys, c.left + [t] + c.right);
      HoldsStep(c, t);
      SuitsStep(c, t, h);
      FocusStep(c, t, h);
      PlugFits(c.up, t', h + 1);
    }
  }

  /** One step down: child s of a subtree in place is in place. */
  lemma {:induction false} Descend(c: Ctx, t: Tree, h: nat, s: nat)
    requires Fits(c, t) && Suits(c, t, h) && t.Inner? && s < |t.kids|
    ensures
      var c' := Under(c, t.node, t.keys, t.kids[..s], t.kids[s + 1..]);
      Fits(c', t.kids[s]) && h >= 2 && Suits(c', t.kids[s], h - 1) &&
      Plug(c', t.kids[s]) == Plug(c, t)
  {
    hide Fits, Nodes, GoodKids;
    var c' := Under(c, t.node, t.keys, t.kids[..s], t.kids[s + 1..]);
    assert t == Inner(c'.node, c'.keys, c'.left + [t.kids[s]] + c'.right);
    HoldsStep(c', t.kids[s]);
    SuitsStep(c', t.kids[s], h - 1);
  }

  // ---------- Sorted contents ----------

  ghost predicate Sorted(ps: seq<Pair>) {
    forall i, j :: 0 <= i < j < |ps| ==> ps[i].0 < ps[j].0
  }

  ghost predicate Within(ps: seq<Pair>, lo: int, hi: int) {
    forall i :: 0 <= i < |ps| ==> lo <= ps[i].0 < hi
  }

  lemma {:induction false} ZipAt(ks: seq<int>, rs: seq<int>)
    requires |ks| == |rs|
    ensures |Zip(ks, rs)| == |ks| && forall i :: 0 <= i < |ks| ==> Zip(ks, rs)[i] == (ks[i], rs[i])
  {
    if ks != [] {
      ZipAt(ks[1..], rs[1..]);
    }
  }

  lemma {:induction false} GoodSorted(t: Tree, h: nat, lo: int, hi: int)
    requires Good(t, h, lo, hi)
    ensures Sorted(Pairs(t)) && Within(Pairs(t), lo, hi)
    decreases t, 1
  {
    match t
    case Leaf(_, ks, rs) => ZipAt(ks, rs);
    case Inner(_, ks, kids) => GoodKidsSorted(ks, 0, kids, h - 1, lo, hi);
  }

  lemma {:induction false} GoodKidsTail(ks: seq<int>, s: nat, kids: seq<Tree>, h: nat, lo: int, hi: int)
    requires GoodKids(ks, s, kids, h, lo, hi) && kids != []
    ensures GoodKid(ks, s, kids, 0, h, lo, hi) && GoodKids(ks, s + 1, kids[1..], h, lo, hi)
    ensures Good(kids[0], h, Lo(ks, s, lo), Hi(ks, s, hi)) && Full(kids[0])
  {
    var s', rest := s + 1, kids[1..];
    assert GoodKid(ks, s, kids, 0, h, lo, hi);
    forall i | 0 <= i < |rest| ensures GoodKid(ks, s', rest, i, h, lo, hi) {
      assert GoodKid(ks, s, kids, i + 1, h, lo, hi);
    }
    assert GoodKids(ks, s', rest, h, lo, hi);
  }

  lemma {:induction false} GoodKidsSorted(ks: seq<int>, s: nat, kids: seq<Tree>, h: nat, lo: int, hi: int)
    requires GoodKids(ks, s, kids, h, lo, hi) && 0 < |kids| && s + |kids| <= |ks| + 1
    ensures Sorted(PairsOf(kids))
    ensures Lo(ks, s, lo) < Hi(ks, s + |kids| - 1, hi)
    ensures Within(PairsOf(kids), Lo(ks, s, lo), Hi(ks, s + |kids| - 1, hi))
    decreases kids, 0
  {
    GoodKidsTail(ks, s, kids, h, lo, hi);
    GoodSorted(kids[0], h, Lo(ks, s, lo), Hi(ks, s, hi));
    var rest := kids[1..];
    assert PairsOf(kids) == Pairs(kids[0]) + PairsOf(rest);
    if rest == [] {
      assert PairsOf(kids) == Pairs(kids[0]);
    } else {
      GoodKidsSorted(ks, s + 1, rest, h, lo, hi);
    }
  }

  /** What lies left of the hole is below its bounds, what lies right is above. */
  lemma {:induction false} CtxSorted(c: Ctx, h: nat)
    requires GoodCtx(c, h)
    ensures c.Under? ==> CtxLo(c.up) <= CtxLo(c) && CtxHi(c) <= CtxHi(c.up)
    ensures forall i :: 0 <= i < |PairsBefore(c)| ==> PairsBefore(c)[i].0 < CtxLo(c)
    ensures forall i :: 0 <= i < |PairsAfter(c)| ==> CtxHi(c) <= PairsAfter(c)[i].0
  {
    if c.Under? {
      CtxSorted(c.up, h + 1);
      if c.left != [] {
        GoodKidsSorted(c.keys, 0, c.left, h, CtxLo(c.up), CtxHi(c.up));
      }
      if c.right != [] {
        GoodKidsSorted(c.keys, |c.left| + 1, c.right, h, CtxLo(c.up), CtxHi(c.up));
      }
    }
  }

  // ---------- Contents as a map ----------

  ghost function MapOf(ps: seq<Pair>): map<int, int> {
    if ps == [] then map[] else MapOf(ps[..|ps| - 1])[ps[|ps| - 1].0 := ps[|ps| - 1].1]
  }

  /** A sorted list and its map say the same. */
  lemma {:induction false} MapOfSorted(ps: seq<Pair>)
    requires Sorted(ps)
    ensures forall p: Pair :: p in ps <==> p.0 in MapOf(ps) && MapOf(ps)[p.0] == p.1
  {
    if ps != [] {
      var front, last := ps[..|ps| - 1], ps[|ps| - 1];
      MapOfSorted(front);
      assert ps == front + [last];
      assert forall p: Pair :: p in front ==> p.0 != last.0;
    }
  }

  /** Putting one pair into a sorted list adds one binding. */
  lemma {:induction false} MapOfInsert(a: seq<Pair>, k: int, r: int, b: seq<Pair>)
    requires Sorted(a + b) && Sorted(a + [(k, r)] + b)
    ensures k !in MapOf(a + b) && MapOf(a + [(k, r)] + b) == MapOf(a + b)[k := r]
  {
    var p, q := a + b, a + [(k, r)] + b;
    var mp, mq := MapOf(p), MapOf(q);
    MapOfSorted(p);
    MapOfSorted(q);
    InsertedFresh(a, k, r, b);
    hide Sorted;
    assert forall x: Pair :: x in q <==> x in p || x == (k, r);
    forall x | x in mp ensures x != k {
      assert (x, mp[x]) in p;
    }
    forall x | x in mq ensures x in mp[k := r] && mq[x] == mp[k := r][x] {
      assert (x, mq[x]) in q;
    }
    forall x | x in mp[k := r] ensures x in mq {
      assert (x, mp[k := r][x]) in q;
    }
  }

  lemma {:induction false} InsertedFresh(a: seq<Pair>, k: int, r: int, b: seq<Pair>)
    requires Sorted(a + [(k, r)] + b)
    ensures forall p: Pair :: p in a + b ==> p.0 != k
  {
    var p, q := a + b, a + [(k, r)] + b;
    forall i | 0 <= i < |p| ensures p[i].0 != k {
      assert q[|a|].0 == k && p[i] == q[if i < |a| then i else i + 1];
    }
  }

  // ---------- How many keys a tree of h levels holds ----------

  ghost function Pow16(h: nat): nat {
    if h == 0 then 1 else 16 * Pow16(h - 1)
  }

  lemma {:induction false} FullCount(t: Tree, h: nat, lo: int, hi: int)
    requires Good(t, h, lo, hi)
    ensures Full(t) ==> |Pairs(t)| >= Pow16(h)
    ensures t.Inner? ==> |Pairs(t)| >= 2 * Pow16(h - 1)
    decreases t, 1
  {
    match t
    case Leaf(_, ks, rs) =>
      ZipAt(ks, rs);
      assert Pow16(1) == 16 * Pow16(0);
    case Inner(_, ks, kids) =>
      KidsCount(ks, 0, kids, h - 1, lo, hi);
      var n, p := |kids|, Pow16(h - 1);
      assert n >= 2 ==> n * p >= 2 * p by { MulMonotone(2, n, p); }
      assert n >= 16 ==> n * p >= 16 * p by { MulMonotone(16, n, p); }
  }

  lemma MulMonotone(m: nat, n: nat, p: nat)
    ensures m <= n ==> m * p <= n * p
  {
  }

  lemma {:induction false} KidsCount(ks: seq<int>, s: nat, kids: seq<Tree>, h: nat, lo: int, hi: int)
    requires GoodKids(ks, s, kids, h, lo, hi)
    ensures |PairsOf(kids)| >= |kids| * Pow16(h)
    decreases kids, 0
  {
    if kids != [] {
      GoodKidsTail(ks, s, kids, h, lo, hi);
      FullCount(kids[0], h, Lo(ks, s, lo), Hi(ks, s, hi));
      var rest := kids[1..];
      KidsCount(ks, s + 1, rest, h, lo, hi);
      assert |kids| * Pow16(h) == Pow16(h) + |rest| * Pow16(h);
    }
  }

  /** Every leaf is h levels down. */
  ghost predicate LeavesAt(t: Tree, h: nat)
    decreases t
  {
    match t
    case Leaf(_, _, _) => h == 1
    case Inner(_, _, kids) => h > 1 && forall kid <- kids :: LeavesAt(kid, h - 1)
  }

  lemma {:induction false} GoodLevels(t: Tree, h: nat, lo: int, hi: int)
    requires Good(t, h, lo, hi)
    ensures LeavesAt(t, h)
    decreases t
  {
    if t.Inner? {
      forall kid | kid in t.kids ensures LeavesAt(kid, h - 1) {
        var i :| 0 <= i < |t.kids| && t.kids[i] == kid;
        assert GoodKid(t.keys, 0, t.kids, i, h - 1, lo, hi);
        GoodLevels(kid, h - 1, Lo(t.keys, i, lo), Hi(t.keys, i, hi));
      }
    }
  }

  // ---------- The leaf chain ----------

  ghost function Leaves(t: Tree): (ls: seq<Node>)
    decreases t, 0
  {
    match t
    case Leaf(n, _, _) => [n]
    case Inner(_, _, kids) => LeavesOf(kids)
  }

  ghost function LeavesOf(ts: seq<Tree>): seq<Node>
    decreases ts
  {
    if ts == [] then [] else Leaves(ts[0]) + LeavesOf(ts[1..])
  }

  /** What a leaf node stores, read off the heap. */
  ghost function LeafPairs(n: Node): seq<Pair>
    reads n
  {
    if n.Sized() then Zip(n.keys[..n.keyCount], n.rowIndices[..n.keyCount]) else []
  }

  /** From ls[0] on, the chain of `next` pointers runs through ls and then to `next`. */
  ghost predicate Chained(ls: seq<Node>, next: Node?)
    reads set n | n in ls
  {
    forall i :: 0 <= i < |ls| ==> Linked(ls, i, next)
  }

  ghost predicate Linked(ls: seq<Node>, i: nat, next: Node?)
    requires i < |ls|
    reads ls[i]
  {
    ls[i].isLeaf && ls[i].Sized() && ls[i].next == NodeAt(ls, i + 1, next)
  }

  ghost function NodeAt(ls: seq<Node>, i: nat, next: Node?): Node? {
    if i < |ls| then ls[i] else next
  }

  ghost function ChainPairs(ls: seq<Node>): seq<Pair>
    reads set n | n in ls
  {
    if ls == [] then [] else LeafPairs(ls[0]) + ChainPairs(ls[1..])
  }

  ghost predicate NoRepeats(ls: seq<Node>) {
    forall i, j :: 0 <= i < j < |ls| ==> ls[i] != ls[j]
  }

  lemma {:induction false} ChainConcat(a: seq<Node>, b: seq<Node>, next: Node?)
    requires Chained(a, NodeAt(b, 0, next)) && Chained(b, next)
    ensures Chained(a + b, next)
    ensures ChainPairs(a + b) == ChainPairs(a) + ChainPairs(b)
  {
    var all := a + b;
    forall i | 0 <= i < |all| ensures Linked(all, i, next) {
      if i < |a| {
        assert Linked(a, i, NodeAt(b, 0, next));
      } else {
        assert Linked(b, i - |a|, next);
      }
    }
    ChainPairsConcat(a, b);
  }

  lemma {:induction false} ChainPairsConcat(a: seq<Node>, b: seq<Node>)
    ensures ChainPairs(a + b) == ChainPairs(a) + ChainPairs(b)
  {
    if a == [] {
      assert a + b == b;
    } else {
      assert (a + b)[1..] == a[1..] + b;
      ChainPairsConcat(a[1..], b);
    }
  }

  /** The leaves below t, left to right, are chained, distinct, and list the pairs of t. */
  lemma {:induction false} LeavesChained(t: Tree, h: nat, lo: int, hi: int, next: Node?)
    requires Good(t, h, lo, hi) && Spells(t, next)
    ensures Leaves(t) != [] && Leaves(t)[0] == FirstLeaf(t)
    ensures forall n <- Leaves(t) :: n in Nodes(t)
    ensures Chained(Leaves(t), next) && NoRepeats(Leaves(t)) && ChainPairs(Leaves(t)) == Pairs(t)
    decreases t, 1
  {
    match t
    case Leaf(n, ks, rs) =>
      assert ChainPairs([n]) == LeafPairs(n) + ChainPairs([n][1..]);
      assert Linked([n], 0, next);
    case Inner(_, ks, kids) =>
      LeavesOfChained(ks, 0, kids, h - 1, lo, hi, next);
  }

  lemma {:induction false} LeavesOfChained(ks: seq<int>, s: nat, ts: seq<Tree>, h: nat, lo: int, hi: int, next: Node?)
    requires GoodKids(ks, s, ts, h, lo, hi) && SpellEach(ts, next) && ts != []
    ensures LeavesOf(ts) != [] && LeavesOf(ts)[0] == FirstLeaf(ts[0])
    ensures forall n <- LeavesOf(ts) :: n in NodesOf(ts)
    ensures Chained(LeavesOf(ts), next) && NoRepeats(LeavesOf(ts)) && ChainPairs(LeavesOf(ts)) == PairsOf(ts)
    decreases ts, 0
  {
    hide Good, GoodKids, Spells, Nodes, NodesOf, FirstLeaf, Chained, ChainPairs, NoRepeats, Apart, Pairs, Leaves, Lo,
      Hi, Full;
    var t, rest := ts[0], ts[1..];
    GoodKidsTail(ks, s, ts, h, lo, hi);
    assert ts == [t] + rest;
    NodesOfConcat([t], rest);
    Single(t);
    SpellEachConcat([t], rest, next);
    assert SpellNth(ts, 0, next);
    LeavesChained(t, h, Lo(ks, s, lo), Hi(ks, s, hi), LeafAt(ts, 1, next));
    var a, b := Leaves(t), LeavesOf(rest);
    if rest == [] {
      assert LeavesOf(ts) == a && PairsOf(ts) == Pairs(t);
    } else {
      LeavesOfChained(ks, s + 1, rest, h, lo, hi, next);
      ChainConcat(a, b, next);
      Distinct(a, Nodes(t), b, NodesOf(rest));
    }
  }

  lemma {:induction false} Distinct(a: seq<Node>, s: set<Node>, b: seq<Node>, u: set<Node>)
    requires NoRepeats(a) && NoRepeats(b) && s !! u
    requires (forall n <- a :: n in s) && forall n <- b :: n in u
    ensures NoRepeats(a + b)
  {
    var all := a + b;
    forall i, j | 0 <= i < j < |all| ensures all[i] != all[j] {
      assert i < |a| <= j ==> all[i] in s && all[j] in u;
    }
  }
}
