/**
The equality index of src/index.c: buckets of chained nodes, each with a key and the offsets of its
rows. Whatever the hash function and however the keys collide, it finds exactly the rows of a key.
*/
module HashIndex {
  import opened Wrappers
  import opened TableFiles

  const HASH_BUCKET_COUNT: nat := 101

  /** index_hash_string, with the wrap-around of a 64-bit unsigned long. */
  function HashString(text: string): nat {
    HashFrom(5381, text)
  }

  function HashFrom(hash: nat, text: string): nat
    decreases text
  {
    if text == "" then hash else HashFrom((33 * hash + text[0] as int) % 0x1_0000_0000_0000_0000, text[1..])
  }

  class HashNode {
    const key: string
    var offsets: seq<nat>
    var next: HashNode?

    constructor (key: string, offset: nat, next: HashNode?)
      ensures this.key == key && offsets == [offset] && this.next == next
    {
      this.key, offsets, this.next := key, [offset], next;
    }
  }

  ghost function NodeAt(chain: seq<string>, nodes: map<string, HashNode>, i: nat): HashNode?
    requires forall k <- chain :: k in nodes
  {
    if i < |chain| then nodes[chain[i]] else null
  }

  /** From the head on, the chain runs through the nodes of its keys. */
  ghost predicate LinksOk(chain: seq<string>, head: HashNode?, nodes: map<string, HashNode>)
    reads nodes.Values`next
  {
    (forall k <- chain :: k in nodes) && head == NodeAt(chain, nodes, 0) &&
    forall i :: 0 <= i < |chain| ==> nodes[chain[i]].next == NodeAt(chain, nodes, i + 1)
  }

  lemma LinksKept(chain: seq<string>, head: HashNode?, nodes: map<string, HashNode>, key: string, node: HashNode)
    requires LinksOk(chain, head, nodes) && key !in nodes
    ensures LinksOk(chain, head, nodes[key := node])
  {
  }

  lemma NodeShifted(key: string, chain: seq<string>, nodes: map<string, HashNode>, i: nat)
    requires key in nodes && forall k <- chain :: k in nodes
    ensures (forall k <- [key] + chain :: k in nodes) && NodeAt([key] + chain, nodes, i + 1) == NodeAt(chain, nodes, i)
  {
  }

  lemma LinksPushed(chain: seq<string>, head: HashNode?, nodes: map<string, HashNode>, key: string, node: HashNode)
    requires LinksOk(chain, head, nodes) && key !in nodes && node.next == head
    ensures LinksOk([key] + chain, node, nodes[key := node])
  {
    LinksKept(chain, head, nodes, key, node);
    var chain', nodes' := [key] + chain, nodes[key := node];
    assert forall k <- chain' :: k in nodes';
    assert NodeAt(chain', nodes', 0) == node && NodeAt(chain, nodes', 0) == head;
    forall i | 0 <= i < |chain'| ensures nodes'[chain'[i]].next == NodeAt(chain', nodes', i + 1) {
      NodeShifted(key, chain, nodes', i);
      hide NodeAt;
      if i > 0 {
        assert chain'[i] == chain[i - 1];
      }
    }
  }

  class EqualityIndex {
    const hash: string -> nat
    const buckets: array<HashNode?>
    /** The node of each key, and the keys of each bucket in the order of its chain. */
    ghost var nodes: map<string, HashNode>
    ghost var chains: seq<seq<string>>
    ghost var repr: set<HashNode>

    function Bucket(key: string): nat
      requires buckets.Length > 0
    {
      hash(key) % buckets.Length
    }

    ghost predicate Valid()
      reads this, buckets, repr`next
    {
      nodes.Values <= repr && Indexed(buckets[..], nodes, chains)
    }

    /** The chains from these heads hold these nodes, each under its own key, in its own bucket. */
    ghost predicate Indexed(heads: seq<HashNode?>, nodes: map<string, HashNode>, chains: seq<seq<string>>)
      reads nodes.Values`next
    {
      |heads| == |chains| == buckets.Length > 0 &&
      (forall key <- nodes :: nodes[key].key == key) &&
      (forall b :: 0 <= b < |chains| ==> LinksOk(chains[b], heads[b], nodes)) &&
      (forall b :: 0 <= b < |chains| ==> KeysOk(chains[b], b)) &&
      forall key <- nodes :: key in chains[Bucket(key)]
    }

    /** The keys of a chain belong to its bucket, and each is there once. */
    ghost predicate KeysOk(chain: seq<string>, b: nat)
      requires buckets.Length > 0
    {
      (forall i :: 0 <= i < |chain| ==> Bucket(chain[i]) == b) &&
      (forall i, j :: 0 <= i < j < |chain| ==> chain[i] != chain[j])
    }

    /** The offsets under a key. */
    ghost function Offsets(key: string): seq<nat>
      reads this, repr`offsets
    {
      if key in nodes && nodes[key] in repr then nodes[key].offsets else []
    }

    constructor (hash: string -> nat)
      ensures Valid() && fresh(buckets) && repr == {} && this.hash == hash
      ensures forall key :: Offsets(key) == []
    {
      this.hash := hash;
      buckets := new HashNode?[HASH_BUCKET_COUNT](i => null);
      nodes := map[];
      repr := {};
      chains := seq(HASH_BUCKET_COUNT, i => []);
    }

    /** The node is the i-th of its chain, or there are no more, and no key before it is this one. */
    ghost predicate Searched(key: string, node: HashNode?, i: nat)
      reads this
    {
      buckets.Length > 0 && |chains| == buckets.Length &&
      var chain := chains[Bucket(key)];
      i <= |chain| && (forall k <- chain :: k in nodes) && node == NodeAt(chain, nodes, i) &&
      forall j :: 0 <= j < i ==> chain[j] != key
    }

    lemma SearchStart(key: string)
      requires Valid()
      ensures buckets.Length > 0 && Searched(key, buckets[Bucket(key)], 0)
    {
      var b := Bucket(key);
      assert LinksOk(chains[b], buckets[..][b], nodes);
    }

    lemma SearchStep(key: string, node: HashNode, i: nat)
      requires Valid() && Searched(key, node, i)
      ensures i < |chains[Bucket(key)]|
      ensures node.key == key ==> key in nodes && node == nodes[key]
      ensures node.key != key ==> Searched(key, node.next, i + 1)
    {
      var b := Bucket(key);
      assert LinksOk(chains[b], buckets[..][b], nodes);
    }

    lemma SearchOver(key: string, i: nat)
      requires Valid() && Searched(key, null, i)
      ensures key !in nodes
    {
      var b := Bucket(key);
      assert LinksOk(chains[b], buckets[..][b], nodes);
    }

    /** The search both index_add_hash_entry and index_query_equals start with. */
    method Find(key: string) returns (node: HashNode?)
      requires Valid()
      ensures node == (if key in nodes then nodes[key] else null)
    {
      SearchStart(key);
      var b := hash(key) % buckets.Length;
      node := buckets[b];
      ghost var i := 0;
      hide Indexed, Searched;
      while node != null
        invariant Searched(key, node, i)
        decreases |chains[Bucket(key)]| - i
      {
        SearchStep(key, node, i);
        if node.key == key {
          return;
        }
        node := node.next;
        i := i + 1;
      }
      SearchOver(key, i);
    }

    /** index_add_hash_entry. */
    method Add(key: string, offset: nat)
      requires Valid()
      modifies this, buckets, repr
      ensures Valid() && fresh(repr - old(repr))
      ensures forall k :: Offsets(k) == if k == key then old(Offsets(k)) + [offset] else old(Offsets(k))
    {
      assert key !in nodes ==> Offsets(key) + [offset] == [offset];
      hide *;
      var found := Find(key);
      if found != null {
        Extend(key, found, offset);
      } else {
        Insert(key, offset);
      }
    }

    /** index_offset_list_append, on the list of a key. */
    method Extend(key: string, node: HashNode, offset: nat)
      requires Valid() && key in nodes && node == nodes[key]
      modifies node`offsets
      ensures Valid()
      ensures forall k :: Offsets(k) == if k == key then old(Offsets(k)) + [offset] else old(Offsets(k))
    {
      assert forall k <- nodes :: nodes[k].key == k && nodes[k] in nodes.Values;
      hide Indexed;
      node.offsets := node.offsets + [offset];
      forall k ensures Offsets(k) == if k == key then old(Offsets(k)) + [offset] else old(Offsets(k)) {
        assert k in nodes && k != key ==> nodes[k].key != node.key;
      }
      hide Offsets;
    }

    method Insert(key: string, offset: nat)
      requires Valid() && key !in nodes
      modifies this, buckets
      ensures Valid() && fresh(repr - old(repr))
      ensures forall k :: Offsets(k) == if k == key then [offset] else old(Offsets(k))
    {
      ghost var before := nodes;
      forall k ensures Offsets(k) == OffsetsOf(before, k) {
        OffsetsAre(k);
      }
      hide *;
      Push(key, offset);
      forall k ensures Offsets(k) == if k == key then [offset] else old(Offsets(k)) {
        OffsetsAre(k);
        if k == key {
          OffsetsNew(key, offset);
        } else {
          OffsetsSame(before, nodes, k);
        }
      }
    }

    ghost function OffsetsOf(nodes: map<string, HashNode>, key: string): seq<nat>
      reads nodes.Values`offsets
    {
      if key in nodes then nodes[key].offsets else []
    }

    lemma OffsetsAre(key: string)
      requires Valid()
      ensures Offsets(key) == OffsetsOf(nodes, key)
    {
      assert key in nodes ==> nodes[key] in nodes.Values;
    }

    lemma OffsetsNew(key: string, offset: nat)
      requires key in nodes && nodes[key].offsets == [offset]
      ensures OffsetsOf(nodes, key) == [offset]
    {
    }

    lemma OffsetsSame(before: map<string, HashNode>, after: map<string, HashNode>, key: string)
      requires key in before <==> key in after
      requires key in before ==> after[key] == before[key]
      ensures OffsetsOf(after, key) == OffsetsOf(before, key)
    {
    }

    /** A new node at the front of its chain. */
    method Push(key: string, offset: nat)
      requires Valid() && key !in nodes
      modifies this, buckets
      ensures Valid() && key in nodes && nodes == old(nodes)[key := nodes[key]]
      ensures fresh(nodes[key]) && nodes[key].offsets == [offset] && repr == old(repr) + {nodes[key]}
    {
      var b := hash(key) % buckets.Length;
      var node := new HashNode(key, offset, buckets[b]);
      ghost var after, lists := nodes[key := node], chains[b := [key] + chains[b]];
      Pushed(buckets[..], nodes, chains, key, node);
      assert after.Values <= repr + {node};
      hide Indexed;
      Store(b, node, after, lists);
    }

    method Store(b: nat, node: HashNode, ghost after: map<string, HashNode>, ghost lists: seq<seq<string>>)
      requires b < buckets.Length && Indexed(buckets[..][b := node as HashNode?], after, lists)
      requires after.Values <= repr + {node}
      modifies this, buckets
      ensures nodes == after && chains == lists && repr == old(repr) + {node} && Valid()
    {
      ghost var heads := buckets[..];
      hide Indexed;
      buckets[b] := node;
      nodes, chains, repr := after, lists, repr + {node};
      assert buckets[..] == heads[b := node as HashNode?];
    }

    lemma Pushed(
        heads: seq<HashNode?>, nodes: map<string, HashNode>, chains: seq<seq<string>>, key: string, node: HashNode)
      requires Indexed(heads, nodes, chains) && key !in nodes && node.key == key && node.next == heads[Bucket(key)]
      ensures var b := Bucket(key);
        Indexed(heads[b := node as HashNode?], nodes[key := node], chains[b := [key] + chains[b]])
    {
      var b := Bucket(key);
      var heads', chains', nodes' := heads[b := node as HashNode?], chains[b := [key] + chains[b]], nodes[key := node];
      forall c | 0 <= c < |chains| ensures LinksOk(chains'[c], heads'[c], nodes') && KeysOk(chains'[c], c) {
        assert LinksOk(chains[c], heads[c], nodes) && KeysOk(chains[c], c);
        ChainPushed(chains[c], heads[c], nodes, c, key, node);
        hide LinksOk, KeysOk;
      }
      hide LinksOk, KeysOk;
    }

    /** The new node goes to the front of its own chain and leaves the others. */
    lemma ChainPushed(
        chain: seq<string>, head: HashNode?, nodes: map<string, HashNode>, c: nat, key: string, node: HashNode)
      requires buckets.Length > 0 && LinksOk(chain, head, nodes) && KeysOk(chain, c) && key !in nodes
      requires Bucket(key) == c ==> node.next == head
      ensures LinksOk(chain, head, nodes[key := node])
      ensures Bucket(key) == c ==> LinksOk([key] + chain, node, nodes[key := node]) && KeysOk([key] + chain, c)
    {
      LinksKept(chain, head, nodes, key, node);
      if Bucket(key) == c {
        LinksPushed(chain, head, nodes, key, node);
        assert forall k <- chain :: k in nodes;
        hide LinksOk, Bucket;
      }
    }

    /** index_query_equals. */
    method QueryEquals(value: string) returns (offsets: seq<nat>)
      requires Valid()
      ensures offsets == Offsets(value)
    {
      var node := Find(value);
      hide Indexed;
      if node != null {
        return node.offsets;
      }
      return [];
    }
  }

  // ---------- Building and looking up ----------

  predicate HasColumn(table: TableData, column: nat) {
    |table.rows| == |table.offsets| && forall i :: 0 <= i < |table.rows| ==> column < |table.rows[i]|
  }

  function CellAt(table: TableData, column: nat, i: nat): string
    requires HasColumn(table, column) && i < |table.rows|
  {
    table.rows[i][column]
  }

  /** The offsets of the first n rows whose cell in the column is the value, in row order. */
  function EqualOffsets(table: TableData, column: nat, value: string, n: nat): seq<nat>
    requires HasColumn(table, column) && n <= |table.rows|
  {
    if n == 0 then []
    else
      EqualOffsets(table, column, value, n - 1) +
      if CellAt(table, column, n - 1) == value then [table.offsets[n - 1]] else []
  }

  ghost predicate Covers(index: EqualityIndex, table: TableData, column: nat, n: nat)
    requires HasColumn(table, column) && n <= |table.rows|
    reads index, index.repr`offsets
  {
    forall value :: index.Offsets(value) == EqualOffsets(table, column, value, n)
  }

  /** The equality half of index_build. */
  method BuildEquality(table: TableData, column: nat, hash: string -> nat) returns (index: EqualityIndex)
    requires HasColumn(table, column)
    ensures fresh(index) && fresh(index.buckets) && fresh(index.repr) && index.Valid()
    ensures Covers(index, table, column, |table.rows|)
  {
    hide EqualityIndex.Valid, EqualityIndex.Offsets, EqualOffsets, HasColumn;
    index := EmptyIndex(hash, table, column);
    var i := 0;
    var count := |table.rows|;
    while i < count
      invariant i <= count && index.Valid() && fresh(index) && fresh(index.buckets) && fresh(index.repr)
      invariant Covers(index, table, column, i)
    {
      AddRow(index, table, column, i);
      i := i + 1;
    }
  }

  method EmptyIndex(hash: string -> nat, table: TableData, column: nat) returns (index: EqualityIndex)
    requires HasColumn(table, column)
    ensures fresh(index) && fresh(index.buckets) && fresh(index.repr) && index.Valid()
    ensures Covers(index, table, column, 0)
  {
    index := new EqualityIndex(hash);
    hide EqualityIndex.Valid;
  }

  method AddRow(index: EqualityIndex, table: TableData, column: nat, i: nat)
    requires HasColumn(table, column) && i < |table.rows| && index.Valid() && Covers(index, table, column, i)
    modifies index, index.buckets, index.repr
    ensures index.Valid() && Covers(index, table, column, i + 1) && fresh(index.repr - old(index.repr))
  {
    hide EqualityIndex.Valid, EqualityIndex.Offsets;
    index.Add(CellAt(table, column, i), table.offsets[i]);
  }

  predicate Increasing(xs: seq<nat>) {
    forall j, k :: 0 <= j < k < |xs| ==> xs[j] < xs[k]
  }

  /** Exactly the offsets of the rows with the value, in order. */
  lemma {:induction false} EqualExact(table: TableData, column: nat, value: string, n: nat)
    requires HasColumn(table, column) && n <= |table.rows| && Increasing(table.offsets)
    ensures var offsets := EqualOffsets(table, column, value, n);
      Increasing(offsets) &&
      (forall k :: 0 <= k < |offsets| && n < |table.offsets| ==> offsets[k] < table.offsets[n]) &&
      (forall x <- offsets :: x in table.offsets) &&
      forall i :: 0 <= i < |table.rows| ==>
        (table.offsets[i] in offsets <==> i < n && table.rows[i][column] == value)
  {
    if n > 0 {
      EqualExact(table, column, value, n - 1);
    }
  }

  /** Reading the file at the offsets the index has for a value gives exactly the rows with that
      value, in file order: for any file that loads and any value. */
  lemma {:induction false} LookupExact(file: string, column: nat, value: string)
    requires Loaded(file).Ok? && column < |Loaded(file).value.columns|
    ensures var table := Loaded(file).value;
      |table.rows| == |table.offsets| && (forall i :: 0 <= i < |table.rows| ==> |table.rows[i]| == |table.columns|) &&
      HasColumn(table, column) &&
      var offsets := EqualOffsets(table, column, value, |table.rows|);
      Increasing(offsets) && (forall x <- offsets :: x in table.offsets) &&
      forall i :: 0 <= i < |table.rows| ==>
        RowAt(file, table.offsets[i], |table.columns|) == Ok(table.rows[i]) &&
        (table.offsets[i] in offsets <==> table.rows[i][column] == value)
  {
    LoadedEven(file);
    hide Loaded, RowAt, EqualOffsets;
    var table := Loaded(file).value;
    EqualExact(table, column, value, |table.rows|);
  }
}
