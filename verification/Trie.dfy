/**
 The subscription trie (trie.cpp): a tree of nodes, each with a window of the
 character range that is either a single pointer or a table of pointers.

 The nodes of a trie are known by the prefixes that lead to them: the ghost map
 `at` takes a prefix to its node.  What a trie means is the number of times each
 prefix was added to it.
 */
module TrieNodes {

  type Byte = x: int | 0 <= x < 256
  type Prefix = seq<Byte>

  class Node {
    var refcnt: nat
    var min: int
    var count: nat
    var liveNodes: nat
    // the union `next`: `node` is used while count is 1, `table` when it is larger
    var node: Node?
    var table: array?<Node?>
    ghost const path: Prefix

    constructor (ghost path_: Prefix)
      ensures refcnt == 0 && count == 0 && liveNodes == 0 && table == null && path == path_ && min == 0
    {
      refcnt, min, count, liveNodes := 0, 0, 0, 0;
      node, table := null, null;
      path := path_;
    }

    ghost predicate Window()
      reads `min, `count, `node, `table
    {
      && 0 <= min && min + count <= 256
      && (count == 1 ==> node != null)
      && (count > 1 ==> table != null && table.Length == count)
    }

    /** The pointer in the slot of character c. */
    function Slot(c: Byte): Node?
      requires Window()
      reads `min, `count, `node, `table, table
    {
      if c < min || c >= min + count then null
      else if count == 1 then node
      else table[c - min]
    }

    /** The slots and the counter show the nodes that follow this one. */
    ghost predicate Ok(at: Places)
      reads `min, `count, `node, `table, `liveNodes, table
    {
      && Window()
      && liveNodes == |Branches(at.Keys, path)|
      && forall c: Byte {:trigger Slot(c)} :: Slot(c) == Child(at, path, c)
    }

    /** The node for c is found, or created after the window was extended. */
    method Branch(c: Byte) returns (next: Node, created: bool)
      requires Window()
      modifies `min, `count, `node, `table, `liveNodes, table
      ensures Window() && Slot(c) == next
      ensures forall d: Byte :: d != c ==> Slot(d) == old(Slot(d))
      ensures created <==> old(Slot(c)) == null
      ensures !created ==> next == old(Slot(c)) && liveNodes == old(liveNodes)
      ensures created ==> liveNodes == old(liveNodes) + 1
      ensures created ==> fresh(next) && next.path == path + [c] && next.refcnt == 0 && next.liveNodes == 0
      ensures created ==> next.count == 0 && next.min == 0 && next.table == null
      ensures table == old(table) || fresh(table)
    {
      if c < min || c >= min + count {
        if count == 0 {
          min, count, node := c, 1, null;
        } else {
          Extend(c);
        }
      }
      created := false;
      if count == 1 {
        if node == null {
          node := new Node(path + [c]);
          created := true;
        }
        next := node;
      } else {
        if table[c - min] == null {
          table[c - min] := new Node(path + [c]);
          created := true;
        }
        next := table[c - min];
      }
      if created {
        liveNodes := liveNodes + 1;
      }
    }

    /** The pointer in the slot of c is cleared. */
    method Unbranch(c: Byte)
      requires Window() && Slot(c) != null && liveNodes > 0
      modifies `count, `node, `liveNodes, table
      ensures Window() && Slot(c) == null
      ensures forall d: Byte :: d != c ==> Slot(d) == old(Slot(d))
      ensures liveNodes == old(liveNodes) - 1
    {
      if count == 1 {
        node := null;
        count := 0;
      } else {
        table[c - min] := null;
      }
      liveNodes := liveNodes - 1;
    }

    /** The window is extended so that it includes c; every pointer stays in the slot of its character. */
    method Extend(c: Byte)
      requires Window() && count > 0 && (c < min || c >= min + count)
      modifies `min, `count, `table
      ensures count > 1 && Window() && fresh(table) && min <= c < min + count
      ensures forall d: Byte :: Slot(d) == old(Slot(d))
    {
      if count == 1 {
        ExtendSingle(c);
      } else if min < c {
        ExtendAbove(c);
      } else {
        ExtendBelow(c);
      }
    }

    /** A single pointer becomes a table. */
    method ExtendSingle(c: Byte)
      requires Window() && count == 1 && c != min
      modifies `min, `count, `table
      ensures count > 1 && Window() && fresh(table) && min <= c < min + count
      ensures forall d: Byte :: Slot(d) == old(Slot(d))
    {
      var oldc, oldp := min, node;
      count := (if min < c then c - min else min - c) + 1;
      table := new Node?[count](_ => null);
      min := if min <= c then min else c;
      table[oldc - min] := oldp;
    }

    /** `realloc` of the table: more slots, of which the old ones keep their pointers. */
    method Realloc(slots: nat) returns (larger: array<Node?>)
      requires Window() && count > 1 && slots >= count
      ensures fresh(larger) && larger.Length == slots
      ensures forall i :: 0 <= i < count ==> larger[i] == table[i]
    {
      larger := new Node?[slots];
      forall i | 0 <= i < count {
        larger[i] := table[i];
      }
    }

    /** The table grows at its end. */
    method ExtendAbove(c: Byte)
      requires Window() && count > 1 && c >= min + count
      modifies `count, `table
      ensures count > 1 && Window() && fresh(table) && min <= c < min + count
      ensures forall d: Byte :: Slot(d) == old(Slot(d))
    {
      var larger := Realloc(c - min + 1);
      for i := count to larger.Length
        invariant forall j :: 0 <= j < count ==> larger[j] == table[j]
        invariant forall j :: count <= j < i ==> larger[j] == null
        modifies larger
      {
        larger[i] := null;
      }
      count, table := larger.Length, larger;
    }

    /** The table grows at its beginning. */
    method ExtendBelow(c: Byte)
      requires Window() && count > 1 && c < min
      modifies `min, `count, `table
      ensures count > 1 && Window() && fresh(table) && min <= c < min + count
      ensures forall d: Byte :: Slot(d) == old(Slot(d))
    {
      var shift := min - c;
      var larger := Realloc(min + count - c);
      // memmove
      forall i | 0 <= i < count {
        larger[shift + i] := larger[i];
      }
      for i := 0 to shift
        invariant forall j :: shift <= j < shift + count ==> larger[j] == table[j - shift]
        invariant forall j :: 0 <= j < i ==> larger[j] == null
        modifies larger
      {
        larger[i] := null;
      }
      min, count, table := c, larger.Length, larger;
    }
  }

  type Places = map<Prefix, Node>

  /** The node that should be in the slot of c at the prefix p. */
  ghost function Child(at: Places, p: Prefix, c: Byte): Node? {
    if p + [c] in at then at[p + [c]] else null
  }

  /** The characters by which the prefix p goes on. */
  ghost function Branches(places: set<Prefix>, p: Prefix): set<int> {
    set c: int | 0 <= c < 256 && p + [c] in places
  }

  /** Whoever is on the way to a node has a node. */
  ghost predicate Closed(places: set<Prefix>) {
    [] in places && forall p, k {:trigger p[..k]} :: p in places && 0 <= k <= |p| ==> p[..k] in places
  }

  ghost function Tables(at: Places): set<object>
    reads at.Values`table
  {
    set p | p in at && at[p].table != null :: at[p].table
  }

  ghost predicate TablesDiffer(at: Places)
    reads at.Values`table
  {
    forall p, q {:trigger at[p].table, at[q].table} ::
      p in at && q in at && p != q && at[p].table != null ==> at[p].table != at[q].table
  }

  /** The nodes form a trie. */
  ghost predicate Tree(at: Places)
    reads at.Values`min, at.Values`count, at.Values`node, at.Values`table, at.Values`liveNodes, Tables(at)
  {
    && Closed(at.Keys)
    && TablesDiffer(at)
    && (forall p {:trigger at[p].path} :: p in at ==> at[p].path == p)
    && (forall p {:trigger at[p].Ok(at)} :: p in at ==> at[p].Ok(at))
  }

  ghost predicate Redundant(n: Node)
    reads n`refcnt, n`liveNodes
  {
    n.refcnt == 0 && n.liveNodes == 0
  }

  /** No node but the root and, perhaps, the one at `exempt` is redundant. */
  ghost predicate Lean(at: Places, exempt: Prefix)
    reads at.Values`refcnt, at.Values`liveNodes
  {
    forall p {:trigger at[p]} :: p in at && p != [] && p != exempt ==> !Redundant(at[p])
  }

  /** How often the prefix p is stored. */
  ghost function Stored(at: Places, p: Prefix): nat
    reads at.Values`refcnt
  {
    if p in at then at[p].refcnt else 0
  }

  /** Some stored prefix starts the data. */
  ghost predicate Matches(at: Places, data: Prefix)
    reads at.Values`refcnt
  {
    exists k {:trigger data[..k]} :: 0 <= k <= |data| && Stored(at, data[..k]) > 0
  }

  lemma SameBranch(p: Prefix, c: Byte, q: Prefix, d: Byte)
    ensures p + [c] == q + [d] <==> p == q && c == d
  {
    assert (p + [c])[..|p|] == p && (q + [d])[..|q|] == q;
    assert (p + [c])[|p|] == c && (q + [d])[|q|] == d;
  }

  lemma BranchAdded(places: set<Prefix>, p: Prefix, c: Byte)
    requires p + [c] !in places
    ensures |Branches(places + {p + [c]}, p)| == |Branches(places, p)| + 1
    ensures forall q :: q != p ==> Branches(places + {p + [c]}, q) == Branches(places, q)
  {
    forall q, d: Byte ensures q + [d] == p + [c] <==> q == p && d == c {
      SameBranch(q, d, p, c);
    }
    assert Branches(places + {p + [c]}, p) == Branches(places, p) + {c as int};
  }

  lemma LeafAdded(places: set<Prefix>, p: Prefix, c: Byte)
    requires Closed(places) && p in places
    ensures Closed(places + {p + [c]})
  {
    var q := p + [c];
    forall k | 0 <= k <= |q| ensures q[..k] in places + {q} {
      if k <= |p| {
        assert q[..k] == p[..k];
      } else {
        assert q[..k] == q;
      }
    }
  }

  /** A new node has no successors. */
  lemma NoBranches(places: set<Prefix>, p: Prefix)
    requires Closed(places) && p !in places
    ensures Branches(places + {p}, p) == {}
  {
    forall c: Byte ensures p + [c] !in places + {p} {
      assert (p + [c])[..|p|] == p;
    }
  }

  /** One more node: what the slots of all nodes have to show. */
  lemma NodeAdded(at: Places, p: Prefix, c: Byte, next: Node)
    requires Closed(at.Keys) && p in at && p + [c] !in at
    ensures var at' := at[p + [c] := next];
            Closed(at'.Keys) && |Branches(at'.Keys, p)| == |Branches(at.Keys, p)| + 1 &&
            Branches(at'.Keys, p + [c]) == {} &&
            (forall q :: q != p && q != p + [c] ==> Branches(at'.Keys, q) == Branches(at.Keys, q)) &&
            (forall q, d: Byte {:trigger Child(at', q, d)} :: Child(at', q, d) ==
              if q == p && d == c then next else if q == p + [c] then null else Child(at, q, d))
  {
    var at' := at[p + [c] := next];
    assert at'.Keys == at.Keys + {p + [c]};
    LeafAdded(at.Keys, p, c);
    BranchAdded(at.Keys, p, c);
    NoBranches(at.Keys, p + [c]);
    forall q, d: Byte
      ensures Child(at', q, d) == if q == p && d == c then next else if q == p + [c] then null else Child(at, q, d)
    {
      SameBranch(q, d, p, c);
      assert q == p + [c] ==> d as int !in Branches(at'.Keys, q);
    }
  }

  /** The node n has a slot for c that leads to a node. */
  method Descend(n: Node, c: Byte, ghost at: Places) returns (next: Node, ghost at': Places)
    requires Tree(at) && Lean(at, n.path) && n.path in at && at[n.path] == n
    modifies n`min, n`count, n`node, n`table, n`liveNodes, n.table
    ensures Tree(at') && n.path + [c] in at' && at'[n.path + [c]] == next && Lean(at', next.path)
    ensures at' == at || (at' == at[next.path := next] && next.path !in at && fresh(next) && next.refcnt == 0)
    ensures forall p :: p in at' && at'[p].table != null ==> fresh(at'[p].table) || at'[p].table in old(Tables(at))
  {
    assert n.Ok(at);
    var created: bool;
    next, created := n.Branch(c);
    at' := at;
    if created {
      at' := at[next.path := next];
      NodeAdded(at, n.path, c, next);
      forall p | p in at' ensures at'[p].Ok(at') {
        assert p != next.path ==> old(at[p].Ok(at));
      }
    } else {
      assert c as int in Branches(at.Keys, n.path);
    }
  }

  /** Adds a prefix to the node n. */
  method Add(n: Node, prefix: Prefix, ghost at: Places) returns (ghost at': Places)
    requires Tree(at) && Lean(at, n.path) && n.path in at && at[n.path] == n
    modifies at.Values, Tables(at)
    ensures Tree(at') && Lean(at', [])
    ensures forall p :: p in at ==> p in at' && at'[p] == at[p]
    ensures forall p :: p in at' && p !in at ==> fresh(at'[p])
    ensures forall p :: p in at' && at'[p].table != null ==> fresh(at'[p].table) || at'[p].table in old(Tables(at))
    ensures forall q :: Stored(at', q) == old(Stored(at, q)) + if q == n.path + prefix then 1 else 0
    decreases |prefix|
  {
    if prefix == [] {
      n.refcnt := n.refcnt + 1;
      assert n.path + prefix == n.path;
      return at;
    }
    var next, at1 := Descend(n, prefix[0], at);
    at' := Add(next, prefix[1..], at1);
    assert next.path + prefix[1..] == n.path + prefix;
  }

  /** One leaf less: what the slots of the other nodes have to show. */
  lemma NodeRemoved(at: Places, p: Prefix, c: Byte)
    requires Closed(at.Keys) && p + [c] in at && Branches(at.Keys, p + [c]) == {}
    ensures var at' := at - {p + [c]};
            Closed(at'.Keys) && |Branches(at'.Keys, p)| == |Branches(at.Keys, p)| - 1 &&
            (forall q :: q != p ==> Branches(at'.Keys, q) == Branches(at.Keys, q)) &&
            (forall q, d: Byte {:trigger Child(at', q, d)} :: Child(at', q, d) ==
              if q == p && d == c then null else Child(at, q, d))
  {
    var at' := at - {p + [c]};
    forall q, d: Byte ensures q + [d] == p + [c] <==> q == p && d == c {
      SameBranch(q, d, p, c);
    }
    assert Branches(at'.Keys, p) == Branches(at.Keys, p) - {c as int};
    LeafRemoved(at.Keys, p + [c]);
    assert at'.Keys == at.Keys - {p + [c]};
  }

  lemma LeafRemoved(places: set<Prefix>, leaf: Prefix)
    requires Closed(places) && leaf != [] && Branches(places, leaf) == {}
    ensures Closed(places - {leaf})
  {
    forall p, k | p in places && p != leaf && 0 <= k <= |p| ensures p[..k] != leaf {
      assert p[..|p|] == p;
      if k < |p| {
        assert p[..k + 1] == p[..k] + [p[k]];
        assert p[k] as int in Branches(places, p[..k]);
      }
    }
  }

  /** A prefix is not stored when the way to it ends. */
  lemma NotStored(at: Places, p: Prefix, prefix: Prefix)
    requires Closed(at.Keys) && prefix != [] && p + [prefix[0]] !in at
    ensures p + prefix !in at
  {
    assert (p + prefix)[..|p| + 1] == p + [prefix[0]];
  }

  /** The redundant node for c is taken out of the trie. */
  method Prune(n: Node, c: Byte, ghost at: Places) returns (ghost at': Places)
    requires Tree(at) && n.path in at && at[n.path] == n && n.path + [c] in at
    requires Lean(at, n.path + [c]) && Redundant(at[n.path + [c]])
    modifies n`count, n`node, n`liveNodes, n.table
    ensures at' == at - {n.path + [c]} && Tree(at') && Lean(at', n.path)
  {
    var leaf := n.path + [c];
    assert n.Ok(at) && at[leaf].Ok(at) && at[leaf].path == leaf;
    assert n.Slot(c) == Child(at, n.path, c);
    assert c as int in Branches(at.Keys, n.path);
    n.Unbranch(c);
    at' := at - {leaf};
    NodeRemoved(at, n.path, c);
    forall p | p in at' ensures at'[p].Ok(at') {
      assert old(at[p].Ok(at));
    }
  }

  /** Removes a prefix from the node n; n itself may be redundant afterwards. */
  method Rm(n: Node, prefix: Prefix, ghost at: Places) returns (found: bool, ghost at': Places)
    requires Tree(at) && Lean(at, []) && n.path in at && at[n.path] == n
    modifies at.Values, Tables(at)
    ensures Tree(at') && Lean(at', n.path) && n.path in at'
    ensures forall p :: p in at' ==> p in at && at'[p] == at[p] && at'[p].table == old(at[p].table)
    ensures found <==> old(Stored(at, n.path + prefix)) > 0
    ensures forall q :: Stored(at', q) == old(Stored(at, q)) - if found && q == n.path + prefix then 1 else 0
    decreases |prefix|
  {
    at' := at;
    if prefix == [] {
      assert n.path + prefix == n.path;
      if n.refcnt == 0 {
        return false, at;
      }
      n.refcnt := n.refcnt - 1;
      return true, at;
    }
    var c := prefix[0];
    assert n.Ok(at);
    assert n.Slot(c) == Child(at, n.path, c);
    if n.count == 0 || c < n.min || c >= n.min + n.count {
      NotStored(at, n.path, prefix);
      return false, at;
    }
    var next: Node? := if n.count == 1 then n.node else n.table[c - n.min];
    if next == null {
      NotStored(at, n.path, prefix);
      return false, at;
    }
    assert n.path + [c] + prefix[1..] == n.path + prefix;
    assert next.path == n.path + [c] && next.path[..|n.path|] == n.path;
    found, at' := Rm(next, prefix[1..], at);
    if next.refcnt == 0 && next.liveNodes == 0 {
      at' := Prune(n, c, at');
    }
  }

  /** The loop of `check`; the nodes passed so far store nothing. */
  method Check(root: Node, data: Prefix, ghost at: Places) returns (found: bool)
    requires Tree(at) && at[[]] == root
    ensures found <==> Matches(at, data)
  {
    var current := root;
    var i := 0;
    while true
      invariant i <= |data| && data[..i] in at && at[data[..i]] == current
      invariant forall k {:trigger data[..k]} :: 0 <= k < i ==> Stored(at, data[..k]) == 0
      decreases |data| - i
    {
      if current.refcnt != 0 {
        return true;
      }
      if i == |data| {
        return false;
      }
      var c := data[i];
      assert current.Ok(at);
      assert current.Slot(c) == Child(at, data[..i], c);
      assert data[..i] + [c] == data[..i + 1];
      if c < current.min || c >= current.min + current.count {
        NothingBeyond(at, data, i + 1);
        return false;
      }
      if current.count == 1 {
        current := current.node;
      } else {
        if current.table[c - current.min] == null {
          NothingBeyond(at, data, i + 1);
          return false;
        }
        current := current.table[c - current.min];
      }
      i := i + 1;
    }
  }

  lemma NothingBeyond(at: Places, data: Prefix, i: nat)
    requires Closed(at.Keys) && i <= |data| && data[..i] !in at
    ensures forall k {:trigger data[..k]} :: i <= k <= |data| ==> Stored(at, data[..k]) == 0
  {
    forall k | i <= k <= |data| ensures data[..k] !in at {
      assert data[..k][..i] == data[..i];
    }
  }
}

module Trie {
  import opened TrieNodes
  import N = TrieNodes

  datatype Op = AddPrefix(prefix: Prefix) | RmPrefix(prefix: Prefix) | CheckData(data: Prefix)

  /** A multiset of prefixes, and what it answers to each operation. */
  function Change(m: multiset<Prefix>, op: Op): multiset<Prefix> {
    match op
    case AddPrefix(p) => m + multiset{p}
    case RmPrefix(p) => m - multiset{p}
    case CheckData(_) => m
  }

  predicate Answer(m: multiset<Prefix>, op: Op) {
    match op
    case AddPrefix(_) => true
    case RmPrefix(p) => p in m
    case CheckData(data) => exists k | 0 <= k <= |data| :: data[..k] in m
  }

  function Answers(m: multiset<Prefix>, ops: seq<Op>): seq<bool>
    decreases |ops|
  {
    if ops == [] then [] else [Answer(m, ops[0])] + Answers(Change(m, ops[0]), ops[1..])
  }

  /** A trie, as its owner sees it. */
  class Subscriptions {
    const root: Node
    ghost var at: Places

    ghost predicate Valid()
      reads this, at.Values, Tables(at)
    {
      Tree(at) && Lean(at, []) && at[[]] == root
    }

    constructor ()
      ensures Valid() && fresh(at.Values) && fresh(Tables(at))
      ensures forall p :: Stored(at, p) == 0
    {
      root := new Node([]);
      new;
      at := map[[] := root];
      assert Branches(at.Keys, []) == {};
    }

    method Add(prefix: Prefix)
      requires Valid()
      modifies this, at.Values, Tables(at)
      ensures Valid() && fresh(at.Values - old(at.Values)) && fresh(Tables(at) - old(Tables(at)))
      ensures forall p :: Stored(at, p) == old(Stored(at, p)) + if p == prefix then 1 else 0
    {
      assert [] + prefix == prefix;
      at := N.Add(root, prefix, at);
    }

    /** The result says whether the prefix was stored; then one copy of it is removed. */
    method Rm(prefix: Prefix) returns (found: bool)
      requires Valid()
      modifies this, at.Values, Tables(at)
      ensures Valid() && fresh(at.Values - old(at.Values)) && fresh(Tables(at) - old(Tables(at)))
      ensures found <==> old(Stored(at, prefix)) > 0
      ensures forall p :: Stored(at, p) == old(Stored(at, p)) - if found && p == prefix then 1 else 0
    {
      assert [] + prefix == prefix;
      found, at := N.Rm(root, prefix, at);
    }

    method Check(data: Prefix) returns (found: bool)
      requires Valid()
      ensures found <==> Matches(at, data)
    {
      found := N.Check(root, data, at);
    }

    /** The trie stores the multiset m. */
    ghost predicate Stores(m: multiset<Prefix>)
      reads this, at.Values
    {
      forall p {:trigger Stored(at, p)} :: Stored(at, p) == m[p]
    }

    method Perform(op: Op, ghost m: multiset<Prefix>) returns (answer: bool)
      requires Valid() && Stores(m)
      modifies this, at.Values, Tables(at)
      ensures Valid() && fresh(at.Values - old(at.Values)) && fresh(Tables(at) - old(Tables(at)))
      ensures Stores(Change(m, op)) && answer == Answer(m, op)
    {
      match op
      case AddPrefix(prefix) =>
        Add(prefix);
        answer := true;
      case RmPrefix(prefix) =>
        assert Stored(at, prefix) == m[prefix];
        answer := Rm(prefix);
      case CheckData(data) =>
        answer := Check(data);
        assert forall k {:trigger data[..k]} :: 0 <= k <= |data| ==> Stored(at, data[..k]) == m[data[..k]];
    }

    /** Whatever is added, removed and looked up, a new trie answers like a multiset of prefixes. */
    method Replay(ops: seq<Op>) returns (answers: seq<bool>)
      requires Valid() && Stores(multiset{})
      modifies this, at.Values, Tables(at)
      ensures answers == Answers(multiset{}, ops)
    {
      answers := [];
      ghost var m: multiset<Prefix> := multiset{};
      for i := 0 to |ops|
        invariant Valid() && Stores(m)
        invariant fresh(at.Values - old(at.Values)) && fresh(Tables(at) - old(Tables(at)))
        invariant answers + Answers(m, ops[i..]) == Answers(multiset{}, ops)
      {
        var answer := Perform(ops[i], m);
        assert ops[i..][1..] == ops[i + 1..];
        assert Answers(m, ops[i..]) == [answer] + Answers(Change(m, ops[i]), ops[i + 1..]);
        answers := answers + [answer];
        m := Change(m, ops[i]);
      }
    }
  }
}
