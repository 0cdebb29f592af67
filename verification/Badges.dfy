/** One-to-many eager loading on Badge: loadUserBadges, and loadPrimaryUsers with its nullable key. */
module Badges {
  import opened Outcomes
  import opened EagerLoad

  /** A user badge or a user; `fk` is badge_id or primary_badge_id. */
  datatype Child = Child(id: int, fk: Option<int>)

  class Badge {
    const id: int
    var children: seq<Child>

    constructor (id: int)
      ensures this.id == id && children == []
    {
      this.id, children := id, [];
    }
  }

  function Ids(nodes: seq<Badge>): (r: seq<int>)
    ensures |r| == |nodes| && forall k :: 0 <= k < |nodes| ==> r[k] == nodes[k].id
  {
    seq(|nodes|, k requires 0 <= k < |nodes| => nodes[k].id)
  }

  function Keys(ns: seq<Child>): (r: seq<Option<int>>)
    ensures |r| == |ns| && forall k :: 0 <= k < |ns| ==> r[k] == ns[k].fk
  {
    seq(|ns|, k requires 0 <= k < |ns| => ns[k].fk)
  }

  /** The children with this key, in the order the query returned them. */
  function ChildrenOf(ns: seq<Child>, id: int): seq<Child> {
    Group(ns, Keys(ns), Some(id))
  }

  /** Where several nodes share an id, the last one owns it. */
  function Owner(nodes: seq<Badge>, id: int): Option<Badge> {
    if nodes == [] then None
    else if nodes[|nodes| - 1].id == id then Some(nodes[|nodes| - 1])
    else Owner(nodes[..|nodes| - 1], id)
  }

  lemma {:induction false} OwnerFacts(nodes: seq<Badge>, id: int)
    ensures Owner(nodes, id).Some? <==> id in Ids(nodes)
    ensures Owner(nodes, id).Some? ==> Owner(nodes, id).value in nodes && Owner(nodes, id).value.id == id
  {
    if nodes != [] {
      var k := |nodes| - 1;
      assert nodes == nodes[..k] + [nodes[k]] && Ids(nodes) == Ids(nodes[..k]) + [nodes[k].id];
      OwnerFacts(nodes[..k], id);
    }
  }

  /** The first child that cannot be placed: its key is NULL or belongs to no node. */
  function FirstStray(ns: seq<Child>, ids: seq<int>): (k: nat)
    ensures k <= |ns| && (forall j :: 0 <= j < k ==> ns[j].fk.Some? && ns[j].fk.value in ids)
    ensures k < |ns| ==> ns[k].fk.None? || ns[k].fk.value !in ids
  {
    if ns == [] || ns[0].fk.None? || ns[0].fk.value !in ids then 0 else
      var k := FirstStray(ns[1..], ids);
      assert forall j :: 1 <= j < 1 + k ==> ns[j] == ns[1..][j - 1];
      1 + k
  }

  lemma {:induction false} ChildrenStep(ns: seq<Child>, j: nat, id: int)
    requires j < |ns|
    ensures ChildrenOf(ns[..j + 1], id) == ChildrenOf(ns[..j], id) + if ns[j].fk == Some(id) then [ns[j]] else []
  {
    assert Keys(ns)[..j + 1] == Keys(ns[..j + 1]) && Keys(ns)[..j] == Keys(ns[..j]);
    GroupStep(ns, Keys(ns), j, Some(id));
  }

  function Expected(nodes: seq<Badge>, x: Badge, ns: seq<Child>): seq<Child> {
    if Owner(nodes, x.id) == Some(x) then ChildrenOf(ns, x.id) else []
  }

  ghost predicate OwnerMap(nodes: seq<Badge>, nodeids: map<int, Badge>) {
    forall id :: (id in nodeids <==> Owner(nodes, id).Some?) && (id in nodeids ==> Some(nodeids[id]) == Owner(nodes, id))
  }

  method ResetAndIndex(nodes: seq<Badge>) returns (fks: seq<int>, nodeids: map<int, Badge>)
    modifies nodes
    ensures fks == Ids(nodes) && OwnerMap(nodes, nodeids)
    ensures forall x :: x in nodes ==> x.children == []
  {
    fks, nodeids := [], map[];
    for i := 0 to |nodes|
      invariant fks == Ids(nodes[..i]) && OwnerMap(nodes[..i], nodeids)
      invariant forall x :: x in nodes[..i] ==> x.children == []
    {
      fks := fks + [nodes[i].id];
      nodeids := nodeids[nodes[i].id := nodes[i]];
      nodes[i].children := [];
      assert nodes[..i + 1] == nodes[..i] + [nodes[i]] && nodes[..i + 1][..i] == nodes[..i];
    }
    assert nodes[..|nodes|] == nodes;
  }

  method AppendChildren(nodes: seq<Badge>, nodeids: map<int, Badge>, ns: seq<Child>) returns (ok: bool)
    requires OwnerMap(nodes, nodeids) && forall x :: x in nodes ==> x.children == []
    modifies nodes
    ensures ok <==> FirstStray(ns, Ids(nodes)) == |ns|
    ensures forall x :: x in nodes ==> x.children == Expected(nodes, x, ns[..FirstStray(ns, Ids(nodes))])
  {
    ghost var stray := FirstStray(ns, Ids(nodes));
    for j := 0 to |ns|
      invariant j <= stray
      invariant forall x :: x in nodes ==> x.children == Expected(nodes, x, ns[..j])
    {
      var fk := ns[j].fk;
      if fk.None? { return false; }
      OwnerFacts(nodes, fk.value);
      if fk.value !in nodeids { return false; }
      var node := nodeids[fk.value];
      label before:
      node.children := node.children + [ns[j]];
      forall x | x in nodes ensures x.children == Expected(nodes, x, ns[..j + 1]) {
        ChildrenStep(ns, j, x.id);
        if x != node { assert x.children == old@before(x.children); }
      }
    }
    assert ns[..|ns|] == ns;
    ok := true;
  }

  /** Batched loading: every list is reset, then each child goes to the owner of its key, in query order. */
  method LoadOneToMany(nodes: seq<Badge>, fetch: Fetch<Child>) returns (ok: bool, requested: seq<int>)
    modifies nodes
    ensures requested == Ids(nodes)
    ensures ok <==> fetch(requested).Ok? && FirstStray(fetch(requested).value, requested) == |fetch(requested).value|
    ensures fetch(requested).Err? ==> forall x :: x in nodes ==> x.children == []
    ensures fetch(requested).Ok? ==>
              var ns := fetch(requested).value;
              forall x :: x in nodes ==> x.children == Expected(nodes, x, ns[..FirstStray(ns, requested)])
  {
    var nodeids;
    requested, nodeids := ResetAndIndex(nodes);
    var neighbors := fetch(requested);
    if neighbors.Err? { return false, requested; }
    ok := AppendChildren(nodes, nodeids, neighbors.value);
  }

  ghost predicate DistinctIds(nodes: seq<Badge>) {
    forall i, j :: 0 <= i < j < |nodes| ==> nodes[i].id != nodes[j].id
  }

  /** With distinct ids every node gets exactly the order-preserving filter of the children by its id. */
  lemma {:induction false} DistinctNodesOwnThemselves(nodes: seq<Badge>, x: Badge, ns: seq<Child>)
    requires DistinctIds(nodes) && x in nodes
    ensures Expected(nodes, x, ns) == ChildrenOf(ns, x.id)
  {
    var k := |nodes| - 1;
    if nodes[k] != x {
      assert nodes == nodes[..k] + [nodes[k]];
      var i :| 0 <= i < |nodes| && nodes[i] == x;
      assert nodes[..k][i] == x;
      DistinctNodesOwnThemselves(nodes[..k], x, ns);
    }
  }

  lemma {:induction false} LastHolderOwns(nodes: seq<Badge>, j: nat)
    requires j < |nodes| && forall k :: j < k < |nodes| ==> nodes[k].id != nodes[j].id
    ensures Owner(nodes, nodes[j].id) == Some(nodes[j])
    decreases |nodes|
  {
    if j < |nodes| - 1 {
      assert nodes[..|nodes| - 1][j] == nodes[j];
      LastHolderOwns(nodes[..|nodes| - 1], j);
    }
  }

  /** With repeated ids the last holder of an id, wherever it stands, takes all and every other holder ends empty. */
  lemma {:induction false} LastNodeTakesAll(nodes: seq<Badge>, j: nat, ns: seq<Child>)
    requires j < |nodes| && forall k :: j < k < |nodes| ==> nodes[k].id != nodes[j].id
    ensures Expected(nodes, nodes[j], ns) == ChildrenOf(ns, nodes[j].id)
    ensures forall x :: x in nodes && x.id == nodes[j].id && x != nodes[j] ==> Expected(nodes, x, ns) == []
  {
    LastHolderOwns(nodes, j);
  }

  function SumOfLists(ids: seq<int>, ns: seq<Child>): nat {
    if ids == [] then 0 else |ChildrenOf(ns, ids[0])| + SumOfLists(ids[1..], ns)
  }

  function Somes(ids: seq<int>): (r: seq<Option<int>>)
    ensures |r| == |ids| && forall k :: 0 <= k < |ids| ==> r[k] == Some(ids[k])
  {
    seq(|ids|, k requires 0 <= k < |ids| => Some(ids[k]))
  }

  lemma {:induction false} SumIsTotal(ids: seq<int>, ns: seq<Child>)
    ensures SumOfLists(ids, ns) == TotalSize(ns, Keys(ns), Somes(ids))
  {
    if ids != [] {
      assert Somes(ids)[1..] == Somes(ids[1..]);
      SumIsTotal(ids[1..], ns);
    }
  }

  /** No child is lost or duplicated: over nodes with distinct ids the list lengths add up to the number of children. */
  lemma {:induction false} ChildrenAreConserved(nodes: seq<Badge>, ns: seq<Child>)
    requires DistinctIds(nodes) && FirstStray(ns, Ids(nodes)) == |ns|
    ensures SumOfLists(Ids(nodes), ns) == |ns|
  {
    SumIsTotal(Ids(nodes), ns);
    forall k | 0 <= k < |ns| ensures Keys(ns)[k] in Somes(Ids(nodes)) {
      var j :| 0 <= j < |Ids(nodes)| && Ids(nodes)[j] == ns[k].fk.value;
      assert Somes(Ids(nodes))[j] == Keys(ns)[k];
    }
    SizesAddUp(ns, Keys(ns), Somes(Ids(nodes)));
  }
}
