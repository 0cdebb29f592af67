/** Many-to-one eager loading: loadValidationCase and loadValidatorUser. */
module EagerLoad {
  import opened Outcomes
  import opened Entity

  // ---------------------------------------------------------------- references

  /** The distinct elements in the order they first appear. */
  function FirstSeen(xs: seq<int>): (r: seq<int>)
    ensures forall x :: x in r <==> x in xs
  {
    if xs == [] then [] else
      var r := FirstSeen(xs[..|xs| - 1]);
      assert xs == xs[..|xs| - 1] + [xs[|xs| - 1]];
      if xs[|xs| - 1] in r then r else r + [xs[|xs| - 1]]
  }

  lemma {:induction false} FirstSeenStep(xs: seq<int>, x: int)
    ensures FirstSeen(xs + [x]) == if x in xs then FirstSeen(xs) else FirstSeen(xs) + [x]
  {
    assert (xs + [x])[..|xs|] == xs;
  }

  lemma {:induction false} FirstSeenDistinct(xs: seq<int>)
    ensures forall i, j :: 0 <= i < j < |FirstSeen(xs)| ==> FirstSeen(xs)[i] != FirstSeen(xs)[j]
  {
    if xs != [] { FirstSeenDistinct(xs[..|xs| - 1]); }
  }

  /** Where x first stands in xs. */
  function FirstPosition(xs: seq<int>, x: int): (p: nat)
    ensures x in xs ==> p < |xs| && xs[p] == x && x !in xs[..p]
    ensures x !in xs ==> p == |xs|
  {
    if xs == [] || xs[0] == x then 0 else
      var p := 1 + FirstPosition(xs[1..], x);
      assert p <= |xs| ==> xs[..p] == [xs[0]] + xs[1..][..p - 1];
      p
  }

  lemma {:induction false} FirstPositionIs(xs: seq<int>, x: int, p: nat)
    requires p < |xs| && xs[p] == x && x !in xs[..p]
    ensures FirstPosition(xs, x) == p
  {
    var q := FirstPosition(xs, x);
    forall i | 0 <= i < p ensures xs[i] != x { assert xs[i] in xs[..p]; }
    forall i | 0 <= i < q ensures xs[i] != x { assert xs[i] in xs[..q]; }
  }

  /** The requested keys are listed in the order in which they first appear. */
  lemma {:induction false} FirstSeenInOrder(xs: seq<int>)
    ensures forall i, j :: 0 <= i < j < |FirstSeen(xs)| ==> FirstPosition(xs, FirstSeen(xs)[i]) < FirstPosition(xs, FirstSeen(xs)[j])
  {
    if xs != [] {
      var n := |xs| - 1;
      var front := xs[..n];
      var r, r' := FirstSeen(front), FirstSeen(xs);
      FirstSeenInOrder(front);
      assert xs == front + [xs[n]];
      forall x | x in front ensures FirstPosition(xs, x) == FirstPosition(front, x) {
        var p := FirstPosition(front, x);
        assert xs[..p] == front[..p];
        FirstPositionIs(xs, x, p);
      }
      if xs[n] !in r {
        assert xs[..n] == front && xs[n] !in front;
        FirstPositionIs(xs, xs[n], n);
      }
      forall i, j | 0 <= i < j < |r'| ensures FirstPosition(xs, r'[i]) < FirstPosition(xs, r'[j]) {
        assert i < |r| && r[i] in r;
        if j < |r| { assert r[j] in r; }
      }
    }
  }

  /** The neighbour that a loop over `ns` leaves on a node with this key: the last one that matches. */
  function LastMatch(ns: seq<Neighbor>, fk: int): Option<Neighbor> {
    if ns == [] then None
    else if ns[|ns| - 1].id == fk then Some(ns[|ns| - 1])
    else LastMatch(ns[..|ns| - 1], fk)
  }

  function EdgeAfter(ns: seq<Neighbor>, fk: int, before: Option<Neighbor>): Option<Neighbor> {
    var m := LastMatch(ns, fk);
    if m.Some? then m else before
  }

  lemma {:induction false} EdgeAfterStep(ns: seq<Neighbor>, n: Neighbor, fk: int, before: Option<Neighbor>)
    ensures EdgeAfter(ns + [n], fk, before) == if n.id == fk then Some(n) else EdgeAfter(ns, fk, before)
  {
    assert (ns + [n])[..|ns|] == ns;
  }

  lemma {:induction false} LastMatchIsTheMatch(ns: seq<Neighbor>, fk: int)
    ensures LastMatch(ns, fk).Some? ==> LastMatch(ns, fk).value in ns && LastMatch(ns, fk).value.id == fk
    ensures LastMatch(ns, fk).None? ==> forall n :: n in ns ==> n.id != fk
  {
    if ns != [] {
      assert ns == ns[..|ns| - 1] + [ns[|ns| - 1]];
      LastMatchIsTheMatch(ns[..|ns| - 1], fk);
    }
  }

  /** The edge after the loop: that of the last neighbour with the key, at position k, or what it was when there is
      none, which k = -1 stands for. */
  lemma {:induction false} EdgeAfterMeans(ns: seq<Neighbor>, fk: int, before: Option<Neighbor>, k: int)
    requires -1 <= k < |ns| && (k >= 0 ==> ns[k].id == fk) && forall j :: k < j < |ns| ==> ns[j].id != fk
    ensures EdgeAfter(ns, fk, before) == if k >= 0 then Some(ns[k]) else before
  {
    var n := |ns| - 1;
    if k < n {
      var front := ns[..n];
      assert ns == front + [ns[n]];
      EdgeAfterMeans(front, fk, before, k);
    }
  }

  ghost predicate DistinctIds(ns: seq<Neighbor>) {
    forall i, j :: 0 <= i < j < |ns| ==> ns[i].id != ns[j].id
  }

  /** `SELECT ... WHERE id IN (ids)` on a table of neighbours. */
  function SelectByIds(table: seq<Neighbor>, ids: seq<int>): seq<Neighbor> {
    if table == [] then []
    else
      var rest := SelectByIds(table[..|table| - 1], ids);
      if table[|table| - 1].id in ids then rest + [table[|table| - 1]] else rest
  }

  lemma {:induction false} SelectFinds(table: seq<Neighbor>, ids: seq<int>, n: Neighbor)
    ensures n in SelectByIds(table, ids) <==> n in table && n.id in ids
  {
    if table != [] {
      assert table == table[..|table| - 1] + [table[|table| - 1]];
      SelectFinds(table[..|table| - 1], ids, n);
    }
  }

  /** One batched query gives every node what its own query would have given it. */
  lemma {:induction false} BatchEqualsPerNodeLookup(table: seq<Neighbor>, fks: seq<int>, fk: int)
    requires DistinctIds(table) && fk in fks
    ensures LastMatch(SelectByIds(table, FirstSeen(fks)), fk) == LastMatch(SelectByIds(table, [fk]), fk)
    ensures forall n :: n in SelectByIds(table, FirstSeen(fks)) ==> n.id in fks
  {
    var batch, single := SelectByIds(table, FirstSeen(fks)), SelectByIds(table, [fk]);
    LastMatchIsTheMatch(batch, fk);
    LastMatchIsTheMatch(single, fk);
    forall n ensures n in batch <==> n in table && n.id in fks { SelectFinds(table, FirstSeen(fks), n); }
    forall n ensures n in single <==> n in table && n.id == fk { SelectFinds(table, [fk], n); }
    if LastMatch(batch, fk).Some? {
      assert LastMatch(batch, fk).value in single;
    }
    if LastMatch(single, fk).Some? {
      assert LastMatch(single, fk).value in batch;
    }
  }

  // ---------------------------------------------------------------- many to one

  datatype Edge = ValidationCaseEdge | ValidatorUserEdge

  type Fetch<T> = seq<int> -> Result<seq<T>, string>

  function Fk(r: Record, e: Edge): int {
    if e.ValidationCaseEdge? then r.validationCaseID else r.validatorUserID
  }

  function EdgeOf(n: ConsultationRequest, e: Edge): Option<Neighbor>
    reads n
  {
    if e.ValidationCaseEdge? then n.validationCase else n.validatorUser
  }

  function OtherOf(n: ConsultationRequest, e: Edge): Option<Neighbor>
    reads n
  {
    if e.ValidationCaseEdge? then n.validatorUser else n.validationCase
  }

  function Fks(nodes: seq<ConsultationRequest>, e: Edge): (r: seq<int>)
    reads nodes
    ensures |r| == |nodes| && forall k :: 0 <= k < |nodes| ==> r[k] == Fk(nodes[k].rec, e)
  {
    seq(|nodes|, k requires 0 <= k < |nodes| reads nodes => Fk(nodes[k].rec, e))
  }

  /** The nodes with a key, in order. */
  function Group<T, K(==)>(nodes: seq<T>, keys: seq<K>, fk: K): seq<T>
    requires |nodes| == |keys|
  {
    if nodes == [] then [] else
      var k := |nodes| - 1;
      Group(nodes[..k], keys[..k], fk) + if keys[k] == fk then [nodes[k]] else []
  }

  lemma {:induction false} GroupStep<T, K>(nodes: seq<T>, keys: seq<K>, i: nat, fk: K)
    requires |nodes| == |keys| && i < |nodes|
    ensures Group(nodes[..i + 1], keys[..i + 1], fk) == Group(nodes[..i], keys[..i], fk) + if keys[i] == fk then [nodes[i]] else []
  {
    assert nodes[..i + 1][..i] == nodes[..i] && keys[..i + 1][..i] == keys[..i];
  }

  lemma {:induction false} GroupMembers<T, K>(nodes: seq<T>, keys: seq<K>, fk: K)
    requires |nodes| == |keys|
    ensures forall x :: x in Group(nodes, keys, fk) <==> exists k :: 0 <= k < |nodes| && nodes[k] == x && keys[k] == fk
  {
    if nodes != [] {
      var k := |nodes| - 1;
      GroupMembers(nodes[..k], keys[..k], fk);
      forall x ensures x in Group(nodes, keys, fk) <==> exists k :: 0 <= k < |nodes| && nodes[k] == x && keys[k] == fk {
        if x in Group(nodes[..k], keys[..k], fk) {
          var j :| 0 <= j < k && nodes[..k][j] == x && keys[..k][j] == fk;
          assert nodes[j] == x && keys[j] == fk;
        }
        if j :| 0 <= j < |nodes| && nodes[j] == x && keys[j] == fk {
          if j < k { assert nodes[..k][j] == x && keys[..k][j] == fk; }
        }
      }
    }
  }

  /** The groups partition the nodes: over all requested keys their sizes add up to the number of nodes. */
  function TotalSize<T, K(==)>(nodes: seq<T>, keys: seq<K>, ids: seq<K>): nat
    requires |nodes| == |keys|
  {
    if ids == [] then 0 else |Group(nodes, keys, ids[0])| + TotalSize(nodes, keys, ids[1..])
  }

  lemma {:induction false} TotalStep<T, K>(nodes: seq<T>, keys: seq<K>, ids: seq<K>)
    requires |nodes| == |keys| > 0
    requires forall i, j :: 0 <= i < j < |ids| ==> ids[i] != ids[j]
    ensures
      var k := |nodes| - 1;
      TotalSize(nodes, keys, ids) == TotalSize(nodes[..k], keys[..k], ids) + if keys[k] in ids then 1 else 0
    decreases |ids|
  {
    if ids != [] {
      TotalStep(nodes, keys, ids[1..]);
      var k := |nodes| - 1;
      assert keys[k] in ids <==> keys[k] == ids[0] || keys[k] in ids[1..];
      if keys[k] in ids[1..] { assert keys[k] != ids[0]; }
    }
  }

  lemma {:induction false} SizesAddUp<T, K>(nodes: seq<T>, keys: seq<K>, ids: seq<K>)
    requires |nodes| == |keys| && forall k :: 0 <= k < |keys| ==> keys[k] in ids
    requires forall i, j :: 0 <= i < j < |ids| ==> ids[i] != ids[j]
    ensures TotalSize(nodes, keys, ids) == |nodes|
    decreases |nodes|
  {
    if nodes == [] {
      NothingToGroup(nodes, keys, ids);
    } else {
      TotalStep(nodes, keys, ids);
      SizesAddUp(nodes[..|nodes| - 1], keys[..|nodes| - 1], ids);
    }
  }

  /** Where a key stands, from left to right. */
  function Positions<K(==)>(keys: seq<K>, fk: K): seq<nat> {
    if keys == [] then [] else
      var k := |keys| - 1;
      Positions(keys[..k], fk) + if keys[k] == fk then [k] else []
  }

  lemma {:induction false} PositionsOf<K>(keys: seq<K>, fk: K, k: nat)
    ensures k in Positions(keys, fk) <==> k < |keys| && keys[k] == fk
    decreases |keys|
  {
    if keys != [] {
      var n := |keys| - 1;
      PositionsOf(keys[..n], fk, k);
      assert k < n ==> keys[..n][k] == keys[k];
    }
  }

  lemma {:induction false} PositionsIncrease<K>(keys: seq<K>, fk: K)
    ensures forall a :: 0 <= a < |Positions(keys, fk)| ==> Positions(keys, fk)[a] < |keys|
    ensures forall a, b :: 0 <= a < b < |Positions(keys, fk)| ==> Positions(keys, fk)[a] < Positions(keys, fk)[b]
    decreases |keys|
  {
    if keys != [] { PositionsIncrease(keys[..|keys| - 1], fk); }
  }

  /** The group holds the nodes at the positions of its key, each position once and in order. */
  ghost predicate Selected<T, K>(nodes: seq<T>, keys: seq<K>, fk: K)
    requires |nodes| == |keys|
  {
    var g, ps := Group(nodes, keys, fk), Positions(keys, fk);
    && (forall a, b :: 0 <= a < b < |ps| ==> ps[a] < ps[b])
    && |g| == |ps| && forall a :: 0 <= a < |ps| ==> ps[a] < |nodes| && g[a] == nodes[ps[a]]
  }

  lemma {:induction false} GroupIsSelection<T, K>(nodes: seq<T>, keys: seq<K>, fk: K)
    requires |nodes| == |keys|
    ensures Selected(nodes, keys, fk)
    decreases |nodes|
  {
    PositionsIncrease(keys, fk);
    if nodes != [] {
      var n := |nodes| - 1;
      var before, ps := Positions(keys[..n], fk), Positions(keys, fk);
      var g, g' := Group(nodes[..n], keys[..n], fk), Group(nodes, keys, fk);
      GroupIsSelection(nodes[..n], keys[..n], fk);
      forall a | 0 <= a < |ps| ensures g'[a] == nodes[ps[a]] {
        if a < |before| { assert ps[a] == before[a] && g'[a] == g[a] && nodes[..n][before[a]] == nodes[before[a]]; }
      }
    }
  }

  /** Position k lies in the group of one of the ids, and of no other. */
  ghost predicate InOneGroup<K>(keys: seq<K>, ids: seq<K>, k: nat) {
    exists a :: 0 <= a < |ids| && k in Positions(keys, ids[a]) && forall b :: 0 <= b < |ids| && k in Positions(keys, ids[b]) ==> b == a
  }

  /** The groups of distinct requested keys partition the nodes: every node, by its position, lies in exactly one of
      them, exactly once, and the sizes add up. */
  lemma {:induction false} GroupsPartition<T, K>(nodes: seq<T>, keys: seq<K>, ids: seq<K>)
    requires |nodes| == |keys| && forall k :: 0 <= k < |keys| ==> keys[k] in ids
    requires forall i, j :: 0 <= i < j < |ids| ==> ids[i] != ids[j]
    ensures forall a :: 0 <= a < |ids| ==> Selected(nodes, keys, ids[a])
    ensures forall k: nat :: k < |nodes| ==> InOneGroup(keys, ids, k)
    ensures TotalSize(nodes, keys, ids) == |nodes|
  {
    SizesAddUp(nodes, keys, ids);
    forall a | 0 <= a < |ids| ensures Selected(nodes, keys, ids[a]) { GroupIsSelection(nodes, keys, ids[a]); }
    forall k: nat | k < |nodes| ensures InOneGroup(keys, ids, k) {
      var a :| 0 <= a < |ids| && ids[a] == keys[k];
      forall b | 0 <= b < |ids| ensures k in Positions(keys, ids[b]) <==> b == a { PositionsOf(keys, ids[b], k); }
    }
  }

  lemma {:induction false} NothingToGroup<T, K>(nodes: seq<T>, keys: seq<K>, ids: seq<K>)
    requires nodes == [] && keys == []
    ensures TotalSize(nodes, keys, ids) == 0
    decreases |ids|
  {
    if ids != [] { NothingToGroup(nodes, keys, ids[1..]); }
  }

  function FirstUnrequested(ns: seq<Neighbor>, ids: seq<int>): (k: nat)
    ensures k <= |ns| && (forall j :: 0 <= j < k ==> ns[j].id in ids) && (k < |ns| ==> ns[k].id !in ids)
  {
    if ns == [] || ns[0].id !in ids then 0 else
      var k := FirstUnrequested(ns[1..], ids);
      assert forall j :: 1 <= j < 1 + k ==> ns[j] == ns[1..][j - 1];
      1 + k
  }

  method AssignGroup(nodes: seq<ConsultationRequest>, edge: Edge, group: seq<ConsultationRequest>, n: Neighbor)
    requires forall x :: x in group <==> x in nodes && Fk(x.rec, edge) == n.id
    modifies nodes
    ensures forall x :: x in nodes ==> x.rec == old(x.rec) && OtherOf(x, edge) == old(OtherOf(x, edge))
    ensures forall x :: x in nodes ==> EdgeOf(x, edge) == if Fk(x.rec, edge) == n.id then Some(n) else old(EdgeOf(x, edge))
  {
    for i := 0 to |group|
      invariant forall x :: x in nodes ==> x.rec == old(x.rec) && OtherOf(x, edge) == old(OtherOf(x, edge))
      invariant forall x :: x in nodes ==> EdgeOf(x, edge) == if x in group[..i] then Some(n) else old(EdgeOf(x, edge))
    {
      var x := group[i];
      assert x in group;
      if edge.ValidationCaseEdge? { x.validationCase := Some(n); } else { x.validatorUser := Some(n); }
      assert group[..i + 1] == group[..i] + [x];
    }
    assert group[..|group|] == group;
  }

  /** The list of keys and the map of groups, kept in step. */
  ghost predicate Grouped<T>(nodes: seq<T>, keys: seq<int>, ids: seq<int>, nodeids: map<int, seq<T>>)
    requires |nodes| == |keys|
  {
    && ids == FirstSeen(keys)
    && (forall fk :: fk in nodeids <==> fk in ids)
    && (forall fk :: fk in nodeids ==> nodeids[fk] == Group(nodes, keys, fk))
  }

  lemma {:induction false} NoGroup<T>(nodes: seq<T>, keys: seq<int>, fk: int)
    requires |nodes| == |keys| && fk !in keys
    ensures Group(nodes, keys, fk) == []
  {
    if nodes != [] { NoGroup(nodes[..|nodes| - 1], keys[..|nodes| - 1], fk); }
  }

  lemma {:induction false} GroupedStep<T>(nodes: seq<T>, keys: seq<int>, i: nat, ids: seq<int>, nodeids: map<int, seq<T>>)
    requires |nodes| == |keys| && i < |nodes| && Grouped(nodes[..i], keys[..i], ids, nodeids)
    ensures
      var fk := keys[i];
      Grouped(nodes[..i + 1], keys[..i + 1],
              if fk in nodeids then ids else ids + [fk],
              nodeids[fk := (if fk in nodeids then nodeids[fk] else []) + [nodes[i]]])
  {
    var fk := keys[i];
    assert keys[..i + 1] == keys[..i] + [fk];
    FirstSeenStep(keys[..i], fk);
    var nodeids' := nodeids[fk := (if fk in nodeids then nodeids[fk] else []) + [nodes[i]]];
    forall g | g in nodeids' ensures nodeids'[g] == Group(nodes[..i + 1], keys[..i + 1], g) {
      GroupStep(nodes, keys, i, g);
      if g !in nodeids { NoGroup(nodes[..i], keys[..i], g); }
    }
  }

  method GroupByKey(nodes: seq<ConsultationRequest>, edge: Edge) returns (ids: seq<int>, nodeids: map<int, seq<ConsultationRequest>>)
    ensures Grouped(nodes, Fks(nodes, edge), ids, nodeids)
  {
    ghost var keys := Fks(nodes, edge);
    ids, nodeids := [], map[];
    for i := 0 to |nodes|
      invariant Grouped(nodes[..i], keys[..i], ids, nodeids)
    {
      var fk := Fk(nodes[i].rec, edge);
      GroupedStep(nodes, keys, i, ids, nodeids);
      if fk !in nodeids { ids := ids + [fk]; }
      nodeids := nodeids[fk := (if fk in nodeids then nodeids[fk] else []) + [nodes[i]]];
    }
    assert nodes[..|nodes|] == nodes && keys[..|nodes|] == keys;
  }

  /** Hands each neighbour to its group, up to the first one nobody asked for. */
  method AssignNeighbors(nodes: seq<ConsultationRequest>, edge: Edge, ids: seq<int>,
                         nodeids: map<int, seq<ConsultationRequest>>, ns: seq<Neighbor>) returns (ok: bool)
    requires forall fk :: fk in nodeids <==> fk in ids
    requires forall fk :: fk in nodeids ==> forall x :: x in nodeids[fk] <==> x in nodes && Fk(x.rec, edge) == fk
    modifies nodes
    ensures forall x :: x in nodes ==> x.rec == old(x.rec) && OtherOf(x, edge) == old(OtherOf(x, edge))
    ensures ok <==> FirstUnrequested(ns, ids) == |ns|
    ensures forall x :: x in nodes ==>
              EdgeOf(x, edge) == EdgeAfter(ns[..FirstUnrequested(ns, ids)], Fk(x.rec, edge), old(EdgeOf(x, edge)))
  {
    ghost var bad := FirstUnrequested(ns, ids);
    for j := 0 to |ns|
      invariant j <= bad
      invariant forall x :: x in nodes ==> x.rec == old(x.rec) && OtherOf(x, edge) == old(OtherOf(x, edge))
      invariant forall x :: x in nodes ==> EdgeOf(x, edge) == EdgeAfter(ns[..j], Fk(x.rec, edge), old(EdgeOf(x, edge)))
    {
      if ns[j].id !in nodeids {
        return false;
      }
      AssignGroup(nodes, edge, nodeids[ns[j].id], ns[j]);
      assert ns[..j + 1] == ns[..j] + [ns[j]];
      forall x | x in nodes ensures EdgeOf(x, edge) == EdgeAfter(ns[..j + 1], Fk(x.rec, edge), old(EdgeOf(x, edge))) {
        EdgeAfterStep(ns[..j], ns[j], Fk(x.rec, edge), old(EdgeOf(x, edge)));
      }
    }
    ok := true;
  }

  /** Batched loading: asks once for the distinct keys in first-seen order, and leaves on every node the neighbour
      with its key.  It fails exactly when the query does or returns an id nobody asked for. */
  method LoadManyToOne(nodes: seq<ConsultationRequest>, edge: Edge, fetch: Fetch<Neighbor>) returns (ok: bool, requested: seq<int>)
    modifies nodes
    ensures requested == FirstSeen(old(Fks(nodes, edge)))
    ensures forall x :: x in nodes ==> x.rec == old(x.rec) && OtherOf(x, edge) == old(OtherOf(x, edge))
    ensures ok <==> nodes == [] || (fetch(requested).Ok? && FirstUnrequested(fetch(requested).value, requested) == |fetch(requested).value|)
    ensures fetch(requested).Err? ==> forall x :: x in nodes ==> EdgeOf(x, edge) == old(EdgeOf(x, edge))
    ensures fetch(requested).Ok? ==>
              var ns := fetch(requested).value;
              forall x :: x in nodes ==>
                EdgeOf(x, edge) == EdgeAfter(ns[..FirstUnrequested(ns, requested)], Fk(x.rec, edge), old(EdgeOf(x, edge)))
  {
    var nodeids;
    requested, nodeids := GroupByKey(nodes, edge);
    if requested == [] {
      return true, requested;
    }
    var neighbors := fetch(requested);
    if neighbors.Err? { return false, requested; }
    forall fk | fk in nodeids ensures forall x :: x in nodeids[fk] <==> x in nodes && Fk(x.rec, edge) == fk {
      GroupMembers(nodes, Fks(nodes, edge), fk);
    }
    ok := AssignNeighbors(nodes, edge, requested, nodeids, neighbors.value);
  }

  /** The edges of x when the neighbours ns were handed out by validation case. */
  twostate predicate CaseLoaded(x: ConsultationRequest, ns: seq<Neighbor>)
    reads x
  {
    x.validationCase == EdgeAfter(ns, x.rec.validationCaseID, old(x.validationCase)) && x.validatorUser == old(x.validatorUser) && x.rec == old(x.rec)
  }

  twostate predicate UserLoaded(x: ConsultationRequest, ns: seq<Neighbor>)
    reads x
  {
    x.validatorUser == EdgeAfter(ns, x.rec.validatorUserID, old(x.validatorUser)) && x.validationCase == old(x.validationCase) && x.rec == old(x.rec)
  }

  /** loadValidationCase: asks for the validation_case_ids of the nodes and sets their validation cases, nothing else. */
  method LoadValidationCase(nodes: seq<ConsultationRequest>, fetch: Fetch<Neighbor>) returns (ok: bool, requested: seq<int>)
    modifies nodes
    ensures forall fk :: fk in requested <==> exists k :: 0 <= k < |nodes| && old(nodes[k].rec.validationCaseID) == fk
    ensures ok <==> nodes == [] || (fetch(requested).Ok? && FirstUnrequested(fetch(requested).value, requested) == |fetch(requested).value|)
    ensures fetch(requested).Ok? ==>
              var ns := fetch(requested).value;
              forall x :: x in nodes ==> CaseLoaded(x, ns[..FirstUnrequested(ns, requested)])
    ensures fetch(requested).Err? ==> forall x :: x in nodes ==> CaseLoaded(x, [])
  {
    ok, requested := LoadManyToOne(nodes, ValidationCaseEdge, fetch);
    ghost var keys := old(Fks(nodes, ValidationCaseEdge));
    assert forall fk :: fk in requested <==> fk in keys;
  }

  /** loadValidatorUser, likewise by validator_user_id. */
  method LoadValidatorUser(nodes: seq<ConsultationRequest>, fetch: Fetch<Neighbor>) returns (ok: bool, requested: seq<int>)
    modifies nodes
    ensures forall fk :: fk in requested <==> exists k :: 0 <= k < |nodes| && old(nodes[k].rec.validatorUserID) == fk
    ensures ok <==> nodes == [] || (fetch(requested).Ok? && FirstUnrequested(fetch(requested).value, requested) == |fetch(requested).value|)
    ensures fetch(requested).Ok? ==>
              var ns := fetch(requested).value;
              forall x :: x in nodes ==> UserLoaded(x, ns[..FirstUnrequested(ns, requested)])
    ensures fetch(requested).Err? ==> forall x :: x in nodes ==> UserLoaded(x, [])
  {
    ok, requested := LoadManyToOne(nodes, ValidatorUserEdge, fetch);
    ghost var keys := old(Fks(nodes, ValidatorUserEdge));
    assert forall fk :: fk in requested <==> fk in keys;
  }
}
