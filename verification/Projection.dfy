/** querySpec and sqlAll: selecting fewer columns never changes ids or loaded edges. */
module Projection {
  import opened Outcomes
  import opened Entity
  import opened EagerLoad

  /** AddColumnOnce. */
  function AddOnce(cols: seq<Field>, f: Field): seq<Field> {
    if f in cols then cols else cols + [f]
  }

  method QueryColumns(fields: seq<Field>, withCase: bool, withUser: bool) returns (cols: seq<Field>)
    ensures fields == [] ==> cols == COLUMNS
    ensures fields != [] ==> cols != [] && cols[0] == ID
    ensures fields != [] ==> forall f :: f in cols <==>
              f == ID || f in fields || (withCase && f == ValidationCaseID) || (withUser && f == ValidatorUserID)
  {
    cols := COLUMNS;
    if |fields| > 0 {
      cols := [ID];
      for i := 0 to |fields|
        invariant cols != [] && cols[0] == ID
        invariant forall f :: f in cols <==> f == ID || f in fields[..i]
      {
        assert fields[..i + 1] == fields[..i] + [fields[i]];
        if fields[i] != ID { cols := cols + [fields[i]]; }
      }
      assert fields[..|fields|] == fields;
      if withCase { cols := AddOnce(cols, ValidationCaseID); }
      if withUser { cols := AddOnce(cols, ValidatorUserID); }
    }
  }

  /** The columns carry what ids and the wanted edges need. */
  predicate Sufficient(cols: seq<Field>, withCase: bool, withUser: bool) {
    ID in cols && (withCase ==> ValidationCaseID in cols) && (withUser ==> ValidatorUserID in cols)
  }

  function RowKeys(rows: seq<Row>, cols: seq<Field>, e: Edge): (r: seq<int>)
    ensures |r| == |rows| && forall k :: 0 <= k < |rows| ==> r[k] == Fk(ReadNode(rows[k], cols), e)
  {
    seq(|rows|, k requires 0 <= k < |rows| => Fk(ReadNode(rows[k], cols), e))
  }

  /** One row: id and wanted keys are read alike under any two sufficient column lists. */
  lemma {:induction false} ProjectionKeepsKeys(row: Row, cols: seq<Field>, cols': seq<Field>, withCase: bool, withUser: bool)
    requires Sufficient(cols, withCase, withUser) && Sufficient(cols', withCase, withUser)
    ensures ReadNode(row, cols).id == ReadNode(row, cols').id
    ensures withCase ==> Fk(ReadNode(row, cols), ValidationCaseEdge) == Fk(ReadNode(row, cols'), ValidationCaseEdge)
    ensures withUser ==> Fk(ReadNode(row, cols), ValidatorUserEdge) == Fk(ReadNode(row, cols'), ValidatorUserEdge)
  {
    NodeShowsRow(row, cols, ID);
    NodeShowsRow(row, cols', ID);
    NodeShowsRow(row, cols, ValidationCaseID);
    NodeShowsRow(row, cols', ValidationCaseID);
    NodeShowsRow(row, cols, ValidatorUserID);
    NodeShowsRow(row, cols', ValidatorUserID);
  }

  /** Whole queries: for any field selection the same keys are requested, in the same order, as with all columns,
      so whatever the database answers, ids and edges come out the same. */
  lemma {:induction false} ProjectionKeepsEdges(rows: seq<Row>, cols: seq<Field>, withCase: bool, withUser: bool, e: Edge)
    requires Sufficient(cols, withCase, withUser)
    requires if e.ValidationCaseEdge? then withCase else withUser
    ensures RowKeys(rows, cols, e) == RowKeys(rows, COLUMNS, e)
    ensures FirstSeen(RowKeys(rows, cols, e)) == FirstSeen(RowKeys(rows, COLUMNS, e))
    ensures forall k :: 0 <= k < |rows| ==> ReadNode(rows[k], cols).id == ReadNode(rows[k], COLUMNS).id
  {
    EveryFieldIsAColumn(ID);
    EveryFieldIsAColumn(ValidationCaseID);
    EveryFieldIsAColumn(ValidatorUserID);
    forall k | 0 <= k < |rows|
      ensures RowKeys(rows, cols, e)[k] == RowKeys(rows, COLUMNS, e)[k] && ReadNode(rows[k], cols).id == ReadNode(rows[k], COLUMNS).id
    {
      ProjectionKeepsKeys(rows[k], cols, COLUMNS, withCase, withUser);
    }
  }

  /** The edge a query promises for a row, computed from the full row: independent of the field selection. */
  function PromisedEdge(rows: seq<Row>, k: nat, e: Edge, wanted: bool, fetch: Fetch<Neighbor>): Option<Neighbor>
    requires k < |rows|
  {
    var keys := RowKeys(rows, COLUMNS, e);
    var answer := fetch(FirstSeen(keys));
    if wanted && answer.Ok? then EdgeAfter(answer.value, keys[k], None) else None
  }

  /** The edge query succeeds and returns nothing that was not asked for. */
  predicate Answers(rows: seq<Row>, e: Edge, fetch: Fetch<Neighbor>) {
    var requested := FirstSeen(RowKeys(rows, COLUMNS, e));
    fetch(requested).Ok? && FirstUnrequested(fetch(requested).value, requested) == |fetch(requested).value|
  }

  method ReadNodes(rows: seq<Row>, cols: seq<Field>) returns (nodes: seq<ConsultationRequest>)
    ensures |nodes| == |rows| && fresh(set n | n in nodes)
    ensures forall k :: 0 <= k < |rows| ==> nodes[k].rec == ReadNode(rows[k], cols)
    ensures forall k :: 0 <= k < |rows| ==> nodes[k].validationCase == None && nodes[k].validatorUser == None
  {
    nodes := [];
    for i := 0 to |rows|
      invariant |nodes| == i && fresh(set n | n in nodes)
      invariant forall k :: 0 <= k < i ==> nodes[k].rec == ReadNode(rows[k], cols)
      invariant forall k :: 0 <= k < i ==> nodes[k].validationCase == None && nodes[k].validatorUser == None
    {
      var node := new ConsultationRequest();
      var values := ScanRow(rows[i], cols);
      ShapedValuesAlwaysAssign(ZERO, cols, values);
      var _ := node.AssignValues(cols, values);
      nodes := nodes + [node];
    }
  }

  /** The first half of a query: rows read with the selected columns. */
  method ReadSelected(rows: seq<Row>, fields: seq<Field>, withCase: bool, withUser: bool)
    returns (nodes: seq<ConsultationRequest>, ghost cols: seq<Field>)
    ensures Sufficient(cols, withCase, withUser)
    ensures |nodes| == |rows| && fresh(set n | n in nodes)
    ensures forall k :: 0 <= k < |rows| ==> nodes[k].rec == ReadNode(rows[k], cols)
    ensures forall k :: 0 <= k < |rows| ==> nodes[k].validationCase == None && nodes[k].validatorUser == None
    ensures forall k :: 0 <= k < |rows| ==> nodes[k].rec.id == ReadNode(rows[k], COLUMNS).id
  {
    var columns := QueryColumns(fields, withCase, withUser);
    cols := columns;
    EveryFieldIsAColumn(ID);
    EveryFieldIsAColumn(ValidationCaseID);
    EveryFieldIsAColumn(ValidatorUserID);
    nodes := ReadNodes(rows, columns);
    forall k | 0 <= k < |rows| ensures nodes[k].rec.id == ReadNode(rows[k], COLUMNS).id {
      ProjectionKeepsKeys(rows[k], columns, COLUMNS, false, false);
    }
  }

  /** A whole query with any field selection: ids and edges are those of the full rows. */
  method SqlAll(rows: seq<Row>, fields: seq<Field>, withCase: bool, withUser: bool,
                fetchCases: Fetch<Neighbor>, fetchUsers: Fetch<Neighbor>) returns (ok: bool, nodes: seq<ConsultationRequest>)
    ensures ok <==> rows == [] || ((withCase ==> Answers(rows, ValidationCaseEdge, fetchCases)) && (withUser ==> Answers(rows, ValidatorUserEdge, fetchUsers)))
    ensures ok ==> |nodes| == |rows|
    ensures ok ==> forall k :: 0 <= k < |rows| ==>
              && nodes[k].rec.id == ReadNode(rows[k], COLUMNS).id
              && nodes[k].validationCase == PromisedEdge(rows, k, ValidationCaseEdge, withCase, fetchCases)
              && nodes[k].validatorUser == PromisedEdge(rows, k, ValidatorUserEdge, withUser, fetchUsers)
  {
    ghost var cols;
    nodes, cols := ReadSelected(rows, fields, withCase, withUser);
    ok := true;
    if |nodes| == 0 { return; }
    assert forall k :: 0 <= k < |rows| ==> nodes[k] in nodes;
    if withCase {
      ok := LoadPromised(rows, cols, nodes, ValidationCaseEdge, withCase, withUser, fetchCases);
      if !ok { return; }
    }
    if withUser {
      ok := LoadPromised(rows, cols, nodes, ValidatorUserEdge, withCase, withUser, fetchUsers);
    }
  }

  method LoadPromised(rows: seq<Row>, ghost cols: seq<Field>, nodes: seq<ConsultationRequest>, e: Edge,
                      ghost withCase: bool, ghost withUser: bool, fetch: Fetch<Neighbor>) returns (ok: bool)
    requires |nodes| == |rows| > 0 && Sufficient(cols, withCase, withUser) && (if e.ValidationCaseEdge? then withCase else withUser)
    requires forall k :: 0 <= k < |rows| ==> nodes[k].rec == ReadNode(rows[k], cols) && EdgeOf(nodes[k], e) == None
    modifies nodes
    ensures forall x :: x in nodes ==> x.rec == old(x.rec) && OtherOf(x, e) == old(OtherOf(x, e))
    ensures ok <==> Answers(rows, e, fetch)
    ensures ok ==> forall k :: 0 <= k < |rows| ==> EdgeOf(nodes[k], e) == PromisedEdge(rows, k, e, true, fetch)
  {
    assert Fks(nodes, e) == RowKeys(rows, cols, e);
    ProjectionKeepsEdges(rows, cols, withCase, withUser, e);
    var requested;
    ok, requested := LoadManyToOne(nodes, e, fetch);
    if ok {
      var ns := fetch(requested).value;
      assert ns[..|ns|] == ns;
      forall k | 0 <= k < |rows| ensures EdgeOf(nodes[k], e) == PromisedEdge(rows, k, e, true, fetch) {
        assert nodes[k] in nodes;
        assert RowKeys(rows, COLUMNS, e)[k] == Fk(nodes[k].rec, e);
      }
    }
  }
}
