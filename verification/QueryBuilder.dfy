/**
 The query builder and Clone.  A builder is a tree of objects: its context, the backing arrays of its
 slices, and one child builder per eager-loaded edge.
 */
module QueryBuilder {
  import opened Outcomes

  /** A predicate or an order term; only its identity matters. */
  type Token = nat

  /** A Go slice: the first `len` elements of a backing array. */
  datatype Slice = Slice(arr: array<Token>, len: nat)

  class Context {
    var limit: Option<int>
    var offset: Option<int>
    var unique: Option<bool>

    constructor (limit: Option<int>, offset: Option<int>, unique: Option<bool>)
      ensures this.limit == limit && this.offset == offset && this.unique == unique
    {
      this.limit, this.offset, this.unique := limit, offset, unique;
    }
  }

  // ---------------------------------------------------------------- values

  datatype Tree = Nil | Node(limit: Option<int>, offset: Option<int>, unique: Option<bool>,
                             order: seq<Token>, predicates: seq<Token>, validationCase: Tree, validatorUser: Tree)

  const EMPTY := Node(None, None, None, [], [], Nil, Nil)

  datatype Edge = ValidationCaseEdge | ValidatorUserEdge

  /** A builder call; the options of With configure the new child. */
  datatype Op =
    | Where(ps: seq<Token>) | Limit(n: int) | Offset(n: int) | Unique(b: bool) | Order(os: seq<Token>)
    | With(edge: Edge, opts: seq<Op>)

  function Step(t: Tree, op: Op): (r: Tree)
    requires t.Node?
    ensures r.Node?
    decreases op, 1
  {
    match op
    case Where(ps) => t.(predicates := t.predicates + ps)
    case Limit(n) => t.(limit := Some(n))
    case Offset(n) => t.(offset := Some(n))
    case Unique(b) => t.(unique := Some(b))
    case Order(os) => t.(order := t.order + os)
    case With(e, opts) =>
      var child := StepAll(EMPTY, opts);
      if e.ValidationCaseEdge? then t.(validationCase := child) else t.(validatorUser := child)
  }

  function StepAll(t: Tree, ops: seq<Op>): (r: Tree)
    requires t.Node?
    ensures r.Node?
    decreases ops, 0
  {
    if ops == [] then t else Step(StepAll(t, ops[..|ops| - 1]), ops[|ops| - 1])
  }

  ghost predicate SameContext(t: Tree, r: Tree)
    requires t.Node? && r.Node?
  {
    t.limit == r.limit && t.offset == r.offset && t.unique == r.unique
  }

  ghost predicate SameLists(t: Tree, r: Tree)
    requires t.Node? && r.Node?
  {
    t.order == r.order && t.predicates == r.predicates
  }

  ghost predicate SameEdges(t: Tree, r: Tree)
    requires t.Node? && r.Node?
  {
    t.validationCase == r.validationCase && t.validatorUser == r.validatorUser
  }

  /** Call by call: the one part that changes, and that the others stay. */
  lemma {:induction false} StepMeans(t: Tree, op: Op)
    requires t.Node?
    ensures
      var r := Step(t, op);
      match op
      case Where(ps) => r.predicates == t.predicates + ps && r.order == t.order && SameContext(t, r) && SameEdges(t, r)
      case Order(os) => r.order == t.order + os && r.predicates == t.predicates && SameContext(t, r) && SameEdges(t, r)
      case Limit(n) => r.limit == Some(n) && r.offset == t.offset && r.unique == t.unique && SameLists(t, r) && SameEdges(t, r)
      case Offset(n) => r.offset == Some(n) && r.limit == t.limit && r.unique == t.unique && SameLists(t, r) && SameEdges(t, r)
      case Unique(b) => r.unique == Some(b) && r.limit == t.limit && r.offset == t.offset && SameLists(t, r) && SameEdges(t, r)
      case With(e, opts) =>
        var child := StepAll(Node(None, None, None, [], [], Nil, Nil), opts);
        && SameContext(t, r) && SameLists(t, r)
        && (e.ValidationCaseEdge? ==> r.validationCase == child && r.validatorUser == t.validatorUser)
        && (e.ValidatorUserEdge? ==> r.validatorUser == child && r.validationCase == t.validationCase)
  {}

  // ---------------------------------------------------------------- slices

  /** append: in place while the capacity lasts, otherwise into a new array. */
  method Append(s: Slice, xs: seq<Token>) returns (r: Slice)
    requires s.len <= s.arr.Length
    modifies s.arr
    ensures r.len == s.len + |xs| && r.len <= r.arr.Length && r.arr[..r.len] == old(s.arr[..s.len]) + xs
    ensures r.arr == s.arr || fresh(r.arr)
  {
    var n := s.len + |xs|;
    var arr := s.arr;
    if n > arr.Length {
      arr := new Token[2 * n](k requires 0 <= k reads s.arr => if k < s.len && k < s.arr.Length then s.arr[k] else 0);
    }
    forall k | 0 <= k < |xs| {
      arr[s.len + k] := xs[k];
    }
    r := Slice(arr, n);
  }

  method Copy(s: Slice) returns (r: Slice)
    requires s.len <= s.arr.Length
    ensures fresh(r.arr) && r.len == s.len == r.arr.Length && r.arr[..r.len] == s.arr[..s.len]
  {
    var arr := new Token[s.len](k requires 0 <= k < s.arr.Length reads s.arr => s.arr[k]);
    r := Slice(arr, s.len);
  }

  // ---------------------------------------------------------------- the builder

  class Query {
    ghost var Repr: set<object>
    /** The builder's value, tied to the real fields by Valid. */
    ghost var View: Tree
    var ctx: Context
    var order: Slice
    var predicates: Slice
    var validationCase: Query?
    var validatorUser: Query?

    ghost predicate Own()
      reads this
    {
      && {this, ctx, order.arr, predicates.arr} <= Repr && order.arr != predicates.arr
      && order.len <= order.arr.Length && predicates.len <= predicates.arr.Length
    }

    /** A child lives in its own part of the representation. */
    ghost predicate Holds(child: Query?)
      reads this, child
    {
      child != null ==> child in Repr && child.Repr < Repr && {this, ctx, order.arr, predicates.arr} !! child.Repr
    }

    ghost predicate Valid()
      reads this, Repr
      ensures Valid() ==> this in Repr && View.Node?
      decreases Repr
    {
      && Own()
      && (validationCase != null ==> validationCase in Repr)
      && (validatorUser != null ==> validatorUser in Repr)
      && Holds(validationCase) && Holds(validatorUser)
      && (validationCase != null && validatorUser != null ==> validationCase.Repr !! validatorUser.Repr)
      && (validationCase != null ==> validationCase.Valid())
      && (validatorUser != null ==> validatorUser.Valid())
      && View == Node(ctx.limit, ctx.offset, ctx.unique, order.arr[..order.len], predicates.arr[..predicates.len],
                      ViewOf(validationCase), ViewOf(validatorUser))
    }

    constructor ()
      ensures Valid() && fresh(Repr) && View == EMPTY
    {
      ctx := new Context(None, None, None);
      var a, b := new Token[0], new Token[0];
      order, predicates := Slice(a, 0), Slice(b, 0);
      validationCase, validatorUser := null, null;
      Repr := {this, ctx, a, b};
      View := EMPTY;
    }

    constructor From(ctx: Context, order: Slice, predicates: Slice, validationCase: Query?, validatorUser: Query?)
      requires order.arr != predicates.arr && order.len <= order.arr.Length && predicates.len <= predicates.arr.Length
      requires validationCase != null ==> validationCase.Valid() && {ctx, order.arr, predicates.arr} !! validationCase.Repr
      requires validatorUser != null ==> validatorUser.Valid() && {ctx, order.arr, predicates.arr} !! validatorUser.Repr
      requires validationCase != null && validatorUser != null ==> validationCase.Repr !! validatorUser.Repr
      ensures Valid()
      ensures fresh(Repr - {ctx, order.arr, predicates.arr} - ReprOf(validationCase) - ReprOf(validatorUser))
      ensures View == Node(ctx.limit, ctx.offset, ctx.unique, order.arr[..order.len], predicates.arr[..predicates.len],
                           ViewOf(validationCase), ViewOf(validatorUser))
    {
      this.ctx, this.order, this.predicates := ctx, order, predicates;
      this.validationCase, this.validatorUser := validationCase, validatorUser;
      Repr := {this, ctx, order.arr, predicates.arr} + ReprOf(validationCase) + ReprOf(validatorUser);
      View := Node(ctx.limit, ctx.offset, ctx.unique, order.arr[..order.len], predicates.arr[..predicates.len],
                   ViewOf(validationCase), ViewOf(validatorUser));
    }

    method Where(ps: seq<Token>)
      requires Valid()
      modifies Repr
      ensures Valid() && fresh(Repr - old(Repr)) && View == old(View).(predicates := old(View).predicates + ps)
    {
      predicates := Append(predicates, ps);
      Repr := Repr + {predicates.arr};
      View := View.(predicates := View.predicates + ps);
    }

    method Order(os: seq<Token>)
      requires Valid()
      modifies Repr
      ensures Valid() && fresh(Repr - old(Repr)) && View == old(View).(order := old(View).order + os)
    {
      order := Append(order, os);
      Repr := Repr + {order.arr};
      View := View.(order := View.order + os);
    }

    method Limit(n: int)
      requires Valid()
      modifies Repr
      ensures Valid() && Repr == old(Repr) && View == old(View).(limit := Some(n))
    {
      ctx.limit := Some(n);
      View := View.(limit := Some(n));
    }

    method Offset(n: int)
      requires Valid()
      modifies Repr
      ensures Valid() && Repr == old(Repr) && View == old(View).(offset := Some(n))
    {
      ctx.offset := Some(n);
      View := View.(offset := Some(n));
    }

    method Unique(b: bool)
      requires Valid()
      modifies Repr
      ensures Valid() && Repr == old(Repr) && View == old(View).(unique := Some(b))
    {
      ctx.unique := Some(b);
      View := View.(unique := Some(b));
    }

    /** The end of WithValidationCase: the configured child replaces the previous one. */
    method SetValidationCase(child: Query)
      requires Valid() && child.Valid() && child.Repr !! Repr
      modifies Repr
      ensures Valid() && Repr == old(Repr) + child.Repr && View == old(View).(validationCase := child.View)
    {
      validationCase := child;
      Repr := Repr + child.Repr;
      View := View.(validationCase := child.View);
    }

    method SetValidatorUser(child: Query)
      requires Valid() && child.Valid() && child.Repr !! Repr
      modifies Repr
      ensures Valid() && Repr == old(Repr) + child.Repr && View == old(View).(validatorUser := child.View)
    {
      validatorUser := child;
      Repr := Repr + child.Repr;
      View := View.(validatorUser := child.View);
    }

    /** A builder with copies of this one's own parts and the given children. */
    method CopyWith(left: Query?, right: Query?) returns (c: Query)
      requires Own()
      requires left != null ==> left.Valid()
      requires right != null ==> right.Valid()
      requires left != null && right != null ==> left.Repr !! right.Repr
      ensures c.Valid() && fresh(c.Repr - ReprOf(left) - ReprOf(right))
      ensures c.View == Node(ctx.limit, ctx.offset, ctx.unique, order.arr[..order.len], predicates.arr[..predicates.len],
                             ViewOf(left), ViewOf(right))
    {
      var x := new Context(ctx.limit, ctx.offset, ctx.unique);
      var o := Copy(order);
      var p := Copy(predicates);
      c := new Query.From(x, o, p, left, right);
    }

    method CloneChildren() returns (left: Query?, right: Query?)
      requires Valid()
      ensures left != null ==> left.Valid() && fresh(left.Repr)
      ensures right != null ==> right.Valid() && fresh(right.Repr)
      ensures left != null && right != null ==> left.Repr !! right.Repr
      ensures ViewOf(left) == View.validationCase && ViewOf(right) == View.validatorUser
      decreases Repr, 0
    {
      left := CloneChild(validationCase);
      right := CloneChild(validatorUser);
    }

    /** Clone: a new context, new backing arrays, and clones of the children. */
    method Clone() returns (c: Query)
      requires Valid()
      ensures c.Valid() && fresh(c.Repr) && c.View == View
      decreases Repr, 1
    {
      var left, right := CloneChildren();
      c := CopyWith(left, right);
    }
  }

  method CloneChild(q: Query?) returns (c: Query?)
    requires q != null ==> q.Valid()
    ensures c == null <==> q == null
    ensures c != null ==> c.Valid() && fresh(c.Repr) && c.View == q.View
    decreases ReprOf(q), 2
  {
    c := null;
    if q != null { c := q.Clone(); }
  }

  ghost function ReprOf(q: Query?): set<object>
    reads q
  {
    if q == null then {} else q.Repr
  }

  ghost function ViewOf(q: Query?): Tree
    reads q
  {
    if q == null then Nil else q.View
  }

  // ---------------------------------------------------------------- any sequence of calls

  method Do(q: Query, op: Op)
    requires q.Valid()
    modifies q.Repr
    ensures q.Valid() && fresh(q.Repr - old(q.Repr)) && q.View == Step(old(q.View), op)
    decreases op, 1
  {
    match op
    case Where(ps) => q.Where(ps);
    case Limit(n) => q.Limit(n);
    case Offset(n) => q.Offset(n);
    case Unique(b) => q.Unique(b);
    case Order(os) => q.Order(os);
    case With(e, opts) =>
      var child := new Query();
      DoAll(child, opts);
      if e.ValidationCaseEdge? { q.SetValidationCase(child); } else { q.SetValidatorUser(child); }
  }

  method DoAll(q: Query, ops: seq<Op>)
    requires q.Valid()
    modifies q.Repr
    ensures q.Valid() && fresh(q.Repr - old(q.Repr)) && q.View == StepAll(old(q.View), ops)
    decreases ops, 0
  {
    var i := 0;
    while i < |ops|
      invariant i <= |ops|
      invariant q.Valid() && fresh(q.Repr - old(q.Repr)) && q.View == StepAll(old(q.View), ops[..i])
    {
      assert ops[..i + 1][..i] == ops[..i];
      Do(q, ops[i]);
      i := i + 1;
    }
    assert ops[..|ops|] == ops;
  }

  /** One call of an interleaving: on the original or on the copy. */
  datatype Call = Call(onCopy: bool, op: Op)

  function CallsOn(calls: seq<Call>, copy: bool): seq<Op> {
    if calls == [] then [] else
      var last := calls[|calls| - 1];
      CallsOn(calls[..|calls| - 1], copy) + if last.onCopy == copy then [last.op] else []
  }

  lemma {:induction false} CallsStep(t: Tree, calls: seq<Call>, i: nat, copy: bool)
    requires t.Node? && i < |calls|
    ensures
      var before := StepAll(t, CallsOn(calls[..i], copy));
      StepAll(t, CallsOn(calls[..i + 1], copy)) == if calls[i].onCopy == copy then Step(before, calls[i].op) else before
  {
    var ops := CallsOn(calls[..i], copy);
    assert calls[..i + 1][..i] == calls[..i];
    assert (ops + [calls[i].op])[..|ops|] == ops;
    assert ops + [] == ops;
  }

  /** A call on one of two separate builders does not reach the other. */
  method DoCall(q: Query, c: Query, call: Call)
    requires q.Valid() && c.Valid() && q.Repr !! c.Repr
    modifies q.Repr, c.Repr
    ensures q.Valid() && c.Valid() && q.Repr !! c.Repr
    ensures fresh(q.Repr - old(q.Repr)) && fresh(c.Repr - old(c.Repr))
    ensures q.View == if call.onCopy then old(q.View) else Step(old(q.View), call.op)
    ensures c.View == if call.onCopy then Step(old(c.View), call.op) else old(c.View)
  {
    if call.onCopy { Do(c, call.op); } else { Do(q, call.op); }
  }

  method Interleave(q: Query, c: Query, calls: seq<Call>)
    requires q.Valid() && c.Valid() && q.Repr !! c.Repr
    modifies q.Repr, c.Repr
    ensures q.Valid() && c.Valid() && q.Repr !! c.Repr
    ensures q.View == StepAll(old(q.View), CallsOn(calls, false))
    ensures c.View == StepAll(old(c.View), CallsOn(calls, true))
  {
    ghost var t, u := q.View, c.View;
    var i := 0;
    while i < |calls|
      invariant i <= |calls|
      invariant q.Valid() && c.Valid() && q.Repr !! c.Repr
      invariant fresh(q.Repr - old(q.Repr)) && fresh(c.Repr - old(c.Repr))
      invariant q.View == StepAll(t, CallsOn(calls[..i], false)) && c.View == StepAll(u, CallsOn(calls[..i], true))
    {
      CallsStep(t, calls, i, false);
      CallsStep(u, calls, i, true);
      DoCall(q, c, calls[i]);
      i := i + 1;
    }
    assert calls[..|calls|] == calls;
  }

  /** Clone isolation: after Clone, any interleaving of builder calls on original and copy leaves each
      exactly as if its own calls had run alone. */
  method CloneThenInterleave(q: Query, calls: seq<Call>) returns (c: Query)
    requires q.Valid()
    modifies q.Repr
    ensures q.Valid() && c.Valid() && q.Repr !! c.Repr
    ensures q.View == StepAll(old(q.View), CallsOn(calls, false))
    ensures c.View == StepAll(old(q.View), CallsOn(calls, true))
  {
    c := q.Clone();
    Interleave(q, c, calls);
  }
}
