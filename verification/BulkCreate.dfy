/**
 ConsultationRequestCreateBulk.Save.  The code nests: each builder's mutator, wrapped in its hooks, calls the
 next builder's mutator, and the innermost one inserts.  The reference is flat: prepare every builder in
 order, then insert once.
 */
module BulkCreate {
  import opened Outcomes
  import opened Entity

  /** What a hook does with the mutation it is given: refuse it, edit it in place and call next,
      or call next with another mutation object.  Its result is then next's result. */
  datatype Verdict = Reject(reason: string) | Edit(m: Mutation) | Swap(m: Mutation)

  type Hook = Mutation -> Verdict

  datatype Error =
    | Preset(reason: string)                              // bulk.err
    | HookRejected(builder: nat, hook: nat, reason: string)
    | CheckFailed(builder: nat, field: Field)
    | InsertFailed(reason: string)

  datatype Builder = Builder(mutation: Mutation, hooks: seq<Hook>)

  // ---------------------------------------------------------------- the flat reference

  /** How far one builder gets: the hooks entered, and the mutation to insert or the error. */
  datatype Prepared = Prepared(entered: nat, result: Result<Mutation, Error>)

  /** Hooks from h on, then check.  `own` is the builder's mutation object, `given` the one being passed on;
      while `same` holds they are one object. */
  function Prepare(i: nat, hooks: seq<Hook>, h: nat, own: Mutation, given: Mutation, same: bool): (p: Prepared)
    requires h <= |hooks|
    ensures h <= p.entered <= |hooks|
    decreases |hooks| - h
  {
    if h == |hooks| then
      var e := CheckError(own);
      Prepared(h, if e.Some? then Err(CheckFailed(i, e.value)) else Ok(given))
    else
      match hooks[h](given)
      case Reject(reason) => Prepared(h + 1, Err(HookRejected(i, h, reason)))
      case Edit(m) => Prepare(i, hooks, h + 1, if same then m else own, m, same)
      case Swap(m) => Prepare(i, hooks, h + 1, own, m, false)
  }

  function PrepareBuilder(bs: seq<Builder>, i: nat): Prepared
    requires i < |bs|
  {
    Prepare(i, bs[i].hooks, 0, bs[i].mutation, bs[i].mutation, true)
  }

  datatype Batch = Batch(entered: seq<(nat, nat)>, result: Result<seq<Mutation>, Error>)

  function Entered(i: nat, from: nat, to: nat): (r: seq<(nat, nat)>)
    requires from <= to
    ensures |r| == to - from && forall k :: 0 <= k < |r| ==> r[k] == (i, from + k)
  {
    seq(to - from, k requires 0 <= k < to - from => (i, from + k))
  }

  function Chain(i: nat, h: nat, p: Prepared, rest: Batch): Batch
    requires h <= p.entered
  {
    if p.result.Err? then Batch(Entered(i, h, p.entered), Err(p.result.error))
    else Batch(Entered(i, h, p.entered) + rest.entered,
               if rest.result.Err? then Err(rest.result.error) else Ok([p.result.value] + rest.result.value))
  }

  /** Builders from i on, one after the other, up to the first failure. */
  function PrepareAll(bs: seq<Builder>, i: nat): (b: Batch)
    requires i <= |bs|
    ensures b.result.Ok? ==> |b.result.value| == |bs| - i
    decreases |bs| - i
  {
    if i == |bs| then Batch([], Ok([]))
    else Chain(i, 0, PrepareBuilder(bs, i), PrepareAll(bs, i + 1))
  }

  /** The error returned belongs to the least builder that fails, and every builder before it passed. */
  lemma {:induction false} FirstFailureIsReported(bs: seq<Builder>, i: nat) returns (k: nat)
    requires i <= |bs|
    ensures i <= k <= |bs| && forall j :: i <= j < k ==> PrepareBuilder(bs, j).result.Ok?
    ensures k < |bs| ==> PrepareBuilder(bs, k).result.Err? && PrepareAll(bs, i).result == Err(PrepareBuilder(bs, k).result.error)
    ensures k == |bs| ==> PrepareAll(bs, i).result.Ok?
    ensures k == |bs| ==> forall j :: i <= j < |bs| ==> PrepareAll(bs, i).result.value[j - i] == PrepareBuilder(bs, j).result.value
    decreases |bs| - i
  {
    if i == |bs| || PrepareBuilder(bs, i).result.Err? {
      k := i;
    } else {
      k := FirstFailureIsReported(bs, i + 1);
    }
  }

  // ---------------------------------------------------------------- the code

  datatype Event = Enter(builder: nat, hook: nat) | Exit(builder: nat, hook: nat) | Insert

  function Enters(es: seq<(nat, nat)>): (r: seq<Event>)
    ensures |r| == |es| && forall k :: 0 <= k < |es| ==> r[k] == Enter(es[k].0, es[k].1)
  {
    seq(|es|, k requires 0 <= k < |es| => Enter(es[k].0, es[k].1))
  }

  function Exits(es: seq<(nat, nat)>): (r: seq<Event>)
    ensures |r| == |es| && forall k :: 0 <= k < |es| ==> r[k] == Exit(es[|es| - 1 - k].0, es[|es| - 1 - k].1)
  {
    seq(|es|, k requires 0 <= k < |es| => Exit(es[|es| - 1 - k].0, es[|es| - 1 - k].1))
  }

  /** Entered hooks leave in reverse order, around the insert if there is one. */
  function Onion(b: Batch): seq<Event> {
    Enters(b.entered) + (if b.result.Ok? then [Insert] else []) + Exits(b.entered)
  }

  function Specs(ms: seq<Mutation>): (r: seq<Spec>)
    ensures |r| == |ms| && forall k :: 0 <= k < |ms| ==> r[k] == SpecOf(ms[k])
  {
    seq(|ms|, k requires 0 <= k < |ms| => SpecOf(ms[k]))
  }


  lemma {:induction false} PreparationLooksAhead(bs: seq<Builder>, bs': seq<Builder>, i: nat)
    requires |bs| == |bs'| && i <= |bs| && forall j :: i <= j < |bs| ==> bs[j] == bs'[j]
    ensures PrepareAll(bs, i) == PrepareAll(bs', i)
    decreases |bs| - i
  {
    if i < |bs| { PreparationLooksAhead(bs, bs', i + 1); }
  }

  lemma {:induction false} OnionWraps(i: nat, h: nat, inner: Batch)
    ensures [Enter(i, h)] + Onion(inner) + [Exit(i, h)] == Onion(Batch([(i, h)] + inner.entered, inner.result))
  {}

  lemma {:induction false} EnteredSplits(i: nat, h: nat, p: Prepared, rest: Batch)
    requires h + 1 <= p.entered
    ensures
      var inner := Chain(i, h + 1, p, rest);
      Chain(i, h, p, rest) == Batch([(i, h)] + inner.entered, inner.result)
  {
    assert Entered(i, h, p.entered) == [(i, h)] + Entered(i, h + 1, p.entered);
    assert Entered(i, h, p.entered) + rest.entered == [(i, h)] + (Entered(i, h + 1, p.entered) + rest.entered);
  }

  /** BatchCreate inserts all rows or none; on success it reports the new ids. */
  type Driver = seq<Spec> -> Result<seq<Option<int>>, string>

  function IdAt(ids: seq<Option<int>>, k: nat): int {
    if k < |ids| && ids[k].Some? then ids[k].value else 0
  }

  /** Everything Save works on.  `done` holds the id a finished mutation points to. */
  datatype State = State(builders: seq<Builder>, nodes: seq<Record>, specs: seq<Spec>, ids: seq<Option<int>>, done: seq<Option<int>>,
                         trace: seq<Event>, batches: seq<seq<Spec>>)
  {
    ghost predicate Sized() {
      |nodes| == |specs| == |done| == |builders|
    }
  }

  /** Builder k has been inserted: its mutation, its node and its id agree. */
  ghost predicate Finished(s: State, k: nat, m: Mutation, id: int)
    requires s.Sized() && k < |s.builders|
  {
    s.builders[k].mutation == m && s.nodes[k] == NodeOf(m).(id := id) && s.done[k] == Some(s.nodes[k].id)
  }

  /** Earlier builders are untouched. */
  ghost predicate EarlierKept(s: State, s': State, i: nat)
    requires s.Sized() && i <= |s.builders|
  {
    && s'.Sized() && |s'.builders| == |s.builders|
    && forall k :: 0 <= k < i ==>
      s'.builders[k] == s.builders[k] && s'.nodes[k] == s.nodes[k] && s'.specs[k] == s.specs[k] && s'.done[k] == s.done[k]
  }

  /** No insert and the error reported, or one insert of all specs and its outcome. */
  ghost predicate Concluded(driver: Driver, s: State, s': State, i: nat, result: Result<seq<Mutation>, Error>, r: Result<(), Error>)
    requires s.Sized() && i <= |s.builders| && s'.Sized() && |s'.builders| == |s.builders|
  {
    && (result.Err? ==> r == Err(result.error) && s'.batches == s.batches && s'.done == s.done)
    && (result.Ok? ==>
          var all := s.specs[..i] + Specs(result.value);
          && s'.batches == s.batches + [all]
          && (driver(all).Err? ==> r == Err(InsertFailed(driver(all).error)) && s'.done == s.done)
          && (driver(all).Ok? ==>
                && r.Ok? && |result.value| == |s.builders| - i && s'.ids == driver(all).value
                && forall k :: i <= k < |s.builders| ==> Finished(s', k, result.value[k - i], IdAt(driver(all).value, k))))
  }

  /** The effect of running the chain from builder i on, given what the flat reference says about it. */
  ghost predicate Effect(driver: Driver, s: State, s': State, i: nat, b: Batch, r: Result<(), Error>)
    requires s.Sized() && i <= |s.builders|
  {
    EarlierKept(s, s', i) && s'.trace == s.trace + Onion(b) && Concluded(driver, s, s', i, b.result, r)
  }

  lemma {:induction false} ConcludedIgnoresTrace(driver: Driver, s: State, s1: State, s2: State, s': State, i: nat, result: Result<seq<Mutation>, Error>, r: Result<(), Error>)
    requires s.Sized() && s1.Sized() && s2.Sized() && i <= |s.builders| == |s1.builders| == |s2.builders|
    requires s1.specs == s.specs && s1.done == s.done && s1.batches == s.batches && s' == s2.(trace := s'.trace)
    requires Concluded(driver, s1, s2, i, result, r)
    ensures s'.Sized() && Concluded(driver, s, s', i, result, r)
  {
    if result.Ok? {
      var all := s.specs[..i] + Specs(result.value);
      if driver(all).Ok? {
        forall k | i <= k < |s.builders| ensures Finished(s', k, result.value[k - i], IdAt(driver(all).value, k)) {
          assert Finished(s2, k, result.value[k - i], IdAt(driver(all).value, k));
        }
      }
    }
  }

  lemma {:induction false} Regroup(before: seq<Event>, a: Event, mid: seq<Event>, b: Event)
    ensures before + [a] + mid + [b] == before + ([a] + mid + [b])
  {}

  lemma {:induction false} TraceWraps(before: seq<Event>, inside: seq<Event>, i: nat, h: nat, p: Prepared, rest: Batch)
    requires h + 1 <= p.entered && inside == before + [Enter(i, h)] + Onion(Chain(i, h + 1, p, rest))
    ensures inside + [Exit(i, h)] == before + Onion(Chain(i, h, p, rest))
    ensures Chain(i, h, p, rest).result == Chain(i, h + 1, p, rest).result
  {
    var inner := Chain(i, h + 1, p, rest);
    EnteredSplits(i, h, p, rest);
    OnionWraps(i, h, inner);
    Regroup(before, Enter(i, h), Onion(inner), Exit(i, h));
  }

  /** One hook around an inner run: b is the reference for the inside, b' for the whole. */
  lemma {:induction false} HookWraps(driver: Driver, s: State, s1: State, s2: State, s': State, i: nat, b: Batch, b': Batch, r: Result<(), Error>)
    requires s.Sized() && i < |s.builders|
    requires |s1.builders| == |s.builders| && (forall k :: 0 <= k < |s.builders| && k != i ==> s1.builders[k] == s.builders[k])
    requires s1.nodes == s.nodes && s1.specs == s.specs && s1.done == s.done && s1.batches == s.batches
    requires Effect(driver, s1, s2, i, b, r)
    requires b'.result == b.result && s' == s2.(trace := s.trace + Onion(b'))
    ensures Effect(driver, s, s', i, b', r)
  {
    ConcludedIgnoresTrace(driver, s, s1, s2, s', i, b.result, r);
  }

  lemma {:induction false} PrepareStep(i: nat, hooks: seq<Hook>, h: nat, own: Mutation, given: Mutation, same: bool)
    requires h < |hooks|
    ensures
      var p, v := Prepare(i, hooks, h, own, given, same), hooks[h](given);
      if v.Reject? then p == Prepared(h + 1, Err(HookRejected(i, h, v.reason)))
      else
        var together := same && v.Edit?;
        p == Prepare(i, hooks, h + 1, if together then v.m else own, v.m, together) && h + 1 <= p.entered
  {}

  /** The trace and the effect once hook h has left again. */
  lemma {:induction false} HookLeaves(driver: Driver, s: State, s1: State, s2: State, s': State, i: nat, h: nat, p: Prepared, rest: Batch, r: Result<(), Error>)
    requires s.Sized() && i < |s.builders| && h + 1 <= p.entered
    requires |s1.builders| == |s.builders| && (forall k :: 0 <= k < |s.builders| && k != i ==> s1.builders[k] == s.builders[k])
    requires s1.nodes == s.nodes && s1.specs == s.specs && s1.done == s.done && s1.batches == s.batches && s1.trace == s.trace + [Enter(i, h)]
    requires Effect(driver, s1, s2, i, Chain(i, h + 1, p, rest), r) && s' == s2.(trace := s2.trace + [Exit(i, h)])
    ensures Effect(driver, s, s', i, Chain(i, h, p, rest), r)
  {
    TraceWraps(s.trace, s2.trace, i, h, p, rest);
    HookWraps(driver, s, s1, s2, s', i, Chain(i, h + 1, p, rest), Chain(i, h, p, rest), r);
  }

  lemma {:induction false} HookRefuses(driver: Driver, s: State, i: nat, h: nat, p: Prepared, rest: Batch)
    requires s.Sized() && i < |s.builders| && p.entered == h + 1 && p.result.Err?
    ensures Effect(driver, s, s.(trace := s.trace + [Enter(i, h)] + [Exit(i, h)]), i, Chain(i, h, p, rest), Err(p.result.error))
  {
    var b := Chain(i, h, p, rest);
    assert b.entered == [(i, h)];
    assert Onion(b) == [Enter(i, h)] + [Exit(i, h)];
    assert s.trace + [Enter(i, h)] + [Exit(i, h)] == s.trace + Onion(b);
  }

  lemma {:induction false} CheckRefuses(driver: Driver, s: State, i: nat, h: nat, p: Prepared, rest: Batch)
    requires s.Sized() && i < |s.builders| && p.entered == h && p.result.Err?
    ensures Effect(driver, s, s, i, Chain(i, h, p, rest), Err(p.result.error))
  {
    var b := Chain(i, h, p, rest);
    assert b.entered == [] && Onion(b) == [];
    assert s.trace + Onion(b) == s.trace;
  }

  lemma {:induction false} SpecsCons(m: Mutation, ms: seq<Mutation>)
    ensures Specs([m] + ms) == [SpecOf(m)] + Specs(ms)
  {}

  lemma {:induction false} SpecsShift(specs: seq<Spec>, i: nat, x: Spec, tail: seq<Spec>)
    requires i < |specs|
    ensures specs[i := x][..i + 1] + tail == specs[..i] + ([x] + tail)
  {}

  lemma {:induction false} CoreKeepsTrace(i: nat, h: nat, given: Mutation, rest: Batch)
    ensures
      var b := Chain(i, h, Prepared(h, Ok(given)), rest);
      && Onion(b) == Onion(rest)
      && b.result == if rest.result.Err? then Err(rest.result.error) else Ok([given] + rest.result.value)
  {
    assert Entered(i, h, h) + rest.entered == rest.entered;
  }

  /** The builder has adopted the given mutation and built its node and spec x. */
  ghost predicate Adopted(s: State, s1: State, i: nat, given: Mutation, x: Spec)
    requires s.Sized() && i < |s.builders|
  {
    && s1 == s.(builders := s.builders[i := s.builders[i].(mutation := given)], nodes := s.nodes[i := NodeOf(given)], specs := s.specs[i := x])
    && forall ms :: Specs([given] + ms) == [x] + Specs(ms)
  }

  /** A builder's own work around the rest of the chain, when that fails. */
  lemma {:induction false} CoreWrapsFailure(driver: Driver, s: State, s1: State, s2: State, i: nat, h: nat, given: Mutation, x: Spec, rest: Batch, r: Result<(), Error>)
    requires s.Sized() && i < |s.builders| && Adopted(s, s1, i, given, x) && r.Err?
    requires Effect(driver, s1, s2, i + 1, rest, r)
    ensures Effect(driver, s, s2, i, Chain(i, h, Prepared(h, Ok(given)), rest), r)
  {
    CoreKeepsTrace(i, h, given, rest);
    if rest.result.Ok? { SpecsShift(s.specs, i, x, Specs(rest.result.value)); }
  }

  lemma {:induction false} CoreFinishes(s2: State, s': State, i: nat, given: Mutation, ms: seq<Mutation>, ids: seq<Option<int>>)
    requires s2.Sized() && i < |s2.builders| && |ms| == |s2.builders| - (i + 1) && s2.builders[i].mutation == given
    requires forall k :: i + 1 <= k < |s2.builders| ==> Finished(s2, k, ms[k - (i + 1)], IdAt(ids, k))
    requires s' == s2.(nodes := s2.nodes[i := NodeOf(given).(id := IdAt(ids, i))], done := s2.done[i := Some(IdAt(ids, i))])
    ensures forall k :: i <= k < |s2.builders| ==> Finished(s', k, ([given] + ms)[k - i], IdAt(ids, k))
  {
    forall k | i <= k < |s2.builders| ensures Finished(s', k, ([given] + ms)[k - i], IdAt(ids, k)) {
      if k > i { assert Finished(s2, k, ms[k - (i + 1)], IdAt(ids, k)); }
    }
  }

  /** And when it succeeds: the builder's node gets its id and its mutation is marked done. */
  lemma {:induction false} CoreWrapsSuccess(driver: Driver, s: State, s1: State, s2: State, s': State, i: nat, h: nat, given: Mutation, x: Spec, rest: Batch, r: Result<(), Error>)
    requires s.Sized() && i < |s.builders| && Adopted(s, s1, i, given, x) && r.Ok?
    requires Effect(driver, s1, s2, i + 1, rest, r)
    requires s' == s2.(nodes := s2.nodes[i := NodeOf(given).(id := IdAt(s2.ids, i))], done := s2.done[i := Some(IdAt(s2.ids, i))])
    ensures Effect(driver, s, s', i, Chain(i, h, Prepared(h, Ok(given)), rest), r)
  {
    CoreKeepsTrace(i, h, given, rest);
    assert rest.result.Ok?;
    var ms := rest.result.value;
    SpecsShift(s.specs, i, x, Specs(ms));
    var all := s.specs[..i] + Specs([given] + ms);
    assert all == s1.specs[..i + 1] + Specs(ms);
    assert s2.builders[i] == s1.builders[i];
    CoreFinishes(s2, s', i, given, ms, s2.ids);
  }

  function Blank<T>(n: nat, x: T): (r: seq<T>)
    ensures |r| == n && forall k :: 0 <= k < n ==> r[k] == x
  {
    seq(n, _ => x)
  }

  /** defaults() on every builder; each reads the clock for created_at and updated_at. */
  function Defaulted(bs: seq<Builder>, clock: nat -> int): (r: seq<Builder>)
    ensures |r| == |bs|
    ensures forall k :: 0 <= k < |bs| ==> r[k] == bs[k].(mutation := WithDefaults(bs[k].mutation, clock(2 * k), clock(2 * k + 1)))
  {
    seq(|bs|, k requires 0 <= k < |bs| => bs[k].(mutation := WithDefaults(bs[k].mutation, clock(2 * k), clock(2 * k + 1))))
  }

  ghost predicate Ticks(clock: nat -> int) {
    forall a: nat, b: nat :: a < b ==> clock(a) < clock(b)
  }

  /** On a clock that ticks, builders that left their times open get times of their own, in the order of the list and
      each created before it was updated; times that were set stay, and so do the hooks. */
  lemma {:induction false} TimesInOrder(bs: seq<Builder>, clock: nat -> int, j: nat, k: nat)
    requires j < k < |bs| && Ticks(clock)
    ensures
      var a, b := Defaulted(bs, clock)[j], Defaulted(bs, clock)[k];
      && a.hooks == bs[j].hooks && a.mutation.createdAt.Some? && a.mutation.updatedAt.Some?
      && (bs[j].mutation.createdAt.Some? ==> a.mutation.createdAt == bs[j].mutation.createdAt)
      && (bs[j].mutation.updatedAt.Some? ==> a.mutation.updatedAt == bs[j].mutation.updatedAt)
      && (bs[j].mutation.createdAt.None? && bs[j].mutation.updatedAt.None? ==> a.mutation.createdAt.value < a.mutation.updatedAt.value)
      && (bs[j].mutation.updatedAt.None? && bs[k].mutation.createdAt.None? ==> a.mutation.updatedAt.value < b.mutation.createdAt.value)
  {
    assert clock(2 * j) < clock(2 * j + 1) && clock(2 * j + 1) < clock(2 * k);
  }

  function Started(s: State, clock: nat -> int): State {
    var n := |s.builders|;
    s.(builders := Defaulted(s.builders, clock), nodes := Blank(n, ZERO), specs := Blank(n, map[]), done := Blank(n, None))
  }

  function StatusOf<T>(r: Result<T, Error>): Result<(), Error> {
    if r.Ok? then Ok(()) else Err(r.error)
  }

  class Bulk {
    const preset: Option<string>
    const clock: nat -> int
    const driver: Driver

    var builders: seq<Builder>
    var nodes: seq<Record>
    var specs: seq<Spec>
    var ids: seq<Option<int>>
    var done: seq<Option<int>>
    var trace: seq<Event>
    var batches: seq<seq<Spec>>

    constructor (preset: Option<string>, clock: nat -> int, driver: Driver, builders: seq<Builder>)
      ensures this.preset == preset && this.clock == clock && this.driver == driver
      ensures View() == State(builders, [], [], [], [], [], [])
    {
      this.preset, this.clock, this.driver := preset, clock, driver;
      this.builders, nodes, specs, ids, done, trace, batches := builders, [], [], [], [], [], [];
    }

    ghost function View(): State
      reads this
    {
      State(builders, nodes, specs, ids, done, trace, batches)
    }

    /** Hook h of builder i and everything inside it. */
    method RunHook(i: nat, h: nat, given: Mutation, same: bool) returns (r: Result<(), Error>)
      requires View().Sized() && i < |builders| && h <= |builders[i].hooks|
      requires same ==> given == builders[i].mutation
      modifies this
      ensures Effect(driver, old(View()), View(), i,
                     Chain(i, h, Prepare(i, old(builders)[i].hooks, h, old(builders)[i].mutation, given, same), PrepareAll(old(builders), i + 1)), r)
      decreases |builders| - i, |builders[i].hooks| - h, 1
    {
      if h == |builders[i].hooks| {
        r := Core(i, given);
        return;
      }
      ghost var s := View();
      ghost var p := Prepare(i, builders[i].hooks, h, builders[i].mutation, given, same);
      ghost var rest := PrepareAll(builders, i + 1);
      PrepareStep(i, builders[i].hooks, h, builders[i].mutation, given, same);
      trace := trace + [Enter(i, h)];
      var verdict := builders[i].hooks[h](given);
      if verdict.Reject? {
        r := Err(HookRejected(i, h, verdict.reason));
        trace := trace + [Exit(i, h)];
        HookRefuses(driver, s, i, h, p, rest);
        return;
      }
      var together := same && verdict.Edit?;
      if together { builders := builders[i := builders[i].(mutation := verdict.m)]; }
      ghost var s1 := View();
      PreparationLooksAhead(s.builders, builders, i + 1);
      r := RunHook(i, h + 1, verdict.m, together);
      ghost var s2 := View();
      trace := trace + [Exit(i, h)];
      HookLeaves(driver, s, s1, s2, View(), i, h, p, rest, r);
    }

    /** builder.mutation = mutation; nodes[i], specs[i] = createSpec(). */
    method Adopt(i: nat, given: Mutation) returns (ghost x: Spec)
      requires View().Sized() && i < |builders|
      modifies this
      ensures Adopted(old(View()), View(), i, given, x)
    {
      builders := builders[i := builders[i].(mutation := given)];
      nodes := nodes[i := NodeOf(given)];
      specs := specs[i := SpecOf(given)];
      x := SpecOf(given);
      forall ms ensures Specs([given] + ms) == [SpecOf(given)] + Specs(ms) { SpecsCons(given, ms); }
    }

    /** The mutator itself: check the builder's own mutation, adopt the given one, build, then run the rest of the chain. */
    method Core(i: nat, given: Mutation) returns (r: Result<(), Error>)
      requires View().Sized() && i < |builders|
      modifies this
      ensures
        var hooks := old(builders)[i].hooks;
        Effect(driver, old(View()), View(), i,
               Chain(i, |hooks|, Prepare(i, hooks, |hooks|, old(builders)[i].mutation, given, true), PrepareAll(old(builders), i + 1)), r)
      decreases |builders| - i, 0, 0
    {
      ghost var s := View();
      ghost var h := |builders[i].hooks|;
      ghost var p := Prepare(i, builders[i].hooks, h, builders[i].mutation, given, true);
      ghost var rest := PrepareAll(builders, i + 1);
      var e := CheckError(builders[i].mutation);
      if e.Some? {
        CheckRefuses(driver, s, i, h, p, rest);
        return Err(CheckFailed(i, e.value));
      }
      ghost var x := Adopt(i, given);
      ghost var s1 := View();
      PreparationLooksAhead(s.builders, builders, i + 1);
      r := Next(i + 1);
      ghost var s2 := View();
      if r.Err? {
        CoreWrapsFailure(driver, s, s1, s2, i, h, given, x, rest, r);
        return;
      }
      nodes := nodes[i := nodes[i].(id := IdAt(ids, i))];
      done := done[i := Some(nodes[i].id)];
      CoreWrapsSuccess(driver, s, s1, s2, View(), i, h, given, x, rest, r);
    }

    /** The next builder's mutator, or after the last one the single insert. */
    method Next(j: nat) returns (r: Result<(), Error>)
      requires View().Sized() && j <= |builders|
      modifies this
      ensures Effect(driver, old(View()), View(), j, PrepareAll(old(builders), j), r)
      decreases |builders| - j, if j < |builders| then |builders[j].hooks| else 0, 2
    {
      if j < |builders| {
        r := RunHook(j, 0, builders[j].mutation, true);
      } else {
        assert specs[..j] + Specs([]) == specs;
        trace, batches := trace + [Insert], batches + [specs];
        var answer := driver(specs);
        if answer.Err? { return Err(InsertFailed(answer.error)); }
        ids := answer.value;
        r := Ok(());
      }
    }

    /** Allocates the working slices and sets the defaults of every builder. */
    method Start()
      modifies this
      ensures View() == Started(old(View()), clock)
    {
      var n := |builders|;
      specs, nodes, done := Blank(n, map[]), Blank(n, ZERO), Blank(n, None);
      var i := 0;
      while i < n
        invariant i <= n == |builders|
        invariant forall k :: 0 <= k < n ==>
          builders[k] == if k < i then Defaulted(old(builders), clock)[k] else old(builders)[k]
        invariant nodes == Blank(n, ZERO) && specs == Blank(n, map[]) && done == Blank(n, None)
        invariant ids == old(ids) && trace == old(trace) && batches == old(batches)
      {
        builders := builders[i := builders[i].(mutation := WithDefaults(builders[i].mutation, clock(2 * i), clock(2 * i + 1)))];
        i := i + 1;
      }
      assert builders == Defaulted(old(builders), clock);
    }

    /** Save refines "prepare all, then insert once": see SaveMeans for what Effect says from builder 0. */
    method Save() returns (r: Result<seq<Record>, Error>)
      modifies this
      ensures preset.Some? ==> r == Err(Preset(preset.value)) && View() == old(View())
      ensures preset.None? && old(builders) == [] ==> r == Ok([]) && trace == old(trace) && batches == old(batches)
      ensures preset.None? && old(builders) != [] ==>
                && Effect(driver, Started(old(View()), clock), View(), 0, PrepareAll(Defaulted(old(builders), clock), 0), StatusOf(r))
                && Saved(driver, Started(old(View()), clock), View(), StatusOf(r))
                && (r.Ok? ==> r.value == nodes)
    {
      if preset.Some? { return Err(Preset(preset.value)); }
      Start();
      ghost var s := View();
      if |builders| > 0 {
        var status := RunHook(0, 0, builders[0].mutation, true);
        SaveMeans(driver, s, View(), status);
        if status.Err? { return Err(status.error); }
      }
      r := Ok(nodes);
    }
  }

  // ---------------------------------------------------------------- what callers see

  /** Hooks enter and leave like brackets: replaying the trace on a stack never mismatches and ends empty. */
  function Replay(stack: seq<(nat, nat)>, trace: seq<Event>): Option<seq<(nat, nat)>>
    decreases |trace|
  {
    if trace == [] then Some(stack) else
      match trace[0]
      case Insert => Replay(stack, trace[1..])
      case Enter(i, h) => Replay(stack + [(i, h)], trace[1..])
      case Exit(i, h) =>
        if stack == [] || stack[|stack| - 1] != (i, h) then None else Replay(stack[..|stack| - 1], trace[1..])
  }

  lemma {:induction false} ReplayEnters(stack: seq<(nat, nat)>, es: seq<(nat, nat)>, tail: seq<Event>)
    ensures Replay(stack, Enters(es) + tail) == Replay(stack + es, tail)
    decreases |es|
  {
    if es == [] {
      assert Enters(es) + tail == tail && stack + es == stack;
    } else {
      assert (Enters(es) + tail)[1..] == Enters(es[1..]) + tail;
      assert stack + [es[0]] + es[1..] == stack + es;
      ReplayEnters(stack + [es[0]], es[1..], tail);
    }
  }

  lemma {:induction false} ReplayExits(stack: seq<(nat, nat)>, es: seq<(nat, nat)>)
    ensures Replay(stack + es, Exits(es)) == Some(stack)
    decreases |es|
  {
    if es == [] {
      assert stack + es == stack;
    } else {
      var k := |es| - 1;
      assert Exits(es)[1..] == Exits(es[..k]);
      assert (stack + es)[..|stack| + k] == stack + es[..k];
      ReplayExits(stack, es[..k]);
    }
  }

  lemma {:induction false} ReplayMiddle(stack: seq<(nat, nat)>, mid: seq<Event>, tail: seq<Event>)
    requires mid == [] || mid == [Insert]
    ensures Replay(stack, mid + tail) == Replay(stack, tail)
  {
    if mid == [] { assert mid + tail == tail; } else { assert (mid + tail)[1..] == tail; }
  }

  lemma {:induction false} OnionEnds(b: Batch)
    requires b.entered != []
    ensures Onion(b)[0] == Enter(b.entered[0].0, b.entered[0].1)
    ensures Onion(b)[|Onion(b)| - 1] == Exit(b.entered[0].0, b.entered[0].1)
  {
    var first, last := Enters(b.entered), Exits(b.entered);
    var front := first + if b.result.Ok? then [Insert] else [];
    assert Onion(b) == front + last;
    assert Onion(b)[|Onion(b)| - 1] == last[|last| - 1];
  }

  lemma {:induction false} TraceIsNested(b: Batch)
    ensures Replay([], Onion(b)) == Some([])
    ensures b.entered != [] ==> Onion(b)[0] == Enter(b.entered[0].0, b.entered[0].1)
                                && Onion(b)[|Onion(b)| - 1] == Exit(b.entered[0].0, b.entered[0].1)
  {
    var es := b.entered;
    var mid, tail := if b.result.Ok? then [Insert] else [], Exits(es);
    assert Onion(b) == Enters(es) + (mid + tail);
    ReplayEnters([], es, mid + tail);
    ReplayMiddle([] + es, mid, tail);
    ReplayExits([], es);
    if es != [] { OnionEnds(b); }
  }

  predicate Earlier(a: (nat, nat), b: (nat, nat)) {
    a.0 < b.0 || (a.0 == b.0 && a.1 < b.1)
  }

  ghost predicate InOrder(bs: seq<Builder>, i: nat, es: seq<(nat, nat)>) {
    && (forall k :: 0 <= k < |es| ==> i <= es[k].0 < |bs| && es[k].1 < |bs[es[k].0].hooks|)
    && (forall a, b :: 0 <= a < b < |es| ==> Earlier(es[a], es[b]))
  }

  lemma {:induction false} OwnThenRest(bs: seq<Builder>, i: nat, to: nat, rest: seq<(nat, nat)>)
    requires i < |bs| && to <= |bs[i].hooks| && InOrder(bs, i + 1, rest)
    ensures InOrder(bs, i, Entered(i, 0, to)) && InOrder(bs, i, Entered(i, 0, to) + rest)
  {}

  /** Hooks are entered builder by builder and hook by hook, hook 0 of the first builder outermost. */
  lemma {:induction false} HooksEnterInOrder(bs: seq<Builder>, i: nat)
    requires i <= |bs|
    ensures InOrder(bs, i, PrepareAll(bs, i).entered)
    ensures i < |bs| && bs[i].hooks != [] ==> PrepareAll(bs, i).entered != [] && PrepareAll(bs, i).entered[0] == (i, 0)
    decreases |bs| - i
  {
    if i < |bs| {
      var own, rest := PrepareBuilder(bs, i), PrepareAll(bs, i + 1);
      HooksEnterInOrder(bs, i + 1);
      OwnThenRest(bs, i, own.entered, rest.entered);
      assert PrepareAll(bs, i) == Chain(i, 0, own, rest);
      if bs[i].hooks != [] { OutermostHook(bs, i); }
    }
  }

  lemma {:induction false} OutermostHook(bs: seq<Builder>, i: nat)
    requires i < |bs| && bs[i].hooks != []
    ensures PrepareAll(bs, i).entered != [] && PrepareAll(bs, i).entered[0] == (i, 0)
  {
    SomeHookEntered(i, bs[i].hooks, bs[i].mutation);
    var own := Entered(i, 0, PrepareBuilder(bs, i).entered);
    assert own[0] == (i, 0);
  }

  /** When every builder passes, every hook has been entered. */
  lemma {:induction false} EveryHookEnters(bs: seq<Builder>, i: nat, j: nat, h: nat)
    requires i <= j < |bs| && h < |bs[j].hooks| && PrepareAll(bs, i).result.Ok?
    ensures (j, h) in PrepareAll(bs, i).entered
    decreases |bs| - i
  {
    var own := Entered(i, 0, PrepareBuilder(bs, i).entered);
    if i == j {
      PassingEntersAll(i, bs[i].hooks, 0, bs[i].mutation, bs[i].mutation, true);
      assert own[h] == (j, h);
    } else {
      EveryHookEnters(bs, i + 1, j, h);
    }
  }

  lemma {:induction false} PassingEntersAll(i: nat, hooks: seq<Hook>, h: nat, own: Mutation, given: Mutation, same: bool)
    requires h <= |hooks| && Prepare(i, hooks, h, own, given, same).result.Ok?
    ensures Prepare(i, hooks, h, own, given, same).entered == |hooks|
    decreases |hooks| - h
  {
    if h < |hooks| {
      match hooks[h](given)
      case Edit(m) => PassingEntersAll(i, hooks, h + 1, if same then m else own, m, same);
      case Swap(m) => PassingEntersAll(i, hooks, h + 1, own, m, false);
    }
  }

  lemma {:induction false} SomeHookEntered(i: nat, hooks: seq<Hook>, m: Mutation)
    requires hooks != []
    ensures Prepare(i, hooks, 0, m, m, true).entered > 0
  {}

  /** The id the driver reported for row k; a driver that reports none leaves 0. */
  ghost predicate ReportedId(ids: seq<Option<int>>, k: nat, id: int) {
    (k < |ids| && ids[k].Some? ==> id == ids[k].value) && (k < |ids| && ids[k].None? ==> id == 0) && (k >= |ids| ==> id == 0)
  }

  /** Builder k after a successful Save: its mutation is the one the hooks handed on, its node shows it with the id
      that was reported for row k, and the mutation is marked done with that id. */
  ghost predicate Created(s: State, k: nat, m: Mutation, ids: seq<Option<int>>)
    requires s.Sized() && k < |s.builders|
  {
    && s.builders[k].mutation == m && NodeCarries(s.nodes[k], m)
    && ReportedId(ids, k, s.nodes[k].id) && s.done[k] == Some(s.nodes[k].id)
  }

  ghost predicate Saved(driver: Driver, s: State, s': State, r: Result<(), Error>)
    requires s.Sized()
  {
    && s'.Sized() && |s'.builders| == |s.builders|
    && (if AllPass(s.builders) then
          exists sent ::
            && SpecsOfAll(s.builders, sent) && s'.batches == s.batches + [sent] && (r.Ok? <==> driver(sent).Ok?)
            && (r.Ok? ==> forall k :: 0 <= k < |s.builders| ==> Created(s', k, PrepareBuilder(s.builders, k).result.value, driver(sent).value))
        else
          s'.batches == s.batches && r.Err?)
    && (r.Err? ==> forall k :: 0 <= k < |s.builders| ==> s'.done[k] == None)
  }

  /** What a caller of Save on a non-empty list sees.  There is at most one insert; it carries the columns of all
      builders in order; Save succeeds exactly when every builder passes and the insert does, and then, and
      only then, every mutation is marked done, each with the id of its own row. */
  lemma {:induction false} SaveMeans(driver: Driver, s: State, s': State, r: Result<(), Error>)
    requires s.Sized() && s.builders != [] && (forall k :: 0 <= k < |s.done| ==> s.done[k] == None)
    requires Effect(driver, s, s', 0, PrepareAll(s.builders, 0), r)
    ensures Saved(driver, s, s', r)
  {
    var b := PrepareAll(s.builders, 0);
    ReferenceMeans(s.builders);
    if b.result.Ok? {
      var sent := Specs(b.result.value);
      assert s.specs[..0] + sent == sent;
      assert SpecsOfAll(s.builders, sent);
      if driver(sent).Ok? {
        forall k | 0 <= k < |s.builders| ensures Created(s', k, PrepareBuilder(s.builders, k).result.value, driver(sent).value) {
          assert Finished(s', k, b.result.value[k - 0], IdAt(driver(sent).value, k));
          FinishedIsCreated(s', k, b.result.value[k], driver(sent).value);
        }
      }
    }
  }

  lemma {:induction false} FinishedIsCreated(s: State, k: nat, m: Mutation, ids: seq<Option<int>>)
    requires s.Sized() && k < |s.builders| && Finished(s, k, m, IdAt(ids, k))
    ensures Created(s, k, m, ids)
  {
    NodeCarriesMutation(m);
  }

  ghost predicate AllPass(bs: seq<Builder>) {
    forall k :: 0 <= k < |bs| ==> PrepareBuilder(bs, k).result.Ok?
  }

  /** One row per builder, in order, with the columns of what its hooks handed on. */
  ghost predicate SpecsOfAll(bs: seq<Builder>, sent: seq<Spec>)
    requires AllPass(bs)
  {
    |sent| == |bs| && forall k :: 0 <= k < |bs| ==> SpecCarries(sent[k], PrepareBuilder(bs, k).result.value)
  }

  lemma {:induction false} ReferenceMeans(bs: seq<Builder>)
    ensures PrepareAll(bs, 0).result.Ok? <==> AllPass(bs)
    ensures AllPass(bs) ==> SpecsOfAll(bs, Specs(PrepareAll(bs, 0).result.value))
    ensures AllPass(bs) ==> forall j :: 0 <= j < |bs| ==> PrepareAll(bs, 0).result.value[j] == PrepareBuilder(bs, j).result.value
  {
    var k := FirstFailureIsReported(bs, 0);
    if AllPass(bs) {
      forall j | 0 <= j < |bs|
        ensures PrepareAll(bs, 0).result.value[j] == PrepareBuilder(bs, j).result.value
        ensures SpecCarries(Specs(PrepareAll(bs, 0).result.value)[j], PrepareBuilder(bs, j).result.value)
      {
        assert PrepareAll(bs, 0).result.value[j - 0] == PrepareBuilder(bs, j).result.value;
        SpecCarriesMutation(PrepareBuilder(bs, j).result.value);
      }
    }
  }

  // ---------------------------------------------------------------- what is checked and what is inserted

  /** What one run of the hooks hands on in the end, if none rejects. */
  function HandedOn(hooks: seq<Hook>, m: Mutation): Option<Mutation> {
    if hooks == [] then Some(m) else
      match hooks[0](m)
      case Reject(_) => None
      case Edit(x) => HandedOn(hooks[1..], x)
      case Swap(x) => HandedOn(hooks[1..], x)
  }

  /** Some hook of this run passes another object on. */
  predicate Swaps(hooks: seq<Hook>, m: Mutation) {
    hooks != [] &&
    match hooks[0](m)
    case Reject(_) => false
    case Edit(x) => Swaps(hooks[1..], x)
    case Swap(_) => true
  }

  /** The builder's own object after the run: as the first swapping hook saw it. */
  function OwnAfter(hooks: seq<Hook>, m: Mutation): Mutation {
    if hooks == [] || !hooks[0](m).Edit? then m else OwnAfter(hooks[1..], hooks[0](m).m)
  }

  lemma {:induction false} ApartRun(i: nat, hooks: seq<Hook>, h: nat, own: Mutation, given: Mutation)
    requires h <= |hooks|
    ensures
      var p, last := Prepare(i, hooks, h, own, given, false), HandedOn(hooks[h..], given);
      (p.result.Ok? <==> last.Some? && CheckError(own) == None) && (p.result.Ok? ==> p.result.value == last.value)
    decreases |hooks| - h
  {
    if h < |hooks| {
      assert hooks[h..][0] == hooks[h] && hooks[h..][1..] == hooks[h + 1..];
      var v := hooks[h](given);
      if !v.Reject? { ApartRun(i, hooks, h + 1, own, v.m); }
    }
  }

  lemma {:induction false} TogetherRun(i: nat, hooks: seq<Hook>, h: nat, m: Mutation)
    requires h <= |hooks|
    ensures
      var p, rest := Prepare(i, hooks, h, m, m, true), hooks[h..];
      && (p.result.Ok? <==> HandedOn(rest, m).Some? && CheckError(OwnAfter(rest, m)) == None)
      && (p.result.Ok? ==> p.result.value == HandedOn(rest, m).value)
      && (HandedOn(rest, m).Some? && !Swaps(rest, m) ==> HandedOn(rest, m).value == OwnAfter(rest, m))
    decreases |hooks| - h
  {
    if h < |hooks| {
      assert hooks[h..][0] == hooks[h] && hooks[h..][1..] == hooks[h + 1..];
      var v := hooks[h](m);
      if v.Edit? { TogetherRun(i, hooks, h + 1, v.m); }
      if v.Swap? { ApartRun(i, hooks, h + 1, m, v.m); }
    }
  }

  /** Run by run: a builder is accepted if and only if no hook rejects and its own object passes the check; it then
      inserts what the hooks handed on, and that has passed the check if and only if no hook of this run
      swapped the object or the one handed on would pass as well. */
  lemma {:induction false} InsertedIsChecked(bs: seq<Builder>, k: nat)
    requires k < |bs|
    ensures
      var hooks, m, r := bs[k].hooks, bs[k].mutation, PrepareBuilder(bs, k).result;
      && (r.Ok? <==> HandedOn(hooks, m).Some? && CheckError(OwnAfter(hooks, m)) == None)
      && (r.Ok? ==> r.value == HandedOn(hooks, m).value)
      && (r.Ok? && !Swaps(hooks, m) ==> r.value == OwnAfter(hooks, m))
      && (r.Ok? ==> (CheckError(r.value) == None <==> !Swaps(hooks, m) || CheckError(HandedOn(hooks, m).value) == None))
  {
    TogetherRun(k, bs[k].hooks, 0, bs[k].mutation);
    assert bs[k].hooks[0..] == bs[k].hooks;
  }

  lemma {:induction false} HandedOnStep(hooks: seq<Hook>, h: nat, m: Mutation)
    requires h < |hooks| && HandedOn(hooks[..h], m).Some?
    ensures
      var v := hooks[h](HandedOn(hooks[..h], m).value);
      HandedOn(hooks[..h + 1], m) == if v.Reject? then None else Some(v.m)
    decreases h
  {
    if h == 0 {
      assert hooks[..1][1..] == [];
    } else {
      var v := hooks[0](m);
      var rest := hooks[1..];
      assert hooks[..h][1..] == rest[..h - 1] && hooks[..h + 1][1..] == rest[..h];
      if !v.Reject? { HandedOnStep(rest, h - 1, v.m); }
    }
  }

  /** Hook h is the one that rejects: all before it passed something on, and it refuses what it was given. */
  ghost predicate RejectsAt(hooks: seq<Hook>, m: Mutation, h: nat, reason: string) {
    h < |hooks| && HandedOn(hooks[..h], m).Some? && hooks[h](HandedOn(hooks[..h], m).value) == Reject(reason)
  }

  lemma {:induction false} ErrorFrom(i: nat, hooks: seq<Hook>, h: nat, m: Mutation, own: Mutation, given: Mutation, same: bool)
    requires h <= |hooks| && HandedOn(hooks[..h], m) == Some(given)
    requires Prepare(i, hooks, h, own, given, same).result.Err?
    ensures
      var e := Prepare(i, hooks, h, own, given, same).result.error;
      || (e.CheckFailed? && e.builder == i && HandedOn(hooks, m).Some?)
      || (e.HookRejected? && e.builder == i && RejectsAt(hooks, m, e.hook, e.reason))
    decreases |hooks| - h
  {
    if h == |hooks| {
      assert hooks[..h] == hooks;
    } else {
      HandedOnStep(hooks, h, m);
      var v := hooks[h](given);
      if v.Edit? { ErrorFrom(i, hooks, h + 1, m, if same then v.m else own, v.m, same); }
      if v.Swap? { ErrorFrom(i, hooks, h + 1, m, own, v.m, false); }
    }
  }

  /** The error of a builder that fails names that builder, and the hook that rejected or else the field at fault. */
  lemma {:induction false} FailureNamesItsCause(bs: seq<Builder>, k: nat)
    requires k < |bs| && PrepareBuilder(bs, k).result.Err?
    ensures
      var hooks, m, e := bs[k].hooks, bs[k].mutation, PrepareBuilder(bs, k).result.error;
      || (e.HookRejected? && e.builder == k && RejectsAt(hooks, m, e.hook, e.reason))
      || (e.CheckFailed? && e.builder == k && HandedOn(hooks, m).Some? && CheckError(OwnAfter(hooks, m)) == Some(e.field))
  {
    var hooks, m := bs[k].hooks, bs[k].mutation;
    assert hooks[..0] == [] && hooks[0..] == hooks;
    ErrorFrom(k, hooks, 0, m, m, m, true);
    CheckedField(k, hooks, 0, m);
  }

  lemma {:induction false} CheckedField(i: nat, hooks: seq<Hook>, h: nat, m: Mutation)
    requires h <= |hooks|
    ensures
      var r := Prepare(i, hooks, h, m, m, true).result;
      r.Err? && r.error.CheckFailed? ==> CheckError(OwnAfter(hooks[h..], m)) == Some(r.error.field)
    decreases |hooks| - h
  {
    if h < |hooks| {
      assert hooks[h..][0] == hooks[h] && hooks[h..][1..] == hooks[h + 1..];
      var v := hooks[h](m);
      if v.Edit? { CheckedField(i, hooks, h + 1, v.m); }
      if v.Swap? { CheckedApart(i, hooks, h + 1, m, v.m); }
    }
  }

  lemma {:induction false} CheckedApart(i: nat, hooks: seq<Hook>, h: nat, own: Mutation, given: Mutation)
    requires h <= |hooks|
    ensures
      var r := Prepare(i, hooks, h, own, given, false).result;
      r.Err? && r.error.CheckFailed? ==> CheckError(own) == Some(r.error.field)
    decreases |hooks| - h
  {
    if h < |hooks| {
      var v := hooks[h](given);
      if !v.Reject? { CheckedApart(i, hooks, h + 1, own, v.m); }
    }
  }

  /** With a swapping hook it need not be: the check looks at the builder's own mutation, the insert carries the other. */
  lemma {:induction false} SwapEscapesTheCheck(good: Mutation, bad: Mutation)
    requires CheckError(good) == None && CheckError(bad) != None
    ensures Prepare(0, [_ => Swap(bad)], 0, good, good, true).result == Ok(bad)
  {
    var hooks: seq<Hook> := [_ => Swap(bad)];
    assert hooks[0](good) == Swap(bad);
    assert Prepare(0, hooks, 1, good, bad, false) == Prepared(1, Ok(bad));
  }
}
