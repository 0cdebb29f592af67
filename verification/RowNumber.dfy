/**
 The two `ROW_NUMBER() ... DELETE WHERE rn > 1` statements of the pre-schema cleanup.
 A row's number is one plus the count of rows that sort strictly before it in its partition;
 the reference form is "keep the best row of every key".
 */
module RowNumber {
  import opened Outcomes
  import opened Relational

  const CYCLE_KEY: seq<Column> := [ValidationCaseId, ValidatorUserId, WorkflowCycle]

  /** Same case, same validator, same cycle; NULL counts as equal to NULL. */
  ghost predicate SameSlot(a: Row, b: Row) {
    && At(a, ValidationCaseId) == At(b, ValidationCaseId)
    && At(a, ValidatorUserId) == At(b, ValidatorUserId)
    && At(a, WorkflowCycle) == At(b, WorkflowCycle)
  }

  lemma {:induction false} SlotIsKey(a: Row, b: Row)
    ensures KeyOf(a, CYCLE_KEY) == KeyOf(b, CYCLE_KEY) <==> SameSlot(a, b)
  {
    var x, y := KeyOf(a, CYCLE_KEY), KeyOf(b, CYCLE_KEY);
    assert |x| == 3 && |y| == 3;
    assert x == y <==> x[0] == y[0] && x[1] == y[1] && x[2] == y[2];
  }

  /** What the window function sees of a row: its partition and its sort keys (the id comes last). */
  datatype Entry = Entry(key: seq<Cell>, priority: int, created: Cell)

  type Entries = map<int, Entry>

  /** `created_at DESC` puts NULL first. */
  predicate Newer(a: Cell, b: Cell) {
    (a.Null? && b.Num?) || (a.Num? && b.Num? && a.n > b.n)
  }

  /** Row i sorts before row j: priority ascending, created_at descending, id descending. */
  predicate Before(e: Entries, i: int, j: int)
    requires i in e && j in e
  {
    || e[i].priority < e[j].priority
    || (e[i].priority == e[j].priority && Newer(e[i].created, e[j].created))
    || (e[i].priority == e[j].priority && e[i].created == e[j].created && i > j)
  }

  /** What `ORDER BY created_at DESC, id DESC` makes of rows i and j with these dates: the later date comes first, a
      missing one before all others, and between equal ones the greater id. */
  ghost predicate ListedFirst(a: Cell, i: int, b: Cell, j: int) {
    (a.Num? && b.Num? ==> a.n >= b.n) && (b.Null? ==> a.Null?) && (a == b ==> i > j)
  }

  function Partition(e: Entries, key: seq<Cell>): set<int> {
    set j | j in e && e[j].key == key
  }

  function Ahead(e: Entries, i: int): set<int>
    requires i in e
  {
    set j | j in e && e[j].key == e[i].key && Before(e, j, i)
  }

  function RowNumberOf(e: Entries, i: int): nat
    requires i in e
  {
    1 + |Ahead(e, i)|
  }

  /** The ids that the DELETE names: `r.rn > 1`. */
  function Surplus(e: Entries): set<int> {
    set i | i in e && RowNumberOf(e, i) > 1
  }

  ghost predicate Best(e: Entries, i: int) {
    i in e && forall j :: j in e && j != i && e[j].key == e[i].key ==> Before(e, i, j)
  }

  ghost predicate DistinctKeys(e: Entries) {
    forall i, j :: i in e && j in e && e[i].key == e[j].key ==> i == j
  }

  function KeysOf(e: Entries): set<seq<Cell>> {
    set i | i in e :: e[i].key
  }

  ghost predicate SortedEnumeration(e: Entries, key: seq<Cell>, s: seq<int>) {
    && (forall i :: i in s <==> i in Partition(e, key))
    && (forall a, b :: 0 <= a < b < |s| ==> s[a] in e && s[b] in e && Before(e, s[a], s[b]))
  }

  /** The counting form is SQL's numbering: however a partition is listed in ORDER BY order,
      the row at position k gets number k + 1. */
  lemma {:induction false} NumberIsSortedPosition(e: Entries, key: seq<Cell>, s: seq<int>, k: nat)
    requires SortedEnumeration(e, key, s) && k < |s|
    ensures s[k] in e && RowNumberOf(e, s[k]) == k + 1
  {
    var x := s[k];
    assert x in s;
    assert x in Partition(e, key);
    var prefix := set a | 0 <= a < k :: s[a];
    assert Ahead(e, s[k]) == prefix by {
      forall j ensures j in Ahead(e, s[k]) <==> j in prefix {
        if j in Ahead(e, s[k]) {
          assert j in Partition(e, key);
          var a :| 0 <= a < |s| && s[a] == j;
        }
        if j in prefix {
          var a :| 0 <= a < k && s[a] == j;
          assert s[a] in s && s[a] in Partition(e, key);
        }
      }
    }
    PrefixSize(s, k);
  }

  lemma {:induction false} PrefixSize(s: seq<int>, k: nat)
    requires k <= |s| && forall a, b :: 0 <= a < b < |s| ==> s[a] != s[b]
    ensures |set a | 0 <= a < k :: s[a]| == k
  {
    if k > 0 {
      PrefixSize(s, k - 1);
      var shorter := set a | 0 <= a < k - 1 :: s[a];
      assert (set a | 0 <= a < k :: s[a]) == shorter + {s[k - 1]};
      assert s[k - 1] !in shorter;
    }
  }

  /** The ranked delete spares exactly the best rows. */
  lemma {:induction false} RankedDeleteSparesTheBest(e: Entries, i: int)
    requires i in e
    ensures i !in Surplus(e) <==> Best(e, i)
  {
    if Best(e, i) {
      assert Ahead(e, i) == {};
    } else {
      var j :| j in e && j != i && e[j].key == e[i].key && !Before(e, i, j);
      assert j in Ahead(e, i);
    }
  }

  /** Every row's key keeps exactly one representative: one best row, and any two best rows of a key agree. */
  lemma {:induction false} EveryKeyKeepsOne(e: Entries, i: int) returns (best: int)
    requires i in e
    ensures Best(e, best) && best !in Surplus(e) && e[best].key == e[i].key
    ensures forall j :: Best(e, j) && e[j].key == e[i].key ==> j == best
  {
    assert i in Partition(e, e[i].key);
    best := BestAmong(e, e[i].key, Partition(e, e[i].key));
    RankedDeleteSparesTheBest(e, best);
  }

  ghost function Member<T>(s: set<T>): (x: T)
    requires s != {}
    ensures x in s
  {
    var x :| x in s; x
  }

  lemma {:induction false} BestAmong(e: Entries, key: seq<Cell>, s: set<int>) returns (best: int)
    requires s != {} && forall j :: j in s ==> j in e && e[j].key == key
    ensures best in s && forall j :: j in s && j != best ==> Before(e, best, j)
    decreases s
  {
    var x := Member(s);
    if s == {x} {
      best := x;
    } else {
      assert s == s - {x} + {x};
      var y := BestAmong(e, key, s - {x});
      best := if Before(e, x, y) then x else y;
      forall j | j in s && j != best ensures Before(e, best, j) {
        if j != x { assert j in s - {x}; }
      }
    }
  }

  lemma {:induction false} ImageSize(e: Entries, s: set<int>)
    requires forall i :: i in s ==> i in e
    requires forall i, j :: i in s && j in s && e[i].key == e[j].key ==> i == j
    ensures |set i | i in s :: e[i].key| == |s|
  {
    if s != {} {
      var x := Member(s);
      ImageSize(e, s - {x});
      var smaller := set i | i in s - {x} :: e[i].key;
      assert (set i | i in s :: e[i].key) == smaller + {e[x].key};
      assert e[x].key !in smaller;
    }
  }

  /** RowsAffected of the DELETE is the number of rows minus the number of distinct keys. */
  lemma {:induction false} SurplusCount(e: Entries)
    ensures |Surplus(e)| == |e| - |KeysOf(e)|
  {
    var kept := e.Keys - Surplus(e);
    forall i, j | i in kept && j in kept && e[i].key == e[j].key ensures i == j {
      RankedDeleteSparesTheBest(e, i);
      RankedDeleteSparesTheBest(e, j);
    }
    ImageSize(e, kept);
    var image := set i | i in kept :: e[i].key;
    forall key ensures key in image <==> key in KeysOf(e) {
      if key in KeysOf(e) {
        var i :| i in e && e[i].key == key;
        var b := EveryKeyKeepsOne(e, i);
        assert b in kept;
      }
    }
    assert image == KeysOf(e);
    assert Surplus(e) <= e.Keys;
    assert |kept| == |e.Keys| - |Surplus(e)|;
  }

  lemma {:induction false} NoSurplusIffDistinct(e: Entries)
    ensures Surplus(e) == {} <==> DistinctKeys(e)
  {
    if DistinctKeys(e) {
      forall i | i in e ensures i !in Surplus(e) { RankedDeleteSparesTheBest(e, i); }
    } else {
      var i, j :| i in e && j in e && e[i].key == e[j].key && i != j;
      RankedDeleteSparesTheBest(e, i);
      RankedDeleteSparesTheBest(e, j);
    }
  }

  // ---------------------------------------------------------------- consultation_requests

  function RequestEntries(rows: map<int, Row>): Entries {
    map i | i in rows :: Entry(KeyOf(rows[i], CYCLE_KEY), 0, At(rows[i], CreatedAt))
  }

  // ---------------------------------------------------------------- final_offers

  predicate JoinMatches(offer: Row, c: int) {
    At(offer, ValidationCaseId) == Num(c)
  }

  /** final_offers LEFT JOIN validation_cases ON vc.id = fo.validation_case_id. */
  function LeftJoin(offers: map<int, Row>, cases: map<int, Row>): set<(int, Option<int>)> {
    (set i, c | i in offers && c in cases && JoinMatches(offers[i], c) :: (i, Some(c)))
    + (set i | i in offers && !(exists c :: c in cases && JoinMatches(offers[i], c)) :: (i, None))
  }

  function CaseOf(offer: Row, cases: map<int, Row>): Option<int> {
    var c := At(offer, ValidationCaseId);
    if c.Num? && c.n in cases then Some(c.n) else None
  }

  function Accepts(cases: map<int, Row>, joined: Option<int>, id: int): bool
    requires joined.Some? ==> joined.value in cases
  {
    joined.Some? && At(cases[joined.value], AcceptedFinalOfferId) == Num(id)
  }

  function OfferEntries(offers: map<int, Row>, cases: map<int, Row>): Entries {
    map i | i in offers ::
      Entry(KeyOf(offers[i], CYCLE_KEY), if Accepts(cases, CaseOf(offers[i], cases), i) then 0 else 1, At(offers[i], CreatedAt))
  }

  /** The left join pairs every offer with exactly one partner, so it never multiplies rows. */
  lemma {:induction false} LeftJoinKeepsRowCount(offers: map<int, Row>, cases: map<int, Row>)
    ensures forall i, p :: (i, p) in LeftJoin(offers, cases) <==> i in offers && p == CaseOf(offers[i], cases)
    ensures |LeftJoin(offers, cases)| == |offers|
  {
    var join := LeftJoin(offers, cases);
    forall i, p ensures (i, p) in join <==> i in offers && p == CaseOf(offers[i], cases) {
      if i in offers {
        var c := CaseOf(offers[i], cases);
        if c.Some? { assert JoinMatches(offers[i], c.value); }
      }
    }
    PairsSize(offers.Keys, join, i requires i in offers => CaseOf(offers[i], cases));
  }

  lemma {:induction false} PairsSize(ids: set<int>, pairs: set<(int, Option<int>)>, f: int --> Option<int>)
    requires forall i :: i in ids ==> f.requires(i)
    requires forall i, p :: (i, p) in pairs <==> i in ids && p == f(i)
    ensures |pairs| == |ids|
  {
    if ids == {} {
      assert pairs == {} by {
        forall q | q in pairs ensures q.0 in ids { var (i, p) := q; assert (i, p) in pairs; }
      }
    } else {
      var x := Member(ids);
      PairsSize(ids - {x}, pairs - {(x, f(x))}, f);
      assert (x, f(x)) in pairs;
    }
  }

  /** An offer that its own case has accepted survives, whatever newer duplicates exist. */
  lemma {:induction false} AcceptedOfferSurvives(offers: map<int, Row>, cases: map<int, Row>, offer: int, c: int)
    requires offer in offers && c in cases
    requires At(offers[offer], ValidationCaseId) == Num(c)
    requires At(cases[c], AcceptedFinalOfferId) == Num(offer)
    ensures offer !in Surplus(OfferEntries(offers, cases))
  {
    var e := OfferEntries(offers, cases);
    forall j | j in e && j != offer && e[j].key == e[offer].key ensures Before(e, offer, j) {
      assert e[j].key[0] == e[offer].key[0];
    }
    RankedDeleteSparesTheBest(e, offer);
  }

  /** In a group with no accepted offer the survivor is the newest row by (created_at, id), and all others go. */
  lemma {:induction false} OtherGroupsKeepTheNewest(offers: map<int, Row>, cases: map<int, Row>, i: int, j: int)
    requires i in offers && j in offers && i != j && SameSlot(offers[i], offers[j])
    requires forall k, c :: k in offers && SameSlot(offers[k], offers[i]) && c in cases && At(offers[k], ValidationCaseId) == Num(c) ==>
               At(cases[c], AcceptedFinalOfferId) != Num(k)
    requires i !in Surplus(OfferEntries(offers, cases))
    ensures ListedFirst(At(offers[i], CreatedAt), i, At(offers[j], CreatedAt), j)
    ensures j in Surplus(OfferEntries(offers, cases))
  {
    var e := OfferEntries(offers, cases);
    RankedDeleteSparesTheBest(e, i);
    RankedDeleteSparesTheBest(e, j);
    SlotIsKey(offers[i], offers[j]);
    assert Before(e, i, j) && e[j].priority == e[i].priority;
  }

  /** Among requests the survivor is always the newest row of its slot. */
  lemma {:induction false} RequestsKeepTheNewest(rows: map<int, Row>, i: int, j: int)
    requires i in rows && j in rows && i != j && SameSlot(rows[i], rows[j]) && i !in Surplus(RequestEntries(rows))
    ensures ListedFirst(At(rows[i], CreatedAt), i, At(rows[j], CreatedAt), j) && j in Surplus(RequestEntries(rows))
  {
    var e := RequestEntries(rows);
    RankedDeleteSparesTheBest(e, i);
    RankedDeleteSparesTheBest(e, j);
    SlotIsKey(rows[i], rows[j]);
  }
}
