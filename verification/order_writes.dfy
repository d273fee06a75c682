/** The order upsert: `INSERT … ON CONFLICT (external_order_id, order_type) DO UPDATE`, where
    a date or time that did not parse is passed as `undefined` and so is left out of both the
    inserted row (which then holds NULL) and the update (which then keeps the old value). */
module OrderWrites {
  import opened Wrappers
  import opened Feed
  import opened Schema

  /** The column values one transaction supplies; `None` date or time means "not supplied". */
  datatype OrderPatch = OrderPatch(
    orderFinishedDate: Option<string>,
    orderFinishedTime: Option<string>,
    finishedAt: int,
    rawPayload: Transaction)

  datatype OrderUpsert = OrderUpsert(key: OrderKey, patch: OrderPatch)

  /** A supplied value replaces the column; an unsupplied one keeps the previous value. */
  function Supplied(given: Option<string>, previous: Option<string>): Option<string>
  {
    if given.Some? then given else previous
  }

  function ApplyUpsert(m: map<OrderKey, Order>, u: OrderUpsert): (r: map<OrderKey, Order>)
    ensures r.Keys == m.Keys + {u.key}
    ensures forall k :: k in m && k != u.key ==> r[k] == m[k]
    ensures r[u.key].finishedAt == u.patch.finishedAt && r[u.key].rawPayload == u.patch.rawPayload
    ensures u.patch.orderFinishedDate.Some? ==> r[u.key].orderFinishedDate == u.patch.orderFinishedDate
    ensures u.patch.orderFinishedTime.Some? ==> r[u.key].orderFinishedTime == u.patch.orderFinishedTime
    ensures u.key in m && u.patch.orderFinishedDate.None? ==> r[u.key].orderFinishedDate == m[u.key].orderFinishedDate
    ensures u.key in m && u.patch.orderFinishedTime.None? ==> r[u.key].orderFinishedTime == m[u.key].orderFinishedTime
    ensures u.key !in m ==> r[u.key].orderFinishedDate == u.patch.orderFinishedDate
    ensures u.key !in m ==> r[u.key].orderFinishedTime == u.patch.orderFinishedTime
  {
    var p := u.patch;
    if u.key in m then
      var previous := m[u.key];
      m[u.key := Order(Supplied(p.orderFinishedDate, previous.orderFinishedDate),
                       Supplied(p.orderFinishedTime, previous.orderFinishedTime),
                       p.finishedAt, p.rawPayload)]
    else
      m[u.key := Order(p.orderFinishedDate, p.orderFinishedTime, p.finishedAt, p.rawPayload)]
  }

  function ApplyUpserts(m: map<OrderKey, Order>, us: seq<OrderUpsert>): map<OrderKey, Order>
    decreases |us|
  {
    if |us| == 0 then m else ApplyUpsert(ApplyUpserts(m, us[..|us| - 1]), us[|us| - 1])
  }

  /** The patch of the last upsert of `k`, if any. */
  function LastPatch(us: seq<OrderUpsert>, k: OrderKey): (r: Option<OrderPatch>)
    ensures r.Some? <==> exists i :: 0 <= i < |us| && us[i].key == k
    decreases |us|
  {
    if |us| == 0 then None
    else if us[|us| - 1].key == k then Some(us[|us| - 1].patch)
    else LastPatch(us[..|us| - 1], k)
  }

  /** The last date supplied for `k`, if any upsert of `k` supplied one. */
  function LastDate(us: seq<OrderUpsert>, k: OrderKey): (r: Option<string>)
    ensures r.Some? ==> LastPatch(us, k).Some?
    decreases |us|
  {
    if |us| == 0 then None
    else if us[|us| - 1].key == k && us[|us| - 1].patch.orderFinishedDate.Some? then
      us[|us| - 1].patch.orderFinishedDate
    else LastDate(us[..|us| - 1], k)
  }

  /** The last time supplied for `k`, if any upsert of `k` supplied one. */
  function LastTime(us: seq<OrderUpsert>, k: OrderKey): (r: Option<string>)
    ensures r.Some? ==> LastPatch(us, k).Some?
    decreases |us|
  {
    if |us| == 0 then None
    else if us[|us| - 1].key == k && us[|us| - 1].patch.orderFinishedTime.Some? then
      us[|us| - 1].patch.orderFinishedTime
    else LastTime(us[..|us| - 1], k)
  }

  /** What is stored under `k` after a sequence of order upserts, column by column. */
  function FinalOrder(m: map<OrderKey, Order>, us: seq<OrderUpsert>, k: OrderKey): Option<Order>
  {
    match LastPatch(us, k)
    case None => if k in m then Some(m[k]) else None
    case Some(p) =>
      var before := if k in m then m[k].orderFinishedDate else None;
      var beforeTime := if k in m then m[k].orderFinishedTime else None;
      Some(Order(Supplied(LastDate(us, k), before), Supplied(LastTime(us, k), beforeTime),
                 p.finishedAt, p.rawPayload))
  }

  /** The last upsert of a key decides its patch, and its date and time when it supplies them. */
  lemma {:induction false} LastPatchAt(us: seq<OrderUpsert>, i: int)
    requires 0 <= i < |us|
    requires forall j :: i < j < |us| ==> us[j].key != us[i].key
    ensures LastPatch(us, us[i].key) == Some(us[i].patch)
    ensures us[i].patch.orderFinishedDate.Some? ==> LastDate(us, us[i].key) == us[i].patch.orderFinishedDate
    ensures us[i].patch.orderFinishedTime.Some? ==> LastTime(us, us[i].key) == us[i].patch.orderFinishedTime
    decreases |us|
  {
    if i < |us| - 1 {
      assert us[..|us| - 1][i] == us[i];
      LastPatchAt(us[..|us| - 1], i);
    }
  }

  /** Upserts of other keys leave an order as it is. */
  lemma {:induction false} ApplyUpsertsOtherKey(m: map<OrderKey, Order>, us: seq<OrderUpsert>, k: OrderKey)
    requires forall i :: 0 <= i < |us| ==> us[i].key != k
    ensures k in ApplyUpserts(m, us) <==> k in m
    ensures k in m ==> ApplyUpserts(m, us)[k] == m[k]
    decreases |us|
  {
    if |us| > 0 {
      ApplyUpsertsOtherKey(m, us[..|us| - 1], k);
    }
  }

  lemma {:induction false} ApplyUpsertsAt(m: map<OrderKey, Order>, us: seq<OrderUpsert>, k: OrderKey)
    ensures k in ApplyUpserts(m, us) <==> FinalOrder(m, us, k).Some?
    ensures k in ApplyUpserts(m, us) ==> ApplyUpserts(m, us)[k] == FinalOrder(m, us, k).value
    decreases |us|
  {
    if |us| > 0 {
      ApplyUpsertsAt(m, us[..|us| - 1], k);
    }
  }

  /** Re-running the same order upserts changes nothing. */
  lemma ApplyUpsertsIdempotent(m: map<OrderKey, Order>, us: seq<OrderUpsert>)
    ensures ApplyUpserts(ApplyUpserts(m, us), us) == ApplyUpserts(m, us)
  {
    var once := ApplyUpserts(m, us);
    var twice := ApplyUpserts(once, us);
    forall k | k in once.Keys + twice.Keys
      ensures k in once && k in twice && twice[k] == once[k]
    {
      ApplyUpsertsAt(m, us, k);
      ApplyUpsertsAt(once, us, k);
    }
    assert twice.Keys == once.Keys;
  }

  /** Two patches that agree on everything but the `finishedAt` stamp. */
  predicate SameButStamp(p: OrderPatch, q: OrderPatch)
  {
    p.orderFinishedDate == q.orderFinishedDate && p.orderFinishedTime == q.orderFinishedTime && p.rawPayload == q.rawPayload
  }

  /** Two lists of upserts, position by position of the same key, that differ at most in the
      timestamps they write. */
  predicate Restamped(us: seq<OrderUpsert>, vs: seq<OrderUpsert>)
  {
    && |us| == |vs|
    && forall i :: 0 <= i < |us| ==> us[i].key == vs[i].key && SameButStamp(us[i].patch, vs[i].patch)
  }

  lemma RestampedAppend(us: seq<OrderUpsert>, vs: seq<OrderUpsert>, us2: seq<OrderUpsert>, vs2: seq<OrderUpsert>)
    requires Restamped(us, vs) && Restamped(us2, vs2)
    ensures Restamped(us + us2, vs + vs2)
  {
  }

  /** Restamped upserts reach the same keys and supply the same last date and time. */
  lemma {:induction false} RestampedLast(us: seq<OrderUpsert>, vs: seq<OrderUpsert>, k: OrderKey)
    requires Restamped(us, vs)
    ensures LastPatch(us, k).Some? <==> LastPatch(vs, k).Some?
    ensures LastPatch(us, k).Some? ==> SameButStamp(LastPatch(us, k).value, LastPatch(vs, k).value)
    ensures LastDate(us, k) == LastDate(vs, k) && LastTime(us, k) == LastTime(vs, k)
    decreases |us|
  {
    if |us| > 0 {
      var n := |us|;
      assert Restamped(us[..n - 1], vs[..n - 1]) by {
        forall i | 0 <= i < n - 1
          ensures us[..n - 1][i] == us[i] && vs[..n - 1][i] == vs[i]
        {
        }
      }
      RestampedLast(us[..n - 1], vs[..n - 1], k);
    }
  }

  /** Re-running the upserts of a run with other timestamps gives the store that run alone
      gives: every key it restamps was upserted by the first run with the same dates. */
  lemma ApplyUpsertsRestamped(m: map<OrderKey, Order>, us: seq<OrderUpsert>, vs: seq<OrderUpsert>)
    requires Restamped(us, vs)
    ensures ApplyUpserts(ApplyUpserts(m, us), vs) == ApplyUpserts(m, vs)
  {
    var once := ApplyUpserts(m, us);
    var twice := ApplyUpserts(once, vs);
    var direct := ApplyUpserts(m, vs);
    forall k | k in twice.Keys + direct.Keys
      ensures k in twice && k in direct && twice[k] == direct[k]
    {
      ApplyUpsertsAt(m, us, k);
      ApplyUpsertsAt(once, vs, k);
      ApplyUpsertsAt(m, vs, k);
      RestampedLast(us, vs, k);
    }
    assert twice.Keys == direct.Keys;
  }

  lemma {:induction false} ApplyUpsertsAppend(m: map<OrderKey, Order>, a: seq<OrderUpsert>, b: seq<OrderUpsert>)
    ensures ApplyUpserts(m, a + b) == ApplyUpserts(ApplyUpserts(m, a), b)
    decreases |b|
  {
    if |b| > 0 {
      assert (a + b)[..|a + b| - 1] == a + b[..|b| - 1];
      ApplyUpsertsAppend(m, a, b[..|b| - 1]);
    } else {
      assert a + b == a;
    }
  }

  /** Upserts never remove an order, and every upserted key is present afterwards. */
  lemma {:induction false} ApplyUpsertsKeepsKeys(m: map<OrderKey, Order>, us: seq<OrderUpsert>)
    ensures m.Keys <= ApplyUpserts(m, us).Keys
    ensures forall i :: 0 <= i < |us| ==> us[i].key in ApplyUpserts(m, us)
    decreases |us|
  {
    if |us| > 0 {
      ApplyUpsertsKeepsKeys(m, us[..|us| - 1]);
    }
  }
}
