/** The two `INSERT … ON CONFLICT` forms the sync uses, as writes on a table keyed by its
    conflict target, and what a sequence of them leaves behind. */
module Writes {
  import opened Wrappers

  /** `Upsert` is `onConflictDoUpdate` that sets every non-key column; `InsertIfAbsent` is
      `onConflictDoNothing`. */
  datatype Write<K, V> = Upsert(key: K, value: V) | InsertIfAbsent(key: K, value: V)

  function Apply<K(==), V>(m: map<K, V>, w: Write<K, V>): (r: map<K, V>)
    ensures r.Keys == m.Keys + {w.key}
    ensures forall k :: k in m && k != w.key ==> r[k] == m[k]
  {
    match w
    case Upsert(k, v) => m[k := v]
    case InsertIfAbsent(k, v) => if k in m then m else m[k := v]
  }

  /** The writes applied one after another, first to last. */
  function ApplyAll<K(==), V>(m: map<K, V>, ws: seq<Write<K, V>>): map<K, V>
    decreases |ws|
  {
    if |ws| == 0 then m else Apply(ApplyAll(m, ws[..|ws| - 1]), ws[|ws| - 1])
  }

  /** The value of the last `Upsert` of key `k`, if any. */
  function LastUpsert<K(==), V>(ws: seq<Write<K, V>>, k: K): (r: Option<V>)
    ensures r.Some? ==> exists i :: 0 <= i < |ws| && ws[i] == Upsert(k, r.value) &&
                          forall j :: i < j < |ws| ==> !(ws[j].Upsert? && ws[j].key == k)
    ensures r.None? ==> forall i :: 0 <= i < |ws| ==> !(ws[i].Upsert? && ws[i].key == k)
    decreases |ws|
  {
    if |ws| == 0 then None
    else if ws[|ws| - 1].Upsert? && ws[|ws| - 1].key == k then Some(ws[|ws| - 1].value)
    else LastUpsert(ws[..|ws| - 1], k)
  }

  /** The value of the first `InsertIfAbsent` of key `k`, if any. */
  function FirstInsert<K(==), V>(ws: seq<Write<K, V>>, k: K): (r: Option<V>)
    ensures r.Some? ==> exists i :: 0 <= i < |ws| && ws[i] == InsertIfAbsent(k, r.value)
    ensures r.None? ==> forall i :: 0 <= i < |ws| ==> !(ws[i].InsertIfAbsent? && ws[i].key == k)
    decreases |ws|
  {
    if |ws| == 0 then None
    else
      var earlier := FirstInsert(ws[..|ws| - 1], k);
      if earlier.Some? then earlier
      else if ws[|ws| - 1].InsertIfAbsent? && ws[|ws| - 1].key == k then Some(ws[|ws| - 1].value)
      else None
  }

  /** What is stored under `k` after a sequence of writes: the last upsert of `k` wins; without
      one, an existing row stays; without that, the first insert of `k` creates it. */
  function Final<K(==), V>(m: map<K, V>, ws: seq<Write<K, V>>, k: K): Option<V>
  {
    match LastUpsert(ws, k)
    case Some(v) => Some(v)
    case None =>
      if k in m then Some(m[k]) else FirstInsert(ws, k)
  }

  lemma {:induction false} ApplyAllAt<K, V>(m: map<K, V>, ws: seq<Write<K, V>>, k: K)
    ensures k in ApplyAll(m, ws) <==> Final(m, ws, k).Some?
    ensures k in ApplyAll(m, ws) ==> ApplyAll(m, ws)[k] == Final(m, ws, k).value
    decreases |ws|
  {
    if |ws| > 0 {
      ApplyAllAt(m, ws[..|ws| - 1], k);
    }
  }

  /** Applying the same writes a second time changes nothing: the sync converges. */
  lemma ApplyAllIdempotent<K, V>(m: map<K, V>, ws: seq<Write<K, V>>)
    ensures ApplyAll(ApplyAll(m, ws), ws) == ApplyAll(m, ws)
  {
    var once := ApplyAll(m, ws);
    var twice := ApplyAll(once, ws);
    forall k | k in once.Keys + twice.Keys
      ensures k in once && k in twice && twice[k] == once[k]
    {
      ApplyAllAt(m, ws, k);
      ApplyAllAt(once, ws, k);
    }
    assert twice.Keys == once.Keys;
  }

  lemma {:induction false} ApplyAllAppend<K, V>(m: map<K, V>, a: seq<Write<K, V>>, b: seq<Write<K, V>>)
    ensures ApplyAll(m, a + b) == ApplyAll(ApplyAll(m, a), b)
    decreases |b|
  {
    if |b| > 0 {
      assert (a + b)[..|a + b| - 1] == a + b[..|b| - 1];
      ApplyAllAppend(m, a, b[..|b| - 1]);
    } else {
      assert a + b == a;
    }
  }

  /** Writes never remove a row. */
  lemma {:induction false} ApplyAllKeepsKeys<K, V>(m: map<K, V>, ws: seq<Write<K, V>>)
    ensures m.Keys <= ApplyAll(m, ws).Keys
    ensures forall i :: 0 <= i < |ws| ==> ws[i].key in ApplyAll(m, ws)
    decreases |ws|
  {
    if |ws| > 0 {
      ApplyAllKeepsKeys(m, ws[..|ws| - 1]);
    }
  }
}
