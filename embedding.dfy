/**
 * The key-value store that the embedding classes inherit (`initialize_db`,
 * `lookup`, `insert_batch`, `clear`, `__len__`). Its implementation is not part
 * of this model; it is specified abstractly as a map from keys to vectors.
 */
module Embedding {
  import opened Wrappers

  /** A stored vector (32-bit floats in the source, reals here). */
  type Vector = seq<real>

  /** One record handed to `insert_batch`. */
  datatype Entry = Entry(key: string, vec: Vector)

  /** One mutating call on the store, in the order the calls were made. */
  datatype StoreOp = Cleared | Inserted(batch: seq<Entry>)

  /** The set of keys that occur in `es`. */
  function KeySet(es: seq<Entry>): set<string>
  {
    set i | 0 <= i < |es| :: es[i].key
  }

  /** Appending an entry adds its key. */
  lemma KeySetAppend(es: seq<Entry>, e: Entry)
    ensures KeySet(es + [e]) == KeySet(es) + {e.key}
  {
    var s := es + [e];
    assert s[|es|] == e;
    forall k | k in KeySet(es)
      ensures k in KeySet(s)
    {
      var i :| 0 <= i < |es| && es[i].key == k;
      assert s[i] == es[i];
    }
  }

  /** Concatenation is associative (stated once, where the solver would otherwise search for it). */
  lemma AppendAssoc<T>(a: seq<T>, b: seq<T>, c: seq<T>)
    ensures a + b + c == a + (b + c)
  {
  }

  /** No two entries of `es` share a key. */
  predicate DistinctKeys(es: seq<Entry>)
  {
    forall i, j :: 0 <= i < j < |es| ==> es[i].key != es[j].key
  }

  /** The store `m` after writing the entries of `batch` one after another: a later write of a key overwrites an earlier one. */
  function Apply(m: map<string, Vector>, batch: seq<Entry>): (r: map<string, Vector>)
    ensures r.Keys == m.Keys + KeySet(batch)
  {
    if batch == [] then m
    else
      var last := batch[|batch| - 1];
      var r0 := Apply(m, batch[..|batch| - 1]);
      assert KeySet(batch) == KeySet(batch[..|batch| - 1]) + {last.key} by {
        assert batch == batch[..|batch| - 1] + [last];
      }
      r0[last.key := last.vec]
  }

  /** Writing two batches one after the other is writing their concatenation. */
  lemma {:induction false} ApplyConcat(m: map<string, Vector>, xs: seq<Entry>, ys: seq<Entry>)
    ensures Apply(Apply(m, xs), ys) == Apply(m, xs + ys)
    decreases |ys|
  {
    if ys == [] {
      assert xs + ys == xs;
    } else {
      var ys0 := ys[..|ys| - 1];
      ApplyConcat(m, xs, ys0);
      assert (xs + ys)[..|xs + ys| - 1] == xs + ys0;
      assert (xs + ys)[|xs + ys| - 1] == ys[|ys| - 1];
    }
  }

  /** When the keys of `batch` are distinct, each entry's vector is what the store holds for its key afterwards, and other keys keep their old vector. */
  lemma {:induction false} ApplyDistinct(m: map<string, Vector>, batch: seq<Entry>)
    requires DistinctKeys(batch)
    ensures forall i :: 0 <= i < |batch| ==> Apply(m, batch)[batch[i].key] == batch[i].vec
    ensures forall k :: k in m && k !in KeySet(batch) ==> Apply(m, batch)[k] == m[k]
    decreases |batch|
  {
    if batch != [] {
      var b0 := batch[..|batch| - 1];
      var last := batch[|batch| - 1];
      assert batch == b0 + [last];
      assert DistinctKeys(b0);
      ApplyDistinct(m, b0);
      var r0 := Apply(m, b0);
      assert Apply(m, batch) == r0[last.key := last.vec];
      forall i | 0 <= i < |batch|
        ensures Apply(m, batch)[batch[i].key] == batch[i].vec
      {
        if i < |batch| - 1 {
          assert batch[i] == b0[i];
          assert batch[i].key != last.key;
        }
      }
      KeySetAppend(b0, last);
    }
  }

  /** Writing entries with distinct keys into an empty store stores exactly one vector per entry. */
  lemma ApplyDistinctCount(batch: seq<Entry>)
    requires DistinctKeys(batch)
    ensures |Apply(map[], batch)| == |batch|
  {
    DistinctKeysCard(batch);
  }

  /** Distinct keys: as many keys as entries. */
  lemma {:induction false} DistinctKeysCard(es: seq<Entry>)
    requires DistinctKeys(es)
    ensures |KeySet(es)| == |es|
    decreases |es|
  {
    if es != [] {
      var e0 := es[..|es| - 1];
      DistinctKeysCard(e0);
      assert KeySet(es) == KeySet(e0) + {es[|es| - 1].key} by {
        assert es == e0 + [es[|es| - 1]];
      }
      assert es[|es| - 1].key !in KeySet(e0);
    }
  }

  /**
   * The persistent store. `data` is its content; for the proofs, `log`
   * records each clear and each batch insert in call order, and `queries`
   * each key looked up, in call order.
   */
  class VectorStore {
    var data: map<string, Vector>
    ghost var log: seq<StoreOp>
    ghost var queries: seq<string>

    /** A store opened over whatever `initial` content it already persists. */
    constructor (initial: map<string, Vector>)
      ensures data == initial && log == [] && queries == []
    {
      data := initial;
      log := [];
      queries := [];
    }

    /** Exact-key lookup; a miss is `None`, never an error. The content is not changed. */
    method Lookup(key: string) returns (r: Option<Vector>)
      modifies this
      ensures r.Some? <==> key in data
      ensures r.Some? ==> r.value == data[key]
      ensures data == old(data) && log == old(log) && queries == old(queries) + [key]
    {
      r := if key in data then Some(data[key]) else None;
      queries := queries + [key];
    }

    /** Writes a batch; an existing key is overwritten. */
    method InsertBatch(batch: seq<Entry>)
      modifies this
      ensures data == Apply(old(data), batch)
      ensures log == old(log) + [Inserted(batch)] && queries == old(queries)
    {
      data := Apply(data, batch);
      log := log + [Inserted(batch)];
    }

    /** Removes every entry; the store stays usable. */
    method Clear()
      modifies this
      ensures data == map[]
      ensures log == old(log) + [Cleared] && queries == old(queries)
    {
      data := map[];
      log := log + [Cleared];
    }

    /** The number of distinct keys stored (`len(self)`). */
    method Count() returns (n: nat)
      ensures n == |data|
    {
      n := |data|;
    }
  }
}
