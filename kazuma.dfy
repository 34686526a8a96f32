/**
 * `KazumaCharEmbedding`: construction (default-policy check, count-triggered
 * clear and reload), the bulk load `load_word2emb` and the lookup `emb`.
 */
module Kazuma {
  import opened Wrappers
  import opened Embedding
  import opened NGramKeys
  import opened WordLoad

  /** The number of entries a complete store holds. */
  const Size: nat := 874474
  /** The embedding dimension. */
  const DEmb: nat := 100
  /** The batch size `load_word2emb` uses unless told otherwise. */
  const BatchSize: int := 1000

  /** How out-of-vocabulary words are to be embedded (stored, never consulted by `emb`). */
  datatype Policy = NonePolicy | RandomPolicy | ZeroPolicy

  /** The name the constructor accepts for each policy. */
  function PolicyName(p: Policy): (s: string)
    ensures s == "none" || s == "random" || s == "zero"
  {
    match p
    case NonePolicy => "none"
    case RandomPolicy => "random"
    case ZeroPolicy => "zero"
  }

  /** The policy named `s`, if `s` is one of the accepted names. */
  function ParsePolicy(s: string): (r: Option<Policy>)
    ensures r.Some? <==> s == "none" || s == "random" || s == "zero"
    ensures r.Some? ==> PolicyName(r.value) == s
  {
    if s == "none" then Some(NonePolicy)
    else if s == "random" then Some(RandomPolicy)
    else if s == "zero" then Some(ZeroPolicy)
    else None
  }

  /** Every policy's name is accepted and names that policy. */
  lemma PolicyRoundTrip(p: Policy)
    ensures ParsePolicy(PolicyName(p)) == Some(p)
  {
  }

  /** The failed `assert default in {...}` of the constructor. */
  datatype ConfigError = InvalidDefault(given: string)

  /** The store log entries of inserting `bs` batch by batch. */
  function Inserts(bs: seq<seq<Entry>>): seq<StoreOp>
  {
    seq(|bs|, i requires 0 <= i < |bs| => Inserted(bs[i]))
  }

  /** The log entries of batches followed by one more batch. */
  lemma InsertsSnoc(log0: seq<StoreOp>, sent: seq<seq<Entry>>, batch: seq<Entry>)
    ensures log0 + Inserts(sent) + [Inserted(batch)] == log0 + Inserts(sent + [batch])
  {
    var a, b := Inserts(sent) + [Inserted(batch)], Inserts(sent + [batch]);
    forall i | 0 <= i < |a|
      ensures a[i] == b[i]
    {
      if i < |sent| {
        assert (sent + [batch])[i] == sent[i];
      }
    }
    assert a == b;
  }

  /** Sending one more batch extends the flattened batches and the store by it. */
  lemma SendStep(m0: map<string, Vector>, sent: seq<seq<Entry>>, batch: seq<Entry>)
    ensures Flatten(sent + [batch]) == Flatten(sent) + batch
    ensures Apply(Apply(m0, Flatten(sent)), batch) == Apply(m0, Flatten(sent + [batch]))
  {
    FlattenSnoc(sent, batch);
    ApplyConcat(m0, Flatten(sent), batch);
  }

  /**
   * What construction leaves in `db`, which held `data0` with history `log0`
   * before: below `Size` entries it is cleared and then loaded from `lines`
   * batch by batch; otherwise it is left alone.
   */
  ghost predicate Constructed(db: VectorStore, data0: map<string, Vector>, log0: seq<StoreOp>,
                              lines: seq<seq<string>>, parse: string -> real)
    reads db
  {
    var kept := Dedup(ParseAll(lines, DEmb, parse));
    if |data0| < Size then
      db.data == Loaded(ParseAll(lines, DEmb, parse)) &&
      db.log == log0 + [Cleared] + Inserts(Batches(kept, BatchSize))
    else
      db.data == data0 && db.log == log0
  }

  class KazumaCharEmbedding {
    const db: VectorStore
    var default: Policy

    /**
     * Opens the embedding over `db` (already opened); `lines` are the records
     * of the data file, each split into tokens, and `parse` reads a number.
     */
    constructor (default: Policy, db: VectorStore, lines: seq<seq<string>>, parse: string -> real)
      modifies db
      ensures this.db == db && this.default == default
      ensures Constructed(db, old(db.data), old(db.log), lines, parse)
      ensures db.queries == old(db.queries)
    {
      this.db := db;
      this.default := default;
      new;
      var n := db.Count();
      if n < Size {
        db.Clear();
        LoadWord2Emb(lines, parse);
      }
    }

    /**
     * Reads the records in order, keeps the first record of each key and
     * writes the kept records in batches of `batchSize` (by default
     * `BatchSize`), then the rest.
     */
    method LoadWord2Emb(lines: seq<seq<string>>, parse: string -> real, batchSize: int := BatchSize)
      modifies db
      ensures db.data == Apply(old(db.data), Dedup(ParseAll(lines, DEmb, parse)))
      ensures db.log == old(db.log) + Inserts(Batches(Dedup(ParseAll(lines, DEmb, parse)), batchSize))
      ensures db.queries == old(db.queries)
    {
      var seen: set<string> := {};
      var batch: seq<Entry> := [];
      ghost var sent: seq<seq<Entry>> := [];
      ghost var m0 := db.data;
      ghost var es := ParseAll(lines, DEmb, parse);
      for i := 0 to |lines|
        invariant LoadInv(es, i, sent, batch, seen, batchSize)
        invariant db.data == Apply(m0, Flatten(sent))
        invariant db.log == old(db.log) + Inserts(sent)
        invariant db.queries == old(db.queries)
      {
        var e := SplitRecord(lines[i], DEmb, parse);
        if e.key in seen {
          LoadSkip(es, i, sent, batch, seen, batchSize);
        } else {
          LoadKeep(es, i, sent, batch, seen, batchSize);
          seen := seen + {e.key};
          batch := batch + [e];
          if |batch| == batchSize {
            SendStep(m0, sent, batch);
            InsertsSnoc(old(db.log), sent, batch);
            db.InsertBatch(batch);
            sent := sent + [batch];
            batch := [];
          }
        }
      }
      LoadEnd(es, sent, batch, seen, batchSize);
      ghost var all := sent + Rest(batch);
      if batch != [] {
        SendStep(m0, sent, batch);
        InsertsSnoc(old(db.log), sent, batch);
        db.InsertBatch(batch);
        sent := sent + [batch];
      } else {
        assert all == sent;
      }
    }

    /**
     * One step of the inner loop of `emb`: look up the key `g` and, on a hit,
     * record its vector in `matched`; a key seen for the first time is
     * appended to `order`, an overwritten one keeps its place.
     */
    method CollectKey(g: string, ghost ks: seq<string>, order0: seq<string>, matched0: map<string, Vector>)
      returns (order: seq<string>, matched: map<string, Vector>)
      requires Collected(db.data, ks, order0, matched0)
      modifies db
      ensures Collected(db.data, ks + [g], order, matched)
      ensures db.data == old(db.data) && db.log == old(db.log)
      ensures db.queries == old(db.queries) + [g]
    {
      CollectStep(db.data, ks, g, order0, matched0);
      order, matched := order0, matched0;
      var e := db.Lookup(g);
      if e.Some? {
        if g !in matched {
          order := order + [g];
        }
        matched := matched[g := e.value];
      }
    }

    /**
     * The inner loop of `emb`: look up the key of each order-`n` window of
     * `grams` in turn (`CollectKey`); `ks` are the keys looked up before.
     */
    method CollectOrder(n: nat, grams: seq<seq<string>>, ghost ks: seq<string>,
                        order0: seq<string>, matched0: map<string, Vector>)
      returns (order: seq<string>, matched: map<string, Vector>)
      requires 2 <= n <= 4
      requires Collected(db.data, ks, order0, matched0)
      modifies db
      ensures Collected(db.data, ks + KeysOf(n, grams), order, matched)
      ensures db.data == old(db.data) && db.log == old(db.log)
      ensures db.queries == old(db.queries) + KeysOf(n, grams)
    {
      order, matched := order0, matched0;
      ghost var done: seq<string> := [];
      ghost var all := ks;
      assert grams[..0] == [] && ks + done == ks && old(db.queries) + done == old(db.queries);
      for j := 0 to |grams|
        invariant done == KeysOf(n, grams[..j])
        invariant all == ks + done
        invariant Collected(db.data, all, order, matched)
        invariant db.data == old(db.data) && db.log == old(db.log)
        invariant db.queries == old(db.queries) + done
      {
        var g := Key(n, grams[j]);
        KeysOfNext(n, grams, j);
        AppendAssoc(ks, done, [g]);
        AppendAssoc(old(db.queries), done, [g]);
        order, matched := CollectKey(g, all, order, matched);
        done := done + [g];
        all := all + [g];
      }
      assert grams[..|grams|] == grams;
    }

    /**
     * The embedding of `w`: the mean of the stored vectors of the distinct
     * n-gram keys of `w`, or `DEmb` zeros when none is stored. Exactly the
     * keys `QueryKeys(w)` are looked up, in that order, and the store's
     * content is not changed.
     */
    method Emb(w: string) returns (r: Result<Vector, EmbError>)
      modifies db
      ensures r == EmbOf(db.data, w, DEmb)
      ensures db.data == old(db.data) && db.log == old(db.log)
      ensures db.queries == old(db.queries) + QueryKeys(w)
    {
      var chars := Padded(w);
      var matched: map<string, Vector> := map[];
      var order: seq<string> := [];
      ghost var done: seq<string> := [];
      for n := 2 to 5
        invariant done == KeysUpTo(chars, n)
        invariant Collected(db.data, done, order, matched)
        invariant db.data == old(db.data) && db.log == old(db.log)
        invariant db.queries == old(db.queries) + done
      {
        var grams := NGrams(chars, n);
        AppendAssoc(old(db.queries), done, KeysOf(n, grams));
        order, matched := CollectOrder(n, grams, done, order, matched);
        done := done + KeysOf(n, grams);
      }
      CollectedValues(db.data, QueryKeys(w), order, matched);
      if matched == map[] {
        r := Success(Zeros(DEmb));
      } else {
        var m := Mean(Values(matched, order));
        r := if m.Some? then Success(m.value) else Failure(ShapeMismatch);
      }
    }
  }

  /**
   * `KazumaCharEmbedding(default=...)`: an unknown policy name fails before
   * the store is touched; otherwise construction proceeds. Without a
   * `default` argument the policy is `none`.
   */
  method Create(db: VectorStore, lines: seq<seq<string>>, parse: string -> real, default: string := "none")
    returns (r: Result<KazumaCharEmbedding, ConfigError>)
    modifies db
    ensures r.Failure? <==> ParsePolicy(default).None?
    ensures r.Failure? ==> r.error == InvalidDefault(default) && db.data == old(db.data) && db.log == old(db.log)
    ensures r.Success? ==> fresh(r.value) && r.value.db == db && Some(r.value.default) == ParsePolicy(default)
    ensures r.Success? ==> Constructed(db, old(db.data), old(db.log), lines, parse)
    ensures db.queries == old(db.queries)
  {
    var p := ParsePolicy(default);
    if p.None? {
      return Failure(InvalidDefault(default));
    }
    var k := new KazumaCharEmbedding(p.value, db, lines, parse);
    r := Success(k);
  }
}
