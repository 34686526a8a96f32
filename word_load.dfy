/**
 * The pure side of `KazumaCharEmbedding.load_word2emb`: splitting a record
 * into key and vector, keeping the first record of each key, and cutting the
 * kept records into the batches handed to `insert_batch`.
 */
module WordLoad {
  import opened Embedding

  /** The total number of characters in `toks`. */
  function TokenChars(toks: seq<string>): nat
  {
    if toks == [] then 0 else |toks[0]| + TokenChars(toks[1..])
  }

  /** `sep.join(toks)`: the tokens with one separator between each two of them. */
  function Join(toks: seq<string>, sep: string): (r: string)
    ensures toks == [] ==> r == ""
    ensures toks != [] ==> |r| == TokenChars(toks) + (|toks| - 1) * |sep|
  {
    if toks == [] then ""
    else if |toks| == 1 then toks[0]
    else
      assert (|toks| - 1) * |sep| == (|toks| - 2) * |sep| + |sep|;
      toks[0] + sep + Join(toks[1..], sep)
  }

  /**
   * Joining grows from the end as well: one token joins to itself, and one
   * more token adds a separator and that token.
   */
  lemma {:induction false} JoinSnoc(toks: seq<string>, t: string, sep: string)
    ensures Join([t], sep) == t
    ensures toks != [] ==> Join(toks + [t], sep) == Join(toks, sep) + sep + t
    decreases |toks|
  {
    if |toks| > 1 {
      assert (toks + [t])[1..] == toks[1..] + [t];
      JoinSnoc(toks[1..], t, sep);
      assert Join(toks + [t], sep) == toks[0] + sep + (Join(toks[1..], sep) + sep + t);
    } else if |toks| == 1 {
      assert (toks + [t])[1..] == [t];
    }
  }

  /**
   * Where a record of `len` tokens is cut by the slices `elems[:-d]` and
   * `elems[-d:]`: the last `d` tokens, or all of them when the record is not
   * longer than `d`; `-0` is `0`, so `d == 0` puts every token in the vector.
   */
  function Cut(len: nat, d: nat): (c: nat)
    ensures c <= len
  {
    if d > 0 && len > d then len - d else 0
  }

  /**
   * Python's bound for slice index `i` on a sequence of `len` elements: a
   * negative index counts from the end, and the result is clamped to `[0, len]`.
   */
  function SliceBound(len: nat, i: int): (r: nat)
    ensures r <= len
  {
    if i < 0 then (if len + i < 0 then 0 else len + i)
    else if i > len then len else i
  }

  /** `Cut` is where Python puts the bound `-d` of `elems[:-d]` and `elems[-d:]`, for every `d`. */
  lemma CutIsSliceBound(len: nat, d: nat)
    ensures Cut(len, d) == SliceBound(len, -(d as int))
  {
  }

  /** The key tokens and the vector tokens of a record, which together are the record. */
  function SplitTokens(elems: seq<string>, d: nat): (r: (seq<string>, seq<string>))
    ensures r.0 + r.1 == elems
    ensures d > 0 ==> |r.1| == if |elems| < d then |elems| else d
    ensures d == 0 ==> r.0 == []
  {
    var c := Cut(|elems|, d);
    (elems[..c], elems[c..])
  }

  /**
   * The entry of one record: the key tokens joined by single spaces, the
   * vector tokens parsed. A record of more than `d` tokens (`d > 0`) has its
   * last `d` tokens as the vector; any other record is not rejected: its key
   * is empty and its vector holds all of its tokens.
   */
  function SplitRecord(elems: seq<string>, d: nat, parse: string -> real): (e: Entry)
    ensures 0 < d < |elems| ==>
      && e.key == Join(elems[..|elems| - d], " ")
      && |e.vec| == d
      && forall i :: 0 <= i < d ==> e.vec[i] == parse(elems[|elems| - d + i])
    ensures d == 0 || |elems| <= d ==>
      && e.key == ""
      && |e.vec| == |elems|
      && forall i :: 0 <= i < |elems| ==> e.vec[i] == parse(elems[i])
  {
    var (keyToks, vecToks) := SplitTokens(elems, d);
    Entry(Join(keyToks, " "), seq(|vecToks|, i requires 0 <= i < |vecToks| => parse(vecToks[i])))
  }

  /** Every record of the stream as an entry. */
  function ParseAll(lines: seq<seq<string>>, d: nat, parse: string -> real): seq<Entry>
  {
    seq(|lines|, i requires 0 <= i < |lines| => SplitRecord(lines[i], d, parse))
  }

  /** The records kept by the `seen` set: the first record of each key, in stream order. */
  function Dedup(es: seq<Entry>): (r: seq<Entry>)
    ensures DistinctKeys(r)
    ensures KeySet(r) == KeySet(es)
  {
    if es == [] then []
    else
      var es0 := es[..|es| - 1];
      var last := es[|es| - 1];
      var r0 := Dedup(es0);
      KeySetAppend(es0, last);
      assert es == es0 + [last];
      if last.key in KeySet(r0) then r0
      else
        KeySetAppend(r0, last);
        r0 + [last]
  }

  /** Reading one more record keeps it exactly when its key has not been seen. */
  lemma DedupStep(es: seq<Entry>, i: nat)
    requires i < |es|
    ensures var before := Dedup(es[..i]);
      Dedup(es[..i + 1]) == if es[i].key in KeySet(before) then before else before + [es[i]]
  {
    assert es[..i + 1][..i] == es[..i];
  }

  /** Record `i` is the first with its key. */
  ghost predicate IsFirst(es: seq<Entry>, i: int)
  {
    0 <= i < |es| && forall k :: 0 <= k < i ==> es[k].key != es[i].key
  }

  /** A record is the first of its key exactly when its key does not occur before it. */
  lemma IsFirstPrefix(es: seq<Entry>, i: int)
    requires 0 <= i < |es|
    ensures IsFirst(es, i) <==> es[i].key !in KeySet(es[..i])
  {
    if !IsFirst(es, i) {
      var k :| 0 <= k < i && es[k].key == es[i].key;
      assert es[..i][k] == es[k];
    }
  }

  /** The positions of the first record of each key, in increasing order. */
  function FirstIndices(es: seq<Entry>): (r: seq<nat>)
    ensures forall j :: 0 <= j < |r| ==> r[j] < |es|
    ensures forall j, j' :: 0 <= j < j' < |r| ==> r[j] < r[j']
    ensures forall i :: 0 <= i < |es| ==> (i in r <==> IsFirst(es, i))
  {
    if es == [] then []
    else
      var es0 := es[..|es| - 1];
      var r0 := FirstIndices(es0);
      assert forall i :: 0 <= i < |es0| ==> (IsFirst(es, i) <==> IsFirst(es0, i));
      IsFirstPrefix(es, |es| - 1);
      if es[|es| - 1].key !in KeySet(es0) then r0 + [|es| - 1] else r0
  }

  /** The kept records are exactly the first record of each key, in the order those records occur. */
  lemma {:induction false} DedupFirstOccurrences(es: seq<Entry>)
    ensures var r, fi := Dedup(es), FirstIndices(es);
      |r| == |fi| && forall j :: 0 <= j < |r| ==> r[j] == es[fi[j]]
    decreases |es|
  {
    if es != [] {
      var es0 := es[..|es| - 1];
      var last := es[|es| - 1];
      DedupFirstOccurrences(es0);
      var r0, fi0 := Dedup(es0), FirstIndices(es0);
      assert KeySet(r0) == KeySet(es0);
      forall j | 0 <= j < |fi0|
        ensures r0[j] == es[fi0[j]]
      {
        assert es0[fi0[j]] == es[fi0[j]];
      }
      if last.key in KeySet(es0) {
        assert Dedup(es) == r0;
        assert FirstIndices(es) == fi0;
      } else {
        assert Dedup(es) == r0 + [last];
        assert FirstIndices(es) == fi0 + [|es| - 1];
      }
    }
  }

  /** The first record of every key is kept. */
  lemma DedupKeepsFirst(es: seq<Entry>, i: int)
    requires IsFirst(es, i)
    ensures es[i] in Dedup(es)
  {
    DedupFirstOccurrences(es);
    var fi := FirstIndices(es);
    var j :| 0 <= j < |fi| && fi[j] == i;
    assert Dedup(es)[j] == es[i];
  }

  /** The batches concatenated in order. */
  function Flatten(bs: seq<seq<Entry>>): seq<Entry>
  {
    if bs == [] then [] else Flatten(bs[..|bs| - 1]) + bs[|bs| - 1]
  }

  /** Flattening batches followed by one more batch. */
  lemma FlattenSnoc(bs: seq<seq<Entry>>, c: seq<Entry>)
    ensures Flatten(bs + [c]) == Flatten(bs) + c
  {
    assert (bs + [c])[..|bs|] == bs;
  }

  /** Flattening a batch followed by more batches. */
  lemma {:induction false} FlattenCons(c: seq<Entry>, bs: seq<seq<Entry>>)
    ensures Flatten([c] + bs) == c + Flatten(bs)
    decreases |bs|
  {
    if bs != [] {
      var bs0 := bs[..|bs| - 1];
      FlattenCons(c, bs0);
      assert ([c] + bs)[..|bs|] == [c] + bs0;
    }
  }

  /**
   * The batches `load_word2emb` hands to `insert_batch` for the kept records
   * `es`: full batches of `b` as soon as `b` records are collected, then the
   * rest. A batch size that the length of the batch can never equal (zero or
   * negative) leaves everything to the final flush.
   */
  function Batches(es: seq<Entry>, b: int): (bs: seq<seq<Entry>>)
    ensures bs == [] <==> es == []
    decreases |es|
  {
    if es == [] then []
    else if 0 < b <= |es| then [es[..b]] + Batches(es[b..], b)
    else [es]
  }

  /** Every batch is non-empty and at most `b` long, every batch but the last is exactly `b` long, and the batches concatenate to `es`. */
  lemma {:induction false} BatchesShape(es: seq<Entry>, b: int)
    ensures var bs := Batches(es, b);
      && Flatten(bs) == es
      && (forall i :: 0 <= i < |bs| ==> bs[i] != [])
      && (b > 0 ==> forall i :: 0 <= i < |bs| ==> |bs[i]| <= b)
      && (b > 0 ==> forall i :: 0 <= i < |bs| - 1 ==> |bs[i]| == b)
      && (b <= 0 ==> |bs| <= 1)
    decreases |es|
  {
    if es != [] && 0 < b <= |es| {
      var rest := Batches(es[b..], b);
      var bs := Batches(es, b);
      BatchesShape(es[b..], b);
      FlattenCons(es[..b], rest);
      assert es[..b] + es[b..] == es;
      assert bs == [es[..b]] + rest;
      assert forall i :: 0 < i < |bs| ==> bs[i] == rest[i - 1];
    } else if es != [] {
      assert Flatten([es]) == Flatten([]) + es;
    }
  }

  /**
   * With `b > 0`, `insert_batch` is called `ceil(|es| / b)` times: the fewest
   * batches of at most `b` that hold `es`.
   */
  lemma {:induction false} BatchesCount(es: seq<Entry>, b: int)
    requires b > 0
    ensures var n := |Batches(es, b)|; (n - 1) * b < |es| <= n * b
    decreases |es|
  {
    var n := |Batches(es, b)|;
    if b < |es| {
      var rest := es[b..];
      assert Batches(es, b) == [es[..b]] + Batches(rest, b);
      BatchesCount(rest, b);
      var n' := |Batches(rest, b)|;
      assert n == n' + 1 && |rest| == |es| - b;
      assert (n' + 1) * b == n' * b + b;
    } else if b == |es| {
      assert Batches(es[b..], b) == [];
      assert n == 1;
    } else if es != [] {
      assert n == 1;
    }
  }

  /** Records with distinct keys are all stored: as many store entries as batched records (full batches or not). */
  lemma BatchesStoreAll(es: seq<Entry>, b: int)
    requires DistinctKeys(es)
    ensures |Apply(map[], Flatten(Batches(es, b)))| == |es|
  {
    BatchesShape(es, b);
    ApplyDistinctCount(es);
  }

  /** The final partial batch as a list of at most one batch. */
  function Rest(batch: seq<Entry>): seq<seq<Entry>>
  {
    if batch == [] then [] else [batch]
  }

  /** Full batches already sent and a partial batch still collecting are a prefix of `Batches` and its tail. */
  lemma {:induction false} SentThenRest(sent: seq<seq<Entry>>, batch: seq<Entry>, b: int)
    requires b > 0 ==> (forall i :: 0 <= i < |sent| ==> |sent[i]| == b) && |batch| < b
    requires b <= 0 ==> sent == []
    ensures Batches(Flatten(sent) + batch, b) == sent + Rest(batch)
    decreases |sent|
  {
    if sent == [] {
      assert Flatten(sent) + batch == batch;
    } else {
      var rest := sent[1..];
      assert sent == [sent[0]] + rest;
      FlattenCons(sent[0], rest);
      SentThenRest(rest, batch, b);
      var all := Flatten(sent) + batch;
      assert all == sent[0] + (Flatten(rest) + batch);
      assert all[..b] == sent[0];
      assert all[b..] == Flatten(rest) + batch;
    }
  }

  /**
   * The state of the load loop after the first `i` records of `es`: the kept
   * records so far are the full batches `sent` followed by the partial
   * `batch`, and `seen` holds their keys.
   */
  ghost predicate LoadInv(es: seq<Entry>, i: nat, sent: seq<seq<Entry>>, batch: seq<Entry>, seen: set<string>, b: int)
  {
    && i <= |es|
    && Dedup(es[..i]) == Flatten(sent) + batch
    && seen == KeySet(Flatten(sent) + batch)
    && (b > 0 ==> (forall k :: 0 <= k < |sent| ==> |sent[k]| == b) && |batch| < b)
    && (b <= 0 ==> sent == [])
  }

  /** A record whose key was seen is skipped. */
  lemma LoadSkip(es: seq<Entry>, i: nat, sent: seq<seq<Entry>>, batch: seq<Entry>, seen: set<string>, b: int)
    requires LoadInv(es, i, sent, batch, seen, b) && i < |es| && es[i].key in seen
    ensures LoadInv(es, i + 1, sent, batch, seen, b)
  {
    DedupStep(es, i);
  }

  /** A record with a new key joins the batch, which is sent once it holds `b` records. */
  lemma LoadKeep(es: seq<Entry>, i: nat, sent: seq<seq<Entry>>, batch: seq<Entry>, seen: set<string>, b: int)
    requires LoadInv(es, i, sent, batch, seen, b) && i < |es| && es[i].key !in seen
    ensures var batch', seen' := batch + [es[i]], seen + {es[i].key};
      if |batch'| == b then LoadInv(es, i + 1, sent + [batch'], [], seen', b)
      else LoadInv(es, i + 1, sent, batch', seen', b)
  {
    DedupStep(es, i);
    var flat := Flatten(sent);
    var batch' := batch + [es[i]];
    KeySetAppend(flat + batch, es[i]);
    AppendAssoc(flat, batch, [es[i]]);
    if |batch'| == b {
      FlattenSnoc(sent, batch');
      assert Flatten(sent + [batch']) + [] == flat + batch';
    }
  }

  /** After the last record, the batches sent so far followed by the partial batch are `Batches` of the kept records. */
  lemma LoadEnd(es: seq<Entry>, sent: seq<seq<Entry>>, batch: seq<Entry>, seen: set<string>, b: int)
    requires LoadInv(es, |es|, sent, batch, seen, b)
    ensures Batches(Dedup(es), b) == sent + Rest(batch)
    ensures Flatten(sent + Rest(batch)) == Dedup(es)
  {
    assert es[..|es|] == es;
    SentThenRest(sent, batch, b);
    if batch != [] {
      FlattenSnoc(sent, batch);
    } else {
      assert sent + Rest(batch) == sent;
    }
  }

  /** The store that loading `es` into an empty store produces. */
  function Loaded(es: seq<Entry>): map<string, Vector>
  {
    Apply(map[], Dedup(es))
  }

  /** Loading into an empty store keeps every key of the stream, once, with the vector of its first record. */
  lemma LoadedContent(es: seq<Entry>)
    ensures Loaded(es).Keys == KeySet(es)
    ensures |Loaded(es)| == |KeySet(es)|
    ensures forall i :: IsFirst(es, i) ==> Loaded(es)[es[i].key] == es[i].vec
  {
    var r := Dedup(es);
    ApplyDistinct(map[], r);
    ApplyDistinctCount(r);
    DistinctKeysCard(r);
    forall i | IsFirst(es, i)
      ensures Loaded(es)[es[i].key] == es[i].vec
    {
      DedupKeepsFirst(es, i);
      var j :| 0 <= j < |r| && r[j] == es[i];
    }
  }

  /** Two records with the same key where the first comes first: the first one's vector is stored. */
  lemma FirstWins(es: seq<Entry>, i: int, j: int)
    requires 0 <= i < j < |es| && es[i].key == es[j].key
    requires forall k :: 0 <= k < i ==> es[k].key != es[i].key
    ensures Loaded(es)[es[j].key] == es[i].vec
  {
    LoadedContent(es);
  }
}
