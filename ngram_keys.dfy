/**
 * Decomposition of a word into character n-grams and the lookup keys built
 * from them (`ngrams` and the key-building part of `KazumaCharEmbedding.emb`),
 * the matches collected from the store, and the averaging of matched vectors.
 */
module NGramKeys {
  import opened Wrappers
  import opened Embedding

  /** Every contiguous window of length `n` over `s`, in order of start position. */
  function NGrams<T>(s: seq<T>, n: nat): (r: seq<seq<T>>)
    ensures |r| == if n <= |s| then |s| - n + 1 else 0
    ensures forall i :: 0 <= i < |r| ==> |r[i]| == n && r[i] == s[i..i + n]
    decreases |s|
  {
    if |s| < n then []
    else if |s| == n then [s]
    else [s[..n]] + NGrams(s[1..], n)
  }

  /** The marker placed before the first character. */
  const Begin := "#BEGIN#"
  /** The marker placed after the last character. */
  const End := "#END#"

  /** `list(w)`: each character as a one-character string. */
  function Chars(w: string): (r: seq<string>)
    ensures |r| == |w|
    ensures forall i :: 0 <= i < |w| ==> r[i] == [w[i]]
  {
    if w == "" then [] else [[w[0]]] + Chars(w[1..])
  }

  /** The word's characters between the begin and end markers. */
  function Padded(w: string): (p: seq<string>)
    ensures |p| == |w| + 2
    ensures p[0] == Begin && p[|p| - 1] == End
    ensures forall i :: 0 <= i < |w| ==> p[i + 1] == [w[i]]
  {
    [Begin] + Chars(w) + [End]
  }

  /** `''.join(g)`: joining one-character strings gives the string of those characters. */
  function Concat(g: seq<string>): (r: string)
    ensures (forall i :: 0 <= i < |g| ==> |g[i]| == 1) ==> |r| == |g| && forall i :: 0 <= i < |g| ==> r[i] == g[i][0]
  {
    if g == [] then "" else g[0] + Concat(g[1..])
  }

  /** The decimal digit of a one-digit number, as `str` writes it. */
  function Digit(n: nat): (c: char)
    requires n < 10
    ensures '0' <= c <= '9' && c as int - '0' as int == n
  {
    "0123456789"[n]
  }

  /** The lookup key of an order-`n` window: `"<n>gram-"` followed by the joined window. */
  function Key(n: nat, g: seq<string>): string
    requires 2 <= n <= 4
  {
    [Digit(n)] + "gram-" + Concat(g)
  }

  /** The keys of the order-`n` windows `gs`, in order. */
  function KeysOf(n: nat, gs: seq<seq<string>>): (ks: seq<string>)
    requires 2 <= n <= 4
  {
    seq(|gs|, j requires 0 <= j < |gs| => Key(n, gs[j]))
  }

  /** The keys of all order-`n` windows over `p`, in window order. */
  function KeysFor(p: seq<string>, n: nat): (ks: seq<string>)
    requires 2 <= n <= 4
  {
    KeysOf(n, NGrams(p, n))
  }

  /** The keys of orders 2 up to but excluding `n`, order by order. */
  function KeysUpTo(p: seq<string>, n: nat): seq<string>
    requires 2 <= n <= 5
  {
    if n == 2 then [] else KeysUpTo(p, n - 1) + KeysFor(p, n - 1)
  }

  /** `join(list(w))` is `w`. */
  lemma ConcatChars(w: string)
    ensures Concat(Chars(w)) == w
  {
  }

  /** A key is the order's digit, then `gram-`, then the joined window, and nothing else. */
  lemma KeyParts(n: nat, g: seq<string>)
    requires 2 <= n <= 4
    ensures var k := Key(n, g);
      |k| == 6 + |Concat(g)| && k[0] == Digit(n) && k[1..6] == "gram-" && k[6..] == Concat(g)
  {
  }

  /** Two keys are equal only when their orders and their joined windows are. */
  lemma KeyInjective(n: nat, g: seq<string>, n': nat, g': seq<string>)
    requires 2 <= n <= 4 && 2 <= n' <= 4
    ensures Key(n, g) == Key(n', g') <==> n == n' && Concat(g) == Concat(g')
  {
    KeyParts(n, g);
    KeyParts(n', g');
    if Key(n, g) == Key(n', g') {
      assert Key(n, g)[0] == Key(n', g')[0];
      assert Key(n, g)[6..] == Key(n', g')[6..];
    }
  }

  /**
   * Every key `emb` queries for `w`, in query order (orders 2, 3, 4); the
   * first is the 2-gram key of the begin marker and the first character (or
   * the end marker).
   */
  function QueryKeys(w: string): (ks: seq<string>)
    ensures ks != [] && ks[0] == WindowKey(w, 2, 0)
  {
    var p := Padded(w);
    assert KeysUpTo(p, 3) == KeysFor(p, 2);
    assert KeysUpTo(p, 5) == KeysFor(p, 2) + KeysFor(p, 3) + KeysFor(p, 4);
    KeysUpTo(p, 5)
  }

  /** `max(0, x)`. */
  function Max0(x: int): nat
  {
    if x < 0 then 0 else x
  }

  /** The key of the order-`n` window starting at position `i` of the padded word. */
  function WindowKey(w: string, n: nat, i: nat): string
    requires 2 <= n <= 4 && i + n <= |w| + 2
  {
    Key(n, Padded(w)[i..i + n])
  }

  /** `k` is the key of some window of order 2, 3 or 4 over the padded word. */
  ghost predicate IsQueryKey(w: string, k: string)
  {
    exists n: nat, i: nat :: 2 <= n <= 4 && i + n <= |w| + 2 && k == WindowKey(w, n, i)
  }

  /** The query keys, order by order. */
  lemma QueryKeysByOrder(w: string)
    ensures var p := Padded(w); QueryKeys(w) == KeysFor(p, 2) + KeysFor(p, 3) + KeysFor(p, 4)
  {
    var p := Padded(w);
    assert KeysUpTo(p, 3) == KeysFor(p, 2);
    assert KeysUpTo(p, 4) == KeysFor(p, 2) + KeysFor(p, 3);
    assert KeysUpTo(p, 5) == KeysUpTo(p, 4) + KeysFor(p, 4);
  }

  /** The keys of order `n` are those of the windows, one per start position. */
  lemma KeysForAt(w: string, n: nat)
    requires 2 <= n <= 4
    ensures var ks := KeysFor(Padded(w), n);
      && |ks| == Max0(|w| + 3 - n)
      && forall j :: 0 <= j < |ks| ==> j + n <= |w| + 2 && ks[j] == WindowKey(w, n, j)
  {
  }

  /** The number of queries is the sum over n in {2, 3, 4} of max(0, |w| + 3 - n). */
  lemma QueryKeysCount(w: string)
    ensures |QueryKeys(w)| == Max0(|w| + 3 - 2) + Max0(|w| + 3 - 3) + Max0(|w| + 3 - 4)
  {
    QueryKeysByOrder(w);
    KeysForAt(w, 2);
    KeysForAt(w, 3);
    KeysForAt(w, 4);
  }

  /** A key of order `n` is a window key of the padded word. */
  lemma KeysForSound(w: string, n: nat, k: string)
    requires 2 <= n <= 4 && k in KeysFor(Padded(w), n)
    ensures IsQueryKey(w, k)
  {
    KeysForAt(w, n);
    var ks := KeysFor(Padded(w), n);
    var j :| 0 <= j < |ks| && ks[j] == k;
    assert k == WindowKey(w, n, j);
  }

  /** Every window key of order `n` is among the keys of order `n`. */
  lemma KeysForComplete(w: string, n: nat, i: nat)
    requires 2 <= n <= 4 && i + n <= |w| + 2
    ensures WindowKey(w, n, i) in KeysFor(Padded(w), n)
  {
    KeysForAt(w, n);
    assert KeysFor(Padded(w), n)[i] == WindowKey(w, n, i);
  }

  /** Every query key is the key of a window of order 2, 3 or 4 over the padded word. */
  lemma QueryKeysSound(w: string, k: string)
    requires k in QueryKeys(w)
    ensures IsQueryKey(w, k)
  {
    var p := Padded(w);
    QueryKeysByOrder(w);
    if k in KeysFor(p, 2) {
      KeysForSound(w, 2, k);
    } else if k in KeysFor(p, 3) {
      KeysForSound(w, 3, k);
    } else {
      assert k in KeysFor(p, 4);
      KeysForSound(w, 4, k);
    }
  }

  /** The key of every window of order 2, 3 or 4 over the padded word is queried. */
  lemma QueryKeysComplete(w: string, n: nat, i: nat)
    requires 2 <= n <= 4 && i + n <= |w| + 2
    ensures WindowKey(w, n, i) in QueryKeys(w)
  {
    var p := Padded(w);
    var k := WindowKey(w, n, i);
    KeysForComplete(w, n, i);
    assert KeysUpTo(p, 3) == KeysUpTo(p, 2) + KeysFor(p, 2);
    assert KeysUpTo(p, 4) == KeysUpTo(p, 3) + KeysFor(p, 3);
    assert KeysUpTo(p, 5) == KeysUpTo(p, 4) + KeysFor(p, 4);
    if n == 2 {
      assert k in KeysUpTo(p, 3);
    }
    if n <= 3 {
      assert k in KeysUpTo(p, 4);
    }
  }

  /** Query keys are exactly the keys of the windows of order 2, 3 and 4 over the padded word. */
  lemma QueryKeysShape(w: string, k: string)
    ensures k in QueryKeys(w) <==> IsQueryKey(w, k)
  {
    if k in QueryKeys(w) {
      QueryKeysSound(w, k);
    }
    if IsQueryKey(w, k) {
      var n: nat, i: nat :| 2 <= n <= 4 && i + n <= |w| + 2 && k == WindowKey(w, n, i);
      QueryKeysComplete(w, n, i);
    }
  }

  /** The empty word yields the single key `2gram-#BEGIN##END#`. */
  lemma EmptyWordKeys()
    ensures QueryKeys("") == ["2gram-#BEGIN##END#"]
  {
    var p := Padded("");
    assert p == [Begin, End];
    assert NGrams(p, 2) == [p];
    assert NGrams(p, 3) == [] && NGrams(p, 4) == [];
    assert Concat(p) == Begin + End by {
      assert p[1..] == [End];
      assert Concat(p[1..]) == End + Concat([]);
    }
    assert KeysFor(p, 2) == [Key(2, p)];
    assert Key(2, p) == "2gram-#BEGIN##END#";
    QueryKeysByOrder("");
  }

  /** The keys matched in the store, each once, in the order first matched. */
  function Hits(store: map<string, Vector>, ks: seq<string>): (h: seq<string>)
    ensures forall k :: k in h <==> k in ks && k in store
    ensures forall i, j :: 0 <= i < j < |h| ==> h[i] != h[j]
  {
    if ks == [] then []
    else
      var h0 := Hits(store, ks[..|ks| - 1]);
      var k := ks[|ks| - 1];
      assert ks == ks[..|ks| - 1] + [k];
      if k in store && k !in h0 then h0 + [k] else h0
  }

  /** The `match` dictionary for the matched keys `order`: each with its stored vector. */
  function MatchOf(store: map<string, Vector>, order: seq<string>): map<string, Vector>
  {
    map k | k in order && k in store :: store[k]
  }

  /** `order` and `matched` are the dictionary's key order and content after querying `ks`. */
  ghost predicate Collected(store: map<string, Vector>, ks: seq<string>, order: seq<string>, matched: map<string, Vector>)
  {
    order == Hits(store, ks) && matched == MatchOf(store, order)
  }

  /** Querying one more key `g` appends it to the hits when it is stored and not yet hit. */
  lemma HitsSnoc(store: map<string, Vector>, ks: seq<string>, g: string)
    ensures Hits(store, ks + [g]) == if g in store && g !in Hits(store, ks) then Hits(store, ks) + [g] else Hits(store, ks)
  {
    var ks' := ks + [g];
    assert ks'[..|ks'| - 1] == ks;
  }

  /** Recording the hit `g` in the dictionary of `order` gives the dictionary of `order` extended by `g`. */
  lemma MatchOfSnoc(store: map<string, Vector>, order: seq<string>, g: string)
    requires g in store
    ensures MatchOf(store, order)[g := store[g]] == MatchOf(store, if g in order then order else order + [g])
  {
    var m', m'' := MatchOf(store, order)[g := store[g]], MatchOf(store, if g in order then order else order + [g]);
    assert m'.Keys == m''.Keys;
  }

  /** Querying one more key `g`: a hit is recorded under `g`, and a new key is added at the end of the order. */
  lemma CollectStep(store: map<string, Vector>, ks: seq<string>, g: string, order: seq<string>, matched: map<string, Vector>)
    requires Collected(store, ks, order, matched)
    ensures g in store ==>
      Collected(store, ks + [g], if g !in matched then order + [g] else order, matched[g := store[g]])
    ensures g !in store ==> Collected(store, ks + [g], order, matched)
  {
    HitsSnoc(store, ks, g);
    if g in store {
      assert g in matched <==> g in order;
      MatchOfSnoc(store, order, g);
    }
  }

  /** Nothing collected exactly when the order is empty; otherwise the values in order are the matched vectors. */
  lemma CollectedValues(store: map<string, Vector>, ks: seq<string>, order: seq<string>, matched: map<string, Vector>)
    requires Collected(store, ks, order, matched)
    ensures matched == map[] <==> order == []
    ensures forall k :: k in order ==> k in matched && k in store
    ensures Values(matched, order) == Matched(store, order)
  {
    if order != [] {
      assert order[0] in matched;
    }
  }

  /** `match.values()`: the vectors of `matched`, in the key order `order`. */
  function Values(matched: map<string, Vector>, order: seq<string>): seq<Vector>
    requires forall k :: k in order ==> k in matched
  {
    seq(|order|, i requires 0 <= i < |order| => matched[order[i]])
  }

  /** Window `j` extends the keys queried so far by its key. */
  lemma KeysOfNext(n: nat, gs: seq<seq<string>>, j: nat)
    requires 2 <= n <= 4 && j < |gs|
    ensures KeysOf(n, gs[..j + 1]) == KeysOf(n, gs[..j]) + [Key(n, gs[j])]
  {
    assert KeysOf(n, gs[..j + 1])[j] == Key(n, gs[j]);
  }

  /** The matched vectors, in the order of `h`. */
  function Matched(store: map<string, Vector>, h: seq<string>): (vs: seq<Vector>)
    requires forall k :: k in h ==> k in store
  {
    seq(|h|, i requires 0 <= i < |h| => store[h[i]])
  }

  /** The sum of component `j` over `vs`, added left to right from 0. */
  function ColumnSum(vs: seq<Vector>, j: nat): real
    requires forall i :: 0 <= i < |vs| ==> j < |vs[i]|
  {
    if vs == [] then 0.0 else ColumnSum(vs[..|vs| - 1], j) + vs[|vs| - 1][j]
  }

  /** All of `vs` have length `d`. */
  predicate AllOfLength(vs: seq<Vector>, d: nat)
  {
    forall i :: 0 <= i < |vs| ==> |vs[i]| == d
  }

  /**
   * The element-wise mean of `vs`, defined when all of them have the length of
   * the first (otherwise the element-wise sum has no common shape: `None`).
   */
  function Mean(vs: seq<Vector>): (r: Option<Vector>)
    requires vs != []
    ensures r.Some? <==> AllOfLength(vs, |vs[0]|)
    ensures r.Some? ==> |r.value| == |vs[0]|
  {
    if AllOfLength(vs, |vs[0]|) then
      Some(seq(|vs[0]|, j requires 0 <= j < |vs[0]| => ColumnSum(vs, j) / (|vs| as real)))
    else None
  }

  /** `k` copies of one vector sum to `k` times it. */
  lemma {:induction false} ColumnSumOfCopies(vs: seq<Vector>, v: Vector, j: nat)
    requires forall i :: 0 <= i < |vs| ==> vs[i] == v
    requires j < |v|
    ensures ColumnSum(vs, j) == (|vs| as real) * v[j]
    decreases |vs|
  {
    if vs != [] {
      ColumnSumOfCopies(vs[..|vs| - 1], v, j);
    }
  }

  /** The mean of copies of one vector is that vector; in particular the mean of one match is the match. */
  lemma MeanOfCopies(vs: seq<Vector>, v: Vector)
    requires vs != []
    requires forall i :: 0 <= i < |vs| ==> vs[i] == v
    ensures Mean(vs) == Some(v)
  {
    assert AllOfLength(vs, |vs[0]|);
    var r := Mean(vs);
    assert |r.value| == |v|;
    var n := |vs| as real;
    forall j | 0 <= j < |v|
      ensures r.value[j] == v[j]
    {
      ColumnSumOfCopies(vs, v, j);
      assert r.value[j] == (n * v[j]) / n;
      assert (n * v[j]) / n == v[j];
    }
    assert r.value == v;
  }

  /** `np.zeros(d)`. */
  function Zeros(d: nat): Vector
  {
    seq(d, j => 0.0)
  }

  /** The element-wise sum of the matched vectors has no common shape. */
  datatype EmbError = ShapeMismatch

  /** Two of the keys `ks` are stored with vectors of different lengths. */
  ghost predicate ShapesDiffer(store: map<string, Vector>, ks: seq<string>)
  {
    exists k, k' :: k in ks && k in store && k' in ks && k' in store && |store[k]| != |store[k']|
  }

  /** The mean of the matches is undefined exactly when two matched vectors differ in length. */
  lemma MismatchKeys(store: map<string, Vector>, ks: seq<string>)
    ensures (Hits(store, ks) != [] && Mean(Matched(store, Hits(store, ks))).None?) <==> ShapesDiffer(store, ks)
  {
    var h := Hits(store, ks);
    if ShapesDiffer(store, ks) {
      var k, k' :| k in ks && k in store && k' in ks && k' in store && |store[k]| != |store[k']|;
      assert k in h && k' in h;
      var i :| 0 <= i < |h| && h[i] == k;
      var i' :| 0 <= i' < |h| && h[i'] == k';
      var vs := Matched(store, h);
      assert vs[i] == store[k] && vs[i'] == store[k'];
    }
    if h != [] && Mean(Matched(store, h)).None? {
      var vs := Matched(store, h);
      var i :| 0 <= i < |vs| && |vs[i]| != |vs[0]|;
      assert h[i] in h && h[0] in h;
    }
  }

  /**
   * What `emb(w)` returns for store content `store` and dimension `d`: the
   * mean of the vectors of the distinct matched keys, or `d` zeros when no
   * key matched. It fails exactly when two matched vectors differ in length.
   */
  function EmbOf(store: map<string, Vector>, w: string, d: nat): (r: Result<Vector, EmbError>)
    ensures r.Failure? <==> ShapesDiffer(store, QueryKeys(w))
  {
    var h := Hits(store, QueryKeys(w));
    MismatchKeys(store, QueryKeys(w));
    if h == [] then Success(Zeros(d))
    else
      match Mean(Matched(store, h))
      case Some(v) => Success(v)
      case None => Failure(ShapeMismatch)
  }

  /** Nothing matched exactly when no key of `ks` is in the store. */
  lemma {:induction false} HitsEmpty(store: map<string, Vector>, ks: seq<string>)
    ensures Hits(store, ks) == [] <==> forall k :: k in ks ==> k !in store
    decreases |ks|
  {
    if ks != [] {
      var ks0 := ks[..|ks| - 1];
      var last := ks[|ks| - 1];
      HitsEmpty(store, ks0);
      assert ks == ks0 + [last];
      if last in store {
        assert last in Hits(store, ks);
      }
    }
  }

  /** When no queried key is stored, `emb` returns `d` zeros. */
  lemma EmbNoMatch(store: map<string, Vector>, w: string, d: nat)
    requires forall k :: k in QueryKeys(w) ==> k !in store
    ensures EmbOf(store, w, d) == Success(Zeros(d))
    ensures var r := EmbOf(store, w, d).value; |r| == d && forall j :: 0 <= j < d ==> r[j] == 0.0
  {
    HitsEmpty(store, QueryKeys(w));
  }

  /** When any queried key is stored, the result is the mean over the distinct matched keys' vectors. */
  lemma EmbSomeMatch(store: map<string, Vector>, w: string, d: nat, k: string)
    requires k in QueryKeys(w) && k in store
    ensures var h := Hits(store, QueryKeys(w));
      h != [] && EmbOf(store, w, d) == (match Mean(Matched(store, h)) case Some(v) => Success(v) case None => Failure(ShapeMismatch))
  {
    assert k in Hits(store, QueryKeys(w));
  }

  /** In a store whose vectors all have length `d`, `emb` always yields a vector of length `d`. */
  lemma EmbLength(store: map<string, Vector>, w: string, d: nat)
    requires forall k :: k in store ==> |store[k]| == d
    ensures EmbOf(store, w, d).Success? && |EmbOf(store, w, d).value| == d
  {
    var h := Hits(store, QueryKeys(w));
    if h != [] {
      var vs := Matched(store, h);
      assert |vs[0]| == d;
      assert AllOfLength(vs, d);
    }
  }

  /** A word whose only stored n-gram key is `k` embeds to that key's vector. */
  lemma EmbSingleMatch(store: map<string, Vector>, w: string, d: nat, k: string)
    requires k in QueryKeys(w) && k in store
    requires forall k' :: k' in QueryKeys(w) && k' in store ==> k' == k
    ensures EmbOf(store, w, d) == Success(store[k])
  {
    var h := Hits(store, QueryKeys(w));
    assert k in h;
    assert forall i :: 0 <= i < |h| ==> h[i] == k by {
      forall i | 0 <= i < |h| ensures h[i] == k {
        assert h[i] in h;
      }
    }
    assert h[0] == h[|h| - 1];
    assert |h| == 1;
    assert h == [k];
    MeanOfCopies(Matched(store, h), store[k]);
  }
}
