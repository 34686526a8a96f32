# Kazuma character n-gram embedding, modelled in Dafny

This project models `KazumaCharEmbedding`, the character n-gram embedding of
the `embeddings` package, together with the store underneath it. It covers:

- **Windows.** `ngrams(s, n)` gives the `n`-wide sliding windows of a sequence.
- **Lookup.** `emb(w)` pads the word with `#BEGIN#` and `#END#`. It queries the
  store for the key `"<n>gram-" + join(window)` of every window of width 2, 3
  and 4. It collects the hits in a dictionary and returns their mean, or 100
  zeros when nothing matched.
- **Bulk load.** `load_word2emb` splits each record into a key (all but the
  last 100 tokens, joined by a space) and a vector (the last 100 tokens). It
  keeps only the first record of each key, using the `seen` set. Kept records
  go to the store in batches of `batch_size`, then the remainder, if any.
- **Construction.** The constructor checks that `default` is one of `none`,
  `random` or `zero`. If the store holds fewer than 874474 entries, it clears
  the store and reloads it.

The database behind the `Embedding` base class is modelled abstractly by
`Embedding.VectorStore`. It holds a `map` from keys to vectors. A ghost log
records every `clear` and `insert_batch` call, so the batching can be stated
call by call, and a second ghost log records every key passed to `lookup`.
An insert with an existing key overwrites it.

Modules:

- `Wrappers` defines `Option` and `Result`.
- `Embedding` defines the store class and `Apply`, the effect of inserting a
  batch on a plain map.
- `NGramKeys` holds windows, padding, key construction, hit collection, the
  mean and `EmbOf`, the specification of `emb`.
- `WordLoad` holds the record split, `Dedup` (first occurrence wins) and
  `Batches` (the chunking that `load_word2emb` performs).
- `Kazuma` holds the class `KazumaCharEmbedding`. Its constructor and its
  methods `LoadWord2Emb` and `Emb` are imperative, with loop invariants. Each
  is proved against the specification functions above. The inner loop of
  `emb` over the windows of one order is the method `CollectOrder`, and one
  lookup with its update of `match` is `CollectKey`. `Kazuma.Create` adds
  the policy check.

Inputs the model takes as parameters:

- The data file arrives already split into lines of tokens
  (`seq<seq<string>>`).
- The conversion of a token to a number is a total function
  `parse: string -> real`.
- The already opened store is passed to the constructor.

Where the documented behaviour and `embeddings/kazuma.py` disagree, the model
follows the code:

- `emb` never returns `None` and never uses the `default` policy. With no
  match it returns 100 zeros whatever `default` is. `default` is stored and
  then ignored (`EmbNoMatch`).
- A record of 100 tokens or fewer is not rejected. Python's negative slicing
  gives it the key `""` and a vector of all its tokens (`SplitRecord`).
- After construction the store is not guaranteed to hold `size` entries. The
  model proves only that a reload leaves one entry per distinct key of the
  file (`LoadedContent`).
- A `batch_size` of zero or below never equals `len(batch)`. Every kept record
  then goes out in one final call (`BatchesShape`, the `b <= 0` case).

## Model

| member | source | states |
|---|---|---|
| NGramKeys.NGrams | embeddings/kazuma.py:11-12 | there are `len(s) - n + 1` windows when `n <= len(s)`, and none otherwise; window `i` is `s[i..i+n]` and has length `n`, so windows come in order of start position |
| NGramKeys.Chars | embeddings/kazuma.py:44 | `list(w)` has one element per character, and element `i` is the one-character string `w[i]` |
| NGramKeys.Padded | embeddings/kazuma.py:44 | the padded word has length `len(w) + 2`; it starts with `#BEGIN#` and ends with `#END#`, and element `i+1` is the one-character string `w[i]` |
| NGramKeys.Concat | embeddings/kazuma.py:50 | joining one-character strings gives the string of exactly those characters, in order |
| NGramKeys.ConcatChars | embeddings/kazuma.py:44-50 | joining `list(w)` gives back `w` |
| NGramKeys.Digit | embeddings/kazuma.py:50 | the character `str` writes for a one-digit order is a decimal digit whose value is that order |
| NGramKeys.KeyParts | embeddings/kazuma.py:50 | proof helper (loop invariants and unfoldings): a key is the order's digit, then `gram-`, then the joined window, and nothing else |
| NGramKeys.KeyInjective | embeddings/kazuma.py:50 | two keys are equal exactly when their orders are equal and their joined windows are equal (both directions) |
| NGramKeys.QueryKeys | embeddings/kazuma.py:44-50 | every word queries at least one key, and the first is the 2-gram key of `#BEGIN#` and the first character, or of `#BEGIN#` and `#END#` for the empty word |
| NGramKeys.QueryKeysByOrder | embeddings/kazuma.py:47-50 | proof helper (loop invariants and unfoldings): the queried keys are the 2-gram keys, then the 3-gram keys, then the 4-gram keys of the padded word |
| NGramKeys.KeysForAt | embeddings/kazuma.py:48-50 | for each order `n` there are `max(0, len(w) + 3 - n)` keys; key `j` is `"<n>gram-"` followed by window `j` of the padded word, concatenated |
| NGramKeys.QueryKeysCount | embeddings/kazuma.py:47-51 | the number of lookups is the sum over `n` in {2, 3, 4} of `max(0, len(w) + 3 - n)` |
| NGramKeys.KeysForSound | embeddings/kazuma.py:47-50 | every key queried for order `n` is the key of some window of the padded word |
| NGramKeys.KeysForComplete | embeddings/kazuma.py:47-50 | the key of every window of width 2, 3 or 4 is queried |
| NGramKeys.QueryKeysSound | embeddings/kazuma.py:47-50 | every queried string is the key of some window of width 2, 3 or 4 of the padded word |
| NGramKeys.QueryKeysComplete | embeddings/kazuma.py:47-50 | the key of every window of width 2, 3 or 4 of the padded word is queried |
| NGramKeys.QueryKeysShape | embeddings/kazuma.py:47-51 | a string is queried exactly when it is `"<n>gram-" + join(window)` for some `n` in {2, 3, 4} and some window (both directions) |
| NGramKeys.EmptyWordKeys | embeddings/kazuma.py:44-51 | the empty word queries exactly one key, `2gram-#BEGIN##END#` |
| NGramKeys.Hits | embeddings/kazuma.py:46-53 | a key is in `match` exactly when it was queried and is in the store (both directions); each key appears once, even when several windows produce it |
| NGramKeys.HitsSnoc | embeddings/kazuma.py:49-53 | proof helper (loop invariants and unfoldings): one more lookup appends its key to the dictionary's key order only if the key is stored and not yet present |
| NGramKeys.MatchOfSnoc | embeddings/kazuma.py:53 | proof helper (loop invariants and unfoldings): `match[g] = e` on a stored key gives the dictionary of the key order extended by `g`, or of the same order when `g` is already present |
| NGramKeys.CollectStep | embeddings/kazuma.py:49-53 | proof helper (loop invariants and unfoldings): one loop step keeps `match` and its insertion order equal to the result of the lookups made so far |
| NGramKeys.CollectedValues | embeddings/kazuma.py:54-55 | `match` is empty exactly when nothing matched; `match.values()` in insertion order are the stored vectors of the matched keys |
| NGramKeys.KeysOfNext | embeddings/kazuma.py:49-50 | proof helper (loop invariants and unfoldings): the next window's key extends the keys queried so far by one |
| NGramKeys.Mean | embeddings/kazuma.py:55 | the mean of the matched vectors exists exactly when they all have the first one's length, and it then has that length |
| NGramKeys.ColumnSumOfCopies | embeddings/kazuma.py:55 | summed over `k` copies of `v`, coordinate `j` is `k * v[j]` |
| NGramKeys.MeanOfCopies | embeddings/kazuma.py:55 | the mean of copies of one vector is that vector |
| NGramKeys.HitsEmpty | embeddings/kazuma.py:52-54 | nothing matches exactly when no queried key is stored (both directions) |
| NGramKeys.MismatchKeys | embeddings/kazuma.py:52-55 | the mean of the matches is undefined exactly when two matched keys have vectors of different lengths (both directions) |
| NGramKeys.EmbOf | embeddings/kazuma.py:43-56 | the result is a failure exactly when two stored query keys have vectors of different lengths (both directions), and otherwise a vector |
| NGramKeys.EmbNoMatch | embeddings/kazuma.py:45-56 | when no queried key is stored, the result is a vector of `d_emb` coordinates, all `0.0`; `default` plays no part |
| NGramKeys.EmbSomeMatch | embeddings/kazuma.py:54-55 | when some queried key is stored, the result is the mean of the matched vectors |
| NGramKeys.EmbLength | embeddings/kazuma.py:45-56 | when every stored vector has `d_emb` coordinates, the embedding exists and has `d_emb` coordinates |
| NGramKeys.EmbSingleMatch | embeddings/kazuma.py:52-55 | when exactly one distinct queried key is stored, the embedding is that key's vector, even if several windows produce that key |
| Kazuma.KazumaCharEmbedding.CollectKey | embeddings/kazuma.py:50-53 | one `lookup` of `g` logs exactly `g`, leaves the store's content and insert log unchanged, and extends `match` and its insertion order as the lookups made so far plus `g` prescribe |
| Kazuma.KazumaCharEmbedding.CollectOrder | embeddings/kazuma.py:48-53 | the loop over the order-`n` windows looks up exactly their keys, in window order, and leaves `match` as the lookups made so far plus those prescribe; content and insert log unchanged |
| Kazuma.KazumaCharEmbedding.Emb | embeddings/kazuma.py:43-56 | the nested loops look up exactly the keys `QueryKeys(w)`, in that order, and nothing else; the store's content and insert log stay unchanged; the result is `EmbOf(store, w, 100)`, which the lemmas above describe |
| WordLoad.CutIsSliceBound | embeddings/kazuma.py:72-73 | for every `d`, including `d = 0`, where `-0` is `0`, the record is cut where Python's slice rule puts the bound `-d`: a negative index counts from the end and is clamped to `[0, len]` |
| WordLoad.SplitTokens | embeddings/kazuma.py:72-73 | the key tokens followed by the vector tokens are the record; for `d > 0` there are `min(len, d)` vector tokens; with `d = 0` there are no key tokens, and all `len` tokens are vector tokens |
| WordLoad.Join | embeddings/kazuma.py:73 | `' '.join`: joining no tokens gives `""`; otherwise the length is the tokens' characters plus one separator between each two tokens (the length only; the contents are `JoinSnoc`) |
| WordLoad.JoinSnoc | embeddings/kazuma.py:73 | one token joins to itself, and joining one more token appends the separator and that token, so the join is the tokens in order with one separator between each two |
| WordLoad.SplitRecord | embeddings/kazuma.py:71-73 | when `d > 0` and the record has more than `d` tokens, the key is its first `len - d` tokens joined by a space, and the vector is its last `d` tokens parsed; any other record, including every record when `d = 0`, gets the key `""` and all its tokens parsed as its vector |
| WordLoad.Dedup | embeddings/kazuma.py:74-77 | the appended entries have distinct keys, and their keys are exactly the keys of the file |
| WordLoad.DedupStep | embeddings/kazuma.py:74-77 | a record is appended exactly when its key was not seen among the earlier records |
| WordLoad.IsFirstPrefix | embeddings/kazuma.py:74 | record `i` is the first with its key exactly when its key is not among the earlier records' keys |
| WordLoad.FirstIndices | embeddings/kazuma.py:74-77 | the first occurrences in increasing order: an index is listed exactly when no earlier record has its key |
| WordLoad.DedupFirstOccurrences | embeddings/kazuma.py:74-77 | the appended entries are exactly the first occurrences of their keys, in file order |
| WordLoad.DedupKeepsFirst | embeddings/kazuma.py:74-77 | the first record of every key is appended |
| WordLoad.FlattenSnoc | embeddings/kazuma.py:79-82 | proof helper (loop invariants and unfoldings): the entries of the batches sent, followed by one more batch |
| WordLoad.Batches | embeddings/kazuma.py:77-82 | there is no `insert_batch` call exactly when no record was kept |
| WordLoad.BatchesCount | embeddings/kazuma.py:77-82 | with `batch_size > 0`, including no kept records (no call), `n` calls hold the kept records with `(n - 1) * batch_size < kept <= n * batch_size`, that is `n = ceil(kept / batch_size)` |
| WordLoad.BatchesShape | embeddings/kazuma.py:77-82 | no batch is empty; none holds more than `batch_size` entries; all but the last hold exactly `batch_size`; concatenated they give the kept records; with `batch_size <= 0` there is at most one batch |
| WordLoad.BatchesStoreAll | embeddings/kazuma.py:77-82 | writing the batches of distinct-key records into an empty store gives one entry per record |
| WordLoad.SentThenRest | embeddings/kazuma.py:78-82 | proof helper (loop invariants and unfoldings): full batches already sent, plus a non-empty remainder, are the batching of everything kept |
| WordLoad.LoadSkip | embeddings/kazuma.py:74-75 | proof helper (loop invariants and unfoldings): skipping a seen key keeps the loop invariant |
| WordLoad.LoadKeep | embeddings/kazuma.py:76-77 | proof helper (loop invariants and unfoldings): adding an unseen key to `seen` and appending it to `batch` keeps the loop invariant |
| WordLoad.LoadEnd | embeddings/kazuma.py:81-82 | proof helper (loop invariants and unfoldings): at the end of the file, the batches sent plus the remainder are the batching of the kept records |
| WordLoad.LoadedContent | embeddings/kazuma.py:39-82 | a cleared and reloaded store holds exactly the keys of the file, one entry per distinct key, each with its first record's vector |
| WordLoad.FirstWins | embeddings/kazuma.py:74-75 | a later record with an already seen key does not change the stored vector |
| Kazuma.KazumaCharEmbedding.LoadWord2Emb | embeddings/kazuma.py:58-82 | with `batch_size` 1000 unless given, the loop with `seen` and `batch` turns the store into `Apply(old store, Dedup(records))`; it makes exactly the `insert_batch` calls `Batches(Dedup(records), batch_size)`, in order, and no lookups |
| Kazuma.InsertsSnoc | embeddings/kazuma.py:78-82 | proof helper (loop invariants and unfoldings): one more `insert_batch` call extends the call log by that batch |
| Kazuma.SendStep | embeddings/kazuma.py:78-82 | proof helper (loop invariants and unfoldings): sending one more batch updates the store as if that batch came after those already sent |
| Kazuma.KazumaCharEmbedding.constructor | embeddings/kazuma.py:36-41 | below 874474 entries the store is cleared and then loaded in batches of 1000; otherwise it and its call log are left unchanged |
| Kazuma.ParsePolicy | embeddings/kazuma.py:34 | a policy is accepted exactly when its name is `none`, `random` or `zero` (both directions), and the accepted name is that policy's name |
| Kazuma.PolicyName | embeddings/kazuma.py:34 | every policy's name is one of `none`, `random` and `zero` |
| Kazuma.PolicyRoundTrip | embeddings/kazuma.py:34 | every policy's name is accepted as that policy |
| Kazuma.Create | embeddings/kazuma.py:24-41 | without a `default` argument the policy name is `none`; construction fails exactly when `default` is not an accepted name, and then leaves the store and its log untouched; otherwise, construction as above |
| Embedding.Apply | embeddings/kazuma.py:78-82 | after inserting a batch, the store's keys are its old keys plus the batch's keys |
| Embedding.ApplyConcat | embeddings/kazuma.py:78-82 | inserting two batches one after the other is inserting their concatenation |
| Embedding.ApplyDistinct | embeddings/kazuma.py:78-82 | inserting distinct-key entries stores each entry's vector under its key and leaves every other key unchanged |
| Embedding.ApplyDistinctCount | embeddings/kazuma.py:78-82 | inserting distinct-key entries into an empty store yields one entry per record |
| Embedding.KeySetAppend | embeddings/kazuma.py:76 | proof helper (loop invariants and unfoldings): appending an entry adds its key to the key set |
| Embedding.DistinctKeysCard | embeddings/kazuma.py:76-77 | distinct-key entries have as many keys as entries |
| Embedding.VectorStore.constructor | embeddings/kazuma.py:36 | the opened store holds whatever content it already persists, with empty call logs |
| Embedding.VectorStore.Lookup | embeddings/kazuma.py:51-52 | a vector is returned exactly for stored keys, and it is the one stored; the key is logged, and the content is unchanged |
| Embedding.VectorStore.InsertBatch | embeddings/kazuma.py:78-82 | the store becomes `Apply(old store, batch)`, and the call is logged |
| Embedding.VectorStore.Clear | embeddings/kazuma.py:40 | the store becomes empty, and the call is logged |
| Embedding.VectorStore.Count | embeddings/kazuma.py:39 | `len(self)` is the number of stored keys |

## Left out

- Downloading and unpacking the archive (`ensure_file`, `tarfile`,
  `extractfile`, `read`, `splitlines`) is I/O and is left out.
- `line.decode().rstrip().split()` (UTF-8 decoding and whitespace splitting)
  is left out. The model takes each record as a given token list
  (`seq<seq<string>>`). `split()` never yields an empty token or one that
  contains whitespace; the model's token lists may contain either, so the
  model does not rely on that.
- `float(n)` is a total parameter `parse`, so a parse failure is not modelled.
- The `Embedding` base class (`initialize_db`, `path`, the database tables)
  is not part of this model. The store is an abstract map with lookup, batch
  insert, clear and count. An insert with an existing key overwrites it.
- NGramKeys.Mean: it is over `real`, not numpy float32, so rounding is not
  modelled. Vectors of unequal length give `Failure(ShapeMismatch)`, where
  numpy would raise or broadcast a length-1 vector. That case cannot arise
  when every stored vector has 100 coordinates (`EmbLength`).
- Kazuma.KazumaCharEmbedding.Emb: `np.array(e, np.float32)`, `.tolist()` and
  float32 rounding are not modelled; the vector is returned as reals.
- The `random` and `zero` policies are recorded but not modelled further,
  because `emb` never consults `default`. The random generator is left out
  as randomness.
- Kazuma.Create: the policy check is a Python `assert`, which `python -O`
  removes, so every `default` is then accepted. The model always performs
  the check.
- `show_progress` and `tqdm` are display only and are left out.
- The `__main__` timing demo is left out; it is print and clock only.
