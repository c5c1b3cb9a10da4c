/**
 * The batched embedding of `erzeuge_embeddings`: the corpus texts are sent to
 * the embedding service in contiguous slices of `batch_size`, the returned
 * vectors are appended in order, and a progress fraction is reported after
 * every slice.
 */
module Batching {
  import opened Common
  import opened Normalize

  /** One embedding vector (its floating-point entries are taken as reals). */
  type Vector = seq<real>

  /**
   * The embedding service (model "text-embedding-ada-002"), one call per
   * batch of input texts: the vectors it returns, or None when the call
   * raised.
   */
  type EmbeddingService = seq<string> -> Option<seq<Vector>>

  /** The default `batch_size` of `erzeuge_embeddings`. */
  const DEFAULT_BATCH_SIZE: nat := 20

  /** The texts and the embedding matrix built from them. */
  datatype Corpus = Corpus(texts: seq<string>, embeddings: seq<Vector>)

  // ---------------------------------------------------------------- offsets

  /** The `k`-th offset of `range(0, total, size)`, that is `k * size`. */
  function BatchOffset(k: nat, size: nat): nat {
    if k == 0 then 0 else BatchOffset(k - 1, size) + size
  }

  lemma {:induction false} BatchOffsetIsProduct(k: nat, size: nat)
    ensures BatchOffset(k, size) == k * size
  {
    if k > 0 {
      BatchOffsetIsProduct(k - 1, size);
      assert (k - 1) * size + size == k * size;
    }
  }

  lemma {:induction false} BatchOffsetMonotone(k: nat, l: nat, size: nat)
    requires k <= l
    ensures BatchOffset(k, size) <= BatchOffset(l, size)
    decreases l - k
  {
    if k < l {
      BatchOffsetMonotone(k, l - 1, size);
    }
  }

  // ---------------------------------------------------------------- batches

  /** End of the slice `texts[i:i+size]`: Python clamps it to the length. */
  function BatchEnd(n: nat, i: nat, size: nat): (e: nat)
    ensures e <= n && (i <= n ==> i <= e) && e <= i + size
    ensures i + size <= n ==> e == i + size
    ensures i + size > n ==> e == n
  {
    if i + size <= n then i + size else n
  }

  /** The slices taken at offsets `i`, `i + size`, `i + 2*size`, ... below `|texts|`. */
  function BatchesFrom(texts: seq<string>, size: nat, i: nat): seq<seq<string>>
    requires size >= 1
    decreases |texts| - i
  {
    if i >= |texts| then [] else [texts[i..BatchEnd(|texts|, i, size)]] + BatchesFrom(texts, size, i + size)
  }

  /** The slices of `for i in range(0, total, batch_size)`. */
  function Batches(texts: seq<string>, size: nat): (batches: seq<seq<string>>)
    requires size >= 1
    ensures batches == [] <==> texts == []
  {
    BatchesFrom(texts, size, 0)
  }

  function Flatten<T>(parts: seq<seq<T>>): seq<T> {
    if parts == [] then [] else parts[0] + Flatten(parts[1..])
  }

  /**
   * The `k`-th slice from offset `i` exists exactly when its offset
   * `i + k * size` is below the length, and it is `texts[i + k*size : i + (k+1)*size]`.
   */
  lemma {:induction false} BatchesFromAt(texts: seq<string>, size: nat, i: nat, k: nat)
    requires size >= 1
    ensures k < |BatchesFrom(texts, size, i)| <==> i + BatchOffset(k, size) < |texts|
    ensures k < |BatchesFrom(texts, size, i)| ==>
      BatchesFrom(texts, size, i)[k] == texts[i + BatchOffset(k, size)..BatchEnd(|texts|, i + BatchOffset(k, size), size)]
    decreases k
  {
    if i < |texts| && k > 0 {
      BatchesFromAt(texts, size, i + size, k - 1);
      assert i + size + BatchOffset(k - 1, size) == i + BatchOffset(k, size);
    }
  }

  /**
   * The slices from offset `i` are non-empty, hold at most `size` texts,
   * and together are exactly the texts from `i` on.
   */
  lemma {:induction false} BatchesFromPartition(texts: seq<string>, size: nat, i: nat)
    requires size >= 1
    ensures Flatten(BatchesFrom(texts, size, i)) == texts[Min(i, |texts|)..]
    ensures forall k :: 0 <= k < |BatchesFrom(texts, size, i)| ==> 1 <= |BatchesFrom(texts, size, i)[k]| <= size
    decreases |texts| - i
  {
    var bs := BatchesFrom(texts, size, i);
    if i < |texts| {
      var e := BatchEnd(|texts|, i, size);
      BatchesFromPartition(texts, size, i + size);
      assert bs[1..] == BatchesFrom(texts, size, i + size);
      assert texts[i..] == texts[i..e] + texts[e..];
      assert e == |texts| ==> Min(i + size, |texts|) == e;
    }
  }

  /**
   * The number of slices from offset `i` is the ceiling of
   * `(|texts| - i) / size`: `count` slices of `size` reach the end, and
   * `count - 1` slices do not.
   */
  lemma {:induction false} BatchesFromCount(texts: seq<string>, size: nat, i: nat)
    requires size >= 1 && i <= |texts|
    ensures var count := |BatchesFrom(texts, size, i)|;
      (count - 1) * size < |texts| - i <= count * size || (count == 0 && i == |texts|)
    decreases |texts| - i
  {
    if i < |texts| {
      if i + size < |texts| {
        BatchesFromCount(texts, size, i + size);
        var c := |BatchesFrom(texts, size, i + size)|;
        assert |BatchesFrom(texts, size, i)| == c + 1;
        assert (c + 1 - 1) * size == c * size;
        assert (c + 1) * size == c * size + size;
        assert c >= 1;
        assert (c - 1) * size == c * size - size;
      } else {
        assert BatchesFrom(texts, size, i + size) == [];
      }
    }
  }

  /**
   * The batches of `range(0, total, batch_size)` partition the texts in
   * order; each holds between 1 and `size` texts; there are
   * `ceil(|texts| / size)` of them (the one `count` with
   * `(count - 1) * size < |texts| <= count * size`), and none for an empty
   * corpus.
   */
  lemma BatchesPartition(texts: seq<string>, size: nat)
    requires size >= 1
    ensures Flatten(Batches(texts, size)) == texts
    ensures forall k :: 0 <= k < |Batches(texts, size)| ==> 1 <= |Batches(texts, size)[k]| <= size
    ensures var count := |Batches(texts, size)|;
      texts != [] ==> (count - 1) * size < |texts| <= count * size
    ensures texts == [] <==> Batches(texts, size) == []
  {
    BatchesFromPartition(texts, size, 0);
    BatchesFromCount(texts, size, 0);
  }

  // -------------------------------------------------------------- embedding

  /** Sends each batch to the service in turn and concatenates the vectors; None as soon as one call raises. */
  function EmbedBatches(embed: EmbeddingService, batches: seq<seq<string>>): (r: Option<seq<Vector>>)
    ensures r.Some? <==> forall k :: 0 <= k < |batches| ==> embed(batches[k]).Some?
  {
    if batches == [] then Some([])
    else
      match embed(batches[0])
      case None => None
      case Some(vectors) =>
        match EmbedBatches(embed, batches[1..])
        case None => None
        case Some(rest) => Some(vectors + rest)
  }

  /** The embedding matrix `erzeuge_embeddings` builds, or None when a call raised. */
  function BatchedEmbeddings(embed: EmbeddingService, texts: seq<string>, size: nat): (r: Option<seq<Vector>>)
    requires size >= 1
    ensures r.Some? <==> forall k :: 0 <= k < |Batches(texts, size)| ==> embed(Batches(texts, size)[k]).Some?
  {
    EmbedBatches(embed, Batches(texts, size))
  }

  /** Prefixes the vectors already collected to the outcome of the remaining calls. */
  function Prepend(done: seq<Vector>, rest: Option<seq<Vector>>): Option<seq<Vector>> {
    match rest
    case None => None
    case Some(r) => Some(done + r)
  }

  /**
   * Sending `first` and then `second` is sending their concatenation: it
   * fails when either part fails, and otherwise concatenates the vectors.
   */
  lemma {:induction false} EmbedBatchesAppend(embed: EmbeddingService, first: seq<seq<string>>, second: seq<seq<string>>)
    ensures EmbedBatches(embed, first + second) ==
      match EmbedBatches(embed, first)
      case None => None
      case Some(done) => Prepend(done, EmbedBatches(embed, second))
  {
    if first == [] {
      assert first + second == second;
      match EmbedBatches(embed, second)
      case None =>
      case Some(r) => assert [] + r == r;
    } else {
      assert (first + second)[0] == first[0];
      assert (first + second)[1..] == first[1..] + second;
      EmbedBatchesAppend(embed, first[1..], second);
      match embed(first[0])
      case None =>
      case Some(vs) =>
        match EmbedBatches(embed, first[1..])
        case None =>
        case Some(done) =>
          match EmbedBatches(embed, second)
          case None =>
          case Some(r) => assert vs + (done + r) == (vs + done) + r;
    }
  }

  /** Sending one more batch: it fails when that call fails, and otherwise appends its vectors. */
  lemma EmbedBatchesSnoc(embed: EmbeddingService, sent: seq<seq<string>>, batch: seq<string>, done: seq<Vector>)
    requires EmbedBatches(embed, sent) == Some(done)
    ensures embed(batch).None? ==> EmbedBatches(embed, sent + [batch]) == None
    ensures embed(batch).Some? ==> EmbedBatches(embed, sent + [batch]) == Some(done + embed(batch).value)
  {
    EmbedBatchesAppend(embed, sent, [batch]);
    assert [batch][1..] == [];
    if embed(batch).Some? {
      assert embed(batch).value + [] == embed(batch).value;
    }
  }

  /** Each text embedded on its own by `embedOne`, in text order. */
  function EmbedEach(embedOne: string -> Vector, texts: seq<string>): (m: seq<Vector>)
    ensures |m| == |texts|
    ensures forall j :: 0 <= j < |texts| ==> m[j] == embedOne(texts[j])
  {
    if texts == [] then [] else [embedOne(texts[0])] + EmbedEach(embedOne, texts[1..])
  }

  /**
   * The assumption the model makes about the embedding service: every call
   * succeeds and returns one vector per input text, in input order, each
   * vector depending only on its own text.
   */
  ghost predicate OneVectorPerInput(embed: EmbeddingService, embedOne: string -> Vector) {
    forall batch :: embed(batch) == Some(EmbedEach(embedOne, batch))
  }

  lemma {:induction false} EmbedEachAppend(embedOne: string -> Vector, a: seq<string>, b: seq<string>)
    ensures EmbedEach(embedOne, a + b) == EmbedEach(embedOne, a) + EmbedEach(embedOne, b)
  {
    var l, r := EmbedEach(embedOne, a + b), EmbedEach(embedOne, a) + EmbedEach(embedOne, b);
    assert |l| == |r|;
    forall j | 0 <= j < |l| ensures l[j] == r[j] {
      if j < |a| { assert (a + b)[j] == a[j]; } else { assert (a + b)[j] == b[j - |a|]; }
    }
  }

  /** With a service of one vector per input, the batches' vectors are those of their concatenation. */
  lemma {:induction false} EmbedBatchesFaithful(embed: EmbeddingService, embedOne: string -> Vector, batches: seq<seq<string>>)
    requires OneVectorPerInput(embed, embedOne)
    ensures EmbedBatches(embed, batches) == Some(EmbedEach(embedOne, Flatten(batches)))
  {
    if batches != [] {
      EmbedBatchesFaithful(embed, embedOne, batches[1..]);
      EmbedEachAppend(embedOne, batches[0], Flatten(batches[1..]));
      assert embed(batches[0]) == Some(EmbedEach(embedOne, batches[0]));
    }
  }

  /**
   * With a service of one vector per input, the matrix has one row per text
   * and row `j` is the embedding of text `j`.
   */
  lemma BatchedEmbeddingsAligned(embed: EmbeddingService, embedOne: string -> Vector, texts: seq<string>, size: nat)
    requires size >= 1
    requires OneVectorPerInput(embed, embedOne)
    ensures BatchedEmbeddings(embed, texts, size) == Some(EmbedEach(embedOne, texts))
    ensures BatchedEmbeddings(embed, texts, size).Some?
    ensures |BatchedEmbeddings(embed, texts, size).value| == |texts|
    ensures forall j :: 0 <= j < |texts| ==> BatchedEmbeddings(embed, texts, size).value[j] == embedOne(texts[j])
  {
    BatchesPartition(texts, size);
    EmbedBatchesFaithful(embed, embedOne, Batches(texts, size));
  }

  /** With a service of one vector per input, the batch size does not change the matrix. */
  lemma BatchSizeIrrelevant(embed: EmbeddingService, embedOne: string -> Vector, texts: seq<string>, size1: nat, size2: nat)
    requires size1 >= 1 && size2 >= 1
    requires OneVectorPerInput(embed, embedOne)
    ensures BatchedEmbeddings(embed, texts, size1) == BatchedEmbeddings(embed, texts, size2)
  {
    BatchedEmbeddingsAligned(embed, embedOne, texts, size1);
    BatchedEmbeddingsAligned(embed, embedOne, texts, size2);
  }

  // --------------------------------------------------------------- progress

  /** `min((i + batch_size) / total, 1.0)`, the fraction shown after the slice at offset `i`. */
  function Progress(i: nat, size: nat, total: nat): (p: real)
    requires size >= 1 && total >= 1
    ensures 0.0 < p <= 1.0
    ensures p == 1.0 <==> i + size >= total
  {
    var fraction := (i + size) as real / total as real;
    assert fraction * total as real == (i + size) as real;
    if fraction <= 1.0 then fraction else 1.0
  }

  /** The fraction never goes down as the offset grows. */
  lemma ProgressMonotone(i: nat, j: nat, size: nat, total: nat)
    requires size >= 1 && total >= 1 && i <= j
    ensures Progress(i, size, total) <= Progress(j, size, total)
  {
    var t := total as real;
    var a, b := (i + size) as real / t, (j + size) as real / t;
    assert b - a == (j - i) as real / t;
    assert (j - i) as real / t >= 0.0;
  }

  /** The fractions reported after the first `count` slices, in order. */
  function ReportedFractions(count: nat, size: nat, total: nat): seq<real>
    requires size >= 1 && total >= 1
  {
    if count == 0 then []
    else ReportedFractions(count - 1, size, total) + [Progress(BatchOffset(count - 1, size), size, total)]
  }

  /**
   * The reported fractions: the `k`-th is `min((k * size + size) / total, 1.0)`;
   * they lie in (0, 1] and never go down; once the offsets have passed the
   * end of the texts the last one is 1.0.
   */
  lemma {:induction false} ReportedFractionsFacts(count: nat, size: nat, total: nat)
    requires size >= 1 && total >= 1
    ensures var p := ReportedFractions(count, size, total);
      && |p| == count
      && (forall k :: 0 <= k < count ==> p[k] == Progress(k * size, size, total))
      && (forall k, l :: 0 <= k <= l < count ==> 0.0 < p[k] <= p[l] <= 1.0)
      && (count >= 1 && BatchOffset(count, size) >= total ==> p[count - 1] == 1.0)
  {
    if count > 0 {
      ReportedFractionsFacts(count - 1, size, total);
      var p := ReportedFractions(count, size, total);
      forall k | 0 <= k < count ensures p[k] == Progress(BatchOffset(k, size), size, total) == Progress(k * size, size, total) {
        BatchOffsetIsProduct(k, size);
      }
      forall k, l | 0 <= k <= l < count ensures p[k] <= p[l] {
        BatchOffsetMonotone(k, l, size);
        ProgressMonotone(BatchOffset(k, size), BatchOffset(l, size), size, total);
      }
    }
  }

  /**
   * For a non-empty corpus, the fractions reported over all batches end at
   * 1.0 (for an empty corpus none is computed, see EmbedInBatches).
   */
  lemma AllFractionsReachOne(texts: seq<string>, size: nat)
    requires size >= 1 && texts != []
    ensures var p := ReportedFractions(|Batches(texts, size)|, size, |texts|);
      p != [] && p[|p| - 1] == 1.0
  {
    var count := |Batches(texts, size)|;
    BatchesPartition(texts, size);
    BatchesFromAt(texts, size, 0, count);
    ReportedFractionsFacts(count, size, |texts|);
  }

  // ------------------------------------------------------------ the method

  /** The vectors of one response appended one by one (`for data in response.data`). */
  method AppendVectors(embeddings: seq<Vector>, vectors: seq<Vector>) returns (r: seq<Vector>)
    ensures r == embeddings + vectors
  {
    r := embeddings;
    for j := 0 to |vectors|
      invariant r == embeddings + vectors[..j]
    {
      r := r + [vectors[j]];
    }
    assert vectors[..|vectors|] == vectors;
  }

  /**
   * The batch loop of `erzeuge_embeddings`. `sent` lists the batches passed
   * to the service, in call order; `progress` the fractions reported. When a
   * call raises, the loop stops there: the result is None, and that batch is
   * the last one sent and has no progress entry. For an empty corpus the
   * loop body never runs, so no fraction is computed.
   */
  method EmbedInBatches(texts: seq<string>, embed: EmbeddingService, size: nat)
    returns (result: Option<seq<Vector>>, sent: seq<seq<string>>, progress: seq<real>)
    requires size >= 1
    ensures result == BatchedEmbeddings(embed, texts, size)
    ensures sent <= Batches(texts, size)
    ensures result.Some? ==> sent == Batches(texts, size) && |progress| == |sent|
    ensures result.None? ==>
      sent != [] && |progress| == |sent| - 1 &&
      EmbedBatches(embed, sent[..|sent| - 1]).Some? && embed(sent[|sent| - 1]).None?
    ensures texts != [] ==> progress == ReportedFractions(|progress|, size, |texts|)
    ensures texts == [] ==> sent == [] && progress == []
  {
    var embeddings: seq<Vector> := [];
    sent, progress := [], [];
    var total := |texts|;
    var i := 0;
    ghost var all := Batches(texts, size);
    while i < total
      invariant |sent| <= |all| && sent == all[..|sent|]
      invariant i == BatchOffset(|sent|, size)
      invariant |progress| == |sent|
      invariant EmbedBatches(embed, sent) == Some(embeddings)
      invariant total >= 1 ==> progress == ReportedFractions(|progress|, size, total)
      decreases total - i
    {
      var batch := texts[i..BatchEnd(total, i, size)];
      BatchesFromAt(texts, size, 0, |sent|);
      var response := embed(batch);
      EmbedBatchesSnoc(embed, sent, batch, embeddings);
      ghost var before := sent;
      sent := sent + [batch];
      assert sent == all[..|sent|] && sent[..|sent| - 1] == before;
      if response.None? {
        EmbedBatchesAppend(embed, sent, all[|sent|..]);
        assert all == sent + all[|sent|..];
        return None, sent, progress;
      }
      embeddings := AppendVectors(embeddings, response.value);
      progress := progress + [Progress(i, size, total)];
      i := i + size;
    }
    BatchesFromAt(texts, size, 0, |sent|);
    assert sent == all;
    result := Some(embeddings);
  }

  // ----------------------------------------------------- the whole function

  /** The corpus `erzeuge_embeddings` returns for `items`, or None when a call raised. */
  function BuildCorpus(items: seq<Item>, embed: EmbeddingService, size: nat): (r: Option<Corpus>)
    requires size >= 1
    ensures r.Some? <==> BatchedEmbeddings(embed, NormalizedTexts(items), size).Some?
    ensures r.Some? ==> |r.value.texts| == |items| && r.value.texts == NormalizedTexts(items)
  {
    var texts := NormalizedTexts(items);
    match BatchedEmbeddings(embed, texts, size)
    case None => None
    case Some(m) => Some(Corpus(texts, m))
  }

  /**
   * `erzeuge_embeddings(daten, client, batch_size)` with `daten["items"]`
   * given as `items`: normalise every listing, then embed the texts batch by
   * batch.
   */
  method GenerateEmbeddings(items: seq<Item>, embed: EmbeddingService, size: nat)
    returns (result: Option<Corpus>, sent: seq<seq<string>>, progress: seq<real>)
    requires size >= 1
    ensures result == BuildCorpus(items, embed, size)
    ensures result.Some? ==> sent == Batches(NormalizedTexts(items), size) && |progress| == |sent|
    ensures sent <= Batches(NormalizedTexts(items), size)
    ensures items != [] ==> progress == ReportedFractions(|progress|, size, |items|)
    ensures items == [] ==> sent == [] && progress == []
    ensures result.None? ==>
      sent != [] && |progress| == |sent| - 1 &&
      EmbedBatches(embed, sent[..|sent| - 1]).Some? && embed(sent[|sent| - 1]).None?
  {
    var texte, allTexts := CollectTexts(items);
    var matrix;
    matrix, sent, progress := EmbedInBatches(allTexts, embed, size);
    if matrix.None? {
      return None, sent, progress;
    }
    result := Some(Corpus(texte, matrix.value));
  }

  /**
   * With a service of one vector per input, the built corpus holds one text
   * per listing and one row per text, row `j` being the embedding of text `j`.
   */
  lemma BuildCorpusAligned(items: seq<Item>, embed: EmbeddingService, embedOne: string -> Vector, size: nat)
    requires size >= 1
    requires OneVectorPerInput(embed, embedOne)
    ensures BuildCorpus(items, embed, size) == Some(Corpus(NormalizedTexts(items), EmbedEach(embedOne, NormalizedTexts(items))))
    ensures |BuildCorpus(items, embed, size).value.texts| == |items|
    ensures |BuildCorpus(items, embed, size).value.embeddings| == |items|
  {
    BatchedEmbeddingsAligned(embed, embedOne, NormalizedTexts(items), size);
  }
}
