/**
 * The selection step of `finde_relevante_texte`: the indices of the corpus
 * are sorted by ascending similarity to the query, the last `top_k` are
 * kept and reversed, and the texts at those indices are returned, best
 * match first.
 */
module Ranking {
  import opened Common
  import opened Batching

  /** The default `top_k` of `finde_relevante_texte`. */
  const DEFAULT_TOP_K: int := 3

  /** The embedding of the user's question, or None when the service call raised. */
  type QueryEmbedder = string -> Option<Vector>

  /** The cosine similarity of a corpus row and the query embedding. */
  type Similarity = (Vector, Vector) -> real

  // ---------------------------------------------------------- index orders

  predicate InRange(indices: seq<nat>, n: nat) {
    forall k :: 0 <= k < |indices| ==> indices[k] < n
  }

  predicate Distinct(indices: seq<nat>) {
    forall k, l :: 0 <= k < l < |indices| ==> indices[k] != indices[l]
  }

  /** The scores at `indices` never go down. */
  predicate Ascending(scores: seq<real>, indices: seq<nat>)
    requires InRange(indices, |scores|)
  {
    forall k, l :: 0 <= k < l < |indices| ==> scores[indices[k]] <= scores[indices[l]]
  }

  /**
   * What `np.argsort(scores)` may return: every index of `scores` exactly
   * once, ordered by ascending score. Equal scores may come in any order.
   */
  predicate IsArgSort(scores: seq<real>, order: seq<nat>) {
    && |order| == |scores|
    && InRange(order, |scores|)
    && Distinct(order)
    && (forall i :: 0 <= i < |scores| ==> i in order)
    && Ascending(scores, order)
  }

  /** Putting `a` before distinct indices that do not include it keeps them distinct. */
  lemma DistinctCons(a: nat, rest: seq<nat>)
    requires a !in rest && Distinct(rest)
    ensures Distinct([a] + rest)
  {
    var r := [a] + rest;
    forall k, l | 0 <= k < l < |r| ensures r[k] != r[l] {
      assert r[l] == rest[l - 1];
      if k > 0 { assert r[k] == rest[k - 1]; }
    }
  }

  /** Putting `a` before ascending indices that all score at least as much keeps them ascending. */
  lemma AscendingCons(scores: seq<real>, a: nat, rest: seq<nat>)
    requires a < |scores| && InRange(rest, |scores|) && Ascending(scores, rest)
    requires forall x :: x in rest ==> x < |scores| && scores[a] <= scores[x]
    ensures InRange([a] + rest, |scores|) && Ascending(scores, [a] + rest)
  {
    var r := [a] + rest;
    forall k, l | 0 <= k < l < |r| ensures scores[r[k]] <= scores[r[l]] {
      assert r[l] == rest[l - 1];
      if k > 0 { assert r[k] == rest[k - 1]; } else { assert rest[l - 1] in rest; }
    }
  }

  /**
   * Inserts index `j` into an ascending `sorted`, after every index whose
   * score is not above that of `j`.
   */
  function Insert(scores: seq<real>, j: nat, sorted: seq<nat>): (r: seq<nat>)
    requires j < |scores| && InRange(sorted, |scores|)
    ensures |r| == |sorted| + 1 && InRange(r, |scores|)
    ensures forall x :: x in r <==> x == j || x in sorted
    ensures Distinct(sorted) && j !in sorted ==> Distinct(r)
    ensures Ascending(scores, sorted) ==> Ascending(scores, r)
    decreases |sorted|
  {
    if sorted == [] then [j]
    else if scores[j] < scores[sorted[0]] then
      InsertFront(scores, j, sorted);
      [j] + sorted
    else
      var head, tail := sorted[0], sorted[1..];
      assert sorted == [head] + tail;
      assert InRange(tail, |scores|);
      var rest := Insert(scores, j, tail);
      InsertBehind(scores, j, head, tail, rest);
      [head] + rest
  }

  /** The case where `j` scores below the first index: it goes in front. */
  lemma InsertFront(scores: seq<real>, j: nat, sorted: seq<nat>)
    requires j < |scores| && InRange(sorted, |scores|) && sorted != [] && scores[j] < scores[sorted[0]]
    ensures InRange([j] + sorted, |scores|)
    ensures Distinct(sorted) && j !in sorted ==> Distinct([j] + sorted)
    ensures Ascending(scores, sorted) ==> Ascending(scores, [j] + sorted)
  {
    if Distinct(sorted) && j !in sorted {
      DistinctCons(j, sorted);
    }
    if Ascending(scores, sorted) {
      forall x | x in sorted ensures x < |scores| && scores[j] <= scores[x] {
        var p :| 0 <= p < |sorted| && sorted[p] == x;
        if p > 0 { assert scores[sorted[0]] <= scores[sorted[p]]; }
      }
      AscendingCons(scores, j, sorted);
    }
  }

  /** The case where `j` scores at least as much as the first index: it goes behind it. */
  lemma InsertBehind(scores: seq<real>, j: nat, head: nat, tail: seq<nat>, rest: seq<nat>)
    requires j < |scores| && head < |scores| && InRange(tail, |scores|) && InRange(rest, |scores|)
    requires scores[head] <= scores[j]
    requires forall x :: x in rest <==> x == j || x in tail
    requires Distinct(tail) && j !in tail ==> Distinct(rest)
    requires Ascending(scores, tail) ==> Ascending(scores, rest)
    ensures InRange([head] + rest, |scores|)
    ensures Distinct([head] + tail) && j !in [head] + tail ==> Distinct([head] + rest)
    ensures Ascending(scores, [head] + tail) ==> Ascending(scores, [head] + rest)
  {
    var sorted := [head] + tail;
    if Distinct(sorted) && j !in sorted {
      assert Distinct(tail) by {
        forall k, l | 0 <= k < l < |tail| ensures tail[k] != tail[l] {
          assert sorted[k + 1] == tail[k] && sorted[l + 1] == tail[l];
        }
      }
      assert sorted[0] == head;
      forall x | x in tail ensures x != head {
        var p :| 0 <= p < |tail| && tail[p] == x;
        assert sorted[p + 1] == x;
        assert sorted[0] != sorted[p + 1];
      }
      DistinctCons(head, rest);
    }
    if Ascending(scores, sorted) {
      assert Ascending(scores, tail) by {
        forall k, l | 0 <= k < l < |tail| ensures scores[tail[k]] <= scores[tail[l]] {
          assert sorted[k + 1] == tail[k] && sorted[l + 1] == tail[l];
        }
      }
      assert sorted[0] == head;
      forall x | x in rest ensures x < |scores| && scores[head] <= scores[x] {
        if x != j {
          assert x in tail;
          var p :| 0 <= p < |tail| && tail[p] == x;
          assert sorted[p + 1] == x;
          assert scores[sorted[0]] <= scores[sorted[p + 1]];
        }
      }
      AscendingCons(scores, head, rest);
    }
  }

  /** The indices below `n`, sorted by ascending score. */
  function SortIndices(scores: seq<real>, n: nat): (order: seq<nat>)
    requires n <= |scores|
    ensures |order| == n && InRange(order, n) && Distinct(order)
    ensures forall i :: 0 <= i < n ==> i in order
    ensures Ascending(scores, order)
  {
    if n == 0 then []
    else
      var prefix := SortIndices(scores, n - 1);
      assert InRange(prefix, |scores|);
      assert n - 1 !in prefix;
      var order := Insert(scores, n - 1, prefix);
      assert InRange(order, n) by {
        forall k | 0 <= k < |order| ensures order[k] < n {
          assert order[k] in order;
        }
      }
      order
  }

  /** One admissible `np.argsort`: a stable insertion sort. */
  function ArgSort(scores: seq<real>): (order: seq<nat>)
    ensures IsArgSort(scores, order)
  {
    SortIndices(scores, |scores|)
  }

  // ------------------------------------------------------------- selection

  /** Where Python's slice `a[start:]` starts on a list of length `n`. */
  function SliceStart(n: nat, start: int): (s: nat)
    ensures s <= n
    ensures start < 0 ==> n - s == Min(-start, n)
    ensures start >= 0 ==> s == Min(start, n)
  {
    if start < 0 then (if n + start < 0 then 0 else n + start)
    else if start < n then start else n
  }

  /** `a[::-1]` */
  function Reverse<T>(s: seq<T>): (r: seq<T>)
    ensures |r| == |s|
    ensures forall k :: 0 <= k < |s| ==> r[k] == s[|s| - 1 - k]
  {
    if s == [] then [] else Reverse(s[1..]) + [s[0]]
  }

  /** `np.argsort(scores)[-top_k:][::-1]` on the order `order`. */
  function SelectTop(order: seq<nat>, topK: int): (sel: seq<nat>)
    ensures topK >= 1 ==> |sel| == Min(topK, |order|)
    ensures topK == 0 ==> |sel| == |order|
    ensures forall k :: 0 <= k < |sel| ==> sel[k] in order
  {
    Reverse(order[SliceStart(|order|, -topK)..])
  }

  /** `[texte[i] for i in indices]` */
  function TextsAt(texts: seq<string>, indices: seq<nat>): (r: seq<string>)
    requires InRange(indices, |texts|)
    ensures |r| == |indices|
    ensures forall k :: 0 <= k < |indices| ==> r[k] == texts[indices[k]]
  {
    if indices == [] then [] else [texts[indices[0]]] + TextsAt(texts, indices[1..])
  }

  /** The selection is the last `n - s` indices of the order, read backwards. */
  lemma SelectTopShape(order: seq<nat>, topK: int)
    ensures var n, sel := |order|, SelectTop(order, topK);
      && |sel| == n - SliceStart(n, -topK)
      && (forall k :: 0 <= k < |sel| ==> sel[k] == order[n - 1 - k])
  {
    var n, s := |order|, SliceStart(|order|, -topK);
    var tail := order[s..];
    forall k | 0 <= k < |tail| ensures Reverse(tail)[k] == order[n - 1 - k] {
      assert Reverse(tail)[k] == tail[|tail| - 1 - k];
    }
  }

  /**
   * For any `top_k`, the selection is the tail of the ascending order from
   * the slice start `s`, best first: `n - s` distinct indices in range, with
   * non-increasing scores, and every index left out scores at most as much
   * as every index selected.
   */
  lemma SelectTopRanked(scores: seq<real>, order: seq<nat>, topK: int)
    requires IsArgSort(scores, order)
    ensures var n, sel := |scores|, SelectTop(order, topK);
      var s := SliceStart(n, -topK);
      && |sel| == n - s
      && (forall k :: 0 <= k < |sel| ==> sel[k] == order[n - 1 - k])
      && InRange(sel, n) && Distinct(sel)
      && (forall k, l :: 0 <= k < l < |sel| ==> scores[sel[k]] >= scores[sel[l]])
      && (forall i, k :: 0 <= i < n && i !in sel && 0 <= k < |sel| ==> scores[i] <= scores[sel[k]])
  {
    var n, sel := |scores|, SelectTop(order, topK);
    var s := SliceStart(n, -topK);
    SelectTopShape(order, topK);
    SelectTopDistinct(scores, order, topK);
    SelectTopDescending(scores, order, topK);
    forall i, k | 0 <= i < n && i !in sel && 0 <= k < |sel|
      ensures scores[i] <= scores[sel[k]]
    {
      SelectTopLeftOut(scores, order, topK, i, k);
    }
  }

  /** The selected indices are distinct indices of `scores`. */
  lemma SelectTopDistinct(scores: seq<real>, order: seq<nat>, topK: int)
    requires IsArgSort(scores, order)
    ensures InRange(SelectTop(order, topK), |scores|) && Distinct(SelectTop(order, topK))
  {
    var n, sel := |scores|, SelectTop(order, topK);
    SelectTopShape(order, topK);
    forall k | 0 <= k < |sel| ensures sel[k] < n {
      assert sel[k] == order[n - 1 - k];
    }
    forall k, l | 0 <= k < l < |sel| ensures sel[k] != sel[l] {
      assert sel[k] == order[n - 1 - k] && sel[l] == order[n - 1 - l];
    }
  }

  /** The selected indices come best first. */
  lemma SelectTopDescending(scores: seq<real>, order: seq<nat>, topK: int)
    requires IsArgSort(scores, order)
    ensures InRange(SelectTop(order, topK), |scores|)
    ensures var sel := SelectTop(order, topK);
      forall k, l :: 0 <= k < l < |sel| ==> scores[sel[k]] >= scores[sel[l]]
  {
    var n, sel := |scores|, SelectTop(order, topK);
    SelectTopShape(order, topK);
    SelectTopDistinct(scores, order, topK);
    forall k, l | 0 <= k < l < |sel| ensures scores[sel[k]] >= scores[sel[l]] {
      assert sel[k] == order[n - 1 - k] && sel[l] == order[n - 1 - l];
    }
  }

  /** An index left out of the selection sits before the slice start, so below every selected index. */
  lemma SelectTopLeftOut(scores: seq<real>, order: seq<nat>, topK: int, i: nat, k: nat)
    requires IsArgSort(scores, order)
    requires i < |scores| && i !in SelectTop(order, topK) && k < |SelectTop(order, topK)|
    ensures scores[i] <= scores[SelectTop(order, topK)[k]]
  {
    var n, sel := |scores|, SelectTop(order, topK);
    var s := SliceStart(n, -topK);
    SelectTopShape(order, topK);
    forall q | s <= q < n ensures order[q] in sel {
      assert sel[n - 1 - q] == order[q];
    }
    assert i in order;
    var p :| 0 <= p < n && order[p] == i;
    assert sel[k] == order[n - 1 - k] && p < n - 1 - k;
  }

  /**
   * For `top_k >= 1` the selection holds `min(top_k, n)` indices: the
   * `top_k` best, or all of them when there are fewer.
   */
  lemma SelectTopCount(scores: seq<real>, order: seq<nat>, topK: int)
    requires IsArgSort(scores, order) && topK >= 1
    ensures |SelectTop(order, topK)| == Min(topK, |scores|)
  {
    SelectTopRanked(scores, order, topK);
  }

  /**
   * For `top_k = 0` the slice `[-0:]` is the whole array, so every index is
   * selected, best first.
   */
  lemma SelectTopZeroTakesAll(scores: seq<real>, order: seq<nat>)
    requires IsArgSort(scores, order)
    ensures SelectTop(order, 0) == Reverse(order)
    ensures |SelectTop(order, 0)| == |scores|
    ensures forall i :: 0 <= i < |scores| ==> i in SelectTop(order, 0)
  {
    var sel := SelectTop(order, 0);
    assert order[0..] == order;
    SelectTopShape(order, 0);
    forall i | 0 <= i < |scores| ensures i in sel {
      assert i in order;
      var p :| 0 <= p < |order| && order[p] == i;
      assert sel[|order| - 1 - p] == i;
    }
  }

  // ----------------------------------------------------------- the function

  /** The similarity of every corpus row to the query, in row order. */
  function Scores(embeddings: seq<Vector>, query: Vector, similarity: Similarity): (scores: seq<real>)
    ensures |scores| == |embeddings|
    ensures forall j :: 0 <= j < |embeddings| ==> scores[j] == similarity(embeddings[j], query)
  {
    seq(|embeddings|, j requires 0 <= j < |embeddings| => similarity(embeddings[j], query))
  }

  /**
   * `finde_relevante_texte(prompt, texte, embeddings, client, top_k)`: None
   * when embedding the question raised, or when a selected row has no text
   * (the list comprehension's IndexError).
   */
  function FindRelevantTexts(prompt: string, texts: seq<string>, embeddings: seq<Vector>,
                             embedQuery: QueryEmbedder, similarity: Similarity, topK: int): (r: Option<seq<string>>)
    ensures embedQuery(prompt).None? ==> r.None?
    ensures embedQuery(prompt).Some? && |embeddings| <= |texts| ==> r.Some?
    ensures r.Some? ==> forall k :: 0 <= k < |r.value| ==> r.value[k] in texts
    ensures r.Some? && topK >= 1 ==> |r.value| == Min(topK, |embeddings|)
  {
    match embedQuery(prompt)
    case None => None
    case Some(query) =>
      var scores := Scores(embeddings, query, similarity);
      var sel := SelectTop(ArgSort(scores), topK);
      SelectTopDistinct(scores, ArgSort(scores), topK);
      if InRange(sel, |texts|) then Some(TextsAt(texts, sel)) else None
  }

  /**
   * With one text per corpus row and a question the service embeds, the
   * texts returned for `top_k >= 1` are `min(top_k, n)` texts of distinct
   * rows, best match first, and no row left out scores above a row kept.
   */
  lemma FindRelevantTextsRanked(prompt: string, texts: seq<string>, embeddings: seq<Vector>,
                                embedQuery: QueryEmbedder, similarity: Similarity, topK: int)
    requires |embeddings| == |texts| && embedQuery(prompt).Some? && topK >= 1
    ensures var scores := Scores(embeddings, embedQuery(prompt).value, similarity);
      var r := FindRelevantTexts(prompt, texts, embeddings, embedQuery, similarity, topK);
      && r.Some?
      && |r.value| == Min(topK, |texts|)
      && exists sel: seq<nat> ::
        && |sel| == |r.value| && InRange(sel, |texts|) && Distinct(sel)
        && (forall k :: 0 <= k < |sel| ==> r.value[k] == texts[sel[k]])
        && (forall k, l :: 0 <= k < l < |sel| ==> scores[sel[k]] >= scores[sel[l]])
        && (forall i, k :: 0 <= i < |texts| && i !in sel && 0 <= k < |sel| ==> scores[i] <= scores[sel[k]])
  {
    var scores := Scores(embeddings, embedQuery(prompt).value, similarity);
    var sel := SelectTop(ArgSort(scores), topK);
    SelectTopRanked(scores, ArgSort(scores), topK);
    SelectTopCount(scores, ArgSort(scores), topK);
    var r := FindRelevantTexts(prompt, texts, embeddings, embedQuery, similarity, topK);
    assert r == Some(TextsAt(texts, sel));
  }
}
