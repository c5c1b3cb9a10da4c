/**
 * `lade_oder_erzeuge_embeddings`: the embedding matrix is kept between runs
 * in a cache (the pickled pair of texts and embeddings plus a timestamp
 * file). Without a forced refresh an existing record is returned as stored;
 * otherwise a fresh record is built with the default batch size, stored and
 * returned.
 */
module Cache {
  import opened Common
  import opened Normalize
  import opened Batching

  /** The persisted state: the texts, the embedding matrix and the time it was built. */
  datatype CacheRecord = CacheRecord(texts: seq<string>, embeddings: seq<Vector>, timestamp: string)

  /**
   * The effect of one call: the triple it returns (None when building
   * raised, so nothing is returned) and the stored record afterwards.
   */
  datatype Outcome = Outcome(returned: Option<CacheRecord>, stored: Option<CacheRecord>)

  /** The record a rebuild at time `now` produces, or None when an embedding call raised. */
  function Rebuild(items: seq<Item>, embed: EmbeddingService, now: string): (r: Option<CacheRecord>)
    ensures r.Some? <==> BatchedEmbeddings(embed, NormalizedTexts(items), DEFAULT_BATCH_SIZE).Some?
    ensures r.Some? ==> r.value.embeddings == BatchedEmbeddings(embed, NormalizedTexts(items), DEFAULT_BATCH_SIZE).value
  {
    match BuildCorpus(items, embed, DEFAULT_BATCH_SIZE)
    case None => None
    case Some(corpus) => Some(CacheRecord(corpus.texts, corpus.embeddings, now))
  }

  /** One call of `lade_oder_erzeuge_embeddings(force_neu)` on the store `stored`. */
  function LoadOrBuildSpec(stored: Option<CacheRecord>, forceNew: bool, items: seq<Item>, embed: EmbeddingService, now: string): (o: Outcome)
    ensures o.returned.Some? ==> o.stored == o.returned
    ensures o.returned.None? ==> o.stored == stored && (forceNew || stored.None?)
  {
    if !forceNew && stored.Some? then Outcome(stored, stored)
    else
      match Rebuild(items, embed, now)
      case None => Outcome(None, stored)
      case Some(rebuilt) => Outcome(Some(rebuilt), Some(rebuilt))
  }

  /**
   * The two branches: without a forced refresh an existing record is
   * returned and kept unchanged; otherwise what is returned is the rebuilt
   * record, and it is also what is stored; a rebuild that raises returns
   * nothing and leaves the store as it was.
   */
  lemma LoadOrBuildBranches(stored: Option<CacheRecord>, forceNew: bool, items: seq<Item>, embed: EmbeddingService, now: string)
    ensures var o := LoadOrBuildSpec(stored, forceNew, items, embed, now);
      && (!forceNew && stored.Some? ==> o.returned == stored && o.stored == stored)
      && (forceNew || stored.None? ==> o.returned == Rebuild(items, embed, now))
      && (o.returned.Some? ==> o.stored == o.returned)
      && (o.returned.None? ==> o.stored == stored)
  {
  }

  /**
   * A rebuilt record holds the normalised texts of the listings and carries
   * the time of the call as its timestamp.
   */
  lemma RebuildContents(items: seq<Item>, embed: EmbeddingService, now: string)
    ensures var r := Rebuild(items, embed, now);
      r.Some? ==> r.value.texts == NormalizedTexts(items) && |r.value.texts| == |items| && r.value.timestamp == now
  {
  }

  /**
   * Once a call has returned a triple, a later call without a forced
   * refresh returns that same triple and changes nothing, whatever the
   * listings, the service or the clock are by then.
   */
  lemma ReloadReturnsStored(stored: Option<CacheRecord>, forceNew: bool, items: seq<Item>, embed: EmbeddingService, now: string,
                            laterItems: seq<Item>, laterEmbed: EmbeddingService, later: string)
    ensures var first := LoadOrBuildSpec(stored, forceNew, items, embed, now);
      first.returned.Some? ==>
        LoadOrBuildSpec(first.stored, false, laterItems, laterEmbed, later) == Outcome(first.returned, first.stored)
  {
  }

  /** A record whose rows are the embeddings of its texts under `embedOne`, one row per text. */
  ghost predicate Consistent(record: CacheRecord, embedOne: string -> Vector) {
    record.embeddings == EmbedEach(embedOne, record.texts)
  }

  /**
   * With a service of one vector per input, every call returns a record and
   * leaves a stored record that are consistent, one row per text, provided
   * the record stored before was.
   */
  lemma LoadOrBuildKeepsConsistent(stored: Option<CacheRecord>, forceNew: bool, items: seq<Item>, embed: EmbeddingService,
                                   embedOne: string -> Vector, now: string)
    requires OneVectorPerInput(embed, embedOne)
    requires stored.Some? ==> Consistent(stored.value, embedOne)
    ensures var o := LoadOrBuildSpec(stored, forceNew, items, embed, now);
      && o.returned.Some? && o.stored.Some?
      && Consistent(o.returned.value, embedOne)
      && Consistent(o.stored.value, embedOne)
      && |o.returned.value.embeddings| == |o.returned.value.texts|
  {
    BuildCorpusAligned(items, embed, embedOne, DEFAULT_BATCH_SIZE);
  }

  /** The cache files on disk, as one optional record. */
  class EmbeddingCache {
    var stored: Option<CacheRecord>

    constructor(initial: Option<CacheRecord>)
      ensures stored == initial
    {
      stored := initial;
    }

    /**
     * `lade_oder_erzeuge_embeddings(force_neu)` at time `now`. `sent` lists
     * the batches passed to the embedding service: none when the stored
     * record is returned.
     */
    method LoadOrBuild(forceNew: bool, items: seq<Item>, embed: EmbeddingService, now: string)
      returns (result: Option<CacheRecord>, sent: seq<seq<string>>)
      modifies this
      ensures Outcome(result, stored) == LoadOrBuildSpec(old(stored), forceNew, items, embed, now)
      ensures !forceNew && old(stored).Some? ==> sent == []
      ensures (forceNew || old(stored).None?) && result.Some? ==>
        sent == Batches(NormalizedTexts(items), DEFAULT_BATCH_SIZE)
    {
      if !forceNew && stored.Some? {
        return stored, [];
      }
      var corpus, progress;
      corpus, sent, progress := GenerateEmbeddings(items, embed, DEFAULT_BATCH_SIZE);
      if corpus.None? {
        return None, sent;
      }
      var rebuilt := CacheRecord(corpus.value.texts, corpus.value.embeddings, now);
      stored := Some(rebuilt);
      result := Some(rebuilt);
    }
  }

  /**
   * A refresh (the "Embeddings aktualisieren" button) followed by a later
   * run without it: the later run gets back exactly the triple the refresh
   * returned, and sends nothing to the embedding service.
   */
  method RefreshThenLoad(initial: Option<CacheRecord>, items: seq<Item>, embed: EmbeddingService, now: string, later: string)
    returns (refreshed: Option<CacheRecord>, loaded: Option<CacheRecord>, sentLater: seq<seq<string>>)
    ensures refreshed == Rebuild(items, embed, now)
    ensures refreshed.Some? ==> loaded == refreshed && sentLater == []
    ensures refreshed.None? ==> loaded == (if initial.Some? then initial else Rebuild(items, embed, later))
  {
    var cache := new EmbeddingCache(initial);
    var sentFirst;
    refreshed, sentFirst := cache.LoadOrBuild(true, items, embed, now);
    loaded, sentLater := cache.LoadOrBuild(false, items, embed, later);
  }
}
