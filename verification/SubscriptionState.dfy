/** What a subscription worker holds in every run besides its pushes: when it flushes, what its
    centroid is, when it scans its scope again, and what it counts. */
module SubscriptionState {
  import opened Results
  import opened Memories
  import opened Bloom
  import opened Subscriptions
  import opened SubscriptionRuns
  import opened SubscriptionHits

  // ---------------------------------------------------------------------------------------
  //  When a chunk is complete
  // ---------------------------------------------------------------------------------------

  /** A text that is not empty, and the instant at which it was taken. */
  datatype Piece = Piece(text: string, instant: nat)

  /** The texts taken since the last flush that are not empty. */
  function Gathered(config: Config, tools: Tools, start: Env, run: seq<Turn>): seq<Piece> {
    if run == [] then []
    else
      var init, last := run[..|run| - 1], run[|run| - 1];
      var before, pieces := After(config, tools, start, init), Gathered(config, tools, start, init);
      if Flushes(config, tools, last.env, before, last.event) then []
      else if Takes(before, last.event) then WithText(pieces, last.event.text, last.env.instant)
      else pieces
  }

  function WithText(pieces: seq<Piece>, text: string, instant: nat): seq<Piece> {
    if text == "" then pieces else pieces + [Piece(text, instant)]
  }

  function TokensIn(tools: Tools, pieces: seq<Piece>): nat {
    if pieces == [] then 0
    else TokensIn(tools, pieces[..|pieces| - 1]) + tools.tokens(pieces[|pieces| - 1].text)
  }

  /** The text of the worker is made of these pieces. */
  predicate Holds(tools: Tools, t: Text, pieces: seq<Piece>) {
    && t.tokens == TokensIn(tools, pieces)
    && t.since == (if pieces == [] then None else Some(pieces[0].instant))
    && (t.buffer == "" <==> pieces == [])
  }

  lemma AppendedHolds(tools: Tools, t: Text, pieces: seq<Piece>, s: string, instant: nat)
    requires Holds(tools, t, pieces)
    ensures Holds(tools, Appended(tools, t, s, instant), WithText(pieces, s, instant))
  {
    assert (pieces + [Piece(s, instant)])[..|pieces|] == pieces;
  }

  lemma {:induction false} TextIsGathered(config: Config, tools: Tools, start: Env, run: seq<Turn>)
    ensures Holds(tools, After(config, tools, start, run).text, Gathered(config, tools, start, run))
  {
    hide Step, Appended, Takes, Flushes, Holds, WithText;
    if run == [] {
      NothingHeld(tools);
    } else {
      var init, last := run[..|run| - 1], run[|run| - 1];
      var before := After(config, tools, start, init);
      TextIsGathered(config, tools, start, init);
      TurnText(config, tools, last.env, before, last.event);
      NothingHeld(tools);
      if Takes(before, last.event) {
        TakesInput(before, last.event);
        AppendedHolds(tools, before.text, Gathered(config, tools, start, init), last.event.text, last.env.instant);
      }
    }
  }

  lemma NothingHeld(tools: Tools)
    ensures Holds(tools, EMPTY, [])
  {}

  /** A running, unpaused worker flushes exactly when a text completes the minimum of tokens of those
      since the last flush, when it is told to and has any text, and when it has waited since the first
      of them, for three tokens or more. */
  lemma FlushesIff(config: Config, tools: Tools, start: Env, run: seq<Turn>, env: Env, event: Event)
    ensures var w, pieces := After(config, tools, start, run), Gathered(config, tools, start, run);
      Flushes(config, tools, env, w, event)
      <==> && w.running && !w.paused
           && match event
              case Input(text) => config.chunkMinTokens <= TokensIn(tools, WithText(pieces, text, env.instant))
              case Control(Flush) => pieces != []
              case Timeout =>
                && 3 <= TokensIn(tools, pieces) && pieces != []
                && pieces[0].instant + config.maxWait <= env.instant
              case _ => false
  {
    hide After, Gathered, TokensIn, Appended, WithText;
    var w, pieces := After(config, tools, start, run), Gathered(config, tools, start, run);
    TextIsGathered(config, tools, start, run);
    if event.Input? {
      AppendedHolds(tools, w.text, pieces, event.text, env.instant);
    }
  }

  // ---------------------------------------------------------------------------------------
  //  The centroid
  // ---------------------------------------------------------------------------------------

  /** The embeddings that have the dimensions of the scope. */
  function Embeddings(dimensions: nat, memories: seq<Memory>): seq<Embedding> {
    if memories == [] then []
    else
      var rest, m := Embeddings(dimensions, memories[..|memories| - 1]), memories[|memories| - 1];
      if m.embedding.Some? && |m.embedding.value| == dimensions then rest + [m.embedding.value] else rest
  }

  /** The sum of their components at one place. */
  function Total(vectors: seq<Embedding>, j: nat): real
    requires forall v :: v in vectors ==> j < |v|
  {
    if vectors == [] then 0.0 else Total(vectors[..|vectors| - 1], j) + vectors[|vectors| - 1][j]
  }

  lemma {:induction false} EmbeddingsFit(dimensions: nat, memories: seq<Memory>)
    ensures forall v :: v in Embeddings(dimensions, memories) ==> |v| == dimensions
  {
    if memories != [] {
      EmbeddingsFit(dimensions, memories[..|memories| - 1]);
    }
  }

  /** The centroid counts the embeddings that fit and sums them place by place, so that its mean times
      their number is that sum. */
  lemma {:induction false} CentroidIs(dimensions: nat, memories: seq<Memory>, j: nat)
    requires j < dimensions
    ensures var c, vectors := CentroidOf(dimensions, memories), Embeddings(dimensions, memories);
      && (forall v :: v in vectors ==> |v| == dimensions)
      && |c.sum| == dimensions && c.count == |vectors| && c.sum[j] == Total(vectors, j)
      && (c.count > 0 ==> Mean(c)[j] * c.count as real == Total(vectors, j))
  {
    hide Mean, Total, Embeddings, CentroidOf;
    EmbeddingsFit(dimensions, memories);
    if memories == [] {
      NoEmbeddings(dimensions, j);
    } else {
      var init := memories[..|memories| - 1];
      CentroidIs(dimensions, init, j);
      CentroidOneMore(dimensions, memories, j);
    }
    MeanTimesCount(CentroidOf(dimensions, memories), j);
  }

  lemma NoEmbeddings(dimensions: nat, j: nat)
    requires j < dimensions
    ensures CentroidOf(dimensions, []) == Centroid(Zeros(dimensions), 0) && Zeros(dimensions)[j] == 0.0
    ensures Embeddings(dimensions, []) == [] && Total([], j) == 0.0
  {}

  lemma CentroidOneMore(dimensions: nat, memories: seq<Memory>, j: nat)
    requires memories != [] && j < dimensions
    requires forall v :: v in Embeddings(dimensions, memories[..|memories| - 1]) ==> |v| == dimensions
    requires forall v :: v in Embeddings(dimensions, memories) ==> |v| == dimensions
    requires |CentroidOf(dimensions, memories[..|memories| - 1]).sum| == dimensions
    ensures var init, m := memories[..|memories| - 1], memories[|memories| - 1];
      var before, after := CentroidOf(dimensions, init), CentroidOf(dimensions, memories);
      var some, all := Embeddings(dimensions, init), Embeddings(dimensions, memories);
      if m.embedding.Some? && |m.embedding.value| == dimensions then
        && |after.sum| == dimensions && after.count == before.count + 1
        && after.sum[j] == before.sum[j] + m.embedding.value[j]
        && |all| == |some| + 1 && Total(all, j) == Total(some, j) + m.embedding.value[j]
      else after == before && all == some
  {
    var init, m := memories[..|memories| - 1], memories[|memories| - 1];
    if m.embedding.Some? && |m.embedding.value| == dimensions {
      var some := Embeddings(dimensions, init);
      assert (some + [m.embedding.value])[..|some|] == some;
      assert Embeddings(dimensions, memories) == some + [m.embedding.value];
    }
  }

  lemma MeanTimesCount(c: Centroid, j: nat)
    requires j < |c.sum|
    ensures c.count > 0 ==> Mean(c)[j] * c.count as real == c.sum[j]
  {
    if c.count > 0 {
      var n := c.count as real;
      assert 1.0 / n * n == 1.0;
      assert c.sum[j] * (1.0 / n) * n == c.sum[j] * (1.0 / n * n);
    }
  }

  // ---------------------------------------------------------------------------------------
  //  Scanning again
  // ---------------------------------------------------------------------------------------

  /** A notified memory counts for the scope. */
  predicate IsScoped(config: Config, env: Env, w: Worker, event: Event) {
    && w.running && !w.paused && event.Notify?
    && event.id in env.records && IsWanted(config, env.records[event.id], env.now)
  }

  /** How many memories of the scope were written since the last scan, this event included. */
  function WritesWith(config: Config, env: Env, w: Worker, event: Event): nat {
    w.scopedWrites + if IsScoped(config, env, w, event) then 1 else 0
  }

  predicate Stops(event: Event) {
    event == Control(Shutdown) || event == ControlClosed || event == InputClosed
  }

  /** A worker that goes on scans again when the interval is over or enough was written. */
  predicate ScansAgain(config: Config, env: Env, w: Worker, event: Event) {
    && w.running && !w.paused && !Stops(event)
    && (w.lastRebuild + config.refreshInterval <= env.instant
        || config.refreshWrites <= WritesWith(config, env, w, event))
  }

  lemma NotifiedScope(config: Config, env: Env, w: Worker, id: Id)
    ensures var after := Notified(config, env, w, id);
      && after.filter == w.filter && after.lastRebuild == w.lastRebuild
      && after.running == w.running && after.paused == w.paused && after.context == w.context
      && after.text == w.text
      && (if id in env.records && IsWanted(config, env.records[id], env.now) then
            && after.scopedWrites == w.scopedWrites + 1
            && after.centroid == WithMemory(config.dimensions, w.centroid, env.records[id])
          else after.scopedWrites == w.scopedWrites && after.centroid == w.centroid)
  {
    hide InScope, IsWanted, Confidence, InnerProduct, WithMemory;
    if id in env.records { ScopeIsWanted(config, env.records[id], env.now); }
  }

  lemma FlushedScope(config: Config, tools: Tools, env: Env, w: Worker)
    requires IsSized(w.filter)
    ensures var after := Flushed(config, tools, env, w);
      && after.filter == w.filter && after.lastRebuild == w.lastRebuild
      && after.running == w.running && after.paused == w.paused
      && after.scopedWrites == w.scopedWrites && after.centroid == w.centroid
  {
    hide ChunkProcessed;
    ChunkKeeps(config, tools, env, w.(text := EMPTY), w.text.buffer);
  }

  lemma HandledScope(config: Config, tools: Tools, env: Env, w: Worker, event: Event)
    requires IsSized(w.filter) && w.running && !w.paused
    ensures var after := Handled(config, tools, env, w, event);
      && after.lastRebuild == w.lastRebuild && (after.running <==> !Stops(event))
      && after.scopedWrites == WritesWith(config, env, w, event)
      && after.centroid == (if IsScoped(config, env, w, event)
                            then WithMemory(config.dimensions, w.centroid, env.records[event.id]) else w.centroid)
  {
    hide Flushed, Notified, Appended, ShouldFlush, ShouldFlushOnTimeout, IsWanted, WithMemory;
    FlushedScope(config, tools, env, w);
    match event
    case Input(text) => FlushedScope(config, tools, env, w.(text := Appended(tools, w.text, text, env.instant)));
    case Notify(id) => NotifiedScope(config, env, w, id);
    case _ =>
  }

  /** When the scope is scanned again, by the plain conditions; what the centroid is made of then and
      otherwise; and how many writes count since. */
  lemma TurnScope(config: Config, tools: Tools, env: Env, w: Worker, event: Event)
    requires IsSized(w.filter)
    ensures var after := Step(config, tools, env, w, event);
      && (Rebuilds(config, tools, env, w, event) <==> ScansAgain(config, env, w, event))
      && (if ScansAgain(config, env, w, event) then
            && after.centroid == CentroidOf(config.dimensions, env.scan)
            && after.lastRebuild == env.instant && after.scopedWrites == 0
          else
            && after.lastRebuild == w.lastRebuild
            && after.scopedWrites == WritesWith(config, env, w, event)
            && after.centroid == (if IsScoped(config, env, w, event)
                                  then WithMemory(config.dimensions, w.centroid, env.records[event.id])
                                  else w.centroid))
  {
    hide Handled, FilterFor, KeywordsOf, CentroidOf, IsWanted, WithMemory;
    if w.running && !w.paused {
      HandledScope(config, tools, env, w, event);
    }
  }

  /** The memories that the centroid is about: those of the last scan, then those notified since that
      belong to the scope. */
  function Scope(config: Config, tools: Tools, start: Env, run: seq<Turn>): seq<Memory> {
    if run == [] then start.scan
    else
      var init, last := run[..|run| - 1], run[|run| - 1];
      var before := After(config, tools, start, init);
      if ScansAgain(config, last.env, before, last.event) then last.env.scan
      else if IsScoped(config, last.env, before, last.event)
      then Scope(config, tools, start, init) + [last.env.records[last.event.id]]
      else Scope(config, tools, start, init)
  }

  /** In every run the centroid is that of these memories. */
  lemma {:induction false} CentroidIsOfScope(config: Config, tools: Tools, start: Env, run: seq<Turn>)
    ensures After(config, tools, start, run).centroid == CentroidOf(config.dimensions, Scope(config, tools, start, run))
  {
    hide Step, ScansAgain, IsScoped, WithMemory;
    if run != [] {
      var init, last := run[..|run| - 1], run[|run| - 1];
      var before, scope := After(config, tools, start, init), Scope(config, tools, start, init);
      CentroidIsOfScope(config, tools, start, init);
      TurnScope(config, tools, last.env, before, last.event);
      if IsScoped(config, last.env, before, last.event) {
        ScopedIsRecorded(config, last.env, before, last.event);
        var m := last.env.records[last.event.id];
        assert (scope + [m])[..|scope|] == scope;
      }
    }
  }

  lemma ScopedIsRecorded(config: Config, env: Env, w: Worker, event: Event)
    requires IsScoped(config, env, w, event)
    ensures event.Notify? && event.id in env.records
  {}

  // ---------------------------------------------------------------------------------------
  //  Flags, context and counters
  // ---------------------------------------------------------------------------------------

  /** The filter lets the chunk through and it can be embedded. */
  predicate IsEmbedded(tools: Tools, env: Env, w: Worker, chunk: string)
    requires IsSized(w.filter)
  {
    ContainsAny(tools.hash, w.filter, tools.keywords(chunk)) && env.embed(chunk).Some?
  }

  predicate IsCoarse(config: Config, tools: Tools, env: Env, w: Worker, chunk: string)
    requires IsSized(w.filter)
  {
    && IsEmbedded(tools, env, w, chunk) && w.centroid.count > 0
    && InnerProduct(env.embed(chunk).value, tools.normalize(Mean(w.centroid))) < config.coarse
  }

  function One(counts: bool): nat {
    if counts then 1 else 0
  }

  lemma FlushedCounts(config: Config, tools: Tools, env: Env, w: Worker)
    requires IsSized(w.filter)
    ensures var chunk, after := w.text.buffer, Flushed(config, tools, env, w);
      && after.stats.processed == w.stats.processed + 1
      && after.stats.bloomRejected
         == w.stats.bloomRejected + One(!ContainsAny(tools.hash, w.filter, tools.keywords(chunk)))
      && after.stats.coarseRejected == w.stats.coarseRejected + One(IsCoarse(config, tools, env, w, chunk))
      && after.context == if IsEmbedded(tools, env, w, chunk) then env.embed(chunk) else w.context
  {
    hide HitsPushed, ContainsAny, InnerProduct, Mean;
    forall v: Worker, hits: seq<(Id, real)>
      ensures var after := HitsPushed(config, env, v, hits);
        && after == v.(dedup := after.dedup, sent := after.sent, stats := after.stats)
        && after.stats == v.stats.(sent := after.stats.sent)
    {
      HitsKeep(config, env, v, hits);
    }
  }

  /** A flush counts a processed chunk, and a rejected one exactly if no keyword passes the filter or
      the embedding is below the coarse threshold; the chunk becomes the context exactly if it is
      embedded. Nothing else changes these counters or the context. */
  lemma TurnCounts(config: Config, tools: Tools, env: Env, w: Worker, event: Event)
    requires IsSized(w.filter)
    ensures var after, chunk := Step(config, tools, env, w, event), Chunk(tools, env, w, event);
      var flushes := Flushes(config, tools, env, w, event);
      && after.stats.processed == w.stats.processed + One(flushes)
      && after.stats.bloomRejected == w.stats.bloomRejected
           + One(flushes && !ContainsAny(tools.hash, w.filter, tools.keywords(chunk)))
      && after.stats.coarseRejected == w.stats.coarseRejected
           + One(flushes && IsCoarse(config, tools, env, w, chunk))
      && after.context == if flushes && IsEmbedded(tools, env, w, chunk) then env.embed(chunk) else w.context
  {
    hide Flushed, Notified, Appended, ShouldFlush, ShouldFlushOnTimeout, FilterFor, KeywordsOf, CentroidOf, ContainsAny,
      InnerProduct, Mean;
    FlushedCounts(config, tools, env, w);
    match event
    case Input(text) => FlushedCounts(config, tools, env, w.(text := Appended(tools, w.text, text, env.instant)));
    case Notify(id) => NotifiedCounts(config, env, w, id);
    case _ =>
  }

  lemma NotifiedCounts(config: Config, env: Env, w: Worker, id: Id)
    ensures var after := Notified(config, env, w, id);
      && after.context == w.context
      && after.stats == w.stats.(sent := after.stats.sent)
  {
    hide InScope, Confidence, InnerProduct, WithMemory;
  }

  /** A worker stops for good when it is told to, when the control channel closes, and, unless it is
      paused, when the input closes; in between it is paused from a Pause to the next Resume. */
  lemma TurnFlags(config: Config, tools: Tools, env: Env, w: Worker, event: Event)
    requires IsSized(w.filter)
    ensures var after := Step(config, tools, env, w, event);
      && (after.running <==>
            w.running && event != Control(Shutdown) && event != ControlClosed && (w.paused || event != InputClosed))
      && (after.paused <==>
            (w.running && event == Control(Pause)) || (w.paused && !(w.running && event == Control(Resume))))
  {
    hide Flushed, Notified, Appended, ShouldFlush, ShouldFlushOnTimeout, FilterFor, KeywordsOf, CentroidOf;
    FlushedScope(config, tools, env, w);
    match event
    case Input(text) => FlushedScope(config, tools, env, w.(text := Appended(tools, w.text, text, env.instant)));
    case Notify(id) => NotifiedScope(config, env, w, id);
    case _ =>
  }

  /** The filter of keywords has the size computed for their number, or for one if there are none, but
      64 bits at least, and the number of hash functions computed, but from 1 to 20. */
  lemma FilterHasSize(tools: Tools, keywords: seq<string>)
    ensures var f := FilterFor(tools, keywords);
      var n := if keywords == [] then 1 else |keywords|;
      var bits, hashes := tools.filterBits(n), tools.filterHashes(n);
      && f.itemCount == |keywords|
      && (bits >= 64 ==> f.numBits == bits) && (bits <= 64 ==> f.numBits == 64)
      && (1 <= hashes <= 20 ==> f.numHashes == hashes)
      && (hashes == 0 ==> f.numHashes == 1) && (hashes > 20 ==> f.numHashes == 20)
  {}
}
