/** The worker of a subscription as it runs: mutable state, loops and the shared output buffer,
    each method proved against its function in Subscriptions. */
module SubscriptionWorker {
  import opened Results
  import opened Memories
  import opened Bloom
  import opened OutputQueue
  import opened Subscriptions

  lemma HistoryOneMore<T>(run: seq<Op<T>>, item: T)
    ensures History(run + [Op.Push(item)]) == History(run) + [item]
  {
    assert (run + [Op.Push(item)])[..|run|] == run;
  }

  lemma KeywordsOneMore(tools: Tools, memories: seq<Memory>, i: nat)
    requires i < |memories|
    ensures KeywordsOf(tools, memories[..i + 1])
        == KeywordsOf(tools, memories[..i]) + tools.keywords(memories[i].content)
  {
    assert memories[..i + 1][..i] == memories[..i];
  }

  lemma CentroidOneMore(dimensions: nat, memories: seq<Memory>, i: nat)
    requires i < |memories|
    ensures CentroidOf(dimensions, memories[..i + 1])
        == WithMemory(dimensions, CentroidOf(dimensions, memories[..i]), memories[i])
  {
    assert memories[..i + 1][..i] == memories[..i];
  }

  lemma FilterOneMore(hash: Hashing, numBits: nat, numHashes: nat, items: seq<string>, i: nat)
    requires i < |items| && numBits > 0
    ensures FilterOf(hash, numBits, numHashes, items[..i + 1])
         == Inserted(hash, FilterOf(hash, numBits, numHashes, items[..i]), items[i])
  {
    assert items[..i + 1][..i] == items[..i];
  }

  /** build_scope_data, given what the scan of the scope found. */
  method BuildScopeData(
      config: Config, tools: Tools, scan: seq<Memory>) returns (bloom: BloomFilter, centroid: CentroidState)
    ensures fresh(bloom) && fresh(bloom.bits) && bloom.Valid() && bloom.hash == tools.hash
    ensures fresh(centroid) && centroid.Valid() && centroid.normalize == tools.normalize
    ensures bloom.Value() == FilterFor(tools, KeywordsOf(tools, scan))
    ensures centroid.Value() == CentroidOf(config.dimensions, scan)
  {
    hide KeywordsOf, CentroidOf, FilterOf, Inserted, Added;
    centroid := new CentroidState(config.dimensions, tools.normalize);
    var keywords: seq<string> := [];
    assert KeywordsOf(tools, scan[..0]) == [] && CentroidOf(config.dimensions, scan[..0])
        == Centroid(Zeros(config.dimensions), 0)
    by {
      NothingScanned(tools, config.dimensions, scan);
    }
    for i := 0 to |scan|
      invariant fresh(centroid) && centroid.Valid() && centroid.normalize == tools.normalize
      invariant keywords == KeywordsOf(tools, scan[..i])
      invariant centroid.Value() == CentroidOf(config.dimensions, scan[..i])
    {
      KeywordsOneMore(tools, scan, i);
      CentroidOneMore(config.dimensions, scan, i);
      keywords := keywords + tools.keywords(scan[i].content);
      if scan[i].embedding.Some? && |scan[i].embedding.value| == config.dimensions {
        centroid.Add(scan[i].embedding.value);
      }
    }
    assert scan[..|scan|] == scan;
    bloom := BuildFilter(tools, keywords);
  }

  lemma NothingScanned(tools: Tools, dimensions: nat, scan: seq<Memory>)
    ensures KeywordsOf(tools, scan[..0]) == [] && CentroidOf(dimensions, scan[..0]) == Centroid(Zeros(dimensions), 0)
  {}

  method BuildFilter(tools: Tools, keywords: seq<string>) returns (bloom: BloomFilter)
    ensures fresh(bloom) && fresh(bloom.bits) && bloom.Valid() && bloom.hash == tools.hash
    ensures bloom.Value() == FilterFor(tools, keywords)
  {
    hide FilterOf, Inserted;
    var expected := AtLeast(1, |keywords|);
    var numBits, numHashes := AtLeast(64, tools.filterBits(expected)), Clamp(tools.filterHashes(expected), 1, 20);
    bloom := new BloomFilter(tools.hash, numBits, numHashes);
    assert FilterOf(tools.hash, numBits, numHashes, keywords[..0]) == Filter({}, 0, numBits, numHashes) by {
      EmptyFilter(tools.hash, numBits, numHashes, keywords);
    }
    for i := 0 to |keywords|
      invariant fresh(bloom) && fresh(bloom.bits) && bloom.Valid() && bloom.hash == tools.hash
      invariant bloom.Value() == FilterOf(tools.hash, numBits, numHashes, keywords[..i])
    {
      FilterOneMore(tools.hash, numBits, numHashes, keywords, i);
      bloom.Insert(keywords[i]);
    }
    assert keywords[..|keywords|] == keywords;
  }

  lemma EmptyFilter(hash: Hashing, numBits: nat, numHashes: nat, items: seq<string>)
    requires numBits > 0
    ensures FilterOf(hash, numBits, numHashes, items[..0]) == Filter({}, 0, numBits, numHashes)
  {}

  class SubscriptionWorker {
    const config: Config
    const tools: Tools
    const output: OutputBuffer<SubscribePush>
    var bloom: BloomFilter
    var centroid: CentroidState
    var dedup: set<Id>
    var text: Text
    var context: Option<Embedding>
    var paused: bool
    var running: bool
    var lastRebuild: nat
    var scopedWrites: nat
    var stats: Stats

    ghost predicate Valid()
      reads this, bloom, bloom.bits, centroid, output
    {
      && bloom.Valid() && bloom.hash == tools.hash
      && centroid.Valid() && centroid.normalize == tools.normalize
      && output.Valid()
    }

    ghost function Value(): (w: Worker)
      requires Valid()
      reads this, bloom, bloom.bits, centroid, output
      ensures IsSized(w.filter)
    {
      Worker(
        bloom.Value(), centroid.Value(), dedup, text, context, paused, running, lastRebuild, scopedWrites, stats,
        History(output.run))
    }

    constructor (config: Config, tools: Tools, output: OutputBuffer<SubscribePush>, env: Env)
      requires output.Valid() && output.run == []
      ensures this.config == config && this.tools == tools && this.output == output
      ensures Valid() && fresh(bloom) && fresh(bloom.bits) && fresh(centroid)
      ensures Value() == Started(config, tools, env)
    {
      var filter, mean := BuildScopeData(config, tools, env.scan);
      this.config, this.tools, this.output, this.bloom, this.centroid := config, tools, output, filter, mean;
      dedup, text, context, paused, running := {}, EMPTY, None, false, true;
      lastRebuild, scopedWrites, stats := env.instant, 0, Stats(0, 0, 0, 0);
    }

    method Send(id: Id, push: SubscribePush)
      requires Valid()
      modifies this`dedup, this`stats, output
      ensures Valid() && Value() == Sent(old(Value()), id, push)
    {
      hide History, After;
      dedup := dedup + {id};
      HistoryOneMore(output.run, push);
      output.Append(push);
      stats := stats.(sent := stats.sent + 1);
    }

    method OfferHit(env: Env, hit: (Id, real))
      requires Valid()
      modifies this`dedup, this`stats, output
      ensures Valid() && Value() == HitPushed(config, env, old(Value()), hit)
    {
      hide Sent, History, After;
      var (id, distance) := hit;
      var confidence := Confidence(distance);
      if confidence < config.confidence || id in dedup || id !in env.records {
        return;
      }
      var memory := env.records[id];
      if !InScope(config, memory, env.now) {
        return;
      }
      Send(id, SubscribePush(memory, confidence, env.now));
    }

    method OfferHits(env: Env, hits: seq<(Id, real)>)
      requires Valid()
      modifies this`dedup, this`stats, output
      ensures Valid() && Value() == HitsPushed(config, env, old(Value()), hits)
    {
      hide HitPushed, History, After, Value, Valid;
      for i := 0 to |hits|
        invariant Valid() && Value() == HitsPushed(config, env, old(Value()), hits[..i])
      {
        assert hits[..i + 1][..i] == hits[..i];
        OfferHit(env, hits[i]);
      }
      assert hits[..|hits|] == hits;
    }

    /** process_chunk */
    method ProcessChunk(env: Env, chunk: string) returns (embedding: Option<Embedding>)
      requires Valid()
      modifies this`dedup, this`stats, centroid`cached, centroid`dirty, output
      ensures Valid() && (embedding, Value()) == ChunkProcessed(config, tools, env, old(Value()), chunk)
    {
      hide HitsPushed, History, After, ContainsAny, InnerProduct;
      stats := stats.(processed := stats.processed + 1);
      var passes := bloom.TestAny(tools.keywords(chunk));
      if !passes {
        stats := stats.(bloomRejected := stats.bloomRejected + 1);
        return None;
      }
      embedding := env.embed(chunk);
      if embedding == None {
        return;
      }
      var v := embedding.value;
      var mean := centroid.Unit();
      if mean.Some? && InnerProduct(v, mean.value) < config.coarse {
        stats := stats.(coarseRejected := stats.coarseRejected + 1);
        return;
      }
      var found := env.search(v);
      if found.Some? {
        OfferHits(env, found.value);
      }
    }

    /** The accumulated text goes through the pipeline; its embedding becomes the context. */
    method FlushText(env: Env)
      requires Valid()
      modifies this`dedup, this`stats, this`text, this`context, centroid`cached, centroid`dirty, output
      ensures Valid() && Value() == Flushed(config, tools, env, old(Value()))
    {
      hide ChunkProcessed, History, After;
      var chunk := text.buffer;
      text := EMPTY;
      var embedding := ProcessChunk(env, chunk);
      if embedding.Some? {
        context := embedding;
      }
    }

    /** process_new_write_notification */
    method ProcessNotification(env: Env, id: Id)
      requires Valid()
      modifies this`dedup, this`stats, this`scopedWrites, centroid, output
      ensures Valid() && Value() == Notified(config, env, old(Value()), id)
    {
      hide History, After, InnerProduct, Added, Sent, InScope;
      if id !in env.records || !InScope(config, env.records[id], env.now) {
        return;
      }
      var memory := env.records[id];
      if memory.embedding.Some? && |memory.embedding.value| == config.dimensions {
        centroid.Add(memory.embedding.value);
      }
      scopedWrites := scopedWrites + 1;
      if context.Some? && memory.embedding.Some? && |memory.embedding.value| == |context.value| {
        var confidence := Confidence(1.0 - InnerProduct(context.value, memory.embedding.value));
        if confidence >= config.confidence && id !in dedup {
          Send(id, SubscribePush(memory, confidence, env.now));
        }
      }
    }

    /** What the worker does with a message, or with none. */
    method Handle(env: Env, event: Event)
      requires Valid()
      modifies this, centroid, output
      ensures Valid() && bloom == old(bloom) && centroid == old(centroid)
      ensures Value() == Handled(config, tools, env, old(Value()), event)
    {
      hide History, After, Flushed, Notified, Appended;
      match event
      case Control(Pause) => paused := true;
      case Control(Resume) =>
      case Control(Shutdown) => running := false;
      case Control(ResetDedup) => dedup := {};
      case Control(Flush) =>
        if text.buffer != "" {
          FlushText(env);
        }
      case ControlClosed => running := false;
      case Input(s) =>
        text := Appended(tools, text, s, env.instant);
        if ShouldFlush(config, text) {
          FlushText(env);
        }
      case InputClosed => running := false;
      case Notify(id) => ProcessNotification(env, id);
      case NotifyClosed =>
      case Timeout =>
        if ShouldFlushOnTimeout(config, text, env.instant) {
          FlushText(env);
        }
    }

    method Rebuild(env: Env)
      requires Valid()
      modifies this`bloom, this`centroid, this`lastRebuild, this`scopedWrites
      ensures Valid() && fresh(bloom) && fresh(bloom.bits) && fresh(centroid)
      ensures Value() == Rebuilt(config, tools, old(Value()), env)
    {
      hide History, After, FilterFor, KeywordsOf, CentroidOf;
      bloom, centroid := BuildScopeData(config, tools, env.scan);
      lastRebuild := env.instant;
      scopedWrites := 0;
    }

    /** What a paused worker does with a message. */
    method HandlePaused(event: Event)
      requires Valid()
      modifies this`paused, this`running, this`dedup
      ensures Valid() && Value() == WhilePaused(old(Value()), event)
    {
      hide History, After;
      match event
      case Control(Resume) => paused := false;
      case Control(Shutdown) => running := false;
      case ControlClosed => running := false;
      case Control(ResetDedup) => dedup := {};
      case _ =>
    }

    /** One turn of the worker's loop. */
    method Turn(env: Env, event: Event)
      requires Valid()
      modifies this, centroid, output
      ensures Valid()
      ensures bloom == old(bloom) || (fresh(bloom) && fresh(bloom.bits))
      ensures centroid == old(centroid) || fresh(centroid)
      ensures Value() == Step(config, tools, env, old(Value()), event)
    {
      hide History, After, Handled, Rebuilt, WhilePaused;
      if !running {
        return;
      }
      if paused {
        HandlePaused(event);
        return;
      }
      Handle(env, event);
      if running && (env.instant >= lastRebuild + config.refreshInterval || scopedWrites >= config.refreshWrites) {
        Rebuild(env);
      }
    }
  }
}
