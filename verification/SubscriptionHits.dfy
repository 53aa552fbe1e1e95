/** What a turn of the subscription worker pushes, in terms of distances and of the fields of the
    records found. */
module SubscriptionHits {
  import opened Results
  import opened Memories
  import opened Bloom
  import opened Subscriptions
  import opened SubscriptionRuns

  // ---------------------------------------------------------------------------------------
  //  Which hits are pushed
  // ---------------------------------------------------------------------------------------

  /** Of the entity and one of the kinds asked for, and no older than the time scope. */
  predicate IsWanted(config: Config, m: Memory, now: nat) {
    && (config.entity == None || m.entity == config.entity)
    && (exists i :: 0 <= i < |config.kinds| && config.kinds[i] == m.kind)
    && (config.timeScope == None || now <= m.createdAt + config.timeScope.value)
  }

  /** A similarity meets the threshold; every one does if that is not positive. */
  predicate IsNear(config: Config, similarity: real) {
    config.confidence <= similarity || config.confidence <= 0.0
  }

  /** The i-th hit is near, of a wanted record that was not pushed before, and the first such hit of
      its id. */
  predicate IsChosen(config: Config, env: Env, dedup: set<Id>, hits: seq<(Id, real)>, i: nat)
    requires i < |hits|
  {
    var id := hits[i].0;
    && id !in dedup && id in env.records && IsWanted(config, env.records[id], env.now)
    && IsNear(config, 1.0 - hits[i].1)
    && forall j :: 0 <= j < i && hits[j].0 == id ==> !IsNear(config, 1.0 - hits[j].1)
  }

  /** Similarities below zero are reported as zero. */
  function Reported(similarity: real): real {
    if similarity < 0.0 then 0.0 else similarity
  }

  function PushOf(env: Env, hit: (Id, real)): SubscribePush
    requires hit.0 in env.records
  {
    SubscribePush(env.records[hit.0], Reported(1.0 - hit.1), env.now)
  }

  /** The pushes for the chosen ones among the first n hits, in their order. */
  function Pushes(config: Config, env: Env, dedup: set<Id>, hits: seq<(Id, real)>, n: nat): seq<SubscribePush>
    requires n <= |hits|
  {
    if n == 0 then []
    else if IsChosen(config, env, dedup, hits, n - 1)
    then Pushes(config, env, dedup, hits, n - 1) + [PushOf(env, hits[n - 1])]
    else Pushes(config, env, dedup, hits, n - 1)
  }

  predicate ChosenBefore(config: Config, env: Env, dedup: set<Id>, hits: seq<(Id, real)>, n: nat, id: Id)
    requires n <= |hits|
  {
    exists i :: 0 <= i < n && hits[i].0 == id && IsChosen(config, env, dedup, hits, i)
  }

  lemma ScopeIsWanted(config: Config, m: Memory, now: nat)
    ensures InScope(config, m, now) <==> IsWanted(config, m, now)
  {}

  lemma ConfidenceIsReported(config: Config, distance: real)
    ensures Confidence(distance) == Reported(1.0 - distance)
    ensures Confidence(distance) >= config.confidence <==> IsNear(config, 1.0 - distance)
  {}

  lemma {:induction false} FirstNear(
      config: Config, env: Env, dedup: set<Id>, hits: seq<(Id, real)>, n: nat, id: Id)
    requires n <= |hits| && id !in dedup && id in env.records && IsWanted(config, env.records[id], env.now)
    ensures ChosenBefore(config, env, dedup, hits, n, id)
       <==> exists i :: 0 <= i < n && hits[i].0 == id && IsNear(config, 1.0 - hits[i].1)
  {
    hide IsWanted, IsNear;
    if n > 0 {
      FirstNear(config, env, dedup, hits, n - 1, id);
    }
  }

  lemma PrefixChooses(config: Config, env: Env, dedup: set<Id>, hits: seq<(Id, real)>, n: nat, i: nat)
    requires i < n <= |hits|
    ensures IsChosen(config, env, dedup, hits[..n], i) <==> IsChosen(config, env, dedup, hits, i)
  {
    hide IsWanted, IsNear;
    assert hits[..n][i] == hits[i];
    assert forall j :: 0 <= j < i ==> hits[..n][j] == hits[j];
  }

  lemma {:induction false} PrefixPushes(config: Config, env: Env, dedup: set<Id>, hits: seq<(Id, real)>, n: nat, k: nat)
    requires k <= n <= |hits|
    ensures Pushes(config, env, dedup, hits[..n], k) == Pushes(config, env, dedup, hits, k)
  {
    hide IsChosen;
    if k > 0 {
      PrefixPushes(config, env, dedup, hits, n, k - 1);
      PrefixChooses(config, env, dedup, hits, n, k - 1);
    }
  }

  /** A search pushes exactly the chosen hits, in their order, each with one less its distance, and
      adds their ids to those that are pushed no more. */
  lemma {:induction false} SearchPushes(config: Config, env: Env, w: Worker, hits: seq<(Id, real)>)
    ensures var after := HitsPushed(config, env, w, hits);
      && after.sent == w.sent + Pushes(config, env, w.dedup, hits, |hits|)
      && (forall id :: id in after.dedup <==> id in w.dedup || ChosenBefore(config, env, w.dedup, hits, |hits|, id))
  {
    hide IsChosen, HitPushed, Pushes;
    if hits == [] {
      assert Pushes(config, env, w.dedup, hits, 0) == [] by { NoPushes(config, env, w.dedup, hits); }
    } else {
      var n := |hits| - 1;
      var init := hits[..n];
      SearchPushes(config, env, w, init);
      PrefixPushes(config, env, w.dedup, hits, n, n);
      assert Pushes(config, env, w.dedup, init, n) == Pushes(config, env, w.dedup, hits, n);
      forall id
        ensures ChosenBefore(config, env, w.dedup, init, n, id) <==> ChosenBefore(config, env, w.dedup, hits, n, id)
      {
        forall i: nat | i < n { PrefixChooses(config, env, w.dedup, hits, n, i); }
        assert forall i :: 0 <= i < n ==> init[i] == hits[i];
      }
      OneMoreHit(config, env, w, HitsPushed(config, env, w, init), hits, n);
    }
  }

  lemma NoPushes(config: Config, env: Env, dedup: set<Id>, hits: seq<(Id, real)>)
    ensures Pushes(config, env, dedup, hits, 0) == []
  {}

  lemma OneMoreHit(config: Config, env: Env, w: Worker, before: Worker, hits: seq<(Id, real)>, n: nat)
    requires n < |hits|
    requires before.sent == w.sent + Pushes(config, env, w.dedup, hits, n)
    requires forall id :: id in before.dedup <==> id in w.dedup || ChosenBefore(config, env, w.dedup, hits, n, id)
    ensures var after := HitPushed(config, env, before, hits[n]);
      && after.sent == w.sent + Pushes(config, env, w.dedup, hits, n + 1)
      && (forall id :: id in after.dedup <==> id in w.dedup || ChosenBefore(config, env, w.dedup, hits, n + 1, id))
  {
    hide InScope, IsWanted, Confidence, IsNear, IsChosen, Reported;
    var id := hits[n].0;
    ConfidenceIsReported(config, hits[n].1);
    assert HitPushed(config, env, before, hits[n]).sent
        == before.sent + (if IsChosen(config, env, w.dedup, hits, n) then [PushOf(env, hits[n])] else []) by {
      PushedIfChosen(config, env, w, before, hits, n);
    }
    PushedIfChosen(config, env, w, before, hits, n);
    forall x ensures ChosenBefore(config, env, w.dedup, hits, n + 1, x)
        <==> (ChosenBefore(config, env, w.dedup, hits, n, x) || (x == id && IsChosen(config, env, w.dedup, hits, n)))
    {}
  }

  lemma PushedIfChosen(config: Config, env: Env, w: Worker, before: Worker, hits: seq<(Id, real)>, n: nat)
    requires n < |hits|
    requires forall id :: id in before.dedup <==> id in w.dedup || ChosenBefore(config, env, w.dedup, hits, n, id)
    ensures HitPushed(config, env, before, hits[n])
         == if IsChosen(config, env, w.dedup, hits, n) then Sent(before, hits[n].0, PushOf(env, hits[n])) else before
  {
    hide InScope, IsWanted, Confidence, IsNear, ChosenBefore, Reported;
    var id := hits[n].0;
    ConfidenceIsReported(config, hits[n].1);
    if id in env.records && id !in w.dedup {
      ScopeIsWanted(config, env.records[id], env.now);
      if IsWanted(config, env.records[id], env.now) {
        FirstNear(config, env, w.dedup, hits, n, id);
      }
    }
  }

  // ---------------------------------------------------------------------------------------
  //  Similarity
  // ---------------------------------------------------------------------------------------

  /** The sum of the products of the first n components. */
  function Dot(a: Embedding, b: Embedding, n: nat): real
    requires n <= |a| && n <= |b|
  {
    if n == 0 then 0.0 else Dot(a, b, n - 1) + a[n - 1] * b[n - 1]
  }

  lemma {:induction false} DotFromFirst(a: Embedding, b: Embedding, n: nat)
    requires 1 <= n <= |a| && n <= |b|
    ensures Dot(a, b, n) == a[0] * b[0] + Dot(a[1..], b[1..], n - 1)
  {
    if n > 1 {
      DotFromFirst(a, b, n - 1);
    }
  }

  lemma {:induction false} InnerProductIsDot(a: Embedding, b: Embedding)
    ensures InnerProduct(a, b) == Dot(a, b, Shorter(|a|, |b|))
  {
    if a != [] && b != [] {
      DotFromFirst(a, b, Shorter(|a|, |b|));
      InnerProductIsDot(a[1..], b[1..]);
    }
  }

  function Shorter(a: nat, b: nat): nat {
    if a <= b then a else b
  }

  // ---------------------------------------------------------------------------------------
  //  What a turn pushes
  // ---------------------------------------------------------------------------------------

  /** The chunk that a turn flushes. */
  function Chunk(tools: Tools, env: Env, w: Worker, event: Event): string {
    if event.Input? then Appended(tools, w.text, event.text, env.instant).buffer else w.text.buffer
  }

  /** The hits of a chunk: none unless the filter lets a keyword of it through, it can be embedded, and
      it is not below the coarse threshold of the centroid of a scope with embeddings. */
  function Hits(config: Config, tools: Tools, env: Env, w: Worker, chunk: string): seq<(Id, real)>
    requires IsSized(w.filter)
  {
    if !ContainsAny(tools.hash, w.filter, tools.keywords(chunk)) || env.embed(chunk) == None then []
    else
      var v := env.embed(chunk).value;
      if w.centroid.count > 0 && InnerProduct(v, tools.normalize(Mean(w.centroid))) < config.coarse then []
      else match env.search(v) case Some(hits) => hits case None => []
  }

  /** A new memory is wanted, was not pushed before, and is near the context. */
  predicate IsNews(config: Config, env: Env, w: Worker, id: Id) {
    && id in env.records && id !in w.dedup && IsWanted(config, env.records[id], env.now)
    && w.context.Some? && env.records[id].embedding.Some?
    && var (c, v) := (w.context.value, env.records[id].embedding.value);
    && |c| == |v| && IsNear(config, Dot(c, v, |c|))
  }

  function News(config: Config, env: Env, w: Worker, id: Id): seq<SubscribePush> {
    if IsNews(config, env, w, id)
    then
      var (c, v) := (w.context.value, env.records[id].embedding.value);
      [SubscribePush(env.records[id], Reported(Dot(c, v, |c|)), env.now)]
    else []
  }

  lemma ChunkPushes(config: Config, tools: Tools, env: Env, w: Worker, chunk: string)
    requires IsSized(w.filter)
    ensures var hits := Hits(config, tools, env, w, chunk);
      ChunkProcessed(config, tools, env, w, chunk).1.sent == w.sent + Pushes(config, env, w.dedup, hits, |hits|)
  {
    hide HitsPushed, ContainsAny, InnerProduct, Pushes;
    NoPushes(config, env, w.dedup, []);
    SearchPushes(config, env, Screened(tools, w, chunk), Hits(config, tools, env, w, chunk));
  }

  lemma NotificationPushes(config: Config, env: Env, w: Worker, id: Id)
    ensures Notified(config, env, w, id).sent == w.sent + News(config, env, w, id)
  {
    hide InScope, IsWanted, Confidence, IsNear, InnerProduct, Dot, WithMemory, Reported;
    if id in env.records {
      var m := env.records[id];
      ScopeIsWanted(config, m, env.now);
      if w.context.Some? && m.embedding.Some? && |m.embedding.value| == |w.context.value| {
        InnerProductIsDot(w.context.value, m.embedding.value);
        ConfidenceIsReported(config, 1.0 - InnerProduct(w.context.value, m.embedding.value));
      }
    }
  }

  /** A turn that flushes pushes the chosen hits of its chunk, a notification its memory if that is
      near the context, and no other turn pushes anything. */
  lemma TurnPushes(config: Config, tools: Tools, env: Env, w: Worker, event: Event)
    requires IsSized(w.filter)
    ensures var hits := Hits(config, tools, env, w, Chunk(tools, env, w, event));
      Step(config, tools, env, w, event).sent
      == w.sent
         + if Flushes(config, tools, env, w, event) then Pushes(config, env, w.dedup, hits, |hits|)
           else if w.running && !w.paused && event.Notify? then News(config, env, w, event.id)
           else []
  {
    hide Notified, Appended, ChunkProcessed, ShouldFlush, ShouldFlushOnTimeout, Pushes, Hits, News, FilterFor,
      KeywordsOf, CentroidOf;
    var chunk := Chunk(tools, env, w, event);
    ChunkPushes(config, tools, env, w.(text := EMPTY), chunk);
    HitsOfWorker(config, tools, env, w, chunk);
    if event.Notify? { NotificationPushes(config, env, w, event.id); }
  }

  lemma HitsOfWorker(config: Config, tools: Tools, env: Env, w: Worker, chunk: string)
    requires IsSized(w.filter)
    ensures Hits(config, tools, env, w.(text := EMPTY), chunk) == Hits(config, tools, env, w, chunk)
  {}

  /** So for every id: a turn that flushes pushes it anew exactly if it is a wanted record, was not
      pushed before, and has a near hit; and with what confidence. */
  lemma FlushedIdIff(config: Config, tools: Tools, env: Env, w: Worker, event: Event, id: Id)
    requires IsSized(w.filter) && Flushes(config, tools, env, w, event) && id !in w.dedup
    ensures var hits := Hits(config, tools, env, w, Chunk(tools, env, w, event));
      id in Step(config, tools, env, w, event).dedup
      <==> && id in env.records && IsWanted(config, env.records[id], env.now)
           && exists i :: 0 <= i < |hits| && hits[i].0 == id && IsNear(config, 1.0 - hits[i].1)
  {
    hide Appended, ShouldFlush, ShouldFlushOnTimeout, Pushes, FilterFor, KeywordsOf, CentroidOf, IsNear, IsWanted,
      InnerProduct, ContainsAny, HitsPushed;
    var chunk := Chunk(tools, env, w, event);
    var hits := Hits(config, tools, env, w, chunk);
    var emptied := w.(text := EMPTY);
    SearchPushes(config, env, Screened(tools, emptied, chunk), hits);
    assert HitsPushed(config, env, Screened(tools, emptied, chunk), []).dedup == w.dedup by {
      SearchPushes(config, env, Screened(tools, emptied, chunk), []);
    }
    if id in env.records && IsWanted(config, env.records[id], env.now) {
      FirstNear(config, env, w.dedup, hits, |hits|, id);
    }
  }
}
