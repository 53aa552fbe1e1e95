/** What holds in every run of a subscription worker, whatever it receives in whatever order and
    whatever the embedder, the vector index and the records answer. */
module SubscriptionRuns {
  import opened Results
  import opened Memories
  import opened Bloom
  import opened Subscriptions

  datatype Turn = Turn(env: Env, event: Event)

  function After(config: Config, tools: Tools, start: Env, run: seq<Turn>): (w: Worker)
    ensures IsSized(w.filter)
  {
    if run == [] then Started(config, tools, start)
    else
      var before, last := After(config, tools, start, run[..|run| - 1]), run[|run| - 1];
      StepKeepsSized(config, tools, last.env, before, last.event);
      Step(config, tools, last.env, before, last.event)
  }

  // ---------------------------------------------------------------------------------------
  //  What one turn sends
  // ---------------------------------------------------------------------------------------

  function IdsOf(pushes: seq<SubscribePush>): set<Id> {
    set p | p in pushes :: p.memory.id
  }

  predicate DistinctIds(pushes: seq<SubscribePush>) {
    forall i, j :: 0 <= i < j < |pushes| ==> pushes[i].memory.id != pushes[j].memory.id
  }

  /** A push of a record as it is stored, near enough and in scope at the time it carries. */
  predicate Admitted(config: Config, env: Env, push: SubscribePush) {
    && push.memory.id in env.records && env.records[push.memory.id] == push.memory
    && push.confidence >= config.confidence
    && push.at == env.now
    && InScope(config, push.memory, push.at)
  }

  predicate KeyedById(env: Env) {
    forall id :: id in env.records ==> env.records[id].id == id
  }

  function Fresh(before: Worker, after: Worker): seq<SubscribePush>
    requires before.sent <= after.sent
  {
    after.sent[|before.sent|..]
  }

  /** From `before` to `after` nothing but admitted pushes were sent, of ids that were not in the
      set of pushed ids and are in it now. */
  predicate Grows(config: Config, env: Env, before: Worker, after: Worker) {
    && before.sent <= after.sent
    && after.dedup == before.dedup + IdsOf(Fresh(before, after))
    && IdsOf(Fresh(before, after)) !! before.dedup
    && DistinctIds(Fresh(before, after))
    && forall p :: p in Fresh(before, after) ==> Admitted(config, env, p)
  }

  lemma NoGrowth(config: Config, env: Env, before: Worker, after: Worker)
    requires before.sent == after.sent && before.dedup == after.dedup
    ensures Grows(config, env, before, after)
  {
    assert Fresh(before, after) == [];
  }

  lemma DistinctTogether(a: seq<SubscribePush>, b: seq<SubscribePush>)
    requires DistinctIds(a) && DistinctIds(b) && IdsOf(a) !! IdsOf(b)
    ensures DistinctIds(a + b) && IdsOf(a + b) == IdsOf(a) + IdsOf(b)
  {
    forall i, j | 0 <= i < |a| && 0 <= j < |b| ensures a[i].memory.id != b[j].memory.id {
      assert a[i] in a && b[j] in b;
      assert a[i].memory.id in IdsOf(a) && b[j].memory.id in IdsOf(b);
    }
    assert forall p :: p in a + b <==> p in a || p in b;
  }

  lemma GrowsOn(config: Config, env: Env, a: Worker, b: Worker, c: Worker)
    requires Grows(config, env, a, b) && Grows(config, env, b, c)
    ensures Grows(config, env, a, c)
  {
    hide IdsOf, DistinctIds, Admitted;
    assert Fresh(a, c) == Fresh(a, b) + Fresh(b, c);
    DistinctTogether(Fresh(a, b), Fresh(b, c));
  }

  lemma SentGrows(config: Config, env: Env, w: Worker, push: SubscribePush)
    requires Admitted(config, env, push) && push.memory.id !in w.dedup
    ensures Grows(config, env, w, Sent(w, push.memory.id, push))
  {
    hide Admitted;
    var after := Sent(w, push.memory.id, push);
    assert Fresh(w, after) == [push];
    assert IdsOf([push]) == {push.memory.id} by { assert push in [push]; }
  }

  lemma HitGrows(config: Config, env: Env, w: Worker, hit: (Id, real))
    requires KeyedById(env)
    ensures Grows(config, env, w, HitPushed(config, env, w, hit))
  {
    hide Grows, InScope, Confidence;
    var after := HitPushed(config, env, w, hit);
    if after == w {
      NoGrowth(config, env, w, after);
    } else {
      SentGrows(config, env, w, SubscribePush(env.records[hit.0], Confidence(hit.1), env.now));
    }
  }

  lemma {:induction false} HitsGrow(config: Config, env: Env, w: Worker, hits: seq<(Id, real)>)
    requires KeyedById(env)
    ensures Grows(config, env, w, HitsPushed(config, env, w, hits))
  {
    hide Grows, HitPushed;
    if hits == [] {
      NoGrowth(config, env, w, w);
    } else {
      var before := HitsPushed(config, env, w, hits[..|hits| - 1]);
      HitsGrow(config, env, w, hits[..|hits| - 1]);
      HitGrows(config, env, before, hits[|hits| - 1]);
      GrowsOn(config, env, w, before, HitPushed(config, env, before, hits[|hits| - 1]));
    }
  }

  lemma ChunkGrows(config: Config, tools: Tools, env: Env, w: Worker, chunk: string)
    requires KeyedById(env) && IsSized(w.filter)
    ensures Grows(config, env, w, ChunkProcessed(config, tools, env, w, chunk).1)
  {
    hide Grows, HitsPushed, ContainsAny, TooFar;
    var screened, after := Screened(tools, w, chunk), ChunkProcessed(config, tools, env, w, chunk).1;
    NoGrowth(config, env, w, screened);
    if after.sent == w.sent && after.dedup == w.dedup {
      NoGrowth(config, env, w, after);
    } else {
      var hits := env.search(env.embed(chunk).value).value;
      HitsGrow(config, env, screened, hits);
      GrowsOn(config, env, w, screened, after);
    }
  }

  lemma FlushGrows(config: Config, tools: Tools, env: Env, w: Worker)
    requires KeyedById(env) && IsSized(w.filter)
    ensures Grows(config, env, w, Flushed(config, tools, env, w))
  {
    hide Grows, ChunkProcessed;
    var emptied := w.(text := EMPTY);
    var chunked := ChunkProcessed(config, tools, env, emptied, w.text.buffer).1;
    NoGrowth(config, env, w, emptied);
    ChunkGrows(config, tools, env, emptied, w.text.buffer);
    GrowsOn(config, env, w, emptied, chunked);
    NoGrowth(config, env, chunked, Flushed(config, tools, env, w));
    GrowsOn(config, env, w, chunked, Flushed(config, tools, env, w));
  }

  lemma NotificationGrows(config: Config, env: Env, w: Worker, id: Id)
    requires KeyedById(env)
    ensures Grows(config, env, w, Notified(config, env, w, id))
  {
    hide Grows, InScope, Confidence, InnerProduct, WithMemory;
    var after := Notified(config, env, w, id);
    if after.sent == w.sent && after.dedup == w.dedup {
      NoGrowth(config, env, w, after);
    } else {
      var m := env.records[id];
      var counted := w.(centroid := WithMemory(config.dimensions, w.centroid, m), scopedWrites := w.scopedWrites + 1);
      NoGrowth(config, env, w, counted);
      SentGrows(config, env, counted,
          SubscribePush(m, Confidence(1.0 - InnerProduct(w.context.value, m.embedding.value)), env.now));
      GrowsOn(config, env, w, counted, after);
    }
  }

  predicate Resets(w: Worker, event: Event) {
    w.running && event == Control(ResetDedup)
  }

  lemma HandledGrows(config: Config, tools: Tools, env: Env, w: Worker, event: Event)
    requires KeyedById(env) && IsSized(w.filter) && event != Control(ResetDedup)
    ensures Grows(config, env, w, Handled(config, tools, env, w, event))
  {
    hide Grows, Flushed, Notified, Appended;
    var handled := Handled(config, tools, env, w, event);
    match event
    case Notify(id) => NotificationGrows(config, env, w, id);
    case Input(text) =>
      var after := w.(text := Appended(tools, w.text, text, env.instant));
      NoGrowth(config, env, w, after);
      FlushGrows(config, tools, env, after);
      GrowsOn(config, env, w, after, Flushed(config, tools, env, after));
    case Control(Flush) =>
      FlushGrows(config, tools, env, w);
      NoGrowth(config, env, w, w);
    case Timeout =>
      FlushGrows(config, tools, env, w);
      NoGrowth(config, env, w, w);
    case _ =>
      NoGrowth(config, env, w, handled);
  }

  /** A turn that is not a reset only adds admitted pushes of new ids; a reset empties the set and
      sends nothing; while paused, or after the end, nothing is sent. */
  lemma TurnGrows(config: Config, tools: Tools, env: Env, w: Worker, event: Event)
    requires KeyedById(env) && IsSized(w.filter)
    ensures var after := Step(config, tools, env, w, event);
      && w.sent <= after.sent
      && (if Resets(w, event) then after.dedup == {} && after.sent == w.sent else Grows(config, env, w, after))
      && (w.paused || !w.running ==> after.sent == w.sent)
  {
    hide Grows, FilterFor, KeywordsOf, CentroidOf;
    var after := Step(config, tools, env, w, event);
    StepKeepsSized(config, tools, env, w, event);
    if !Resets(w, event) {
      if !w.running || w.paused {
        NoGrowth(config, env, w, after);
      } else {
        var handled := Handled(config, tools, env, w, event);
        HandledGrows(config, tools, env, w, event);
        NoGrowth(config, env, handled, after);
        GrowsOn(config, env, w, handled, after);
      }
    }
  }

  // ---------------------------------------------------------------------------------------
  //  Runs
  // ---------------------------------------------------------------------------------------

  /** Records are stored under their own ids throughout. */
  predicate Keyed(run: seq<Turn>) {
    forall i :: 0 <= i < |run| ==> KeyedById(run[i].env)
  }

  /** The pushes since the last reset that took effect. */
  function SinceReset(config: Config, tools: Tools, start: Env, run: seq<Turn>): seq<SubscribePush> {
    if run == [] then []
    else
      var init, last := run[..|run| - 1], run[|run| - 1];
      var before, after := After(config, tools, start, init), After(config, tools, start, run);
      StepKeepsSized(config, tools, last.env, before, last.event);
      if Resets(before, last.event) then [] else SinceReset(config, tools, start, init) + Fresh(before, after)
  }

  lemma LastTurn(config: Config, tools: Tools, start: Env, run: seq<Turn>)
    requires run != [] && Keyed(run)
    ensures var before, after := After(config, tools, start, run[..|run| - 1]), After(config, tools, start, run);
      var last := run[|run| - 1];
      && Keyed(run[..|run| - 1])
      && before.sent <= after.sent
      && (if Resets(before, last.event) then after.dedup == {} && after.sent == before.sent
          else Grows(config, last.env, before, after))
      && (before.paused || !before.running ==> after.sent == before.sent)
  {
    hide Grows, Step;
    TurnGrows(config, tools, run[|run| - 1].env, After(config, tools, start, run[..|run| - 1]), run[|run| - 1].event);
  }

  /** The set of pushed ids holds exactly the ids pushed since the last reset, and no id was pushed
      twice in that time. */
  lemma {:induction false} DedupIsSentSinceReset(config: Config, tools: Tools, start: Env, run: seq<Turn>)
    requires Keyed(run)
    ensures var since := SinceReset(config, tools, start, run);
      && After(config, tools, start, run).dedup == IdsOf(since)
      && DistinctIds(since)
  {
    hide IdsOf, DistinctIds, Step, Admitted, KeyedById, Fresh;
    if run == [] {
      assert IdsOf([]) == {} && DistinctIds([]) by { NothingSent(); }
    } else {
      var init, last := run[..|run| - 1], run[|run| - 1];
      var before, after := After(config, tools, start, init), After(config, tools, start, run);
      LastTurn(config, tools, start, run);
      DedupIsSentSinceReset(config, tools, start, init);
      assert IdsOf([]) == {} && DistinctIds([]) by { NothingSent(); }
      if !Resets(before, last.event) {
        DistinctTogether(SinceReset(config, tools, start, init), Fresh(before, after));
      }
    }
  }

  lemma NothingSent()
    ensures IdsOf([]) == {} && DistinctIds([])
  {}

  /** The k-th turn met the worker running and not paused and sent the push, which it admitted. */
  predicate SentInTurn(config: Config, tools: Tools, start: Env, run: seq<Turn>, k: nat, push: SubscribePush)
    requires k < |run|
  {
    var before, after := After(config, tools, start, run[..k]), After(config, tools, start, run[..k + 1]);
    && before.running && !before.paused
    && before.sent <= after.sent && push in Fresh(before, after)
    && Admitted(config, run[k].env, push)
  }

  /** Everything ever sent was sent in some turn that met the worker running and not paused, was
      at least as near as the threshold, and was in the scope of entity, kinds and time then. */
  lemma {:induction false} EverySentWasAdmitted(
      config: Config, tools: Tools, start: Env, run: seq<Turn>, push: SubscribePush)
    requires Keyed(run) && push in After(config, tools, start, run).sent
    ensures exists k :: 0 <= k < |run| && SentInTurn(config, tools, start, run, k, push)
  {
    hide Step, Admitted, IdsOf, DistinctIds, KeyedById;
    if run == [] {
      assert false;
    } else {
      var init, n := run[..|run| - 1], |run| - 1;
      var before, after := After(config, tools, start, init), After(config, tools, start, run);
      LastTurn(config, tools, start, run);
      if push in before.sent {
        EverySentWasAdmitted(config, tools, start, init, push);
        var k :| 0 <= k < |init| && SentInTurn(config, tools, start, init, k, push);
        assert init[..k] == run[..k] && init[..k + 1] == run[..k + 1] && init[k] == run[k];
        assert SentInTurn(config, tools, start, run, k, push);
      } else {
        assert run[..n + 1] == run;
        assert push in Fresh(before, after);
        assert SentInTurn(config, tools, start, run, n, push);
      }
    }
  }

  // ---------------------------------------------------------------------------------------
  //  Counters
  // ---------------------------------------------------------------------------------------

  /** Every push is counted, and no chunk is rejected twice. */
  predicate CountsAddUp(w: Worker) {
    w.stats.sent == |w.sent| && w.stats.bloomRejected + w.stats.coarseRejected <= w.stats.processed
  }

  lemma {:induction false} HitsAddUp(config: Config, env: Env, w: Worker, hits: seq<(Id, real)>)
    requires CountsAddUp(w)
    ensures CountsAddUp(HitsPushed(config, env, w, hits))
  {
    hide InScope;
    if hits != [] {
      HitsAddUp(config, env, w, hits[..|hits| - 1]);
    }
  }

  lemma ChunkAddsUp(config: Config, tools: Tools, env: Env, w: Worker, chunk: string)
    requires IsSized(w.filter) && CountsAddUp(w)
    ensures CountsAddUp(ChunkProcessed(config, tools, env, w, chunk).1)
  {
    hide HitsPushed, ContainsAny, TooFar;
    var screened := Screened(tools, w, chunk);
    forall hits: seq<(Id, real)> ensures CountsAddUp(HitsPushed(config, env, screened, hits)) {
      HitsAddUp(config, env, screened, hits);
    }
  }

  lemma HandledAddsUp(config: Config, tools: Tools, env: Env, w: Worker, event: Event)
    requires IsSized(w.filter) && CountsAddUp(w)
    ensures CountsAddUp(Handled(config, tools, env, w, event))
  {
    hide ChunkProcessed, InScope, Appended;
    forall v: Worker, chunk | IsSized(v.filter) && CountsAddUp(v)
      ensures CountsAddUp(ChunkProcessed(config, tools, env, v, chunk).1)
    {
      ChunkAddsUp(config, tools, env, v, chunk);
    }
  }

  lemma {:induction false} RunAddsUp(config: Config, tools: Tools, start: Env, run: seq<Turn>)
    ensures CountsAddUp(After(config, tools, start, run))
  {
    hide Handled, CountsAddUp, FilterFor, KeywordsOf, CentroidOf;
    if run == [] {
      StartAddsUp(config, tools, start);
    } else {
      var init, last := run[..|run| - 1], run[|run| - 1];
      var before := After(config, tools, start, init);
      RunAddsUp(config, tools, start, init);
      HandledAddsUp(config, tools, last.env, before, last.event);
      SameCounts(before, After(config, tools, start, run));
      SameCounts(Handled(config, tools, last.env, before, last.event), After(config, tools, start, run));
    }
  }

  lemma StartAddsUp(config: Config, tools: Tools, start: Env)
    ensures CountsAddUp(Started(config, tools, start))
  {}

  lemma SameCounts(a: Worker, b: Worker)
    ensures CountsAddUp(a) && a.stats == b.stats && a.sent == b.sent ==> CountsAddUp(b)
  {}

  // ---------------------------------------------------------------------------------------
  //  The keyword filter
  // ---------------------------------------------------------------------------------------

  predicate Rebuilds(config: Config, tools: Tools, env: Env, w: Worker, event: Event)
    requires IsSized(w.filter)
  {
    var handled := Handled(config, tools, env, w, event);
    w.running && !w.paused && handled.running && NeedsRebuild(config, handled, env.instant)
  }

  /** The memories found by the scan of the last rebuild, or of the start. */
  function LastScan(config: Config, tools: Tools, start: Env, run: seq<Turn>): seq<Memory> {
    if run == [] then start.scan
    else
      var init, last := run[..|run| - 1], run[|run| - 1];
      if Rebuilds(config, tools, last.env, After(config, tools, start, init), last.event) then last.env.scan
      else LastScan(config, tools, start, init)
  }

  /** The filter is always that of the last scan. */
  lemma {:induction false} FilterIsOfLastScan(config: Config, tools: Tools, start: Env, run: seq<Turn>)
    ensures After(config, tools, start, run).filter
        == FilterFor(tools, KeywordsOf(tools, LastScan(config, tools, start, run)))
  {
    hide Handled, FilterFor, KeywordsOf, CentroidOf;
    if run != [] {
      var init, last := run[..|run| - 1], run[|run| - 1];
      var before := After(config, tools, start, init);
      FilterIsOfLastScan(config, tools, start, init);
      HandledKeeps(config, tools, last.env, before, last.event);
    }
  }

  lemma {:induction false} KeywordsOfAll(tools: Tools, memories: seq<Memory>, keyword: string)
    ensures keyword in KeywordsOf(tools, memories)
        <==> exists m :: m in memories && keyword in tools.keywords(m.content)
  {
    if memories != [] {
      KeywordsOfAll(tools, memories[..|memories| - 1], keyword);
      assert memories == memories[..|memories| - 1] + [memories[|memories| - 1]];
    }
  }

  /** In no run is a chunk rejected by the filter if it shares a keyword with a memory that the
      last scan found. */
  lemma SharedKeywordPasses(
      config: Config, tools: Tools, start: Env, run: seq<Turn>, chunk: string, m: Memory, keyword: string)
    requires m in LastScan(config, tools, start, run)
    requires keyword in tools.keywords(m.content) && keyword in tools.keywords(chunk)
    ensures var w := After(config, tools, start, run);
      && ContainsAny(tools.hash, w.filter, tools.keywords(chunk))
      && Screened(tools, w, chunk).stats.bloomRejected == w.stats.bloomRejected
  {
    hide After, LastScan, KeywordsOf, Contains, FilterOf;
    var keywords := KeywordsOf(tools, LastScan(config, tools, start, run));
    FilterIsOfLastScan(config, tools, start, run);
    KeywordsOfAll(tools, LastScan(config, tools, start, run), keyword);
    var expected := AtLeast(1, |keywords|);
    InsertedTestsPositive(
      tools.hash, AtLeast(64, tools.filterBits(expected)), Clamp(tools.filterHashes(expected), 1, 20), keywords,
          keyword);
  }

  // ---------------------------------------------------------------------------------------
  //  The text accumulator
  // ---------------------------------------------------------------------------------------

  /** The texts that are not empty, with a space between each two. */
  function Joined(texts: seq<string>): string {
    if texts == [] then ""
    else
      var before, last := Joined(texts[..|texts| - 1]), texts[|texts| - 1];
      if last == "" then before else if before == "" then last else before + " " + last
  }

  /** The turn takes the text, or flushes it: after a text that completes the minimum of tokens, on
      demand, or when the wait is over. */
  predicate Takes(w: Worker, event: Event) {
    w.running && !w.paused && event.Input?
  }

  predicate Flushes(config: Config, tools: Tools, env: Env, w: Worker, event: Event) {
    w.running && !w.paused &&
      match event
      case Input(text) => ShouldFlush(config, Appended(tools, w.text, text, env.instant))
      case Control(Flush) => w.text.buffer != ""
      case Timeout => ShouldFlushOnTimeout(config, w.text, env.instant)
      case _ => false
  }

  lemma FlushedTextIsEmpty(config: Config, tools: Tools, env: Env, w: Worker)
    requires IsSized(w.filter)
    ensures Flushed(config, tools, env, w).text == EMPTY
  {
    hide ChunkProcessed;
    ChunkKeeps(config, tools, env, w.(text := EMPTY), w.text.buffer);
  }

  /** What a turn makes of the buffered text. */
  lemma TurnText(config: Config, tools: Tools, env: Env, w: Worker, event: Event)
    requires IsSized(w.filter)
    ensures Step(config, tools, env, w, event).text
         == if Flushes(config, tools, env, w, event) then EMPTY
            else if Takes(w, event) then Appended(tools, w.text, event.text, env.instant)
            else w.text
  {
    hide Flushed, Appended, InScope, FilterFor, KeywordsOf, CentroidOf, ShouldFlush, ShouldFlushOnTimeout;
    FlushedTextIsEmpty(config, tools, env, w);
    if event.Input? {
      FlushedTextIsEmpty(config, tools, env, w.(text := Appended(tools, w.text, event.text, env.instant)));
    }
  }

  /** The texts taken since the last flush. */
  function SinceFlush(config: Config, tools: Tools, start: Env, run: seq<Turn>): seq<string> {
    if run == [] then []
    else
      var init, last := run[..|run| - 1], run[|run| - 1];
      var before, texts := After(config, tools, start, init), SinceFlush(config, tools, start, init);
      if Flushes(config, tools, last.env, before, last.event) then []
      else if Takes(before, last.event) then texts + [last.event.text]
      else texts
  }

  lemma AppendedIsJoined(tools: Tools, t: Text, texts: seq<string>, s: string, instant: nat)
    requires t.buffer == Joined(texts) && |Joined(texts + [s])| <= MAX_CONTENT_LENGTH
    ensures Appended(tools, t, s, instant).buffer == Joined(texts + [s])
  {
    assert (texts + [s])[..|texts|] == texts;
    assert s[..|s|] == s;
  }

  lemma JoinedShorter(texts: seq<string>, s: string)
    ensures |Joined(texts)| <= |Joined(texts + [s])|
  {
    assert (texts + [s])[..|texts|] == texts;
  }

  /** In every run, up to the maximum length, the buffered text is the texts taken since the last
      flush, joined by spaces; the chunk that a flush processes is that text. */
  lemma {:induction false} ChunkIsJoinedText(config: Config, tools: Tools, start: Env, run: seq<Turn>)
    requires |Joined(SinceFlush(config, tools, start, run))| <= MAX_CONTENT_LENGTH
    ensures After(config, tools, start, run).text.buffer == Joined(SinceFlush(config, tools, start, run))
  {
    hide Step, Appended, Takes, Flushes;
    if run != [] {
      var init, last := run[..|run| - 1], run[|run| - 1];
      var before, texts := After(config, tools, start, init), SinceFlush(config, tools, start, init);
      TurnText(config, tools, last.env, before, last.event);
      if !Flushes(config, tools, last.env, before, last.event) {
        if Takes(before, last.event) {
          assert last.event.Input? by { TakesInput(before, last.event); }
          JoinedShorter(texts, last.event.text);
          ChunkIsJoinedText(config, tools, start, init);
          AppendedIsJoined(tools, before.text, texts, last.event.text, last.env.instant);
        } else {
          ChunkIsJoinedText(config, tools, start, init);
        }
      }
    }
  }

  lemma TakesInput(w: Worker, event: Event)
    requires Takes(w, event)
    ensures event.Input?
  {}

  // ---------------------------------------------------------------------------------------
  //  The cap on the text
  // ---------------------------------------------------------------------------------------

  /** How many texts that are not empty came since the last flush when the cap was reached already. */
  function Over(config: Config, tools: Tools, start: Env, run: seq<Turn>): nat {
    if run == [] then 0
    else
      var init, last := run[..|run| - 1], run[|run| - 1];
      var before, over := After(config, tools, start, init), Over(config, tools, start, init);
      if Flushes(config, tools, last.env, before, last.event) then 0
      else if ComesOver(before, last.event) then over + 1
      else over
  }

  predicate ComesOver(w: Worker, event: Event) {
    Takes(w, event) && event.text != "" && |w.text.buffer| >= MAX_CONTENT_LENGTH
  }

  lemma AppendedLength(tools: Tools, t: Text, s: string, instant: nat)
    ensures var n, after := |t.buffer|, |Appended(tools, t, s, instant).buffer|;
      && (s == "" ==> after == n)
      && (s != "" && n >= MAX_CONTENT_LENGTH ==> after == n + 1)
      && (n < MAX_CONTENT_LENGTH ==> after <= MAX_CONTENT_LENGTH)
  {}

  /** In every run each text over the cap lengthens the buffered text by one, the space before it,
      and nothing else takes it over the cap. */
  lemma {:induction false} OvershootIsCounted(config: Config, tools: Tools, start: Env, run: seq<Turn>)
    ensures var length, over := |After(config, tools, start, run).text.buffer|, Over(config, tools, start, run);
      && length <= MAX_CONTENT_LENGTH + over
      && (over > 0 ==> length == MAX_CONTENT_LENGTH + over)
  {
    hide Step, Appended, Takes, Flushes;
    if run != [] {
      var init, last := run[..|run| - 1], run[|run| - 1];
      var before := After(config, tools, start, init);
      OvershootIsCounted(config, tools, start, init);
      TurnText(config, tools, last.env, before, last.event);
      if Takes(before, last.event) {
        TakesInput(before, last.event);
        AppendedLength(tools, before.text, last.event.text, last.env.instant);
      }
    }
  }

  /** So the cap holds after a run exactly if no text came over it since the last flush. */
  lemma CapHoldsIff(config: Config, tools: Tools, start: Env, run: seq<Turn>)
    ensures |After(config, tools, start, run).text.buffer| <= MAX_CONTENT_LENGTH
       <==> Over(config, tools, start, run) == 0
  {
    hide After, Over;
    OvershootIsCounted(config, tools, start, run);
  }

  /** The same input over and over. */
  function Repeated(env: Env, text: string, n: nat): (turns: seq<Turn>)
    ensures |turns| == n
  {
    if n == 0 then [] else Repeated(env, text, n - 1) + [Turn(env, Input(text))]
  }

  /** Nothing bounds the overshoot: if a text counts no tokens, then after a run that has filled the
      buffer without completing the minimum of tokens, every further such text makes it longer. */
  lemma {:induction false} OvershootContinues(
      config: Config, tools: Tools, start: Env, run: seq<Turn>, env: Env, text: string, n: nat)
    requires text != "" && tools.tokens(text) == 0
    requires var w := After(config, tools, start, run);
      w.running && !w.paused && |w.text.buffer| >= MAX_CONTENT_LENGTH && w.text.tokens < config.chunkMinTokens
    ensures var before, w := After(config, tools, start, run),
        After(config, tools, start, run + Repeated(env, text, n));
      && w.running && !w.paused && w.text.tokens == before.text.tokens
      && |w.text.buffer| == |before.text.buffer| + n
  {
    hide Step, Flushes;
    if n == 0 {
      assert run + [] == run;
    } else {
      var init := run + Repeated(env, text, n - 1);
      var all, last := run + Repeated(env, text, n), Turn(env, Input(text));
      OvershootContinues(config, tools, start, run, env, text, n - 1);
      assert all[..|all| - 1] == init && all[|all| - 1] == last;
      OneMoreText(config, tools, env, After(config, tools, start, init), text);
    }
  }

  lemma OneMoreText(config: Config, tools: Tools, env: Env, w: Worker, text: string)
    requires IsSized(w.filter) && w.running && !w.paused && text != "" && tools.tokens(text) == 0
    requires |w.text.buffer| >= MAX_CONTENT_LENGTH && w.text.tokens < config.chunkMinTokens
    ensures var after := Step(config, tools, env, w, Input(text));
      && after.running && !after.paused && after.text.tokens == w.text.tokens
      && |after.text.buffer| == |w.text.buffer| + 1
  {
    hide Flushed, FilterFor, KeywordsOf, CentroidOf;
    assert text[..0] == "";
  }

  /** One text that fills the buffer and counts fewer tokens than a chunk needs is such a run. */
  lemma OvershootIsUnbounded(config: Config, tools: Tools, start: Env, env: Env, filling: string, blank: string, n: nat)
    requires |filling| >= MAX_CONTENT_LENGTH && tools.tokens(filling) < config.chunkMinTokens
    requires blank != "" && tools.tokens(blank) == 0
    ensures |After(config, tools, start, [Turn(env, Input(filling))] + Repeated(env, blank, n)).text.buffer|
         == MAX_CONTENT_LENGTH + n
  {
    hide Step, Flushes;
    var run := [Turn(env, Input(filling))];
    assert run[..0] == [];
    FillingText(config, tools, env, Started(config, tools, start), filling);
    OvershootContinues(config, tools, start, run, env, blank, n);
  }

  lemma FillingText(config: Config, tools: Tools, env: Env, w: Worker, text: string)
    requires IsSized(w.filter) && w.running && !w.paused && w.text == EMPTY
    requires |text| >= MAX_CONTENT_LENGTH && tools.tokens(text) < config.chunkMinTokens
    ensures var after := Step(config, tools, env, w, Input(text));
      && after.running && !after.paused && after.text.tokens < config.chunkMinTokens
      && |after.text.buffer| == MAX_CONTENT_LENGTH
  {
    hide Flushed, FilterFor, KeywordsOf, CentroidOf;
  }
}
