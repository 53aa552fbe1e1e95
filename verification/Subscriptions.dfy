/** The subscription worker of subscribe.rs. Text chunks pass a keyword filter, a comparison with
    the centroid of the scope and a vector search; what is found, and new memories near the last
    chunk, is pushed once each until the set of pushed ids is reset. */
module Subscriptions {
  import opened Results
  import opened Memories
  import opened Bloom
  import opened OutputQueue

  // ---------------------------------------------------------------------------------------
  //  Surroundings
  // ---------------------------------------------------------------------------------------

  /** The validated configuration; `maxWait` includes the jitter of the subscription. */
  datatype Config = Config(
    entity: Option<string>,
    kinds: seq<Kind>,
    confidence: real,
    timeScope: Option<nat>,
    chunkMinTokens: nat,
    maxWait: nat,
    coarse: real,
    refreshInterval: nat,
    refreshWrites: nat,
    dimensions: nat)

  /** Keyword extraction, token counting, hashing, the sizing formulas of the filter and the
      normalization of a vector. */
  datatype Tools = Tools(
    keywords: string -> seq<string>,
    tokens: string -> nat,
    hash: Hashing,
    filterBits: nat -> nat,
    filterHashes: nat -> nat,
    normalize: Embedding -> Embedding)

  /** What one iteration of the worker meets: the clocks, the records, the embedder, the vector
      index and the memories a scan of the scope would yield. */
  datatype Env = Env(
    instant: nat,
    now: nat,
    records: map<Id, Memory>,
    embed: string -> Option<Embedding>,
    search: Embedding -> Option<seq<(Id, real)>>,
    scan: seq<Memory>)

  datatype Signal = Pause | Resume | Shutdown | ResetDedup | Flush

  /** What `select!` picks. While paused only control messages are received. */
  datatype Event =
    | Control(signal: Signal)
    | ControlClosed
    | Input(text: string)
    | InputClosed
    | Notify(id: Id)
    | NotifyClosed
    | Timeout

  // ---------------------------------------------------------------------------------------
  //  Text accumulator
  // ---------------------------------------------------------------------------------------

  const MAX_CONTENT_LENGTH := 64 * 1024
  const MIN_FLUSH_TOKENS := 3

  datatype Text = Text(buffer: string, tokens: nat, since: Option<nat>)

  const EMPTY := Text("", 0, None)

  function Appended(tools: Tools, t: Text, s: string, instant: nat): Text {
    if s == "" then t
    else
      var spaced := if t.buffer == "" then t.buffer else t.buffer + " ";
      var remaining := if |spaced| < MAX_CONTENT_LENGTH then MAX_CONTENT_LENGTH - |spaced| else 0;
      Text(
        spaced + s[..if |s| < remaining then |s| else remaining],
        t.tokens + tools.tokens(s),
        if t.since == None then Some(instant) else t.since)
  }

  predicate ShouldFlush(config: Config, t: Text) {
    t.tokens >= config.chunkMinTokens
  }

  predicate ShouldFlushOnTimeout(config: Config, t: Text, instant: nat) {
    t.tokens >= MIN_FLUSH_TOKENS && t.since.Some? && instant >= t.since.value + config.maxWait
  }

  // ---------------------------------------------------------------------------------------
  //  Centroid
  // ---------------------------------------------------------------------------------------

  datatype Centroid = Centroid(sum: Embedding, count: nat)

  function Zeros(dimensions: nat): Embedding {
    seq(dimensions, _ => 0.0)
  }

  function Added(c: Centroid, v: Embedding): Centroid {
    Centroid(seq(|c.sum|, i requires 0 <= i < |c.sum| => if i < |v| then c.sum[i] + v[i] else c.sum[i]), c.count + 1)
  }

  function Mean(c: Centroid): Embedding
    requires c.count > 0
  {
    seq(|c.sum|, i requires 0 <= i < |c.sum| => c.sum[i] * (1.0 / c.count as real))
  }

  /** The sum of the embeddings with the dimensions of the scope. */
  function CentroidOf(dimensions: nat, memories: seq<Memory>): Centroid {
    if memories == [] then Centroid(Zeros(dimensions), 0)
    else WithMemory(dimensions, CentroidOf(dimensions, memories[..|memories| - 1]), memories[|memories| - 1])
  }

  function WithMemory(dimensions: nat, c: Centroid, m: Memory): Centroid {
    match m.embedding
    case Some(v) => if |v| == dimensions then Added(c, v) else c
    case None => c
  }

  function InnerProduct(a: Embedding, b: Embedding): real {
    if a == [] || b == [] then 0.0 else a[0] * b[0] + InnerProduct(a[1..], b[1..])
  }

  /** The running sum with its lazily normalized mean. */
  class CentroidState {
    const normalize: Embedding -> Embedding
    var sum: Embedding
    var count: nat
    var cached: Option<Embedding>
    var dirty: bool

    ghost function Value(): Centroid
      reads this
    {
      Centroid(sum, count)
    }

    /** A cached mean that is not dirty is up to date. */
    ghost predicate Valid()
      reads this
    {
      !dirty && cached.Some? ==> count > 0 && cached == Some(normalize(Mean(Value())))
    }

    constructor (dimensions: nat, normalize: Embedding -> Embedding)
      ensures Valid() && this.normalize == normalize && Value() == Centroid(Zeros(dimensions), 0)
    {
      this.normalize := normalize;
      sum, count, cached, dirty := Zeros(dimensions), 0, None, true;
    }

    /** update */
    method Add(v: Embedding)
      modifies this
      ensures Valid() && Value() == Added(old(Value()), v)
    {
      var total := sum;
      var i := 0;
      while i < |sum| && i < |v|
        invariant 0 <= i <= |sum| && |total| == |sum| && i <= |v|
        invariant forall j :: 0 <= j < |sum| ==> total[j] == if j < i then sum[j] + v[j] else sum[j]
      {
        total := total[i := total[i] + v[i]];
        i := i + 1;
      }
      assert total == Added(Value(), v).sum;
      sum := total;
      count := count + 1;
      dirty := true;
    }

    /** normalized */
    method Unit() returns (unit: Option<Embedding>)
      requires Valid()
      modifies this`cached, this`dirty
      ensures Valid()
      ensures unit == if count == 0 then None else Some(normalize(Mean(Value())))
    {
      if count == 0 {
        return None;
      }
      if dirty || cached == None {
        cached := Some(normalize(Mean(Centroid(sum, count))));
        dirty := false;
      }
      unit := cached;
    }
  }

  // ---------------------------------------------------------------------------------------
  //  The worker's state
  // ---------------------------------------------------------------------------------------

  datatype SubscribePush = SubscribePush(memory: Memory, confidence: real, at: nat)

  datatype Stats = Stats(processed: nat, bloomRejected: nat, coarseRejected: nat, sent: nat)

  /** `sent` is the history of everything pushed to the output. */
  datatype Worker = Worker(
    filter: Filter,
    centroid: Centroid,
    dedup: set<Id>,
    text: Text,
    context: Option<Embedding>,
    paused: bool,
    running: bool,
    lastRebuild: nat,
    scopedWrites: nat,
    stats: Stats,
    sent: seq<SubscribePush>)

  function Confidence(distance: real): real {
    if 1.0 - distance > 0.0 then 1.0 - distance else 0.0
  }

  function Earliest(scope: nat, now: nat): nat {
    if scope < now then now - scope else 0
  }

  predicate InScope(config: Config, m: Memory, now: nat) {
    && (config.entity.Some? ==> m.entity == config.entity)
    && m.kind in config.kinds
    && (config.timeScope.Some? ==> m.createdAt >= Earliest(config.timeScope.value, now))
  }

  function Sent(w: Worker, id: Id, push: SubscribePush): Worker {
    w.(dedup := w.dedup + {id}, sent := w.sent + [push], stats := w.stats.(sent := w.stats.sent + 1))
  }

  // ---------------------------------------------------------------------------------------
  //  The pipeline
  // ---------------------------------------------------------------------------------------

  function HitPushed(config: Config, env: Env, w: Worker, hit: (Id, real)): Worker {
    if Confidence(hit.1) < config.confidence || hit.0 in w.dedup || hit.0 !in env.records
       || !InScope(config, env.records[hit.0], env.now)
    then w
    else Sent(w, hit.0, SubscribePush(env.records[hit.0], Confidence(hit.1), env.now))
  }

  function HitsPushed(config: Config, env: Env, w: Worker, hits: seq<(Id, real)>): Worker {
    if hits == [] then w
    else HitPushed(config, env, HitsPushed(config, env, w, hits[..|hits| - 1]), hits[|hits| - 1])
  }

  predicate TooFar(config: Config, tools: Tools, c: Centroid, v: Embedding) {
    c.count > 0 && InnerProduct(v, tools.normalize(Mean(c))) < config.coarse
  }

  /** Counts a chunk as processed and, if the filter lets none of its keywords through, as
      rejected. */
  function Screened(tools: Tools, w: Worker, chunk: string): Worker
    requires IsSized(w.filter)
  {
    var stats := w.stats.(processed := w.stats.processed + 1);
    if ContainsAny(tools.hash, w.filter, tools.keywords(chunk)) then w.(stats := stats)
    else w.(stats := stats.(bloomRejected := stats.bloomRejected + 1))
  }

  /** process_chunk: the embedding returned and the state left. */
  function ChunkProcessed(config: Config, tools: Tools, env: Env, w: Worker, chunk: string): (Option<Embedding>, Worker)
    requires IsSized(w.filter)
  {
    var screened := Screened(tools, w, chunk);
    if !ContainsAny(tools.hash, w.filter, tools.keywords(chunk)) then (None, screened)
    else
      match env.embed(chunk)
      case None => (None, screened)
      case Some(v) =>
        if TooFar(config, tools, w.centroid, v)
        then (Some(v), screened.(stats := screened.stats.(coarseRejected := screened.stats.coarseRejected + 1)))
        else
          match env.search(v)
          case None => (Some(v), screened)
          case Some(hits) => (Some(v), HitsPushed(config, env, screened, hits))
  }

  function InContext(embedding: Option<Embedding>, w: Worker): Worker {
    if embedding == None then w else w.(context := embedding)
  }

  /** The accumulated text as a chunk, and what the next chunks are compared with. */
  function Flushed(config: Config, tools: Tools, env: Env, w: Worker): Worker
    requires IsSized(w.filter)
  {
    var (embedding, after) := ChunkProcessed(config, tools, env, w.(text := EMPTY), w.text.buffer);
    InContext(embedding, after)
  }

  /** process_new_write_notification */
  function Notified(config: Config, env: Env, w: Worker, id: Id): Worker {
    if id !in env.records || !InScope(config, env.records[id], env.now) then w
    else
      var m := env.records[id];
      var counted := w.(centroid := WithMemory(config.dimensions, w.centroid, m), scopedWrites := w.scopedWrites + 1);
      if w.context == None || m.embedding == None || |m.embedding.value| != |w.context.value| then counted
      else
        var confidence := Confidence(1.0 - InnerProduct(w.context.value, m.embedding.value));
        if confidence < config.confidence || id in w.dedup then counted
        else Sent(counted, id, SubscribePush(m, confidence, env.now))
  }

  // ---------------------------------------------------------------------------------------
  //  Rebuilding
  // ---------------------------------------------------------------------------------------

  function KeywordsOf(tools: Tools, memories: seq<Memory>): seq<string> {
    if memories == [] then []
    else KeywordsOf(tools, memories[..|memories| - 1]) + tools.keywords(memories[|memories| - 1].content)
  }

  function AtLeast(low: nat, n: nat): (m: nat)
    ensures m >= low && m >= n && (m == low || m == n)
  {
    if n < low then low else n
  }

  function Clamp(n: nat, low: nat, high: nat): nat {
    if n < low then low else if n > high then high else n
  }

  function FilterFor(tools: Tools, keywords: seq<string>): (f: Filter)
    ensures IsSized(f)
  {
    var expected := AtLeast(1, |keywords|);
    FilterOf(tools.hash, AtLeast(64, tools.filterBits(expected)), Clamp(tools.filterHashes(expected), 1, 20), keywords)
  }

  predicate NeedsRebuild(config: Config, w: Worker, instant: nat) {
    instant >= w.lastRebuild + config.refreshInterval || w.scopedWrites >= config.refreshWrites
  }

  /** build_scope_data for the memories of a scan. */
  function Rebuilt(config: Config, tools: Tools, w: Worker, env: Env): Worker {
    w.(filter := FilterFor(tools, KeywordsOf(tools, env.scan)), centroid := CentroidOf(config.dimensions, env.scan),
       lastRebuild := env.instant, scopedWrites := 0)
  }

  function Started(config: Config, tools: Tools, env: Env): Worker {
    Worker(
      FilterFor(tools, KeywordsOf(tools, env.scan)), CentroidOf(config.dimensions, env.scan),
      {}, EMPTY, None, false, true, env.instant, 0, Stats(0, 0, 0, 0), [])
  }

  // ---------------------------------------------------------------------------------------
  //  One iteration
  // ---------------------------------------------------------------------------------------

  function WhilePaused(w: Worker, event: Event): Worker {
    match event
    case Control(Resume) => w.(paused := false)
    case Control(Shutdown) => w.(running := false)
    case ControlClosed => w.(running := false)
    case Control(ResetDedup) => w.(dedup := {})
    case _ => w
  }

  function Handled(config: Config, tools: Tools, env: Env, w: Worker, event: Event): Worker
    requires IsSized(w.filter)
  {
    match event
    case Control(Pause) => w.(paused := true)
    case Control(Resume) => w
    case Control(Shutdown) => w.(running := false)
    case Control(ResetDedup) => w.(dedup := {})
    case Control(Flush) => if w.text.buffer != "" then Flushed(config, tools, env, w) else w
    case ControlClosed => w.(running := false)
    case Input(text) =>
      var after := w.(text := Appended(tools, w.text, text, env.instant));
      if ShouldFlush(config, after.text) then Flushed(config, tools, env, after) else after
    case InputClosed => w.(running := false)
    case Notify(id) => Notified(config, env, w, id)
    case NotifyClosed => w
    case Timeout => if ShouldFlushOnTimeout(config, w.text, env.instant) then Flushed(config, tools, env, w) else w
  }

  /** One turn of the worker's loop. */
  function Step(config: Config, tools: Tools, env: Env, w: Worker, event: Event): Worker
    requires IsSized(w.filter)
  {
    if !w.running then w
    else if w.paused then WhilePaused(w, event)
    else
      var after := Handled(config, tools, env, w, event);
      if after.running && NeedsRebuild(config, after, env.instant) then Rebuilt(config, tools, after, env) else after
  }

  // ---------------------------------------------------------------------------------------
  //  What an event leaves alone
  // ---------------------------------------------------------------------------------------

  lemma {:induction false} HitsKeep(config: Config, env: Env, w: Worker, hits: seq<(Id, real)>)
    ensures var after := HitsPushed(config, env, w, hits);
      && after == w.(dedup := after.dedup, sent := after.sent, stats := after.stats)
      && after.stats == w.stats.(sent := after.stats.sent)
      && w.sent <= after.sent
  {
    hide InScope;
    if hits != [] {
      HitsKeep(config, env, w, hits[..|hits| - 1]);
    }
  }

  lemma ChunkKeeps(config: Config, tools: Tools, env: Env, w: Worker, chunk: string)
    requires IsSized(w.filter)
    ensures var after := ChunkProcessed(config, tools, env, w, chunk).1;
      && after == w.(dedup := after.dedup, sent := after.sent, stats := after.stats)
      && w.sent <= after.sent
  {
    hide HitsPushed, ContainsAny, TooFar;
    forall hits: seq<(Id, real)> { HitsKeep(config, env, Screened(tools, w, chunk), hits); }
  }

  /** An event leaves the filter alone and takes nothing back that was sent. */
  lemma HandledKeeps(config: Config, tools: Tools, env: Env, w: Worker, event: Event)
    requires IsSized(w.filter)
    ensures Handled(config, tools, env, w, event).filter == w.filter
    ensures w.sent <= Handled(config, tools, env, w, event).sent
  {
    hide ChunkProcessed, InScope, Appended;
    forall v: Worker, chunk | IsSized(v.filter)
      ensures var after := ChunkProcessed(config, tools, env, v, chunk).1;
        after.filter == v.filter && v.sent <= after.sent
    {
      ChunkKeeps(config, tools, env, v, chunk);
    }
  }

  lemma StepKeepsSized(config: Config, tools: Tools, env: Env, w: Worker, event: Event)
    requires IsSized(w.filter)
    ensures IsSized(Step(config, tools, env, w, event).filter)
    ensures w.sent <= Step(config, tools, env, w, event).sent
  {
    hide Handled, IsSized;
    HandledKeeps(config, tools, env, w, event);
  }
}
