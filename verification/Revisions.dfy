/** `revise` of engine.rs: the old state of a memory is kept as a snapshot, the new one is put in
    its place, and snapshots beyond the retention limit are pruned, all in one batch. */
module Revisions {
  import opened Results
  import opened Memories
  import opened IdOrder
  import opened Store

  // ---------------------------------------------------------------------------------------
  //  Input and the revised memory
  // ---------------------------------------------------------------------------------------

  datatype EdgeInput = EdgeInput(target: Id, kind: EdgeType, confidence: Option<real>)

  datatype ContextMode = Merge | Replace

  datatype ReviseInput = ReviseInput(
    id: Id,
    content: Option<string>,
    importance: Option<real>,
    context: Option<map<string, string>>,
    mode: ContextMode,
    entity: Option<Option<string>>,
    edges: seq<EdgeInput>)

  /** What the operation takes from its surroundings: the embedder, the length of a serialized
      context and the retention limit, 0 for none. */
  datatype Engine = Engine(
    embed: string -> Option<Embedding>,
    dimensions: nat,
    contextSize: map<string, string> -> nat,
    maxSnapshots: nat)

  datatype ReviseError = InvalidInput | NotFound | EmbeddingFailed | NoEmbedding | ContextTooLarge | DimensionMismatch

  const MAX_CONTENT_LENGTH := 64 * 1024
  const MAX_CONTEXT_SIZE := 16 * 1024

  predicate IsValid(input: ReviseInput) {
    && !(input.content == None && input.importance == None && input.context == None
         && input.entity == None && input.edges == [])
    && (input.content.Some? ==> 0 < |input.content.value| <= MAX_CONTENT_LENGTH)
    && (input.importance.Some? ==> 0.0 <= input.importance.value <= 1.0)
    && (forall e :: e in input.edges ==> e.target != 0)
  }

  function Or<T>(given: Option<T>, otherwise: T): T {
    match given
    case Some(value) => value
    case None => otherwise
  }

  function RevisedContext(input: ReviseInput, existing: Memory): map<string, string> {
    match input.context
    case None => existing.context
    case Some(context) => if input.mode == Replace then context else existing.context + context
  }

  /** The memory as revised. The score is reset to the importance even if none is given. */
  function Revised(engine: Engine, s: State, input: ReviseInput, now: nat): (result: Result<Memory, ReviseError>)
    ensures result.Ok? ==>
      && input.id in s.records
      && result.value.id == input.id
      && result.value.createdAt == s.records[input.id].createdAt
      && result.value.logicalClock == s.records[input.id].logicalClock + 1
      && result.value.embedding.Some?
  {
    if !IsValid(input) then Err(InvalidInput)
    else if input.id !in s.records then Err(NotFound)
    else
      var existing := s.records[input.id];
      var content := Or(input.content, existing.content);
      var embedding := if content != existing.content then engine.embed(content) else existing.embedding;
      if embedding == None then Err(if content != existing.content then EmbeddingFailed else NoEmbedding)
      else if engine.contextSize(RevisedContext(input, existing)) > MAX_CONTEXT_SIZE then Err(ContextTooLarge)
      else if |embedding.value| != engine.dimensions then Err(DimensionMismatch)
      else
        var importance := Or(input.importance, existing.importance);
        Ok(existing.(
          id := input.id, content := content, importance := importance, context := RevisedContext(input, existing),
          entity := Or(input.entity, existing.entity), embedding := embedding, updatedAt := now,
          decayScore := importance, kind := Revision, logicalClock := existing.logicalClock + 1))
  }

  /** The context length a revision leads to, and the vector it stores. */
  predicate Fits(engine: Engine, context: map<string, string>, vector: Option<Embedding>) {
    vector.Some? && |vector.value| == engine.dimensions && engine.contextSize(context) <= MAX_CONTEXT_SIZE
  }

  /** A revision goes through exactly if the input is valid, the memory exists, there is a vector of
      the right length, embedded anew only for new content, and the context is not too large. */
  lemma ReviseSucceedsIff(engine: Engine, s: State, input: ReviseInput, now: nat)
    ensures Revised(engine, s, input, now).Ok?
       <==> && IsValid(input) && input.id in s.records
            && var m := s.records[input.id];
               var anew := input.content.Some? && input.content.value != m.content;
               Fits(engine, RevisedContext(input, m), if anew then engine.embed(input.content.value) else m.embedding)
  {}

  /** Nothing to revise, a content that is empty or too long, an importance out of range, or an edge to
      the id of all zeros. */
  predicate BreaksRule(input: ReviseInput) {
    || input == ReviseInput(input.id, None, None, None, input.mode, None, [])
    || input.content == Some("")
    || (input.content.Some? && |input.content.value| > 65536)
    || (input.importance.Some? && (input.importance.value < 0.0 || input.importance.value > 1.0))
    || exists i :: 0 <= i < |input.edges| && input.edges[i].target == 0
  }

  lemma ValidIff(input: ReviseInput)
    ensures IsValid(input) <==> !BreaksRule(input)
  {
    forall i | 0 <= i < |input.edges| ensures input.edges[i] in input.edges {}
  }

  /** Which error a revision that does not go through returns: the first of these that applies. */
  lemma ReviseErrorIs(engine: Engine, s: State, input: ReviseInput, now: nat)
    ensures var result := Revised(engine, s, input, now);
      && (result == Err(InvalidInput) <==> BreaksRule(input))
      && (result == Err(NotFound) <==> !BreaksRule(input) && input.id !in s.records)
      && (!BreaksRule(input) && input.id in s.records ==>
            var m := s.records[input.id];
            var anew := input.content.Some? && input.content.value != m.content;
            var vector := if anew then engine.embed(input.content.value) else m.embedding;
            var size := engine.contextSize(RevisedContext(input, m));
            && (result == Err(EmbeddingFailed) <==> anew && vector == None)
            && (result == Err(NoEmbedding) <==> !anew && vector == None)
            && (result == Err(ContextTooLarge) <==> vector.Some? && size > 16384)
            && (result == Err(DimensionMismatch) <==>
                  vector.Some? && size <= 16384 && |vector.value| != engine.dimensions))
  {
    hide IsValid, BreaksRule, RevisedContext;
    ValidIff(input);
  }

  /** A revision sets what it is given and leaves the rest: content, importance and entity are the
      given or the old ones, a merged context has the keys of both with the given ones winning, and
      only the time, the kind, the score and the clock change besides. */
  lemma RevisedFields(engine: Engine, s: State, input: ReviseInput, now: nat)
    requires Revised(engine, s, input, now).Ok?
    ensures var m, r := s.records[input.id], Revised(engine, s, input, now).value;
      && (if input.content.Some? then r.content == input.content.value else r.content == m.content)
      && (if input.importance.Some? then r.importance == input.importance.value else r.importance == m.importance)
      && (if input.entity.Some? then r.entity == input.entity.value else r.entity == m.entity)
      && r.embedding == (if r.content == m.content then m.embedding else engine.embed(r.content))
      && (input.context == None ==> r.context == m.context)
      && (input.context.Some? && input.mode == Replace ==> r.context == input.context.value)
      && (input.context.Some? && input.mode == Merge ==>
            && r.context.Keys == m.context.Keys + input.context.value.Keys
            && (forall k :: k in input.context.value ==> r.context[k] == input.context.value[k])
            && (forall k :: k in m.context && k !in input.context.value ==> r.context[k] == m.context[k]))
      && r.updatedAt == now && r.kind == Revision && r.decayScore == r.importance
      && r.lastAccessedAt == m.lastAccessedAt && r.accessCount == m.accessCount && r.device == m.device
  {}

  /** The same revision once more succeeds and changes nothing but the time and the clock. */
  lemma RevisingAgainOnlyTicks(engine: Engine, s: State, input: ReviseInput, now: nat, s': State, later: nat)
    requires Revised(engine, s, input, now).Ok?
    requires input.id in s'.records && s'.records[input.id] == Revised(engine, s, input, now).value
    ensures var r := Revised(engine, s, input, now).value;
      Revised(engine, s', input, later) == Ok(r.(updatedAt := later, logicalClock := r.logicalClock + 1))
  {
    var m := s.records[input.id];
    if input.context.Some? {
      var given := input.context.value;
      assert m.context + given + given == m.context + given;
    }
  }

  // ---------------------------------------------------------------------------------------
  //  The batch
  // ---------------------------------------------------------------------------------------

  /** The edge to the new snapshot, then the ones the caller asked for. */
  function RevisionEdges(input: ReviseInput, snapshot: Id): seq<EdgeInput> {
    [EdgeInput(snapshot, RevisedFrom, Some(1.0))] + input.edges
  }

  function EdgeFrom(id: Id, e: EdgeInput): Edge {
    Edge(id, e.kind, e.target)
  }

  function EdgeOps(id: Id, edges: seq<EdgeInput>, createdAt: nat): seq<Op> {
    if edges == [] then []
    else
      var last := edges[|edges| - 1];
      EdgeOps(id, edges[..|edges| - 1], createdAt)
      + PutEdge(EdgeFrom(id, last), EdgeMetadata(Or(last.confidence, 1.0), createdAt))
  }

  function TemporalOps(
      id: Id, before: Option<string>, after: Option<string>, createdAt: nat, vector: Embedding): seq<Op> {
    (match before case Some(e) => [DeleteTemporal(e, createdAt)] case None => [])
    + [DeleteVector(id)]
    + (match after case Some(e) => [PutTemporal(e, createdAt, id)] case None => [])
    + [PutVector(id, vector)]
  }

  /** find_revision_snapshots: RevisedFrom targets that nothing but RevisedFrom edges enter. */
  function Snapshots(s: State, id: Id): set<Id> {
    set e | e in s.forward && e.source == id && e.kind == RevisedFrom && OnlyLineageEnters(s, e.target) :: e.target
  }

  predicate OnlyLineageEnters(s: State, id: Id) {
    forall e :: e in s.reverse && e.target == id ==> e.kind == RevisedFrom
  }

  /** The oldest snapshots beyond the limit, the new one counted. */
  function Excess(engine: Engine, s: State, id: Id): seq<Id> {
    var sorted := SortedIds(Snapshots(s, id));
    if engine.maxSnapshots == 0 || |sorted| + 1 <= engine.maxSnapshots then []
    else sorted[..|sorted| + 1 - engine.maxSnapshots]
  }

  function PruneOps(s: State, ids: seq<Id>): seq<Op> {
    if ids == [] then []
    else PruneOps(s, ids[..|ids| - 1]) + PrepareDelete(s, ids[|ids| - 1], None, 0)
  }

  function ReviseOps(engine: Engine, s: State, input: ReviseInput, revised: Memory, snapshot: Id): seq<Op>
    requires input.id in s.records && revised.embedding.Some?
  {
    var existing := s.records[input.id];
    [PutRecord(existing.(id := snapshot)), PutRecord(revised)]
    + TemporalOps(input.id, existing.entity, revised.entity, existing.createdAt, revised.embedding.value)
    + EdgeOps(input.id, RevisionEdges(input, snapshot), existing.createdAt)
    + PruneOps(s, Excess(engine, s, input.id))
  }

  // ---------------------------------------------------------------------------------------
  //  Its effect
  // ---------------------------------------------------------------------------------------

  function EdgeEntries(id: Id, edges: seq<EdgeInput>, createdAt: nat): map<Edge, EdgeMetadata> {
    if edges == [] then map[]
    else
      var last := edges[|edges| - 1];
      EdgeEntries(id, edges[..|edges| - 1], createdAt)
        [EdgeFrom(id, last) := EdgeMetadata(Or(last.confidence, 1.0), createdAt)]
  }

  function Moved(temporal: map<TemporalKey, Id>, id: Id, before: Option<string>, after: Option<string>, createdAt: nat)
    : map<TemporalKey, Id>
  {
    var rest := match before case Some(e) => temporal - {(e, createdAt)} case None => temporal;
    match after case Some(e) => rest[(e, createdAt) := id] case None => rest
  }

  function Pruning(s: State, ids: seq<Id>): Removal {
    if ids == [] then NOTHING
    else Both(Pruning(s, ids[..|ids| - 1]), Deleting(s, ids[|ids| - 1], None, 0))
  }

  function Updated(s: State, input: ReviseInput, revised: Memory, snapshot: Id): State
    requires input.id in s.records && revised.embedding.Some?
  {
    var existing := s.records[input.id];
    var entries := EdgeEntries(input.id, RevisionEdges(input, snapshot), existing.createdAt);
    s.(records := s.records[snapshot := existing.(id := snapshot)][revised.id := revised],
       temporal := Moved(s.temporal, input.id, existing.entity, revised.entity, existing.createdAt),
       vectors := s.vectors[input.id := revised.embedding.value],
       forward := s.forward + entries,
       reverse := s.reverse + entries)
  }

  /** The state a revision leaves; an error leaves the state alone. */
  function AfterRevise(engine: Engine, s: State, input: ReviseInput, now: nat, snapshot: Id): State {
    match Revised(engine, s, input, now)
    case Err(_) => s
    case Ok(revised) => Without(Updated(s, input, revised, snapshot), Pruning(s, Excess(engine, s, input.id)))
  }

  function WithEntries(s: State, entries: map<Edge, EdgeMetadata>): State {
    s.(forward := s.forward + entries, reverse := s.reverse + entries)
  }

  lemma WithOneMoreEntry(s: State, entries: map<Edge, EdgeMetadata>, edge: Edge, metadata: EdgeMetadata)
    ensures Apply(WithEntries(s, entries), PutEdge(edge, metadata)) == WithEntries(s, entries[edge := metadata])
  {
    hide PutEdge, Apply;
    ApplyPutEdge(WithEntries(s, entries), edge, metadata);
    AddThenPut(s.forward, entries, edge, metadata);
    AddThenPut(s.reverse, entries, edge, metadata);
  }

  lemma AddThenPut<K, V>(m: map<K, V>, added: map<K, V>, k: K, v: V)
    ensures (m + added)[k := v] == m + added[k := v]
  {}

  lemma WithNoEntries(s: State)
    ensures WithEntries(s, map[]) == s
  {
    assert s.forward + map[] == s.forward && s.reverse + map[] == s.reverse;
  }

  lemma {:induction false} ApplyEdgeOps(s: State, id: Id, edges: seq<EdgeInput>, createdAt: nat)
    ensures Apply(s, EdgeOps(id, edges, createdAt)) == WithEntries(s, EdgeEntries(id, edges, createdAt))
  {
    hide ApplyOne, EdgeFrom, Or, PutEdge, WithEntries;
    if edges == [] {
      WithNoEntries(s);
    } else {
      var init, last := edges[..|edges| - 1], edges[|edges| - 1];
      var edge, metadata := EdgeFrom(id, last), EdgeMetadata(Or(last.confidence, 1.0), createdAt);
      ApplyEdgeOps(s, id, init, createdAt);
      ApplyAppend(s, EdgeOps(id, init, createdAt), PutEdge(edge, metadata));
      WithOneMoreEntry(s, EdgeEntries(id, init, createdAt), edge, metadata);
    }
  }

  lemma {:induction false} ApplyPruneOps(read: State, s: State, ids: seq<Id>)
    ensures Apply(s, PruneOps(read, ids)) == Without(s, Pruning(read, ids))
  {
    hide ApplyOne, Without, PrepareDelete;
    if ids == [] {
      WithoutNothing(s);
    } else {
      var init, last := ids[..|ids| - 1], ids[|ids| - 1];
      ApplyPruneOps(read, s, init);
      ApplyAppend(s, PruneOps(read, init), PrepareDelete(read, last, None, 0));
      ApplyPrepareDelete(read, Without(s, Pruning(read, init)), last, None, 0);
      WithoutBoth(s, Pruning(read, init), Deleting(read, last, None, 0));
    }
  }

  lemma ApplySingle(s: State, op: Op)
    ensures Apply(s, [op]) == ApplyOne(s, op)
  {
    hide ApplyOne;
    assert Apply(s, [op]) == Apply(ApplyOne(s, op), []);
  }

  lemma ApplyTemporalOps(
      s: State, id: Id, before: Option<string>, after: Option<string>, createdAt: nat, vector: Embedding)
    ensures Apply(s, TemporalOps(id, before, after, createdAt, vector))
         == s.(temporal := Moved(s.temporal, id, before, after, createdAt), vectors := s.vectors[id := vector])
  {
    hide Apply;
    var first := match before case Some(e) => [DeleteTemporal(e, createdAt)] case None => [];
    var third := match after case Some(e) => [PutTemporal(e, createdAt, id)] case None => [];
    var s1 := s.(temporal := match before case Some(e) => s.temporal - {(e, createdAt)} case None => s.temporal);
    var s2 := s1.(vectors := s.vectors - {id});
    var s3 := s2.(temporal := Moved(s.temporal, id, before, after, createdAt));
    ApplyAtMostOne(s, first);
    ApplySingle(s1, DeleteVector(id));
    ApplyAtMostOne(s2, third);
    ApplySingle(s3, PutVector(id, vector));
    ApplyAppend(s, first, [DeleteVector(id)]);
    ApplyAppend(s, first + [DeleteVector(id)], third);
    ApplyAppend(s, first + [DeleteVector(id)] + third, [PutVector(id, vector)]);
    assert (s.vectors - {id})[id := vector] == s.vectors[id := vector];
  }

  lemma ApplyAtMostOne(s: State, ops: seq<Op>)
    requires |ops| <= 1
    ensures Apply(s, ops) == if ops == [] then s else ApplyOne(s, ops[0])
  {
    if ops != [] {
      ApplySingle(s, ops[0]);
      assert ops == [ops[0]];
    }
  }

  /** Applying the batch in order gives the effect. */
  lemma ApplyReviseOps(engine: Engine, s: State, input: ReviseInput, now: nat, snapshot: Id)
    requires Revised(engine, s, input, now).Ok?
    ensures Apply(s, ReviseOps(engine, s, input, Revised(engine, s, input, now).value, snapshot))
         == AfterRevise(engine, s, input, now, snapshot)
  {
    hide Apply, ApplyOne, Without, Moved, EdgeOps, EdgeEntries, PruneOps, TemporalOps, Excess, Pruning;
    var revised := Revised(engine, s, input, now).value;
    var existing := s.records[input.id];
    var puts := [PutRecord(existing.(id := snapshot)), PutRecord(revised)];
    var moves := TemporalOps(input.id, existing.entity, revised.entity, existing.createdAt, revised.embedding.value);
    var edges := EdgeOps(input.id, RevisionEdges(input, snapshot), existing.createdAt);
    var prunes := PruneOps(s, Excess(engine, s, input.id));
    var s1 := s.(records := s.records[snapshot := existing.(id := snapshot)][revised.id := revised]);
    assert Apply(s, puts) == s1 by { ApplyPuts(s, existing.(id := snapshot), revised); }
    ApplyAppend(s, puts, moves);
    ApplyTemporalOps(s1, input.id, existing.entity, revised.entity, existing.createdAt, revised.embedding.value);
    ApplyAppend(s, puts + moves, edges);
    ApplyEdgeOps(Apply(s1, moves), input.id, RevisionEdges(input, snapshot), existing.createdAt);
    ApplyAppend(s, puts + moves + edges, prunes);
    ApplyPruneOps(s, Updated(s, input, revised, snapshot), Excess(engine, s, input.id));
  }

  lemma ApplyPuts(s: State, a: Memory, b: Memory)
    ensures Apply(s, [PutRecord(a), PutRecord(b)]) == s.(records := s.records[a.id := a][b.id := b])
  {
    ApplyTwo(s, PutRecord(a), PutRecord(b));
  }

  /** revise */
  method Revise(db: Database, engine: Engine, input: ReviseInput, now: nat, snapshot: Id)
    returns (result: Result<Memory, ReviseError>)
    modifies db
    ensures result == Revised(engine, old(db.state), input, now)
    ensures db.state == AfterRevise(engine, old(db.state), input, now, snapshot)
  {
    hide Apply, ApplyOne, PrepareDelete, AfterRevise, Revised, TemporalOps, Excess;
    var s := db.state;
    result := Revised(engine, s, input, now);
    if result.Err? {
      RefusedLeavesState(engine, s, input, now, snapshot);
      return;
    }
    var revised, existing := result.value, s.records[input.id];
    var batch := [PutRecord(existing.(id := snapshot)), PutRecord(revised)]
      + TemporalOps(input.id, existing.entity, revised.entity, existing.createdAt, revised.embedding.value);
    var edges := RevisionEdges(input, snapshot);
    ghost var start := batch;
    for i := 0 to |edges|
      invariant batch == start + EdgeOps(input.id, edges[..i], existing.createdAt)
      invariant db.state == s
    {
      assert edges[..i + 1][..i] == edges[..i];
      var metadata := EdgeMetadata(Or(edges[i].confidence, 1.0), existing.createdAt);
      batch := batch + PutEdge(EdgeFrom(input.id, edges[i]), metadata);
    }
    assert edges[..|edges|] == edges;
    var pruned := Excess(engine, s, input.id);
    start := batch;
    for i := 0 to |pruned|
      invariant batch == start + PruneOps(s, pruned[..i])
      invariant db.state == s
    {
      assert pruned[..i + 1][..i] == pruned[..i];
      batch := batch + PrepareDelete(s, pruned[i], None, 0);
    }
    assert pruned[..|pruned|] == pruned;
    ApplyReviseOps(engine, s, input, now, snapshot);
    db.WriteBatch(batch);
  }

  lemma RefusedLeavesState(engine: Engine, s: State, input: ReviseInput, now: nat, snapshot: Id)
    requires Revised(engine, s, input, now).Err?
    ensures AfterRevise(engine, s, input, now, snapshot) == s
  {}

  // ---------------------------------------------------------------------------------------
  //  Graph invariants
  // ---------------------------------------------------------------------------------------

  lemma {:induction false} EntriesAre(id: Id, edges: seq<EdgeInput>, createdAt: nat, edge: Edge)
    ensures edge in EdgeEntries(id, edges, createdAt) <==> exists e :: e in edges && edge == EdgeFrom(id, e)
  {
    if edges != [] {
      var init, last := edges[..|edges| - 1], edges[|edges| - 1];
      EntriesAre(id, init, createdAt, edge);
      assert edges == init + [last];
    }
  }

  lemma {:induction false} PruningIs(s: State, ids: seq<Id>)
    ensures Pruning(s, ids).ids == SetOf(ids)
    ensures Pruning(s, ids).times == {}
    ensures forall e :: e in Pruning(s, ids).edges <==> exists x :: x in ids && e in Touching(s, x)
  {
    hide Touching;
    if ids != [] {
      var init, last := ids[..|ids| - 1], ids[|ids| - 1];
      PruningIs(s, init);
      assert ids == init + [last];
    }
  }

  /** A revision keeps forward and reverse entries paired. */
  lemma ReviseKeepsPaired(engine: Engine, s: State, input: ReviseInput, now: nat, snapshot: Id)
    requires Paired(s)
    ensures Paired(AfterRevise(engine, s, input, now, snapshot))
  {
    hide Revised, EdgeEntries, Pruning, Excess, Moved;
  }

  /** A revision that adds no Contradicts edge of its own keeps Contradicts symmetric, whatever it
      prunes. */
  lemma ReviseKeepsSymmetric(engine: Engine, s: State, input: ReviseInput, now: nat, snapshot: Id)
    requires Paired(s) && Symmetric(s)
    requires forall e :: e in input.edges ==> e.kind != Contradicts
    ensures Symmetric(AfterRevise(engine, s, input, now, snapshot))
  {
    hide Revised, EdgeEntries, Pruning, Excess, Moved, RevisionEdges;
    var result := Revised(engine, s, input, now);
    if result.Ok? {
      var updated := Updated(s, input, result.value, snapshot);
      var entries := EdgeEntries(input.id, RevisionEdges(input, snapshot), s.records[input.id].createdAt);
      forall e | e in entries ensures e.kind != Contradicts {
        EntriesAre(input.id, RevisionEdges(input, snapshot), s.records[input.id].createdAt, e);
        RevisionEdgesKinds(input, snapshot);
      }
      forall a, b ensures ContradictsBothWays(updated.forward, a, b) {
        assert ContradictsBothWays(s.forward, a, b);
      }
      var ids := Excess(engine, s, input.id);
      PruningIs(s, ids);
      forall e | e in updated.forward && e.kind == Contradicts
        ensures e in Pruning(s, ids).edges <==> e.source in SetOf(ids) || e.target in SetOf(ids)
      {
        assert e in s.forward;
        forall x | x in ids ensures e in Touching(s, x)
            <==> e.source == x || e.target == x { TouchingIsIncident(s, x); }
      }
      WithoutIncidentKeepsSymmetric(updated, Pruning(s, ids), SetOf(ids));
    }
  }

  lemma RevisionEdgesKinds(input: ReviseInput, snapshot: Id)
    ensures forall e :: e in RevisionEdges(input, snapshot) <==>
      e == EdgeInput(snapshot, RevisedFrom, Some(1.0)) || e in input.edges
  {}
}
