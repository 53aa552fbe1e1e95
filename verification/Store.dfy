/** The column families that the memory operations share and the batches that write them. A batch
    is applied atomically and in order, as a RocksDB write batch is; reads made while preparing it
    see the state before it. */
module Store {
  import opened Results
  import opened Memories

  // ---------------------------------------------------------------------------------------
  //  State
  // ---------------------------------------------------------------------------------------

  datatype EdgeType =
    | CausedBy | RelatedTo | FollowedBy | RevisedFrom | InsightFrom
    | Contradicts | HasEntity | EntityRelation | PropositionOf

  datatype EdgeMetadata = EdgeMetadata(confidence: real, timestamp: nat)

  datatype Edge = Edge(source: Id, kind: EdgeType, target: Id)

  datatype Pending = Pending(id: Id, a: Id, b: Id, score: real, similarity: real, createdAt: nat)

  datatype Tombstone = Tombstone(id: Id, entity: Option<string>, at: nat, cascades: nat, content: string)

  type TemporalKey = (string, nat)

  /** `forward` and `reverse` are the two ranges of the graph family: the entry for an edge under
      its forward key and the one under its reverse key. */
  datatype State = State(
    records: map<Id, Memory>,
    temporal: map<TemporalKey, Id>,
    vectors: map<Id, Embedding>,
    forward: map<Edge, EdgeMetadata>,
    reverse: map<Edge, EdgeMetadata>,
    pending: map<Id, Pending>,
    tombstones: map<(nat, Id), Tombstone>)

  // ---------------------------------------------------------------------------------------
  //  Batches
  // ---------------------------------------------------------------------------------------

  /** Puts and deletes of single keys, except that the edge keys collected for a delete, the
      forward and the reverse key of each edge, are one operation. */
  datatype Op =
    | PutRecord(memory: Memory)
    | DeleteRecord(id: Id)
    | PutTemporal(entity: string, at: nat, id: Id)
    | DeleteTemporal(entity: string, at: nat)
    | PutVector(id: Id, vector: Embedding)
    | DeleteVector(id: Id)
    | PutForward(edge: Edge, metadata: EdgeMetadata)
    | PutReverse(edge: Edge, metadata: EdgeMetadata)
    | DeleteEdges(edges: set<Edge>)
    | PutPending(pending: Pending)
    | DeletePending(id: Id)
    | PutTombstone(tombstone: Tombstone)

  function ApplyOne(s: State, op: Op): State {
    match op
    case PutRecord(memory) => s.(records := s.records[memory.id := memory])
    case DeleteRecord(id) => s.(records := s.records - {id})
    case PutTemporal(entity, at, id) => s.(temporal := s.temporal[(entity, at) := id])
    case DeleteTemporal(entity, at) => s.(temporal := s.temporal - {(entity, at)})
    case PutVector(id, vector) => s.(vectors := s.vectors[id := vector])
    case DeleteVector(id) => s.(vectors := s.vectors - {id})
    case PutForward(edge, metadata) => s.(forward := s.forward[edge := metadata])
    case PutReverse(edge, metadata) => s.(reverse := s.reverse[edge := metadata])
    case DeleteEdges(edges) => s.(forward := s.forward - edges, reverse := s.reverse - edges)
    case PutPending(pending) => s.(pending := s.pending[pending.id := pending])
    case DeletePending(id) => s.(pending := s.pending - {id})
    case PutTombstone(tombstone) => s.(tombstones := s.tombstones[(tombstone.at, tombstone.id) := tombstone])
  }

  function Apply(s: State, ops: seq<Op>): State
    decreases |ops|
  {
    if ops == [] then s else Apply(ApplyOne(s, ops[0]), ops[1..])
  }

  lemma {:induction false} ApplyAppend(s: State, a: seq<Op>, b: seq<Op>)
    ensures Apply(s, a + b) == Apply(Apply(s, a), b)
    decreases |a|
  {
    hide ApplyOne;
    if a == [] {
      assert a + b == b;
    } else {
      assert (a + b)[0] == a[0] && (a + b)[1..] == a[1..] + b;
      ApplyAppend(ApplyOne(s, a[0]), a[1..], b);
    }
  }

  class Database {
    var state: State

    constructor (state: State)
      ensures this.state == state
    {
      this.state := state;
    }

    /** write_batch */
    method WriteBatch(ops: seq<Op>)
      modifies this
      ensures state == Apply(old(state), ops)
    {
      hide ApplyOne;
      var i := 0;
      while i < |ops|
        invariant 0 <= i <= |ops|
        invariant Apply(old(state), ops) == Apply(state, ops[i..])
      {
        assert ops[i..][1..] == ops[i + 1..];
        state := ApplyOne(state, ops[i]);
        i := i + 1;
      }
    }

    /** add_edge */
    method AddEdge(source: Id, target: Id, kind: EdgeType, confidence: real, now: nat)
      modifies this
      ensures state == EdgeAdded(old(state), Edge(source, kind, target), confidence, now)
    {
      hide Apply;
      var edge := Edge(source, kind, target);
      var metadata := EdgeMetadata(confidence, now);
      WriteBatch([PutForward(edge, metadata), PutReverse(edge, metadata)]);
    }
  }

  // ---------------------------------------------------------------------------------------
  //  Graph invariants
  // ---------------------------------------------------------------------------------------

  /** Every forward entry has a reverse entry with the same metadata, and the other way round. */
  predicate Paired(s: State) {
    s.forward == s.reverse
  }

  /** The entry of `edge` and that of `twin` are both absent or both present and equal. */
  predicate SameEntry(edges: map<Edge, EdgeMetadata>, edge: Edge, twin: Edge) {
    if edge in edges then twin in edges && edges[twin] == edges[edge] else twin !in edges
  }

  predicate ContradictsBothWays(edges: map<Edge, EdgeMetadata>, a: Id, b: Id) {
    SameEntry(edges, Edge(a, Contradicts, b), Edge(b, Contradicts, a))
  }

  /** Contradicts edges come in both directions with equal metadata. */
  ghost predicate Symmetric(s: State) {
    forall a, b :: ContradictsBothWays(s.forward, a, b)
  }

  function Incident(edges: map<Edge, EdgeMetadata>, id: Id): set<Edge> {
    set e | e in edges && (e.source == id || e.target == id)
  }

  /** collect_edge_keys_for_delete: the forward entries leaving a memory and the reverse entries
      entering it. */
  function Touching(s: State, id: Id): set<Edge> {
    (set e | e in s.forward && e.source == id) + (set e | e in s.reverse && e.target == id)
  }

  lemma TouchingIsIncident(s: State, id: Id)
    requires Paired(s)
    ensures Touching(s, id) == Incident(s.forward, id)
  {}

  /** Both entries of an edge, as every writer of edges emits them. */
  function PutEdge(edge: Edge, metadata: EdgeMetadata): seq<Op> {
    [PutForward(edge, metadata), PutReverse(edge, metadata)]
  }

  lemma ApplyTwo(s: State, a: Op, b: Op)
    ensures Apply(s, [a, b]) == ApplyOne(ApplyOne(s, a), b)
  {
    hide ApplyOne;
    var first := ApplyOne(s, a);
    assert [a, b][1..] == [b] && [b][1..] == [];
    assert Apply(s, [a, b]) == Apply(first, [b]) == Apply(ApplyOne(first, b), []);
  }

  lemma ApplyPutEdge(s: State, edge: Edge, metadata: EdgeMetadata)
    ensures Apply(s, PutEdge(edge, metadata))
         == s.(forward := s.forward[edge := metadata], reverse := s.reverse[edge := metadata])
  {
    ApplyTwo(s, PutForward(edge, metadata), PutReverse(edge, metadata));
  }

  // ---------------------------------------------------------------------------------------
  //  add_edge
  // ---------------------------------------------------------------------------------------

  function EdgeAdded(s: State, edge: Edge, confidence: real, now: nat): State {
    Apply(s, PutEdge(edge, EdgeMetadata(confidence, now)))
  }

  lemma EdgeAddedIsPaired(s: State, edge: Edge, confidence: real, now: nat)
    requires Paired(s)
    ensures Paired(EdgeAdded(s, edge, confidence, now))
  {
    ApplyPutEdge(s, edge, EdgeMetadata(confidence, now));
  }

  /** A caller may add a Contradicts edge by itself. That keeps the symmetry exactly when the edge
      is of another type, a loop, or already there the other way with the same metadata. */
  lemma EdgeAddedIsSymmetricIff(s: State, edge: Edge, confidence: real, now: nat)
    requires Symmetric(s)
    ensures Symmetric(EdgeAdded(s, edge, confidence, now))
       <==> edge.kind != Contradicts || edge.source == edge.target
            || (Edge(edge.target, Contradicts, edge.source) in s.forward
                && s.forward[Edge(edge.target, Contradicts, edge.source)] == EdgeMetadata(confidence, now))
  {
    var metadata := EdgeMetadata(confidence, now);
    ApplyPutEdge(s, edge, metadata);
    var after := EdgeAdded(s, edge, confidence, now).forward;
    assert after == s.forward[edge := metadata];
    forall a, b | !ContradictsBothWays(after, a, b)
      ensures edge == Edge(a, Contradicts, b) || edge == Edge(b, Contradicts, a)
    {
      assert ContradictsBothWays(s.forward, a, b);
    }
    assert ContradictsBothWays(s.forward, edge.source, edge.target);
    if Symmetric(EdgeAdded(s, edge, confidence, now)) {
      assert ContradictsBothWays(after, edge.source, edge.target);
    }
  }

  // ---------------------------------------------------------------------------------------
  //  prepare_delete
  // ---------------------------------------------------------------------------------------

  function PrepareDelete(s: State, id: Id, entity: Option<string>, createdAt: nat): seq<Op> {
    [DeleteRecord(id)]
    + (match entity case Some(e) => [DeleteTemporal(e, createdAt)] case None => [])
    + [DeleteVector(id), DeleteEdges(Touching(s, id))]
  }

  /** What a number of prepared deletes take away together. */
  datatype Removal = Removal(ids: set<Id>, times: set<TemporalKey>, edges: set<Edge>)

  const NOTHING := Removal({}, {}, {})

  function Both(a: Removal, b: Removal): Removal {
    Removal(a.ids + b.ids, a.times + b.times, a.edges + b.edges)
  }

  function Without(s: State, r: Removal): State {
    s.(records := s.records - r.ids, temporal := s.temporal - r.times, vectors := s.vectors - r.ids,
       forward := s.forward - r.edges, reverse := s.reverse - r.edges)
  }

  function Deleting(s: State, id: Id, entity: Option<string>, createdAt: nat): Removal {
    Removal({id}, match entity case Some(e) => {(e, createdAt)} case None => {}, Touching(s, id))
  }

  lemma WithoutBoth(s: State, a: Removal, b: Removal)
    ensures Without(Without(s, a), b) == Without(s, Both(a, b))
  {
    assert s.records - a.ids - b.ids == s.records - (a.ids + b.ids);
    assert s.temporal - a.times - b.times == s.temporal - (a.times + b.times);
    assert s.vectors - a.ids - b.ids == s.vectors - (a.ids + b.ids);
    assert s.forward - a.edges - b.edges == s.forward - (a.edges + b.edges);
    assert s.reverse - a.edges - b.edges == s.reverse - (a.edges + b.edges);
  }

  lemma WithoutNothing(s: State)
    ensures Without(s, NOTHING) == s
  {
    assert s.records - {} == s.records && s.temporal - {} == s.temporal && s.vectors - {} == s.vectors;
    assert s.forward - {} == s.forward && s.reverse - {} == s.reverse;
  }

  /** Deletes prepared from state `read` and applied to state `s`. */
  lemma ApplyPrepareDelete(read: State, s: State, id: Id, entity: Option<string>, createdAt: nat)
    ensures Apply(s, PrepareDelete(read, id, entity, createdAt)) == Without(s, Deleting(read, id, entity, createdAt))
  {
    var tail := [DeleteVector(id), DeleteEdges(Touching(read, id))];
    ApplyTwo(s.(records := s.records - {id}), tail[0], tail[1]);
    match entity
    case None =>
      assert PrepareDelete(read, id, entity, createdAt) == [DeleteRecord(id)] + tail;
      ApplyAppend(s, [DeleteRecord(id)], tail);
      assert s.temporal - {} == s.temporal;
    case Some(e) =>
      assert PrepareDelete(read, id, entity, createdAt) == [DeleteRecord(id), DeleteTemporal(e, createdAt)] + tail;
      ApplyAppend(s, [DeleteRecord(id), DeleteTemporal(e, createdAt)], tail);
      ApplyTwo(s, DeleteRecord(id), DeleteTemporal(e, createdAt));
      var s' := Apply(s, [DeleteRecord(id), DeleteTemporal(e, createdAt)]);
      ApplyTwo(s', tail[0], tail[1]);
  }

  /** Removing, for some memories, every Contradicts edge that touches one of them keeps the symmetry. */
  lemma WithoutIncidentKeepsSymmetric(s: State, r: Removal, gone: set<Id>)
    requires Symmetric(s)
    requires forall e :: e in s.forward && e.kind == Contradicts ==>
        (e in r.edges <==> e.source in gone || e.target in gone)
    ensures Symmetric(Without(s, r))
  {
    forall a, b ensures ContradictsBothWays(Without(s, r).forward, a, b) {
      assert ContradictsBothWays(s.forward, a, b);
    }
  }
}
