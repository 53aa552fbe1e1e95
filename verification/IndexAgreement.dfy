/** What revisions and forgets keep of the temporal index and of the edges to snapshots. */
module IndexAgreement {
  import opened Results
  import opened Sequences
  import opened Memories
  import opened IdOrder
  import opened Store
  import opened Revisions
  import opened Forgetting
  import opened ForgetProperties
  import opened EntityCalls

  // ---------------------------------------------------------------------------------------
  //  What keeps the index in agreement
  // ---------------------------------------------------------------------------------------

  /** The id is that of no record and of no temporal entry. */
  predicate IsUnused(s: State, id: Id) {
    id !in s.records && id !in s.temporal.Values
  }

  lemma UpdatedAgrees(s: State, input: ReviseInput, revised: Memory, snapshot: Id)
    requires IndexAgrees(s) && IsUnused(s, snapshot) && input.id in s.records && revised.embedding.Some?
    requires revised.id == input.id && revised.createdAt == s.records[input.id].createdAt
    ensures IndexAgrees(Updated(s, input, revised, snapshot))
  {
    hide EdgeEntries;
    var existing, after := s.records[input.id], Updated(s, input, revised, snapshot);
    assert after.temporal == Moved(s.temporal, input.id, existing.entity, revised.entity, existing.createdAt);
    forall k | k in after.temporal && after.temporal[k] == input.id
      ensures revised.entity == Some(k.0) && revised.createdAt == k.1
    {}
    forall k | k in after.temporal && after.temporal[k] != input.id
      ensures k in s.temporal && after.temporal[k] == s.temporal[k] != snapshot
    {
      assert k in s.temporal && s.temporal[k] in s.temporal.Values;
    }
  }

  lemma PrunedAgrees(s: State, r: Removal)
    requires IndexAgrees(s) && r.times == {}
    ensures IndexAgrees(Without(s, r))
  {
    var after := Without(s, r);
    assert after.temporal == s.temporal && after.records == s.records - r.ids;
  }

  /** Every entry of the index that leads to a record leads to one of its entity and time, and no
      revision under a new id changes that, whatever it prunes. */
  lemma ReviseKeepsAgreement(engine: Engine, s: State, input: ReviseInput, now: nat, snapshot: Id)
    requires IndexAgrees(s) && IsUnused(s, snapshot)
    ensures IndexAgrees(AfterRevise(engine, s, input, now, snapshot))
  {
    hide Revised, Pruning, Excess, IndexAgrees, Without, EdgeEntries, Moved;
    if Revised(engine, s, input, now).Ok? {
      RevisedFields(engine, s, input, now);
      var revised, ids := Revised(engine, s, input, now).value, Excess(engine, s, input.id);
      PruningIs(s, ids);
      UpdatedAgrees(s, input, revised, snapshot);
      PrunedAgrees(Updated(s, input, revised, snapshot), Pruning(s, ids));
    } else {
      RefusedLeavesState(engine, s, input, now, snapshot);
    }
  }

  /** Nor does a forget. */
  lemma ForgetKeepsAgreement(s: State, config: ForgetConfig, criteria: Criteria, now: nat)
    requires IndexAgrees(s) && Paired(s)
    ensures IndexAgrees(AfterForget(s, config, criteria, now))
  {
    hide Candidates, Forgotten, IsEmpty, Paired, Gone, EdgesAt, BatchLimit;
    var limit := BatchLimit(config);
    if !IsEmpty(criteria) && Candidates(s, criteria, limit).Ok? {
      var candidates := Candidates(s, criteria, limit).value;
      CandidatesMatch(s, criteria, limit);
      ForgetRemovesExactly(s, config, candidates, now);
      ForgetKeepsStore(s, config, candidates, now);
    }
  }

  // ---------------------------------------------------------------------------------------
  //  What keeps snapshots without entries of their own
  // ---------------------------------------------------------------------------------------

  /** RevisedFrom leads from a record to one of the same creation time, as it does to a snapshot. */
  predicate LineageSharesTime(s: State) {
    forall e :: e in s.forward && e.kind == RevisedFrom && e.source in s.records && e.target in s.records ==>
      s.records[e.source].createdAt == s.records[e.target].createdAt
  }

  lemma LineageIsApart(s: State, entity: string)
    requires Agrees(s, entity) && LineageSharesTime(s)
    ensures Apart(s, entity)
  {
    forall t | t in LiveTimes(s, entity) ensures s.records[s.temporal[(entity, t)]].createdAt == t {
      assert RecordAt(s, entity, t).createdAt == t;
    }
  }

  /** No edge enters or leaves the id. */
  predicate HasNoEdges(s: State, id: Id) {
    forall e :: e in s.forward ==> e.source != id && e.target != id
  }

  lemma {:induction false} EntriesOfInput(id: Id, edges: seq<EdgeInput>, createdAt: nat, e: Edge)
    requires e in EdgeEntries(id, edges, createdAt)
    ensures e.source == id && exists i :: 0 <= i < |edges| && edges[i].kind == e.kind && edges[i].target == e.target
  {
    var last := edges[|edges| - 1];
    if e != EdgeFrom(id, last) {
      EntriesOfInput(id, edges[..|edges| - 1], createdAt, e);
      var i :| 0 <= i < |edges| - 1 && edges[i].kind == e.kind && edges[i].target == e.target;
    }
  }

  lemma UpdatedSharesTime(s: State, input: ReviseInput, revised: Memory, snapshot: Id)
    requires LineageSharesTime(s) && HasNoEdges(s, snapshot) && snapshot !in s.records
    requires input.id in s.records && revised.embedding.Some?
    requires revised.id == input.id && revised.createdAt == s.records[input.id].createdAt
    requires forall i :: 0 <= i < |input.edges| ==> input.edges[i].kind != RevisedFrom
    ensures LineageSharesTime(Updated(s, input, revised, snapshot))
  {
    hide EdgeEntries;
    var existing, after := s.records[input.id], Updated(s, input, revised, snapshot);
    var edges := RevisionEdges(input, snapshot);
    assert forall i :: 1 <= i < |edges| ==> edges[i] == input.edges[i - 1];
    assert after.records == s.records[snapshot := existing.(id := snapshot)][revised.id := revised];
    assert after.forward == s.forward + EdgeEntries(input.id, edges, existing.createdAt);
    forall e | e in after.forward && e.kind == RevisedFrom && e.source in after.records && e.target in after.records
      ensures after.records[e.source].createdAt == after.records[e.target].createdAt
    {
      if e in EdgeEntries(input.id, edges, existing.createdAt) {
        EntriesOfInput(input.id, edges, existing.createdAt, e);
        var i :| 0 <= i < |edges| && edges[i].kind == e.kind && edges[i].target == e.target;
        assert e.source == input.id && e.target == snapshot;
      }
    }
  }

  lemma FewerShareTime(s: State, r: Removal)
    requires LineageSharesTime(s)
    ensures LineageSharesTime(Without(s, r))
  {}

  /** A revision under a new id keeps that, if the caller adds no RevisedFrom edge. */
  lemma ReviseKeepsLineage(engine: Engine, s: State, input: ReviseInput, now: nat, snapshot: Id)
    requires LineageSharesTime(s) && HasNoEdges(s, snapshot) && snapshot !in s.records && KeyedById(s)
    requires forall i :: 0 <= i < |input.edges| ==> input.edges[i].kind != RevisedFrom
    ensures LineageSharesTime(AfterRevise(engine, s, input, now, snapshot))
  {
    hide Revised, Pruning, Excess, LineageSharesTime, Without, Updated;
    if Revised(engine, s, input, now).Ok? {
      RevisedFields(engine, s, input, now);
      var revised := Revised(engine, s, input, now).value;
      UpdatedSharesTime(s, input, revised, snapshot);
      FewerShareTime(Updated(s, input, revised, snapshot), Pruning(s, Excess(engine, s, input.id)));
    } else {
      RefusedLeavesState(engine, s, input, now, snapshot);
    }
  }

  /** So does every forget. */
  lemma ForgetKeepsLineage(s: State, config: ForgetConfig, criteria: Criteria, now: nat)
    requires LineageSharesTime(s)
    ensures LineageSharesTime(AfterForget(s, config, criteria, now))
  {
    hide Candidates, IsEmpty, Deleted, Doomed, Buried, Without, BatchLimit;
    if !IsEmpty(criteria) && Candidates(s, criteria, BatchLimit(config)).Ok? {
      FewerShareTime(s, Deleted(s, Doomed(s, config, Candidates(s, criteria, BatchLimit(config)).value)));
    }
  }
}
