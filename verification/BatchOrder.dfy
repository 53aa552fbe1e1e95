/** How the two storage backends apply one column family's share of a batch: RocksDB in the order
    of the batch, the in-memory backend of memory_backend.rs all puts first and then all deletes. */
module BatchOrder {
  import opened Results
  import opened Memories
  import opened Store
  import opened Revisions

  datatype KeyOp<K, V> = Put(key: K, value: V) | Delete(key: K)

  function InOrder<K, V>(m: map<K, V>, ops: seq<KeyOp<K, V>>): map<K, V> {
    if ops == [] then m
    else
      var before := InOrder(m, ops[..|ops| - 1]);
      match ops[|ops| - 1]
      case Put(key, value) => before[key := value]
      case Delete(key) => before - {key}
  }

  function PutsOf<K, V>(ops: seq<KeyOp<K, V>>): seq<(K, V)> {
    if ops == [] then []
    else
      match ops[|ops| - 1]
      case Put(key, value) => PutsOf(ops[..|ops| - 1]) + [(key, value)]
      case Delete(_) => PutsOf(ops[..|ops| - 1])
  }

  function DeletesOf<K, V>(ops: seq<KeyOp<K, V>>): seq<K> {
    if ops == [] then []
    else
      match ops[|ops| - 1]
      case Put(_, _) => DeletesOf(ops[..|ops| - 1])
      case Delete(key) => DeletesOf(ops[..|ops| - 1]) + [key]
  }

  function WithPuts<K, V>(m: map<K, V>, puts: seq<(K, V)>): map<K, V> {
    if puts == [] then m
    else WithPuts(m, puts[..|puts| - 1])[puts[|puts| - 1].0 := puts[|puts| - 1].1]
  }

  function Grouped<K, V>(m: map<K, V>, ops: seq<KeyOp<K, V>>): map<K, V> {
    WithDeletes(WithPuts(m, PutsOf(ops)), DeletesOf(ops))
  }

  function WithDeletes<K, V>(m: map<K, V>, deletes: seq<K>): map<K, V> {
    if deletes == [] then m else WithDeletes(m, deletes[..|deletes| - 1]) - {deletes[|deletes| - 1]}
  }

  /** One column family of the in-memory backend. */
  class MemoryFamily<K(==), V> {
    var entries: map<K, V>

    constructor ()
      ensures entries == map[]
    {
      entries := map[];
    }

    /** write_batch */
    method WriteBatch(ops: seq<KeyOp<K, V>>)
      modifies this
      ensures entries == Grouped(old(entries), ops)
    {
      var puts: seq<(K, V)>, deletes: seq<K> := [], [];
      for i := 0 to |ops|
        invariant puts == PutsOf(ops[..i]) && deletes == DeletesOf(ops[..i])
        invariant entries == old(entries)
      {
        assert ops[..i + 1][..i] == ops[..i];
        match ops[i]
        case Put(key, value) => puts := puts + [(key, value)];
        case Delete(key) => deletes := deletes + [key];
      }
      assert ops[..|ops|] == ops;
      for i := 0 to |puts|
        invariant entries == WithPuts(old(entries), puts[..i])
      {
        assert puts[..i + 1][..i] == puts[..i];
        entries := entries[puts[i].0 := puts[i].1];
      }
      assert puts[..|puts|] == puts;
      ghost var all := entries;
      for i := 0 to |deletes|
        invariant entries == WithDeletes(all, deletes[..i])
      {
        assert deletes[..i + 1][..i] == deletes[..i];
        entries := entries - {deletes[i]};
      }
      assert deletes[..|deletes|] == deletes;
    }
  }

  // ---------------------------------------------------------------------------------------
  //  When the backends agree
  // ---------------------------------------------------------------------------------------

  /** The last operation of a batch on a key. */
  function LastOn<K(==), V>(ops: seq<KeyOp<K, V>>, key: K): Option<KeyOp<K, V>> {
    if ops == [] then None
    else if ops[|ops| - 1].key == key then Some(ops[|ops| - 1])
    else LastOn(ops[..|ops| - 1], key)
  }

  function Entry<K, V>(m: map<K, V>, key: K): Option<V> {
    if key in m then Some(m[key]) else None
  }

  lemma {:induction false} InOrderEntry<K, V>(m: map<K, V>, ops: seq<KeyOp<K, V>>, key: K)
    ensures Entry(InOrder(m, ops), key) == match LastOn(ops, key)
      case None => Entry(m, key)
      case Some(Put(_, value)) => Some(value)
      case Some(Delete(_)) => None
  {
    if ops != [] {
      InOrderEntry(m, ops[..|ops| - 1], key);
    }
  }

  lemma {:induction false} GroupedEntry<K, V>(m: map<K, V>, ops: seq<KeyOp<K, V>>, key: K)
    ensures LastOn(ops, key) == None ==> key !in DeletesOf(ops) && Entry(WithPuts(m, PutsOf(ops)), key) == Entry(m, key)
    ensures LastOn(ops, key).Some? && LastOn(ops, key).value.Delete? ==> key in DeletesOf(ops)
    ensures LastOn(ops, key).Some? && LastOn(ops, key).value.Put? ==>
      Entry(WithPuts(m, PutsOf(ops)), key) == Some(LastOn(ops, key).value.value)
  {
    if ops != [] {
      GroupedEntry(m, ops[..|ops| - 1], key);
      var puts := PutsOf(ops);
      if ops[|ops| - 1].Put? {
        assert puts[..|puts| - 1] == PutsOf(ops[..|ops| - 1]);
      }
    }
  }

  lemma {:induction false} WithDeletesEntry<K, V>(m: map<K, V>, deletes: seq<K>, key: K)
    ensures Entry(WithDeletes(m, deletes), key) == if key in deletes then None else Entry(m, key)
  {
    if deletes != [] {
      WithDeletesEntry(m, deletes[..|deletes| - 1], key);
      assert deletes == deletes[..|deletes| - 1] + [deletes[|deletes| - 1]];
    }
  }

  /** The in-memory backend leaves on a key what RocksDB leaves exactly unless the batch deletes the
      key and puts it back. */
  lemma BackendsAgreeIff<K, V>(m: map<K, V>, ops: seq<KeyOp<K, V>>, key: K)
    ensures Entry(Grouped(m, ops), key) == Entry(InOrder(m, ops), key)
       <==> !(LastOn(ops, key).Some? && LastOn(ops, key).value.Put? && key in DeletesOf(ops))
  {
    InOrderEntry(m, ops, key);
    GroupedEntry(m, ops, key);
    WithDeletesEntry(WithPuts(m, PutsOf(ops)), DeletesOf(ops), key);
  }

  // ---------------------------------------------------------------------------------------
  //  Revising on the in-memory backend
  // ---------------------------------------------------------------------------------------

  /** A batch's share of one column family, given what each operation has to do with it. */
  function Part<K, V>(share: Op -> Option<KeyOp<K, V>>, ops: seq<Op>): seq<KeyOp<K, V>>
    decreases |ops|
  {
    if ops == [] then []
    else
      match share(ops[0])
      case Some(own) => [own] + Part(share, ops[1..])
      case None => Part(share, ops[1..])
  }

  function TemporalShare(op: Op): Option<KeyOp<TemporalKey, Id>> {
    match op
    case PutTemporal(entity, at, id) => Some(Put((entity, at), id))
    case DeleteTemporal(entity, at) => Some(Delete((entity, at)))
    case _ => None
  }

  function VectorShare(op: Op): Option<KeyOp<Id, Embedding>> {
    match op
    case PutVector(id, vector) => Some(Put(id, vector))
    case DeleteVector(id) => Some(Delete(id))
    case _ => None
  }

  function TemporalPart(ops: seq<Op>): seq<KeyOp<TemporalKey, Id>> {
    Part(TemporalShare, ops)
  }

  function VectorPart(ops: seq<Op>): seq<KeyOp<Id, Embedding>> {
    Part(VectorShare, ops)
  }

  lemma {:induction false} PartAppend<K, V>(share: Op -> Option<KeyOp<K, V>>, a: seq<Op>, b: seq<Op>)
    ensures Part(share, a + b) == Part(share, a) + Part(share, b)
    decreases |a|
  {
    if a == [] {
      assert a + b == b;
    } else {
      assert (a + b)[0] == a[0] && (a + b)[1..] == a[1..] + b;
      PartAppend(share, a[1..], b);
    }
  }

  lemma {:induction false} NoPart<K, V>(share: Op -> Option<KeyOp<K, V>>, ops: seq<Op>)
    requires forall i :: 0 <= i < |ops| ==> share(ops[i]) == None
    ensures Part(share, ops) == []
    decreases |ops|
  {
    if ops != [] {
      NoPart(share, ops[1..]);
    }
  }

  lemma SinglePart<K, V>(share: Op -> Option<KeyOp<K, V>>, op: Op)
    ensures Part(share, [op]) == match share(op) case Some(own) => [own] case None => []
  {
    assert [op][1..] == [];
  }

  predicate OnlyEdges(ops: seq<Op>) {
    forall i :: 0 <= i < |ops| ==> ops[i].PutForward? || ops[i].PutReverse?
  }

  lemma {:induction false} EdgeOpsOnlyEdges(id: Id, edges: seq<EdgeInput>, createdAt: nat)
    ensures OnlyEdges(EdgeOps(id, edges, createdAt))
  {
    if edges != [] {
      EdgeOpsOnlyEdges(id, edges[..|edges| - 1], createdAt);
    }
  }

  lemma {:induction false} PruneOpsNoTemporal(s: State, ids: seq<Id>)
    ensures forall i :: 0 <= i < |PruneOps(s, ids)| ==> TemporalShare(PruneOps(s, ids)[i]) == None
  {
    hide Touching;
    if ids != [] {
      PruneOpsNoTemporal(s, ids[..|ids| - 1]);
    }
  }

  /** The parts of a revision's batch. */
  lemma PartOfRevision<K, V>(
      share: Op -> Option<KeyOp<K, V>>, engine: Engine, s: State, input: ReviseInput, revised: Memory, snapshot: Id)
    requires input.id in s.records && revised.embedding.Some?
    requires forall op: Op :: op.PutRecord? || op.PutForward? || op.PutReverse? ==> share(op) == None
    ensures var existing := s.records[input.id];
      Part(share, ReviseOps(engine, s, input, revised, snapshot))
      == Part(share, TemporalOps(
           input.id, existing.entity, revised.entity, existing.createdAt, revised.embedding.value))
         + Part(share, PruneOps(s, Excess(engine, s, input.id)))
  {
    hide Part, TemporalOps, EdgeOps, PruneOps, Excess, RevisionEdges;
    var existing := s.records[input.id];
    var puts := [PutRecord(existing.(id := snapshot)), PutRecord(revised)];
    var moves := TemporalOps(input.id, existing.entity, revised.entity, existing.createdAt, revised.embedding.value);
    var edges := EdgeOps(input.id, RevisionEdges(input, snapshot), existing.createdAt);
    var prunes := PruneOps(s, Excess(engine, s, input.id));
    EdgeOpsOnlyEdges(input.id, RevisionEdges(input, snapshot), existing.createdAt);
    NoPart(share, puts);
    NoPart(share, edges);
    PartAppend(share, puts, moves);
    PartAppend(share, puts + moves, edges);
    PartAppend(share, puts + moves + edges, prunes);
  }

  lemma RevisedTemporalPart(engine: Engine, s: State, input: ReviseInput, revised: Memory, snapshot: Id)
    requires input.id in s.records && revised.embedding.Some?
    ensures TemporalPart(ReviseOps(engine, s, input, revised, snapshot))
         == TemporalPart(TemporalOps(
              input.id, s.records[input.id].entity, revised.entity, s.records[input.id].createdAt,
              revised.embedding.value))
  {
    hide ReviseOps, Part, PruneOps, Excess, TemporalOps;
    PartOfRevision(TemporalShare, engine, s, input, revised, snapshot);
    PruneOpsNoTemporal(s, Excess(engine, s, input.id));
    NoPart(TemporalShare, PruneOps(s, Excess(engine, s, input.id)));
  }

  /** On the in-memory backend, revising a memory without changing its entity takes it off the
      temporal index: the batch deletes its entry and puts it back under the same key. */
  lemma RevisionLosesEntryInMemory(
      engine: Engine, s: State, input: ReviseInput, revised: Memory, snapshot: Id, entity: string)
    requires input.id in s.records && revised.embedding.Some?
    requires s.records[input.id].entity == Some(entity)
    ensures var at := s.records[input.id].createdAt;
      var part := TemporalPart(ReviseOps(engine, s, input, revised, snapshot));
      && (revised.entity == Some(entity) ==>
            Entry(InOrder(s.temporal, part), (entity, at)) == Some(input.id)
            && Entry(Grouped(s.temporal, part), (entity, at)) == None)
      && (revised.entity != Some(entity) ==> Grouped(s.temporal, part) == InOrder(s.temporal, part))
  {
    hide ReviseOps, TemporalPart;
    var at, was := s.records[input.id].createdAt, s.temporal;
    var key := (entity, at);
    RevisedTemporalPart(engine, s, input, revised, snapshot);
    PartOfMove(input.id, entity, revised.entity, at, revised.embedding.value);
    match revised.entity
    case None =>
      DeleteAlone<TemporalKey, Id>(was, key);
    case Some(e) =>
      DeleteThenPut(was, key, (e, at), input.id);
  }

  lemma EntriesDecide<K, V>(a: map<K, V>, b: map<K, V>)
    requires forall key :: Entry(a, key) == Entry(b, key)
    ensures a == b
  {
    forall key ensures key in a <==> key in b {
      assert Entry(a, key) == Entry(b, key);
    }
    forall key | key in a ensures a[key] == b[key] {
      assert Entry(a, key) == Entry(b, key);
    }
  }

  /** Without a key that is deleted and put back the backends agree on everything. */
  lemma AgreeUnlessPutBack<K, V>(m: map<K, V>, ops: seq<KeyOp<K, V>>)
    requires forall key :: LastOn(ops, key).Some? && LastOn(ops, key).value.Put? ==> key !in DeletesOf(ops)
    ensures Grouped(m, ops) == InOrder(m, ops)
  {
    forall key ensures Entry(Grouped(m, ops), key) == Entry(InOrder(m, ops), key) {
      BackendsAgreeIff(m, ops, key);
    }
    EntriesDecide(Grouped(m, ops), InOrder(m, ops));
  }

  lemma OneMoreOp<K, V>(ops: seq<KeyOp<K, V>>, op: KeyOp<K, V>, key: K)
    ensures LastOn(ops + [op], key) == if op.key == key then Some(op) else LastOn(ops, key)
    ensures DeletesOf(ops + [op]) == if op.Delete? then DeletesOf(ops) + [op.key] else DeletesOf(ops)
  {
    assert (ops + [op])[..|ops|] == ops;
  }

  lemma DeleteAloneOps<K, V>(key: K, k: K)
    ensures LastOn<K, V>([Delete(key)], k) == if k == key then Some(Delete(key)) else None
    ensures DeletesOf<K, V>([Delete(key)]) == [key]
  {
    hide LastOn, DeletesOf;
    var ops: seq<KeyOp<K, V>> := [Delete(key)];
    assert [] + ops == ops;
    OneMoreOp<K, V>([], Delete(key), k);
    NoneLast<K, V>(k);
  }

  lemma DeleteAlone<K, V>(m: map<K, V>, key: K)
    ensures Grouped(m, [Delete(key)]) == InOrder(m, [Delete(key)])
  {
    hide Grouped, InOrder, LastOn, DeletesOf;
    forall k { DeleteAloneOps<K, V>(key, k); }
    AgreeUnlessPutBack(m, [Delete(key)]);
  }

  lemma NoneLast<K, V>(key: K)
    ensures LastOn<K, V>([], key) == None && DeletesOf<K, V>([]) == []
  {}

  lemma DeleteThenPutOps<K, V>(key: K, other: K, value: V, k: K)
    ensures var ops := [Delete(key)] + [Put(other, value)];
      && DeletesOf(ops) == [key]
      && LastOn(ops, k) == if k == other then Some(Put(other, value)) else if k == key then Some(Delete(key)) else None
  {
    hide LastOn, DeletesOf;
    DeleteAloneOps<K, V>(key, k);
    OneMoreOp([Delete(key)], Put(other, value), k);
  }

  lemma DeleteThenPut<K, V>(m: map<K, V>, key: K, other: K, value: V)
    ensures var ops := [Delete(key)] + [Put(other, value)];
      if key == other then Entry(Grouped(m, ops), key) == None && Entry(InOrder(m, ops), key) == Some(value)
      else Grouped(m, ops) == InOrder(m, ops)
  {
    hide Grouped, InOrder, LastOn, DeletesOf;
    var ops := [Delete(key)] + [Put(other, value)];
    forall k { DeleteThenPutOps(key, other, value, k); }
    if key == other {
      InOrderEntry(m, ops, key);
      DeletedInMemory(m, ops, key);
    } else {
      AgreeUnlessPutBack(m, ops);
    }
  }

  /** What a batch deletes is gone from the in-memory backend, whatever else the batch does. */
  lemma DeletedInMemory<K, V>(m: map<K, V>, ops: seq<KeyOp<K, V>>, key: K)
    requires key in DeletesOf(ops)
    ensures Entry(Grouped(m, ops), key) == None
  {
    WithDeletesEntry(WithPuts(m, PutsOf(ops)), DeletesOf(ops), key);
  }

  lemma PartOfMove(id: Id, before: string, after: Option<string>, at: nat, vector: Embedding)
    ensures TemporalPart(TemporalOps(id, Some(before), after, at, vector))
         == match after case Some(e) => [Delete((before, at))] + [Put((e, at), id)] case None => [Delete((before, at))]
  {
    hide Part;
    var third := match after case Some(e) => [PutTemporal(e, at, id)] case None => [];
    PartAppend(TemporalShare, [DeleteTemporal(before, at)], [DeleteVector(id)]);
    PartAppend(TemporalShare, [DeleteTemporal(before, at)] + [DeleteVector(id)], third);
    PartAppend(TemporalShare, [DeleteTemporal(before, at)] + [DeleteVector(id)] + third, [PutVector(id, vector)]);
    SinglePart(TemporalShare, DeleteVector(id));
    SinglePart(TemporalShare, PutVector(id, vector));
    SinglePart(TemporalShare, DeleteTemporal(before, at));
    if after.Some? {
      SinglePart(TemporalShare, third[0]);
    } else {
      NoPart(TemporalShare, []);
    }
  }

  // ---------------------------------------------------------------------------------------
  //  The vector of a revised memory
  // ---------------------------------------------------------------------------------------

  function VectorDeletes(ids: seq<Id>): (ops: seq<KeyOp<Id, Embedding>>)
    ensures |ops| == |ids|
    ensures forall i :: 0 <= i < |ops| ==> ops[i] == Delete(ids[i])
  {
    seq(|ids|, i requires 0 <= i < |ids| => Delete(ids[i]))
  }

  lemma {:induction false} PrunedVectors(s: State, ids: seq<Id>)
    ensures VectorPart(PruneOps(s, ids)) == VectorDeletes(ids)
  {
    hide Part, Touching;
    if ids == [] {
      NoPart(VectorShare, []);
    } else {
      var init, last := ids[..|ids| - 1], ids[|ids| - 1];
      PrunedVectors(s, init);
      PartAppend(VectorShare, PruneOps(s, init), PrepareDelete(s, last, None, 0));
      DeletePart(s, last);
    }
  }

  lemma DeletePart(s: State, id: Id)
    ensures VectorPart(PrepareDelete(s, id, None, 0)) == [Delete(id)]
  {
    hide Part, Touching;
    var edges := DeleteEdges(Touching(s, id));
    PartAppend(VectorShare, [DeleteRecord(id)], [DeleteVector(id)]);
    PartAppend(VectorShare, [DeleteRecord(id)] + [DeleteVector(id)], [edges]);
    SinglePart(VectorShare, DeleteRecord(id));
    SinglePart(VectorShare, DeleteVector(id));
    SinglePart(VectorShare, edges);
    assert PrepareDelete(s, id, None, 0) == [DeleteRecord(id)] + [DeleteVector(id)] + [edges];
  }

  lemma VectorPartOfMove(id: Id, before: Option<string>, after: Option<string>, at: nat, vector: Embedding)
    ensures VectorPart(TemporalOps(id, before, after, at, vector)) == [Delete(id)] + [Put(id, vector)]
  {
    hide Part;
    var first := match before case Some(e) => [DeleteTemporal(e, at)] case None => [];
    var third := match after case Some(e) => [PutTemporal(e, at, id)] case None => [];
    PartAppend(VectorShare, first, [DeleteVector(id)]);
    PartAppend(VectorShare, first + [DeleteVector(id)], third);
    PartAppend(VectorShare, first + [DeleteVector(id)] + third, [PutVector(id, vector)]);
    NoPart(VectorShare, first);
    NoPart(VectorShare, third);
    SinglePart(VectorShare, DeleteVector(id));
    SinglePart(VectorShare, PutVector(id, vector));
  }

  /** Deletes at the end decide about their own keys alone. */
  lemma {:induction false} LastOnDeletes(first: seq<KeyOp<Id, Embedding>>, ids: seq<Id>, id: Id)
    ensures LastOn(first + VectorDeletes(ids), id) == if id in ids then Some(Delete(id)) else LastOn(first, id)
    ensures id in DeletesOf(first) ==> id in DeletesOf(first + VectorDeletes(ids))
  {
    if ids == [] {
      assert first + VectorDeletes(ids) == first;
    } else {
      hide LastOn, DeletesOf;
      var init, last := ids[..|ids| - 1], ids[|ids| - 1];
      LastOnDeletes(first, init, id);
      OneMoreOp(first + VectorDeletes(init), Delete(last), id);
      assert first + VectorDeletes(ids) == first + VectorDeletes(init) + [Delete(last)];
      assert id in ids <==> id in init || id == last by { assert ids == init + [last]; }
    }
  }

  /** The batch of every revision deletes the vector of the memory and puts the new one under the same
      id, whatever becomes of the entity: the in-memory backend is left without either, RocksDB with
      the new one unless the revision prunes the memory itself. */
  lemma RevisionLosesVectorInMemory(
      engine: Engine, s: State, input: ReviseInput, revised: Memory, snapshot: Id)
    requires input.id in s.records && revised.embedding.Some?
    ensures var part := VectorPart(ReviseOps(engine, s, input, revised, snapshot));
      && Entry(Grouped(s.vectors, part), input.id) == None
      && Entry(InOrder(s.vectors, part), input.id)
         == if input.id in Excess(engine, s, input.id) then None else Some(revised.embedding.value)
  {
    hide ReviseOps, Part, PruneOps, Excess, TemporalOps, InOrder, LastOn, DeletesOf, Grouped;
    var existing, vector, id := s.records[input.id], revised.embedding.value, input.id;
    var ids := Excess(engine, s, id);
    var part := VectorPart(ReviseOps(engine, s, input, revised, snapshot));
    PartOfRevision(VectorShare, engine, s, input, revised, snapshot);
    VectorPartOfMove(id, existing.entity, revised.entity, existing.createdAt, vector);
    PrunedVectors(s, ids);
    DeleteThenPutOps(id, id, vector, id);
    LastOnDeletes([Delete(id)] + [Put(id, vector)], ids, id);
    InOrderEntry(s.vectors, part, id);
    DeletedInMemory(s.vectors, part, id);
  }
}
