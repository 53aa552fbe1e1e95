/** `forget` of engine.rs: memories that meet all criteria are deleted in batches, with their
    snapshots, and a tombstone is written for each. */
module Forgetting {
  import opened Results
  import opened MachineTypes
  import opened Sequences
  import opened Memories
  import opened IdOrder
  import opened Store
  import opened Revisions

  // ---------------------------------------------------------------------------------------
  //  Criteria
  // ---------------------------------------------------------------------------------------

  /** A memory id as the caller sent it; Malformed if it does not have 16 bytes. */
  datatype IdRef = Malformed | Ref(id: Id)

  datatype Criteria = Criteria(
    ids: seq<IdRef>,
    entity: Option<string>,
    staleBefore: Option<nat>,
    accessBelow: Option<nat>,
    kind: Option<Kind>,
    decayBelow: Option<real>)

  predicate NoFilters(c: Criteria) {
    c.staleBefore == None && c.accessBelow == None && c.kind == None && c.decayBelow == None
  }

  /** is_empty */
  predicate IsEmpty(c: Criteria) {
    c.ids == [] && c.entity == None && NoFilters(c)
  }

  /** is_id_only */
  predicate IsIdOnly(c: Criteria) {
    c.ids != [] && c.entity == None && NoFilters(c)
  }

  function EntityOnly(entity: string): Criteria {
    Criteria([], Some(entity), None, None, None, None)
  }

  /** matches_forget_criteria */
  predicate Matches(m: Memory, c: Criteria) {
    && (c.ids != [] ==> Ref(m.id) in c.ids)
    && (c.entity.Some? ==> m.entity == c.entity)
    && (c.staleBefore.Some? ==> m.lastAccessedAt < c.staleBefore.value)
    && (c.accessBelow.Some? ==> m.accessCount < c.accessBelow.value)
    && (c.kind.Some? ==> m.kind == c.kind.value)
    && (c.decayBelow.Some? ==> m.decayScore < c.decayBelow.value)
  }

  // ---------------------------------------------------------------------------------------
  //  Candidates
  // ---------------------------------------------------------------------------------------

  datatype ForgetError = InvalidInput

  /** query_temporal covers timestamps below this one. */
  const END_OF_TIME: nat := U64_MAX

  const MAX_FORGET_BATCH_SIZE := 100_000

  function TimesOf(s: State, entity: string): set<nat> {
    set k | k in s.temporal && k.0 == entity && k.1 < END_OF_TIME :: k.1
  }

  function AtTimes(s: State, entity: string, times: seq<nat>): (ids: seq<Id>)
    requires forall t :: t in times ==> (entity, t) in s.temporal
    ensures |ids| == |times|
    ensures forall i :: 0 <= i < |times| ==> ids[i] == s.temporal[(entity, times[i])]
  {
    seq(|times|, i requires 0 <= i < |times| => s.temporal[(entity, times[i])])
  }

  /** query_temporal over all times: the first `limit` entries of an entity, in order of time. */
  function FirstTimes(s: State, entity: string, limit: nat): (times: seq<nat>)
    ensures forall t :: t in times ==> (entity, t) in s.temporal && t in TimesOf(s, entity)
  {
    Take(SortedIds(TimesOf(s, entity)), limit)
  }

  /** The records of ids, those without one left out. */
  function Existing(s: State, ids: seq<Id>): seq<Memory> {
    if ids == [] then []
    else
      var last := ids[|ids| - 1];
      if last in s.records then Existing(s, ids[..|ids| - 1]) + [s.records[last]] else Existing(s, ids[..|ids| - 1])
  }

  /** resolve_by_ids: stops once the limit is reached, and only then overlooks malformed ids. */
  function ByIds(s: State, refs: seq<IdRef>, limit: nat): Result<seq<Memory>, ForgetError> {
    if refs == [] then Ok([])
    else
      match ByIds(s, refs[..|refs| - 1], limit)
      case Err(error) => Err(error)
      case Ok(found) =>
        if |found| >= limit then Ok(found)
        else
          match refs[|refs| - 1]
          case Malformed => Err(ForgetError.InvalidInput)
          case Ref(id) => if id in s.records then Ok(found + [s.records[id]]) else Ok(found)
  }

  function Filtered(memories: seq<Memory>, c: Criteria): (kept: seq<Memory>)
    ensures |kept| <= |memories|
    ensures forall m :: m in kept <==> m in memories && Matches(m, c)
  {
    if memories == [] then []
    else
      var last := memories[|memories| - 1];
      var before := Filtered(memories[..|memories| - 1], c);
      assert memories == memories[..|memories| - 1] + [last];
      if Matches(last, c) then before + [last] else before
  }

  /** What is looked at before the criteria are applied: for an entity its first 2 * limit temporal
      entries, for ids all of them, otherwise the first 2 * limit records in key order. */
  function Window(s: State, c: Criteria, limit: nat): Result<seq<Memory>, ForgetError> {
    match c.entity
    case Some(entity) => Ok(Existing(s, AtTimes(s, entity, FirstTimes(s, entity, 2 * limit))))
    case None =>
      if c.ids != [] then ByIds(s, c.ids, |c.ids|)
      else Ok(Existing(s, Take(SortedIds(s.records.Keys), 2 * limit)))
  }

  /** resolve_forget_candidates */
  function Candidates(s: State, c: Criteria, limit: nat): Result<seq<Memory>, ForgetError> {
    if IsIdOnly(c) then ByIds(s, c.ids, limit)
    else
      match Window(s, c, limit)
      case Err(error) => Err(error)
      case Ok(window) => Ok(Take(Filtered(window, c), limit))
  }

  // ---------------------------------------------------------------------------------------
  //  The batch
  // ---------------------------------------------------------------------------------------

  datatype ForgetConfig = ForgetConfig(maxBatch: nat, cascade: bool)

  datatype ForgetOutput = ForgetOutput(forgotten: nat, cascaded: nat, truncated: bool, tombstones: nat)

  function BatchLimit(config: ForgetConfig): nat {
    if config.maxBatch < MAX_FORGET_BATCH_SIZE then config.maxBatch else MAX_FORGET_BATCH_SIZE
  }

  function Cascade(s: State, config: ForgetConfig, id: Id): seq<Memory> {
    if config.cascade then Existing(s, SortedIds(Snapshots(s, id))) else []
  }

  function DeleteOps(s: State, memories: seq<Memory>): seq<Op> {
    if memories == [] then []
    else
      var last := memories[|memories| - 1];
      DeleteOps(s, memories[..|memories| - 1]) + PrepareDelete(s, last.id, last.entity, last.createdAt)
  }

  function TombstoneOf(s: State, config: ForgetConfig, m: Memory, now: nat): Tombstone {
    Tombstone(m.id, m.entity, now, |Cascade(s, config, m.id)|, m.content)
  }

  function ForgetOps(s: State, config: ForgetConfig, candidates: seq<Memory>, now: nat): seq<Op> {
    if candidates == [] then []
    else
      var last := candidates[|candidates| - 1];
      ForgetOps(s, config, candidates[..|candidates| - 1], now)
      + DeleteOps(s, [last] + Cascade(s, config, last.id))
      + [PutTombstone(TombstoneOf(s, config, last, now))]
  }

  // ---------------------------------------------------------------------------------------
  //  Its effect
  // ---------------------------------------------------------------------------------------

  /** Every memory that a batch deletes: the candidates, each followed by its snapshots. */
  function Doomed(s: State, config: ForgetConfig, candidates: seq<Memory>): (doomed: seq<Memory>)
    ensures |doomed| >= |candidates|
  {
    if candidates == [] then []
    else
      var last := candidates[|candidates| - 1];
      Doomed(s, config, candidates[..|candidates| - 1]) + ([last] + Cascade(s, config, last.id))
  }

  function Deleted(s: State, memories: seq<Memory>): Removal {
    if memories == [] then NOTHING
    else
      var last := memories[|memories| - 1];
      Both(Deleted(s, memories[..|memories| - 1]), Deleting(s, last.id, last.entity, last.createdAt))
  }

  function Buried(s: State, config: ForgetConfig, candidates: seq<Memory>, now: nat): map<(nat, Id), Tombstone> {
    if candidates == [] then s.tombstones
    else
      var last := candidates[|candidates| - 1];
      Buried(s, config, candidates[..|candidates| - 1], now)[(now, last.id) := TombstoneOf(s, config, last, now)]
  }

  function Forgotten(s: State, config: ForgetConfig, candidates: seq<Memory>, now: nat): State {
    Without(s, Deleted(s, Doomed(s, config, candidates))).(tombstones := Buried(s, config, candidates, now))
  }

  /** The state after a forget; an error leaves it alone. */
  function AfterForget(s: State, config: ForgetConfig, c: Criteria, now: nat): State {
    if IsEmpty(c) then s
    else
      match Candidates(s, c, BatchLimit(config))
      case Err(_) => s
      case Ok(candidates) => Forgotten(s, config, candidates, now)
  }

  function Output(s: State, config: ForgetConfig, c: Criteria): Result<ForgetOutput, ForgetError> {
    if IsEmpty(c) then Err(ForgetError.InvalidInput)
    else
      match Candidates(s, c, BatchLimit(config))
      case Err(error) => Err(error)
      case Ok(candidates) =>
        Ok(ForgetOutput(
          |candidates|, |Doomed(s, config, candidates)| - |candidates|,
          candidates != [] && |candidates| >= BatchLimit(config), |candidates|))
  }

  lemma {:induction false} ApplyDeleteOps(read: State, s: State, memories: seq<Memory>)
    ensures Apply(s, DeleteOps(read, memories)) == Without(s, Deleted(read, memories))
  {
    hide ApplyOne, Without, PrepareDelete;
    if memories == [] {
      WithoutNothing(s);
    } else {
      var init, last := memories[..|memories| - 1], memories[|memories| - 1];
      ApplyDeleteOps(read, s, init);
      ApplyAppend(s, DeleteOps(read, init), PrepareDelete(read, last.id, last.entity, last.createdAt));
      ApplyPrepareDelete(read, Without(s, Deleted(read, init)), last.id, last.entity, last.createdAt);
      WithoutBoth(s, Deleted(read, init), Deleting(read, last.id, last.entity, last.createdAt));
    }
  }

  lemma {:induction false} DeletedAppend(s: State, a: seq<Memory>, b: seq<Memory>)
    ensures Deleted(s, a + b) == Both(Deleted(s, a), Deleted(s, b))
    decreases |b|
  {
    hide Deleting;
    if b == [] {
      assert a + b == a;
    } else {
      var init := b[..|b| - 1];
      assert (a + b)[..|a + b| - 1] == a + init;
      DeletedAppend(s, a, init);
    }
  }

  lemma DeleteThenBury(s: State, a: Removal, b: Removal, tombstones: map<(nat, Id), Tombstone>, tombstone: Tombstone)
    ensures ApplyOne(Without(Without(s, a).(tombstones := tombstones), b), PutTombstone(tombstone))
         == Without(s, Both(a, b)).(tombstones := tombstones[(tombstone.at, tombstone.id) := tombstone])
  {
    WithoutBoth(s, a, b);
  }

  /** Applying the batch in order gives the effect. */
  lemma {:induction false} ApplyForgetOps(s: State, config: ForgetConfig, candidates: seq<Memory>, now: nat)
    ensures Apply(s, ForgetOps(s, config, candidates, now)) == Forgotten(s, config, candidates, now)
  {
    hide Apply, ApplyOne, Without, DeleteOps, Deleted, Cascade;
    if candidates == [] {
      assert Deleted(s, []) == NOTHING by { DeletedNone(s); }
      assert Apply(s, []) == s by { ApplyNone(s); }
      WithoutNothing(s);
    } else {
      var init, last := candidates[..|candidates| - 1], candidates[|candidates| - 1];
      var before := Forgotten(s, config, init, now);
      var part := [last] + Cascade(s, config, last.id);
      var tombstone := TombstoneOf(s, config, last, now);
      ApplyForgetOps(s, config, init, now);
      ApplyAppend(s, ForgetOps(s, config, init, now), DeleteOps(s, part));
      ApplyDeleteOps(s, before, part);
      ApplyAppend(s, ForgetOps(s, config, init, now) + DeleteOps(s, part), [PutTombstone(tombstone)]);
      ApplySingle(Without(before, Deleted(s, part)), PutTombstone(tombstone));
      DeletedAppend(s, Doomed(s, config, init), part);
      DeleteThenBury(s, Deleted(s, Doomed(s, config, init)), Deleted(s, part), Buried(s, config, init, now), tombstone);
    }
  }

  lemma DeletedNone(s: State)
    ensures Deleted(s, []) == NOTHING
  {}

  lemma ApplyNone(s: State)
    ensures Apply(s, []) == s
  {}

  // ---------------------------------------------------------------------------------------
  //  The operation
  // ---------------------------------------------------------------------------------------

  method ResolveByIds(db: Database, refs: seq<IdRef>, limit: nat) returns (result: Result<seq<Memory>, ForgetError>)
    ensures result == ByIds(db.state, refs, limit)
  {
    var found: seq<Memory> := [];
    var i := 0;
    while i < |refs| && |found| < limit
      invariant 0 <= i <= |refs|
      invariant ByIds(db.state, refs[..i], limit) == Ok(found)
    {
      assert refs[..i + 1][..i] == refs[..i];
      match refs[i]
      case Malformed =>
        Settled(db.state, refs, i + 1, limit);
        return Err(ForgetError.InvalidInput);
      case Ref(id) =>
        if id in db.state.records {
          found := found + [db.state.records[id]];
        }
        i := i + 1;
    }
    if i == |refs| {
      assert refs[..i] == refs;
    } else {
      Settled(db.state, refs, i, limit);
    }
    result := Ok(found);
  }

  /** Once there is an error or the limit is reached, the remaining ids change nothing. */
  lemma {:induction false} Settled(s: State, refs: seq<IdRef>, n: nat, limit: nat)
    requires n <= |refs|
    requires var r := ByIds(s, refs[..n], limit); r.Err? || |r.value| >= limit
    ensures ByIds(s, refs, limit) == ByIds(s, refs[..n], limit)
    decreases |refs|
  {
    if n == |refs| {
      assert refs[..n] == refs;
    } else {
      var init := refs[..|refs| - 1];
      assert init[..n] == refs[..n];
      Settled(s, init, n, limit);
    }
  }

  method ReadExisting(db: Database, ids: seq<Id>) returns (memories: seq<Memory>)
    ensures memories == Existing(db.state, ids)
  {
    memories := [];
    for i := 0 to |ids|
      invariant memories == Existing(db.state, ids[..i])
    {
      assert ids[..i + 1][..i] == ids[..i];
      if ids[i] in db.state.records {
        memories := memories + [db.state.records[ids[i]]];
      }
    }
    assert ids[..|ids|] == ids;
  }

  method ResolveCandidates(db: Database, c: Criteria, limit: nat) returns (result: Result<seq<Memory>, ForgetError>)
    ensures result == Candidates(db.state, c, limit)
  {
    hide Existing, ByIds, FirstTimes, SortedIds, Filtered;
    if IsIdOnly(c) {
      result := ResolveByIds(db, c.ids, limit);
      return;
    }
    var window: seq<Memory>;
    if c.entity.Some? {
      window := ReadExisting(db, AtTimes(db.state, c.entity.value, FirstTimes(db.state, c.entity.value, 2 * limit)));
    } else if c.ids != [] {
      var found := ResolveByIds(db, c.ids, |c.ids|);
      if found.Err? {
        return found;
      }
      window := found.value;
    } else {
      window := ReadExisting(db, Take(SortedIds(db.state.records.Keys), 2 * limit));
    }
    result := Ok(Take(Filtered(window, c), limit));
  }

  /** forget */
  method Forget(
      db: Database, config: ForgetConfig, c: Criteria, now: nat) returns (result: Result<ForgetOutput, ForgetError>)
    modifies db
    ensures result == Output(old(db.state), config, c)
    ensures db.state == AfterForget(old(db.state), config, c, now)
  {
    hide Candidates, Cascade, Apply, Forgotten, DeleteOps;
    var s := db.state;
    if IsEmpty(c) {
      return Err(ForgetError.InvalidInput);
    }
    var limit := BatchLimit(config);
    var resolved := ResolveCandidates(db, c, limit);
    if resolved.Err? {
      return Err(resolved.error);
    }
    var candidates := resolved.value;
    var truncated := |candidates| >= limit;
    ApplyForgetOps(s, config, candidates, now);
    if candidates == [] {
      assert Apply(s, []) == s by { ApplyNone(s); }
      return Ok(ForgetOutput(0, 0, false, 0));
    }
    var forgotten, cascaded, tombstones := 0, 0, 0;
    var batch: seq<Op> := [];
    for i := 0 to |candidates|
      invariant db.state == s
      invariant batch == ForgetOps(s, config, candidates[..i], now)
      invariant forgotten == tombstones == i
      invariant cascaded == |Doomed(s, config, candidates[..i])| - i
    {
      var memory := candidates[i];
      assert candidates[..i + 1][..i] == candidates[..i];
      var snapshots := Cascade(s, config, memory.id);
      batch := batch + DeleteOps(s, [memory] + snapshots);
      cascaded := cascaded + |snapshots|;
      batch := batch + [PutTombstone(TombstoneOf(s, config, memory, now))];
      tombstones := tombstones + 1;
      forgotten := forgotten + 1;
    }
    assert candidates[..|candidates|] == candidates;
    db.WriteBatch(batch);
    result := Ok(ForgetOutput(forgotten, cascaded, truncated, tombstones));
  }
}
