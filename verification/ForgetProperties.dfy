/** What a forget removes and keeps, and when it is complete. */
module ForgetProperties {
  import opened Results
  import opened Sequences
  import opened Memories
  import opened IdOrder
  import opened Store
  import opened Revisions
  import opened Forgetting

  predicate KeyedById(s: State) {
    forall x :: x in s.records ==> s.records[x].id == x
  }

  /** Every temporal entry leads to a record of its entity that was created at its time. */
  predicate Indexed(s: State) {
    && KeyedById(s)
    && forall k :: k in s.temporal ==>
         && k.1 < END_OF_TIME && s.temporal[k] in s.records
         && s.records[s.temporal[k]].entity == Some(k.0) && s.records[s.temporal[k]].createdAt == k.1
  }

  // ---------------------------------------------------------------------------------------
  //  Candidates
  // ---------------------------------------------------------------------------------------

  predicate IsRecord(s: State, m: Memory) {
    m.id in s.records && s.records[m.id] == m
  }

  lemma {:induction false} ExistingIs(s: State, ids: seq<Id>)
    requires KeyedById(s)
    ensures forall m :: m in Existing(s, ids) <==> IsRecord(s, m) && m.id in ids
  {
    if ids != [] {
      ExistingIs(s, ids[..|ids| - 1]);
      assert ids == ids[..|ids| - 1] + [ids[|ids| - 1]];
    }
  }

  predicate Named(s: State, refs: seq<IdRef>, m: Memory) {
    IsRecord(s, m) && Ref(m.id) in refs
  }

  lemma OneMoreRef(s: State, refs: seq<IdRef>, m: Memory)
    requires refs != []
    ensures Named(s, refs, m)
       <==> Named(s, refs[..|refs| - 1], m) || (IsRecord(s, m) && refs[|refs| - 1] == Ref(m.id))
  {
    assert refs == refs[..|refs| - 1] + [refs[|refs| - 1]];
  }

  lemma {:induction false} ByIdsIs(s: State, refs: seq<IdRef>, limit: nat)
    requires KeyedById(s) && ByIds(s, refs, limit).Ok?
    ensures var found := ByIds(s, refs, limit).value;
      && |found| <= limit && |found| <= |refs|
      && (forall m :: m in found ==> Named(s, refs, m))
      && (|found| < limit || |refs| <= limit ==> forall m :: Named(s, refs, m) ==> m in found)
  {
    hide Named;
    if refs == [] {
      forall m ensures !Named(s, refs, m) { NoneNamed(s, m); }
    } else {
      ByIdsIs(s, refs[..|refs| - 1], limit);
      forall m { OneMoreRef(s, refs, m); }
    }
  }

  lemma NoneNamed(s: State, m: Memory)
    ensures !Named(s, [], m)
  {}

  lemma WindowIs(s: State, c: Criteria, limit: nat)
    requires KeyedById(s) && Window(s, c, limit).Ok?
    ensures forall m :: m in Window(s, c, limit).value ==> IsRecord(s, m)
  {
    hide Existing, ByIds, FirstTimes, SortedIds;
    match c.entity
    case Some(entity) => ExistingIs(s, AtTimes(s, entity, FirstTimes(s, entity, 2 * limit)));
    case None =>
      if c.ids != [] {
        ByIdsIs(s, c.ids, |c.ids|);
      } else {
        ExistingIs(s, Take(SortedIds(s.records.Keys), 2 * limit));
      }
  }

  /** Only memories that meet all criteria are candidates, and no more of them than the batch
      takes. */
  lemma CandidatesMatch(s: State, c: Criteria, limit: nat)
    requires KeyedById(s) && Candidates(s, c, limit).Ok?
    ensures var candidates := Candidates(s, c, limit).value;
      |candidates| <= limit && forall m :: m in candidates ==> IsRecord(s, m) && Matches(m, c)
  {
    hide ByIds, Window, Filtered;
    if IsIdOnly(c) {
      ByIdsIs(s, c.ids, limit);
    } else {
      WindowIs(s, c, limit);
    }
  }

  /** What a forget that was not cut off takes: for ids alone everything they name, otherwise what
      matches within the window. */
  lemma UntruncatedTakesWindow(s: State, c: Criteria, limit: nat)
    requires KeyedById(s) && Candidates(s, c, limit).Ok? && |Candidates(s, c, limit).value| < limit
    ensures forall m :: m in Candidates(s, c, limit).value <==>
      if IsIdOnly(c) then Named(s, c.ids, m) else m in Window(s, c, limit).value && Matches(m, c)
  {
    hide ByIds, Window, Filtered;
    if IsIdOnly(c) {
      ByIdsIs(s, c.ids, limit);
    } else {
    }
  }

  /** The scan before the filtering sees everything there is to see. */
  predicate SeesAll(s: State, c: Criteria, limit: nat) {
    match c.entity
    case Some(entity) => |TimesOf(s, entity)| <= 2 * limit
    case None => c.ids != [] || |s.records.Keys| <= 2 * limit
  }

  /** A memory that the criteria could reach: with an entity given, only through the index. */
  predicate Reachable(s: State, c: Criteria, m: Memory) {
    && IsRecord(s, m)
    && (c.entity.Some? ==> exists t :: t in TimesOf(s, c.entity.value) && s.temporal[(c.entity.value, t)] == m.id)
  }

  /** `truncated == false` means that nothing is left that matches, provided that the scan before
      the filtering sees everything. */
  lemma UntruncatedIsComplete(s: State, c: Criteria, limit: nat)
    requires KeyedById(s) && Candidates(s, c, limit).Ok? && |Candidates(s, c, limit).value| < limit
    requires SeesAll(s, c, limit)
    ensures forall m :: Reachable(s, c, m) && Matches(m, c) ==> m in Candidates(s, c, limit).value
  {
    hide ByIds, Existing, SortedIds, TimesOf, AtTimes;
    UntruncatedTakesWindow(s, c, limit);
    if !IsIdOnly(c) {
      match c.entity
      case Some(entity) =>
        var times := FirstTimes(s, entity, 2 * limit);
        assert times == SortedIds(TimesOf(s, entity));
        var ids := AtTimes(s, entity, times);
        ExistingIs(s, ids);
        forall m | Reachable(s, c, m) ensures m.id in ids {
          var t :| t in TimesOf(s, entity) && s.temporal[(entity, t)] == m.id;
          assert t in times;
          var i :| 0 <= i < |times| && times[i] == t;
          assert ids[i] == m.id;
        }
      case None =>
        if c.ids != [] {
          ByIdsIs(s, c.ids, |c.ids|);
        } else {
          ExistingIs(s, Take(SortedIds(s.records.Keys), 2 * limit));
        }
    }
  }

  /** Nothing is left that matches exactly if the criteria are ids alone or everything that matches
      lies in the window. */
  lemma UntruncatedIsCompleteIff(s: State, c: Criteria, limit: nat)
    requires KeyedById(s) && Candidates(s, c, limit).Ok? && |Candidates(s, c, limit).value| < limit
    ensures IsIdOnly(c) || Window(s, c, limit).Ok?
    ensures (forall m :: Reachable(s, c, m) && Matches(m, c) ==> m in Candidates(s, c, limit).value)
       <==> IsIdOnly(c) || forall m :: Reachable(s, c, m) && Matches(m, c) ==> m in Window(s, c, limit).value
  {
    hide ByIds, Window, Filtered;
    UntruncatedTakesWindow(s, c, limit);
  }

  /** If a memory meets the criteria but none of those looked at does, nothing is forgotten and
      nothing is reported as left. */
  lemma UntruncatedMayMiss(s: State, config: ForgetConfig, c: Criteria, now: nat)
    requires KeyedById(s) && !IsEmpty(c) && !IsIdOnly(c) && BatchLimit(config) >= 1
    requires Window(s, c, BatchLimit(config)).Ok?
    requires exists m :: Reachable(s, c, m) && Matches(m, c)
    requires forall m :: m in Window(s, c, BatchLimit(config)).value ==> !Matches(m, c)
    ensures Output(s, config, c) == Ok(ForgetOutput(0, 0, false, 0))
    ensures AfterForget(s, config, c, now) == s
  {
    hide Window, Filtered;
    NoneKept(Window(s, c, BatchLimit(config)).value, c);
    ApplyForgetOps(s, config, [], now);
    ApplyNone(s);
  }

  function Plain(id: Id, kind: Kind): Memory {
    Memory(id, "", 0.0, map[], None, None, 0, 0, 0, 0, 0.0, kind, None, 0)
  }

  /** Such a store: with a batch of one, only two of its three records are looked at, and the third
      is the one asked for. */
  lemma MatchBeyondWindow(now: nat)
    ensures var records := map[1 := Plain(1, Episode), 2 := Plain(2, Episode), 3 := Plain(3, Insight)];
      var s := State(records, map[], map[], map[], map[], map[], map[]);
      var config, c := ForgetConfig(1, false), Criteria([], None, None, None, Some(Insight), None);
      && Matches(s.records[3], c) && Output(s, config, c) == Ok(ForgetOutput(0, 0, false, 0))
      && AfterForget(s, config, c, now) == s
  {
    hide Filtered, Window, Matches, IsIdOnly, Reachable, Output, AfterForget;
    var records := map[1 := Plain(1, Episode), 2 := Plain(2, Episode), 3 := Plain(3, Insight)];
    var s := State(records, map[], map[], map[], map[], map[], map[]);
    var config, c := ForgetConfig(1, false), Criteria([], None, None, None, Some(Insight), None);
    KindDecides(s, c);
    FirstTwo(s, c);
    UntruncatedMayMiss(s, config, c, now);
  }

  lemma KindDecides(s: State, c: Criteria)
    requires c == Criteria([], None, None, None, Some(Insight), None)
    ensures !IsIdOnly(c) && forall m :: Matches(m, c) <==> m.kind == Insight
    ensures forall m :: Reachable(s, c, m) <==> IsRecord(s, m)
  {}

  lemma WindowOfScan(s: State, c: Criteria, limit: nat)
    requires c.entity == None && c.ids == []
    ensures Window(s, c, limit) == Ok(Existing(s, Take(SortedIds(s.records.Keys), 2 * limit)))
  {}

  lemma FirstTwo(s: State, c: Criteria)
    requires KeyedById(s) && s.records.Keys == {1, 2, 3} && c.entity == None && c.ids == []
    requires s.records[1].kind == Episode && s.records[2].kind == Episode
    ensures Window(s, c, 1).Ok? && forall m :: m in Window(s, c, 1).value ==> m.kind == Episode
  {
    hide Window, Existing, SortedIds, Take, KeyedById;
    WindowOfScan(s, c, 1);
    FirstThree();
    ExistingIs(s, [1, 2]);
  }

  lemma FirstThree()
    ensures Take(SortedIds({1, 2, 3}), 2) == [1, 2]
  {
    hide SortedIds;
    IncreasingUnique(SortedIds({1, 2, 3}), [1, 2, 3]);
  }

  lemma {:induction false} NoneKept(memories: seq<Memory>, c: Criteria)
    requires forall m :: m in memories ==> !Matches(m, c)
    ensures Filtered(memories, c) == []
  {
    if memories != [] {
      NoneKept(memories[..|memories| - 1], c);
    }
  }

  // ---------------------------------------------------------------------------------------
  //  What is removed
  // ---------------------------------------------------------------------------------------

  function IdsOf(memories: seq<Memory>): set<Id> {
    set m | m in memories :: m.id
  }

  function KeysOf(memories: seq<Memory>): set<TemporalKey> {
    set m | m in memories && m.entity.Some? :: (m.entity.value, m.createdAt)
  }

  function EdgesAt(s: State, ids: set<Id>): set<Edge> {
    set e | e in s.forward && (e.source in ids || e.target in ids)
  }

  lemma OneMoreDeleted(s: State, memories: seq<Memory>)
    requires memories != []
    ensures var init, last := memories[..|memories| - 1], memories[|memories| - 1];
      && IdsOf(memories) == IdsOf(init) + {last.id}
      && KeysOf(memories) == KeysOf(init) + Deleting(s, last.id, last.entity, last.createdAt).times
      && EdgesAt(s, IdsOf(memories)) == EdgesAt(s, IdsOf(init)) + Incident(s.forward, last.id)
  {
    hide Touching;
    var init, last := memories[..|memories| - 1], memories[|memories| - 1];
    assert memories == init + [last];
    assert forall m :: m in memories <==> m in init || m == last;
    assert IdsOf(memories) == IdsOf(init) + {last.id};
  }

  lemma {:induction false} DeletedIs(s: State, memories: seq<Memory>)
    requires Paired(s)
    ensures Deleted(s, memories) == Removal(IdsOf(memories), KeysOf(memories), EdgesAt(s, IdsOf(memories)))
  {
    hide Touching, IdsOf, KeysOf, EdgesAt, Incident;
    if memories == [] {
      DeletedNothing(s);
    } else {
      var init, last := memories[..|memories| - 1], memories[|memories| - 1];
      DeletedIs(s, init);
      TouchingIsIncident(s, last.id);
      OneMoreDeleted(s, memories);
    }
  }

  lemma DeletedNothing(s: State)
    ensures NOTHING == Removal(IdsOf([]), KeysOf([]), EdgesAt(s, IdsOf([])))
  {}

  /** The ids to go: those of the candidates and, with cascading, of their snapshots. */
  ghost function Gone(s: State, config: ForgetConfig, candidates: seq<Memory>): set<Id> {
    set x | x in s.records && (x in IdsOf(candidates)
      || (config.cascade && exists c :: c in candidates && x in Snapshots(s, c.id)))
  }

  lemma {:induction false} DoomedIs(s: State, config: ForgetConfig, candidates: seq<Memory>)
    requires KeyedById(s) && forall m :: m in candidates ==> IsRecord(s, m)
    ensures forall m :: m in Doomed(s, config, candidates) <==> IsRecord(s, m) && m.id in Gone(s, config, candidates)
  {
    hide Snapshots, SortedIds;
    if candidates != [] {
      var init, last := candidates[..|candidates| - 1], candidates[|candidates| - 1];
      DoomedIs(s, config, init);
      assert candidates == init + [last];
      if config.cascade { ExistingIs(s, SortedIds(Snapshots(s, last.id))); }
      forall m ensures m in Doomed(s, config, candidates) <==> IsRecord(s, m) && m.id in Gone(s, config, candidates) {
        assert m in Doomed(s, config, candidates)
            <==> m in Doomed(s, config, init) || m == last || m in Cascade(s, config, last.id);
        if IsRecord(s, m) && m.id in IdsOf(candidates) && m.id !in IdsOf(init) { assert m == last; }
      }
    }
  }

  lemma {:induction false} BuriedIs(s: State, config: ForgetConfig, candidates: seq<Memory>, now: nat)
    requires forall m :: m in candidates ==> IsRecord(s, m)
    ensures Buried(s, config, candidates, now).Keys == s.tombstones.Keys + set m | m in candidates :: (now, m.id)
    ensures forall k :: k in s.tombstones && (k.0 != now || k.1 !in IdsOf(candidates)) ==>
      Buried(s, config, candidates, now)[k] == s.tombstones[k]
    ensures forall m :: m in candidates ==>
        Buried(s, config, candidates, now)[(now, m.id)] == TombstoneOf(s, config, m, now)
  {
    hide Cascade, TombstoneOf;
    if candidates != [] {
      var init, last := candidates[..|candidates| - 1], candidates[|candidates| - 1];
      BuriedIs(s, config, init, now);
      assert forall m :: m in candidates <==> m in init || m == last by { assert candidates == init + [last]; }
      assert last in candidates;
    }
  }

  /** Two removals that take away the same of what is there leave the same. */
  lemma WithoutOnly(s: State, r: Removal, ids: set<Id>)
    requires r.ids == ids && r.edges == EdgesAt(s, ids) && Paired(s)
    ensures var after := Without(s, r);
      && after.records == s.records - ids && after.vectors == s.vectors - ids
      && after.temporal == s.temporal - r.times
      && after.forward == s.forward - EdgesAt(s, ids) && after.reverse == s.reverse - EdgesAt(s, ids)
      && after.pending == s.pending
  {}

  /** A forget takes away exactly the candidates and, if it cascades, those RevisedFrom targets of
      theirs that only RevisedFrom edges enter: their records, vectors, temporal entries and every
      edge at either end. It adds a tombstone for each candidate, with its entity, its content and
      the number of snapshots deleted with it, and changes nothing else. */
  lemma ForgetRemovesExactly(s: State, config: ForgetConfig, candidates: seq<Memory>, now: nat)
    requires Paired(s) && KeyedById(s) && forall m :: m in candidates ==> IsRecord(s, m)
    ensures var gone, after := Gone(s, config, candidates), Forgotten(s, config, candidates, now);
      && after.records == s.records - gone && after.vectors == s.vectors - gone
      && after.temporal
         == s.temporal - (set x | x in gone
             && s.records[x].entity.Some? :: (s.records[x].entity.value, s.records[x].createdAt))
      && after.forward == s.forward - EdgesAt(s, gone) && after.reverse == s.reverse - EdgesAt(s, gone)
      && after.pending == s.pending
      && after.tombstones.Keys == s.tombstones.Keys + (set m | m in candidates :: (now, m.id))
      && (forall m :: m in candidates ==>
            after.tombstones[(now, m.id)] == Tombstone(m.id, m.entity, now, |Cascade(s, config, m.id)|, m.content))
  {
    hide Doomed, Deleted, Buried, Gone, EdgesAt, Without, KeyedById, Cascade;
    var doomed, gone := Doomed(s, config, candidates), Gone(s, config, candidates);
    DoomedIs(s, config, candidates);
    DeletedIs(s, doomed);
    BuriedIs(s, config, candidates, now);
    IdsOfRecords(s, config, candidates);
    WithoutOnly(s, Deleted(s, doomed), gone);
  }

  lemma IdsOfRecords(s: State, config: ForgetConfig, candidates: seq<Memory>)
    requires KeyedById(s) && forall m :: m in candidates ==> IsRecord(s, m)
    ensures var gone, doomed := Gone(s, config, candidates), Doomed(s, config, candidates);
      && IdsOf(doomed) == gone
      && KeysOf(doomed)
         == set x | x in gone && s.records[x].entity.Some? :: (s.records[x].entity.value, s.records[x].createdAt)
  {
    hide Doomed, Snapshots;
    var gone, doomed := Gone(s, config, candidates), Doomed(s, config, candidates);
    DoomedIs(s, config, candidates);
    forall x | x in gone ensures s.records[x] in doomed && x in IdsOf(doomed) {
      assert IsRecord(s, s.records[x]);
    }
    assert forall m :: m in doomed ==> m.id in gone && s.records[m.id] == m;
  }

  /** A forget keeps forward and reverse entries paired, Contradicts symmetric and the temporal
      index without entries that lead nowhere. */
  lemma ForgetKeepsStore(s: State, config: ForgetConfig, candidates: seq<Memory>, now: nat)
    requires Paired(s) && KeyedById(s) && forall m :: m in candidates ==> IsRecord(s, m)
    ensures var after := Forgotten(s, config, candidates, now);
      && Paired(after) && KeyedById(after)
      && (Symmetric(s) ==> Symmetric(after))
      && (Indexed(s) ==> Indexed(after))
  {
    hide Forgotten, Gone;
    var after, gone := Forgotten(s, config, candidates, now), Gone(s, config, candidates);
    ForgetRemovesExactly(s, config, candidates, now);
    if Symmetric(s) {
      forall a, b ensures ContradictsBothWays(after.forward, a, b) {
        assert ContradictsBothWays(s.forward, a, b);
      }
    }
  }

  // ---------------------------------------------------------------------------------------
  //  Owners of temporal entries
  // ---------------------------------------------------------------------------------------

  /** A memory that stays and owns its temporal entry keeps it exactly if nothing that is forgotten
      has its entity and creation time. A snapshot has those of its memory, so forgetting one takes
      the entry of the memory along. */
  lemma OwnerKeepsEntryIff(s: State, config: ForgetConfig, candidates: seq<Memory>, now: nat, x: Id, entity: string)
    requires Paired(s) && KeyedById(s) && forall m :: m in candidates ==> IsRecord(s, m)
    requires x in Forgotten(s, config, candidates, now).records && x in s.records && s.records[x].entity == Some(entity)
    requires var key := (entity, s.records[x].createdAt); key in s.temporal && s.temporal[key] == x
    ensures var key, after := (entity, s.records[x].createdAt), Forgotten(s, config, candidates, now);
      key in after.temporal && after.temporal[key] == x
      <==> forall y :: y in Gone(s, config, candidates) ==>
             s.records[y].entity != Some(entity) || s.records[y].createdAt != s.records[x].createdAt
  {
    hide Forgotten, Gone, EdgesAt;
    ForgetRemovesExactly(s, config, candidates, now);
  }

  lemma {:induction false} ExistingAll(s: State, ids: seq<Id>)
    requires forall x :: x in ids ==> x in s.records
    ensures |Existing(s, ids)| == |ids|
    ensures forall i :: 0 <= i < |ids| ==> Existing(s, ids)[i] == s.records[ids[i]]
  {
    if ids != [] {
      ExistingAll(s, ids[..|ids| - 1]);
    }
  }

  lemma {:induction false} FilteredAll(memories: seq<Memory>, c: Criteria)
    requires forall m :: m in memories ==> Matches(m, c)
    ensures Filtered(memories, c) == memories
  {
    if memories != [] {
      FilteredAll(memories[..|memories| - 1], c);
      assert memories == memories[..|memories| - 1] + [memories[|memories| - 1]];
    }
  }

  // ---------------------------------------------------------------------------------------
  //  Revisions and the temporal index
  // ---------------------------------------------------------------------------------------

  /** A revision keeps the temporal index free of entries that lead nowhere exactly if it does not
      prune the memory it revises, if that stays indexed, nor any other indexed one, except one whose
      entry the revision takes over or removes because it has the same time and the old or the new
      entity. A primary memory that counts as a snapshot is such another one. */
  lemma ReviseKeepsIndexIff(engine: Engine, s: State, input: ReviseInput, now: nat, snapshot: Id)
    requires Indexed(s) && snapshot !in s.records
    requires Revised(engine, s, input, now).Ok? && s.records[input.id].createdAt < END_OF_TIME
    ensures var m, gone := s.records[input.id], Excess(engine, s, input.id);
      var entity := if input.entity.Some? then input.entity.value else m.entity;
      Indexed(AfterRevise(engine, s, input, now, snapshot))
      <==> && (entity.Some? ==> input.id !in gone)
           && forall k :: k in s.temporal && s.temporal[k] in gone ==>
                k.1 == m.createdAt && (m.entity == Some(k.0) || entity == Some(k.0))
  {
    hide Revised, Excess, Indexed, AfterRevise;
    RevisedFields(engine, s, input, now);
    IndexAfterRevise(engine, s, input, now, snapshot);
    var m, r, gone := s.records[input.id], Revised(engine, s, input, now).value, Excess(engine, s, input.id);
    var moved := Moved(s.temporal, input.id, m.entity, r.entity, m.createdAt);
    if forall k :: k in moved ==> moved[k] !in gone {
      forall k | k in s.temporal && s.temporal[k] in gone
        ensures k.1 == m.createdAt && (m.entity == Some(k.0) || r.entity == Some(k.0))
      {
        assert k !in moved || moved[k] != s.temporal[k];
      }
      if r.entity.Some? {
        assert moved[(r.entity.value, m.createdAt)] == input.id;
      }
    }
  }

  lemma IndexAfterRevise(engine: Engine, s: State, input: ReviseInput, now: nat, snapshot: Id)
    requires Indexed(s) && snapshot !in s.records
    requires Revised(engine, s, input, now).Ok? && s.records[input.id].createdAt < END_OF_TIME
    ensures var m := s.records[input.id];
      var moved := Moved(s.temporal, input.id, m.entity, Revised(engine, s, input, now).value.entity, m.createdAt);
      Indexed(AfterRevise(engine, s, input, now, snapshot))
      <==> forall k :: k in moved ==> moved[k] !in Excess(engine, s, input.id)
  {
    hide Revised, Pruning, Excess, Indexed, Without, EdgeEntries, Moved;
    var revised, ids := Revised(engine, s, input, now).value, Excess(engine, s, input.id);
    PruningIs(s, ids);
    UpdatedIsIndexed(s, input, revised, snapshot);
    PrunedIndex(Updated(s, input, revised, snapshot), Pruning(s, ids));
  }

  lemma UpdatedIsIndexed(s: State, input: ReviseInput, revised: Memory, snapshot: Id)
    requires Indexed(s) && snapshot !in s.records && input.id in s.records && revised.embedding.Some?
    requires revised.id == input.id && revised.createdAt == s.records[input.id].createdAt < END_OF_TIME
    ensures Indexed(Updated(s, input, revised, snapshot))
  {
    hide EdgeEntries;
    var existing, after := s.records[input.id], Updated(s, input, revised, snapshot);
    assert after.temporal == Moved(s.temporal, input.id, existing.entity, revised.entity, existing.createdAt);
    forall k | k in after.temporal && after.temporal[k] == input.id
      ensures revised.entity == Some(k.0) && revised.createdAt == k.1
    {}
  }

  lemma PrunedIndex(s: State, r: Removal)
    requires Indexed(s) && r.times == {}
    ensures Without(s, r).temporal == s.temporal
    ensures Indexed(Without(s, r)) <==> forall k :: k in s.temporal ==> s.temporal[k] !in r.ids
  {
    var after := Without(s, r);
    assert after.temporal == s.temporal && after.records == s.records - r.ids;
  }
}
