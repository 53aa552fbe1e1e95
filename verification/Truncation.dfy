/** What the truncation flag of a forget says: whether anything is left that meets the criteria. */
module Truncation {
  import opened Results
  import opened Sequences
  import opened Memories
  import opened IdOrder
  import opened Store
  import opened Revisions
  import opened Forgetting
  import opened ForgetProperties
  import opened EntityCalls

  /** The records that the criteria could reach and that meet them. */
  ghost function Matching(s: State, c: Criteria): set<Id> {
    set x | x in s.records && Reachable(s, c, s.records[x]) && Matches(s.records[x], c)
  }

  /** A forget by these criteria takes no temporal entries of records that stay. */
  predicate LeavesOthers(s: State, config: ForgetConfig, c: Criteria) {
    && KeyedById(s) && Paired(s)
    && (c.entity.Some? ==> Agrees(s, c.entity.value) && TakesNoOthers(s, config, c.entity.value))
  }

  // ---------------------------------------------------------------------------------------
  //  What is left
  // ---------------------------------------------------------------------------------------

  lemma LiveAreReachable(s: State, c: Criteria, entity: string, x: Id)
    requires c.entity == Some(entity) && KeyedById(s) && x in s.records
    ensures Reachable(s, c, s.records[x]) <==> exists t :: t in LiveTimes(s, entity) && s.temporal[(entity, t)] == x
  {
    if t :| t in TimesOf(s, entity) && s.temporal[(entity, t)] == x {
      assert t in LiveTimes(s, entity);
    }
  }

  /** The times of an entity that lead to some of its records. */
  function TimesLeadingTo(s: State, entity: string, ids: set<Id>): (times: set<nat>)
    ensures times <= LiveTimes(s, entity)
  {
    set t | t in LiveTimes(s, entity) && s.temporal[(entity, t)] in ids
  }

  lemma EntityCandidatesAreLive(s: State, c: Criteria, entity: string, limit: nat)
    requires c.entity == Some(entity) && KeyedById(s) && Candidates(s, c, limit).Ok?
    ensures var ids := IdsOf(Candidates(s, c, limit).value);
      ids == IdsAt(s, entity, TimesLeadingTo(s, entity, ids))
  {
    hide TimesOf, LiveTimes, Existing, Filtered;
    var candidates := Candidates(s, c, limit).value;
    var times := FirstTimes(s, entity, 2 * limit);
    var found := AtTimes(s, entity, times);
    ExistingIs(s, found);
    forall m | m in candidates ensures m.id in IdsAt(s, entity, TimesLeadingTo(s, entity, IdsOf(candidates))) {
      assert m in Existing(s, found);
      var i :| 0 <= i < |found| && found[i] == m.id;
      assert times[i] in times;
      EntryOf(s, entity, times[i]);
      assert times[i] in TimesLeadingTo(s, entity, IdsOf(candidates));
    }
  }

  lemma ForgetsCandidates(s: State, config: ForgetConfig, c: Criteria, now: nat)
    requires !IsEmpty(c) && Candidates(s, c, BatchLimit(config)).Ok?
    ensures var candidates := Candidates(s, c, BatchLimit(config)).value;
      && AfterForget(s, config, c, now) == Forgotten(s, config, candidates, now)
      && Output(s, config, c).Ok?
      && (Output(s, config, c).value.truncated <==> candidates != [] && |candidates| >= BatchLimit(config))
  {
    hide Candidates, Forgotten, IsEmpty, Doomed, BatchLimit;
  }

  /** What meets the criteria after a forget is what met them before and is not gone. */
  lemma RemainingIs(s: State, config: ForgetConfig, c: Criteria, now: nat)
    requires LeavesOthers(s, config, c) && !IsEmpty(c) && Candidates(s, c, BatchLimit(config)).Ok?
    ensures var candidates := Candidates(s, c, BatchLimit(config)).value;
      Matching(AfterForget(s, config, c, now), c) == Matching(s, c) - Gone(s, config, candidates)
  {
    hide Candidates, Forgotten, IsEmpty, BatchLimit, Gone, EdgesAt, AfterForget, Matches, Matching, Reachable,
      TakesNoOthers, Agrees, LiveTimes, Paired, IsPartOf, Cascaded;
    var candidates := Candidates(s, c, BatchLimit(config)).value;
    var after := AfterForget(s, config, c, now);
    ForgetsCandidates(s, config, c, now);
    CandidatesMatch(s, c, BatchLimit(config));
    match c.entity
    case None =>
      ForgetRemovesExactly(s, config, candidates, now);
      ForgetKeepsStore(s, config, candidates, now);
      RemainingWithoutEntity(s, after, c, Gone(s, config, candidates));
    case Some(entity) =>
      EntityCandidatesAreLive(s, c, entity, BatchLimit(config));
      RemovedPart(s, config, entity, candidates, TimesLeadingTo(s, entity, IdsOf(candidates)), now);
      RemainingOfEntity(s, after, c, entity, Gone(s, config, candidates), IdsOf(candidates));
  }

  lemma RemainingWithoutEntity(s: State, after: State, c: Criteria, gone: set<Id>)
    requires c.entity == None && KeyedById(s) && after.records == s.records - gone
    ensures Matching(after, c) == Matching(s, c) - gone
  {
    hide Matches;
  }

  lemma RemainingOfEntity(s: State, after: State, c: Criteria, entity: string, gone: set<Id>, ids: set<Id>)
    requires c.entity == Some(entity) && Agrees(s, entity) && Agrees(after, entity) && IsPartOf(after, s)
    requires after.records == s.records - gone && ids <= gone
    requires LiveTimes(after, entity) == LiveTimes(s, entity) - TimesLeadingTo(s, entity, ids)
    ensures Matching(after, c) == Matching(s, c) - gone
  {
    hide Matches, Reachable;
    forall x | x in after.records
      ensures x in s.records && after.records[x] == s.records[x]
      ensures Reachable(after, c, after.records[x]) <==> Reachable(s, c, s.records[x])
    {
      LiveAreReachable(s, c, entity, x);
      LiveAreReachable(after, c, entity, x);
      if t :| t in LiveTimes(s, entity) && s.temporal[(entity, t)] == x {
        assert t in LiveTimes(after, entity);
      }
      if t :| t in LiveTimes(after, entity) && after.temporal[(entity, t)] == x {
        assert t in LiveTimes(s, entity) && s.temporal[(entity, t)] == x;
      }
    }
  }

  // ---------------------------------------------------------------------------------------
  //  Candidates are distinct
  // ---------------------------------------------------------------------------------------

  predicate Distinct(memories: seq<Memory>) {
    forall i, j :: 0 <= i < j < |memories| ==> memories[i].id != memories[j].id
  }

  /** No id is given twice. */
  predicate NamesNoneTwice(c: Criteria) {
    forall i, j :: 0 <= i < j < |c.ids| && c.ids[i].Ref? ==> c.ids[i] != c.ids[j]
  }

  lemma {:induction false} DistinctCount(memories: seq<Memory>)
    requires Distinct(memories)
    ensures |IdsOf(memories)| == |memories|
  {
    if memories != [] {
      var init, last := memories[..|memories| - 1], memories[|memories| - 1];
      DistinctCount(init);
      assert memories == init + [last];
      assert IdsOf(memories) == IdsOf(init) + {last.id};
      assert last.id !in IdsOf(init);
    }
  }

  lemma {:induction false} DistinctByIds(s: State, refs: seq<IdRef>, limit: nat)
    requires KeyedById(s) && ByIds(s, refs, limit).Ok?
    requires forall i, j :: 0 <= i < j < |refs| && refs[i].Ref? ==> refs[i] != refs[j]
    ensures Distinct(ByIds(s, refs, limit).value)
  {
    if refs != [] {
      var init, last := refs[..|refs| - 1], refs[|refs| - 1];
      DistinctByIds(s, init, limit);
      ByIdsIs(s, init, limit);
      assert forall m :: m in ByIds(s, init, limit).value ==> Ref(m.id) in init;
      assert last.Ref? ==> last !in init;
      var found := ByIds(s, init, limit).value;
      assert forall i :: 0 <= i < |found| ==> found[i] in found;
    }
  }

  lemma {:induction false} DistinctExisting(s: State, ids: seq<Id>)
    requires KeyedById(s) && forall i, j :: 0 <= i < j < |ids| ==> ids[i] != ids[j]
    ensures Distinct(Existing(s, ids))
  {
    if ids != [] {
      var init := ids[..|ids| - 1];
      DistinctExisting(s, init);
      ExistingIs(s, init);
      var found := Existing(s, init);
      assert forall i :: 0 <= i < |found| ==> found[i] in found;
    }
  }

  lemma {:induction false} DistinctFiltered(memories: seq<Memory>, c: Criteria)
    requires Distinct(memories)
    ensures Distinct(Filtered(memories, c))
  {
    hide Matches;
    if memories != [] {
      var init := memories[..|memories| - 1];
      DistinctFiltered(init, c);
      var kept := Filtered(init, c);
      assert forall i :: 0 <= i < |kept| ==> kept[i] in kept;
    }
  }

  lemma DistinctOfEntity(s: State, entity: string, times: seq<nat>)
    requires Agrees(s, entity) && Increasing(times)
    requires forall t :: t in times ==> (entity, t) in s.temporal && t in TimesOf(s, entity)
    ensures Distinct(Existing(s, AtTimes(s, entity, times)))
  {
    hide TimesOf, Existing, AtTimes, LiveTimes;
    ExistingAreLive(s, entity, times);
    DistinctRecordsAt(s, entity, OnlyLive(s, entity, times));
  }

  lemma DistinctRecordsAt(s: State, entity: string, times: seq<nat>)
    requires Agrees(s, entity) && Increasing(times) && forall t :: t in times ==> t in LiveTimes(s, entity)
    ensures Distinct(RecordsAt(s, entity, times))
  {
    forall i, j | 0 <= i < j < |times| ensures RecordAt(s, entity, times[i]).id != RecordAt(s, entity, times[j]).id {
      assert times[i] in times && times[j] in times;
    }
  }

  lemma CandidatesAreDistinct(s: State, c: Criteria, limit: nat)
    requires KeyedById(s) && NamesNoneTwice(c) && Candidates(s, c, limit).Ok?
    requires c.entity.Some? ==> Agrees(s, c.entity.value)
    ensures Distinct(Candidates(s, c, limit).value)
  {
    hide Existing, ByIds, Filtered, SortedIds, TimesOf, Agrees, KeyedById, Matches;
    if IsIdOnly(c) {
      DistinctByIds(s, c.ids, limit);
    } else {
      var window := Window(s, c, limit).value;
      match c.entity {
        case Some(entity) =>
          DistinctOfEntity(s, entity, FirstTimes(s, entity, 2 * limit));
        case None =>
          if c.ids != [] {
            DistinctByIds(s, c.ids, |c.ids|);
          } else {
            DistinctExisting(s, Take(SortedIds(s.records.Keys), 2 * limit));
          }
      }
      DistinctFiltered(window, c);
    }
  }

  // ---------------------------------------------------------------------------------------
  //  What the flag says
  // ---------------------------------------------------------------------------------------

  lemma CandidatesAreMatching(s: State, c: Criteria, limit: nat)
    requires KeyedById(s) && Candidates(s, c, limit).Ok?
    ensures IdsOf(Candidates(s, c, limit).value) <= Matching(s, c)
  {
    hide Candidates, Matches, Reachable, LiveTimes;
    var candidates := Candidates(s, c, limit).value;
    CandidatesMatch(s, c, limit);
    match c.entity
    case None =>
      forall m | m in candidates ensures Reachable(s, c, s.records[m.id]) { ReachableAlone(s, c, m.id); }
    case Some(entity) =>
      EntityCandidatesAreLive(s, c, entity, limit);
      forall m | m in candidates ensures Reachable(s, c, s.records[m.id]) {
        assert m.id in IdsAt(s, entity, TimesLeadingTo(s, entity, IdsOf(candidates)));
        LiveAreReachable(s, c, entity, m.id);
      }
  }

  lemma ReachableAlone(s: State, c: Criteria, x: Id)
    requires c.entity == None && KeyedById(s) && x in s.records
    ensures Reachable(s, c, s.records[x])
  {}

  /** The matching records that go along as snapshots of candidates. */
  ghost function GoneAlong(s: State, config: ForgetConfig, c: Criteria, candidates: seq<Memory>): set<Id> {
    Matching(s, c) * (Gone(s, config, candidates) - IdsOf(candidates))
  }

  lemma NothingAlong(s: State, config: ForgetConfig, c: Criteria, candidates: seq<Memory>)
    requires !config.cascade
    ensures GoneAlong(s, config, c, candidates) == {}
  {}

  lemma GoneIncludes(s: State, config: ForgetConfig, candidates: seq<Memory>)
    requires forall m :: m in candidates ==> IsRecord(s, m)
    ensures IdsOf(candidates) <= Gone(s, config, candidates)
  {
    hide Snapshots;
  }

  lemma LeftOver(all: set<Id>, taken: set<Id>, gone: set<Id>)
    requires taken <= all && taken <= gone
    ensures all - gone != {} <==> |all| > |taken| + |all * (gone - taken)|
  {
    var along := all * (gone - taken);
    assert all == taken + along + (all - gone);
    assert |taken + along| == |taken| + |along|;
    assert |all| == |taken + along| + |all - gone|;
  }

  /** A forget that says it was cut off leaves something that meets the criteria exactly if more than a
      batch of it was there, not counting snapshots that meet them too and went along. */
  lemma TruncatedLeavesIff(s: State, config: ForgetConfig, c: Criteria, now: nat)
    requires LeavesOthers(s, config, c) && NamesNoneTwice(c)
    requires Output(s, config, c).Ok? && Output(s, config, c).value.truncated
    ensures Candidates(s, c, BatchLimit(config)).Ok?
    ensures var candidates, limit := Candidates(s, c, BatchLimit(config)).value, BatchLimit(config);
      && (Matching(AfterForget(s, config, c, now), c) != {}
          <==> |Matching(s, c)| > limit + |GoneAlong(s, config, c, candidates)|)
      && (!config.cascade ==> (Matching(AfterForget(s, config, c, now), c) != {} <==> |Matching(s, c)| > limit))
  {
    hide Candidates, Matching, Gone, AfterForget, BatchLimit, Doomed, TakesNoOthers, Agrees, NamesNoneTwice, Paired;
    var limit := BatchLimit(config);
    assert Candidates(s, c, limit).Ok? && !IsEmpty(c);
    var candidates := Candidates(s, c, limit).value;
    ForgetsCandidates(s, config, c, now);
    RemainingIs(s, config, c, now);
    CandidatesMatch(s, c, limit);
    CandidatesAreMatching(s, c, limit);
    CandidatesAreDistinct(s, c, limit);
    DistinctCount(candidates);
    GoneIncludes(s, config, candidates);
    LeftOver(Matching(s, c), IdsOf(candidates), Gone(s, config, candidates));
    if !config.cascade { NothingAlong(s, config, c, candidates); }
  }

  /** So a forget of the one id that fits a batch of one says that candidates remain, and none does. */
  lemma OneIdCutOff(s: State, config: ForgetConfig, x: Id, now: nat)
    requires KeyedById(s) && Paired(s) && x in s.records && config.maxBatch == 1
    ensures var c := Criteria([Ref(x)], None, None, None, None, None);
      && Output(s, config, c).Ok? && Output(s, config, c).value.truncated
      && Matching(AfterForget(s, config, c, now), c) == {}
  {
    hide Matching, AfterForget, Gone, Doomed, Paired, Forgotten;
    var c := Criteria([Ref(x)], None, None, None, None, None);
    OneIdResolves(s, c, x);
    ForgetsCandidates(s, config, c, now);
    RemainingIs(s, config, c, now);
    GoneIncludes(s, config, [s.records[x]]);
    OnlyNamedMatches(s, c, x);
  }

  lemma OneIdResolves(s: State, c: Criteria, x: Id)
    requires x in s.records && IsIdOnly(c) && c.ids == [Ref(x)]
    ensures Candidates(s, c, 1) == Ok([s.records[x]])
  {
    var refs := [Ref(x)];
    assert refs[..0] == [];
    assert ByIds(s, refs[..0], 1) == Ok([]);
    assert refs[|refs| - 1] == Ref(x) && c.ids == refs;
    assert ByIds(s, refs, 1) == Ok([] + [s.records[x]]);
    assert [] + [s.records[x]] == [s.records[x]];
  }

  lemma OnlyNamedMatches(s: State, c: Criteria, x: Id)
    requires KeyedById(s) && c.ids == [Ref(x)]
    ensures Matching(s, c) <= {x} && (x in s.records ==> x in IdsOf([s.records[x]]))
  {
    if x in s.records { assert s.records[x] in [s.records[x]]; }
  }
}
