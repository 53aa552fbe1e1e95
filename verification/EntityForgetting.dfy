/** Forgetting an entity until nothing of it is indexed: how often it has to be made, and how entries
    that lead to no record any more can stop it early. */
module EntityForgetting {
  import opened Results
  import opened Sequences
  import opened Memories
  import opened IdOrder
  import opened Store
  import opened Revisions
  import opened Forgetting
  import opened ForgetProperties
  import opened EntityCalls

  // ---------------------------------------------------------------------------------------
  //  Until nothing is left
  // ---------------------------------------------------------------------------------------

  lemma FewerAreLive(s: State, config: ForgetConfig, entity: string, now: nat)
    requires Agrees(s, entity) && Paired(s) && BatchLimit(config) >= 1
    ensures var after := AfterForget(s, config, EntityOnly(entity), now);
      && Agrees(after, entity) && Paired(after)
      && Output(s, config, EntityOnly(entity)).Ok?
      && (Output(s, config, EntityOnly(entity)).value.truncated ==> |Live(after, entity)| < |Live(s, entity)|)
  {
    hide AfterForget, Output, Agrees, LiveTimes, SortedIds, DanglingBefore, BatchLimit, Paired, Dangling;
    EntityCall(s, config, entity, now);
  }

  lemma LiveCount(s: State, entity: string)
    ensures |Live(s, entity)| == |LiveTimes(s, entity)|
  {}

  /** Forget an entity again until a call does not say that it was cut off: the number of calls
      and the state they leave. */
  ghost function ForgetEntity(
      s: State, config: ForgetConfig, entity: string, clock: nat -> nat, made: nat): (nat, State)
    requires Agrees(s, entity) && Paired(s) && BatchLimit(config) >= 1
    decreases |Live(s, entity)|
  {
    hide AfterForget, Output, Agrees, Live, BatchLimit, Paired;
    FewerAreLive(s, config, entity, clock(made));
    var after := AfterForget(s, config, EntityOnly(entity), clock(made));
    if Output(s, config, EntityOnly(entity)).value.truncated then ForgetEntity(after, config, entity, clock, made + 1)
    else (made + 1, after)
  }

  /** For n live entries that takes at most n / limit + 1 calls; and if no more than a batch of the
      entity's entries dangle, none of the live ones is left. */
  lemma {:induction false} EntityIsForgotten(
      s: State, config: ForgetConfig, entity: string, clock: nat -> nat, made: nat)
    requires Agrees(s, entity) && Paired(s) && BatchLimit(config) >= 1
    ensures var (calls, after) := ForgetEntity(s, config, entity, clock, made);
      && calls <= made + |Live(s, entity)| / BatchLimit(config) + 1
      && Agrees(after, entity) && Paired(after)
      && (|Dangling(s, entity)| <= BatchLimit(config) ==> LiveTimes(after, entity) == {})
    decreases |Live(s, entity)|
  {
    hide AfterForget, Output, LiveTimes, Dangling, Agrees, BatchLimit, DanglingBefore, SortedIds, Paired, Live;
    FewerAreLive(s, config, entity, clock(made));
    EntityCall(s, config, entity, clock(made));
    var after, limit := AfterForget(s, config, EntityOnly(entity), clock(made)), BatchLimit(config);
    var n := |Live(s, entity)|;
    SubsetSize(Dangling(after, entity), Dangling(s, entity));
    if Output(s, config, EntityOnly(entity)).value.truncated {
      EntityIsForgotten(after, config, entity, clock, made + 1);
      LiveCount(after, entity);
      OneBatchLess(n, limit);
      AtMostAsManyBatches(|Live(after, entity)|, n - limit, limit);
    }
  }

  /** How many of n entries fill whole batches. */
  function InBatches(n: nat, limit: nat): nat
    requires limit >= 1
  {
    n / limit * limit
  }

  /** Dangling entries do not get in the way: at most a batch of them is older than the last live
      entry that fills a batch, and those that are older than the last live entry leave room for the
      rest. */
  predicate IsWithinReach(s: State, entity: string, limit: nat)
    requires limit >= 1
  {
    var live, full := Live(s, entity), InBatches(|Live(s, entity)|, limit);
    && (0 < full <= |live| ==> DanglingBefore(s, entity, live[full - 1]) <= limit)
    && (full < |live| ==> |live| - full + DanglingBefore(s, entity, live[|live| - 1]) <= 2 * limit)
  }

  lemma BatchesStep(n: nat, limit: nat)
    requires limit >= 1
    ensures InBatches(n, limit) <= n < InBatches(n, limit) + limit
    ensures n >= limit ==> InBatches(n, limit) == InBatches(n - limit, limit) + limit
    ensures n < limit ==> InBatches(n, limit) == 0
  {
    assert n == n / limit * limit + n % limit;
    if n < limit {
      NoBatch(n, limit);
    } else {
      OneBatchLess(n, limit);
      assert ((n - limit) / limit + 1) * limit == (n - limit) / limit * limit + limit;
    }
  }

  lemma SuffixIs(all: seq<nat>, n: nat)
    requires Increasing(all) && n <= |all|
    ensures Increasing(all[n..]) && SetOf(all[n..]) == SetOf(all) - SetOf(all[..n])
  {
    forall t ensures t in all[n..] <==> t in all && t !in all[..n] {
      if t in all {
        var i :| 0 <= i < |all| && all[i] == t;
        InPrefix(all, n, i);
        assert i >= n ==> all[n..][i - n] == t;
      }
    }
  }

  lemma SortedRest(all: set<nat>, n: nat, rest: set<nat>)
    requires n <= |all| && rest == all - SetOf(SortedIds(all)[..n])
    ensures SortedIds(rest) == SortedIds(all)[n..]
  {
    hide SortedIds;
    var sorted := SortedIds(all);
    SuffixIs(sorted, n);
    assert SetOf(sorted) == all;
    assert forall t :: t in sorted[n..] <==> t in SetOf(sorted[n..]);
    IncreasingUnique(SortedIds(rest), sorted[n..]);
  }

  lemma LiveAfterCall(s: State, config: ForgetConfig, entity: string, now: nat)
    requires Agrees(s, entity) && Paired(s) && BatchLimit(config) >= 1 && TakesNoOthers(s, config, entity)
    ensures var after, taken := AfterForget(s, config, EntityOnly(entity), now), Taken(s, entity, BatchLimit(config));
      && |taken| <= |Live(s, entity)|
      && Live(after, entity) == Live(s, entity)[|taken|..]
      && forall t :: DanglingBefore(after, entity, t) == DanglingBefore(s, entity, t)
  {
    hide AfterForget, Taken, Agrees, LiveTimes, SortedIds, BatchLimit, Paired, Dangling, IdsAt, IsPartOf, Before,
      IsEmpty, Forgotten, TakesNoOthers, Cascaded;
    var after, taken := AfterForget(s, config, EntityOnly(entity), now), Taken(s, entity, BatchLimit(config));
    CallLeaves(s, config, entity, now);
    CallTakes(s, entity, BatchLimit(config));
    SortedRest(LiveTimes(s, entity), |taken|, LiveTimes(after, entity));
  }

  /** A call that is cut off changes nothing about whether the rest is within reach. */
  lemma ReachStays(s: State, after: State, entity: string, limit: nat)
    requires limit >= 1 && |Live(s, entity)| >= limit
    requires DanglingBefore(s, entity, Live(s, entity)[limit - 1]) <= limit
    requires Live(after, entity) == Live(s, entity)[limit..]
    requires forall t :: DanglingBefore(after, entity, t) == DanglingBefore(s, entity, t)
    ensures IsWithinReach(after, entity, limit) <==> IsWithinReach(s, entity, limit)
  {
    hide SortedIds, LiveTimes, DanglingBefore, InBatches, Live;
    BatchesStep(|Live(s, entity)|, limit);
    BatchesStep(|Live(after, entity)|, limit);
  }

  lemma FullCall(s: State, config: ForgetConfig, entity: string, now: nat)
    requires Agrees(s, entity) && Paired(s) && BatchLimit(config) >= 1 && TakesNoOthers(s, config, entity)
    requires Output(s, config, EntityOnly(entity)).Ok? && Output(s, config, EntityOnly(entity)).value.truncated
    ensures var after, limit := AfterForget(s, config, EntityOnly(entity), now), BatchLimit(config);
      var taken := SetOf(Taken(s, entity, limit));
      && Agrees(after, entity) && Paired(after) && IsPartOf(after, s)
      && |Live(s, entity)| >= limit && |Live(after, entity)| == |Live(s, entity)| - limit
      && (IsWithinReach(after, entity, limit) <==> IsWithinReach(s, entity, limit))
      && taken <= LiveTimes(s, entity) && LiveTimes(after, entity) == LiveTimes(s, entity) - taken
      && Dangling(after, entity) == Dangling(s, entity) && TakesNoOthers(after, config, entity)
      && after.records == s.records - (IdsAt(s, entity, taken) + Cascaded(s, config, IdsAt(s, entity, taken)))
  {
    hide AfterForget, Output, LiveTimes, Dangling, Agrees, BatchLimit, DanglingBefore, SortedIds, Paired, Taken,
      IsWithinReach, IdsAt, Live, InBatches, IsPartOf, Forgotten, RecordsAt, TakesNoOthers, Cascaded, LeavesRecords;
    EntityCall(s, config, entity, now);
    CallForgets(s, config, entity, now);
    CallLeaves(s, config, entity, now);
    LiveAfterCall(s, config, entity, now);
    ReachStays(s, AfterForget(s, config, EntityOnly(entity), now), entity, BatchLimit(config));
  }

  /** A call that is not cut off leaves nothing exactly if what there is is within reach. */
  lemma LastCall(s: State, config: ForgetConfig, entity: string, now: nat)
    requires Agrees(s, entity) && Paired(s) && BatchLimit(config) >= 1 && TakesNoOthers(s, config, entity)
    requires Output(s, config, EntityOnly(entity)).Ok? && !Output(s, config, EntityOnly(entity)).value.truncated
    ensures var after, limit := AfterForget(s, config, EntityOnly(entity), now), BatchLimit(config);
      && Agrees(after, entity) && Paired(after)
      && (LiveTimes(after, entity) == {} <==> IsWithinReach(s, entity, limit))
      && (IsWithinReach(s, entity, limit) ==> |Live(s, entity)| / limit == 0)
      && LiveTimes(after, entity) <= LiveTimes(s, entity) && Dangling(after, entity) == Dangling(s, entity)
      && LeavesRecords(s, after, config, IdsAt(s, entity, LiveTimes(s, entity) - LiveTimes(after, entity)))
  {
    hide AfterForget, Output, LiveTimes, Dangling, Agrees, BatchLimit, DanglingBefore, SortedIds, Paired, Taken,
      IsWithinReach, IdsAt, Live, InBatches, IsPartOf, Forgotten, RecordsAt, TakesNoOthers, Cascaded, LeavesRecords;
    var after, limit := AfterForget(s, config, EntityOnly(entity), now), BatchLimit(config);
    var taken := SetOf(Taken(s, entity, limit));
    CallForgets(s, config, entity, now);
    CallLeaves(s, config, entity, now);
    TakenCount(s, entity, limit);
    LastTakesAllIff(s, entity, limit);
    AllTaken(LiveTimes(s, entity), taken);
    if |Live(s, entity)| < limit { NoBatch(|Live(s, entity)|, limit); }
    assert LiveTimes(s, entity) - LiveTimes(after, entity) == taken;
    AllLeft(s, after, config, IdsAt(s, entity, taken));
  }

  lemma LastTakesAllIff(s: State, entity: string, limit: nat)
    requires limit >= 1 && |Taken(s, entity, limit)| < limit
    ensures |Taken(s, entity, limit)| == |Live(s, entity)| <==> IsWithinReach(s, entity, limit)
  {
    hide SortedIds, LiveTimes, DanglingBefore, InBatches, Taken;
    var live := Live(s, entity);
    CallTakes(s, entity, limit);
    BatchesStep(|live|, limit);
    if |live| >= limit {
      DanglingGrows(s, entity, live[limit - 1], live[InBatches(|live|, limit) - 1]);
    }
  }

  /** With cascading, what records were revised from, snapshots or not. */
  function Sources(s: State, config: ForgetConfig, ids: set<Id>): set<Id> {
    set e | config.cascade && e in s.forward && e.source in ids && e.kind == RevisedFrom :: e.target
  }

  /** From the first state to the second the records given are gone and with them their snapshots,
      and nothing else but perhaps what became a snapshot only on the way. */
  predicate LeavesRecords(s: State, last: State, config: ForgetConfig, ids: set<Id>) {
    && last.records.Keys !! ids + Cascaded(s, config, ids)
    && s.records.Keys - ids - Sources(s, config, ids) <= last.records.Keys
    && forall x :: x in last.records ==> x in s.records && last.records[x] == s.records[x]
  }

  /** If snapshots have no entries of their own, or nothing cascades, repeating a forget of an entity
      while it is cut off leaves none of its live entries exactly if they are within reach, and takes
      n / limit + 1 calls if they are. The records that go are those whose live entries went, and with
      cascading their snapshots; other records of the entity that no entry leads to stay, and so does
      everything else. */
  lemma {:induction false} EntityIsForgottenIff(
      s: State, config: ForgetConfig, entity: string, clock: nat -> nat, made: nat)
    requires Agrees(s, entity) && Paired(s) && BatchLimit(config) >= 1 && TakesNoOthers(s, config, entity)
    ensures var (calls, after) := ForgetEntity(s, config, entity, clock, made);
      && (LiveTimes(after, entity) == {} <==> IsWithinReach(s, entity, BatchLimit(config)))
      && (IsWithinReach(s, entity, BatchLimit(config)) ==>
            calls == made + |Live(s, entity)| / BatchLimit(config) + 1)
      && LiveTimes(after, entity) <= LiveTimes(s, entity) && Dangling(after, entity) == Dangling(s, entity)
      && LeavesRecords(s, after, config, IdsAt(s, entity, LiveTimes(s, entity) - LiveTimes(after, entity)))
      && (!config.cascade ==>
            after.records == s.records - IdsAt(s, entity, LiveTimes(s, entity) - LiveTimes(after, entity)))
    decreases |Live(s, entity)|
  {
    hide AfterForget, Output, LiveTimes, Dangling, Agrees, BatchLimit, DanglingBefore, SortedIds, Paired, Taken,
      IsWithinReach, IdsAt, Live, InBatches, IsPartOf, Forgotten, RecordsAt, TakesNoOthers, Cascaded, LeavesRecords;
    var after, limit := AfterForget(s, config, EntityOnly(entity), clock(made)), BatchLimit(config);
    FewerAreLive(s, config, entity, clock(made));
    if Output(s, config, EntityOnly(entity)).value.truncated {
      FullCall(s, config, entity, clock(made));
      EntityIsForgottenIff(after, config, entity, clock, made + 1);
      OneBatchLess(|Live(s, entity)|, limit);
      var last := ForgetEntity(after, config, entity, clock, made + 1).1;
      GoneTogether(s, after, last, config, entity, SetOf(Taken(s, entity, limit)));
    } else {
      LastCall(s, config, entity, clock(made));
    }
    var ids := IdsAt(s, entity, LiveTimes(s, entity)
                                - LiveTimes(ForgetEntity(s, config, entity, clock, made).1, entity));
    if !config.cascade {
      JustThese(s, ForgetEntity(s, config, entity, clock, made).1, config, ids);
    }
  }

  /** A record that another of the entity is said to have been revised from and that has an entry of
      its own goes with the other: here two live entries are gone after the first call of two, and not
      after two of three. */
  lemma CascadeTakesEntry(
      a: Memory, b: Memory, entity: string, s: State, config: ForgetConfig, clock: nat -> nat, made: nat)
    requires config.maxBatch == 1 && config.cascade
    requires a.id == a.createdAt == 1 && b.id == b.createdAt == 2 && a.entity == b.entity == Some(entity)
    requires s.records == map[1 := a, 2 := b] && s.temporal == map[(entity, 1) := 1, (entity, 2) := 2]
    requires s.forward.Keys == {Edge(1, RevisedFrom, 2)} && Paired(s)
    ensures Agrees(s, entity) && !Apart(s, entity) && IsWithinReach(s, entity, BatchLimit(config))
    ensures |Live(s, entity)| / BatchLimit(config) + 1 == 3
    ensures ForgetEntity(s, config, entity, clock, made).0 == made + 2
  {
    hide AfterForget, Output, Taken, Forgotten, LiveTimes, SortedIds, DanglingBefore, InBatches, Apart, Snapshots,
      IdsAt, Cascaded, Dangling, IsPartOf, Agrees, TakesNoOthers, Live, IsWithinReach, TimesOf;
    TwoEntries(a, b, entity, s);
    TwoLive(s, entity);
    TakesAlsoSecond(s, config);
    TwoWithinReach(s, entity);
    EntityCall(s, config, entity, clock(made));
    CallLeaves(s, config, entity, clock(made));
    CallTakes(s, entity, 1);
    FirstOfTwo(s, entity, Taken(s, entity, 1));
    var after := AfterForget(s, config, EntityOnly(entity), clock(made));
    NoRecordsNoneLive(after, entity);
    EntityCall(after, config, entity, clock(made + 1));
  }

  lemma TwoEntries(a: Memory, b: Memory, entity: string, s: State)
    requires a.id == a.createdAt == 1 && b.id == b.createdAt == 2 && a.entity == b.entity == Some(entity)
    requires s.records == map[1 := a, 2 := b] && s.temporal == map[(entity, 1) := 1, (entity, 2) := 2]
    requires s.forward.Keys == {Edge(1, RevisedFrom, 2)}
    ensures Agrees(s, entity) && !Apart(s, entity)
    ensures LiveTimes(s, entity) == {1, 2} && Dangling(s, entity) == {}
  {
    assert TimesOf(s, entity) == {1, 2} by {
      forall t | t in {1, 2} ensures t in TimesOf(s, entity) { assert (entity, t) in s.temporal; }
    }
    assert LiveTimes(s, entity) == {1, 2} && Dangling(s, entity) == {};
    hide LiveTimes, TimesOf, Dangling;
    assert Edge(1, RevisedFrom, 2) in s.forward;
  }

  lemma TwoLive(s: State, entity: string)
    requires LiveTimes(s, entity) == {1, 2} && Dangling(s, entity) == {}
    ensures Live(s, entity) == [1, 2] && forall t :: DanglingBefore(s, entity, t) == 0
  {
    hide LiveTimes, Dangling, SortedIds;
    assert SetOf([1, 2]) == {1, 2};
    SortedIdsOf([1, 2]);
    forall t: nat ensures Before({}, t) == {} {}
  }

  lemma TwoWithinReach(s: State, entity: string)
    requires Live(s, entity) == [1, 2] && forall t :: DanglingBefore(s, entity, t) == 0
    ensures IsWithinReach(s, entity, 1)
  {
    hide Live, DanglingBefore;
  }

  lemma TakesAlsoSecond(s: State, config: ForgetConfig)
    requires config.cascade && 2 in s.records && s.forward.Keys == {Edge(1, RevisedFrom, 2)} && Paired(s)
    ensures Cascaded(s, config, {1}) == {2}
  {
    assert Snapshots(s, 1) == {2} by { assert Edge(1, RevisedFrom, 2) in s.forward; }
  }

  lemma FirstOfTwo(s: State, entity: string, taken: seq<nat>)
    requires LiveTimes(s, entity) == {1, 2} && |taken| == 1 && taken == [1, 2][..|taken|]
    requires s.temporal == map[(entity, 1) := 1, (entity, 2) := 2]
    ensures SetOf(taken) <= LiveTimes(s, entity) && IdsAt(s, entity, SetOf(taken)) == {1}
  {
    hide LiveTimes;
    assert taken == [1];
    assert SetOf(taken) == {1};
  }

  lemma NoRecordsNoneLive(s: State, entity: string)
    requires s.records == map[]
    ensures LiveTimes(s, entity) == {} && |Live(s, entity)| == 0
  {}

  lemma JustThese(s: State, last: State, config: ForgetConfig, ids: set<Id>)
    requires LeavesRecords(s, last, config, ids) && !config.cascade
    ensures last.records == s.records - ids
  {}

  lemma AllLeft(s: State, after: State, config: ForgetConfig, ids: set<Id>)
    requires after.records == s.records - (ids + Cascaded(s, config, ids))
    ensures LeavesRecords(s, after, config, ids)
  {
    CascadedAreTargets(s, config, ids);
  }

  lemma CascadedAreTargets(s: State, config: ForgetConfig, ids: set<Id>)
    ensures Cascaded(s, config, ids) <= Sources(s, config, ids)
  {
    forall x | x in Cascaded(s, config, ids) ensures x in Sources(s, config, ids) {
      var c :| c in ids && x in Snapshots(s, c);
      assert Edge(c, RevisedFrom, x) in s.forward;
    }
  }

  /** Fewer edges only make more snapshots of what is still there. */
  lemma StillCascaded(s: State, after: State, config: ForgetConfig, ids: set<Id>)
    requires IsPartOf(after, s) && ids <= after.records.Keys
    ensures Cascaded(s, config, ids) * after.records.Keys <= Cascaded(after, config, ids)
    ensures Sources(after, config, ids) <= Sources(s, config, ids)
  {
    forall x | x in Cascaded(s, config, ids) && x in after.records ensures x in Cascaded(after, config, ids) {
      var c :| c in ids && x in Snapshots(s, c);
      assert Edge(c, RevisedFrom, x) in after.forward;
      assert OnlyLineageEnters(after, x);
      assert x in Snapshots(after, c);
    }
  }

  lemma CascadedTogether(s: State, config: ForgetConfig, a: set<Id>, b: set<Id>)
    ensures Cascaded(s, config, a + b) == Cascaded(s, config, a) + Cascaded(s, config, b)
    ensures Sources(s, config, a + b) == Sources(s, config, a) + Sources(s, config, b)
  {
    hide Snapshots;
  }

  lemma LeftTogether(s: State, after: State, last: State, config: ForgetConfig, first: set<Id>, later: set<Id>)
    requires IsPartOf(after, s) && later <= after.records.Keys
    requires after.records == s.records - (first + Cascaded(s, config, first))
    requires LeavesRecords(after, last, config, later)
    ensures LeavesRecords(s, last, config, first + later)
  {
    CascadedAreTargets(s, config, first);
    StillCascaded(s, after, config, later);
    CascadedTogether(s, config, first, later);
    hide Cascaded, Sources;
  }

  lemma GoneTogether(s: State, after: State, last: State, config: ForgetConfig, entity: string, taken: set<nat>)
    requires IsPartOf(after, s) && taken <= LiveTimes(s, entity)
    requires LiveTimes(after, entity) == LiveTimes(s, entity) - taken
    requires LiveTimes(last, entity) <= LiveTimes(after, entity)
    requires after.records == s.records - (IdsAt(s, entity, taken) + Cascaded(s, config, IdsAt(s, entity, taken)))
    requires var later := LiveTimes(after, entity) - LiveTimes(last, entity);
      LeavesRecords(after, last, config, IdsAt(after, entity, later))
    ensures LeavesRecords(s, last, config, IdsAt(s, entity, LiveTimes(s, entity) - LiveTimes(last, entity)))
  {
    hide LeavesRecords, Cascaded;
    var later := LiveTimes(after, entity) - LiveTimes(last, entity);
    SameIds(s, after, entity, later);
    IdsTogether(s, entity, taken, later);
    assert LiveTimes(s, entity) - LiveTimes(last, entity) == taken + later;
    assert IdsAt(after, entity, later) <= after.records.Keys;
    LeftTogether(s, after, last, config, IdsAt(s, entity, taken), IdsAt(s, entity, later));
  }

  lemma SameIds(s: State, after: State, entity: string, times: set<nat>)
    requires IsPartOf(after, s) && times <= LiveTimes(s, entity) && times <= LiveTimes(after, entity)
    ensures IdsAt(after, entity, times) == IdsAt(s, entity, times)
  {
    forall t | t in times ensures after.temporal[(entity, t)] == s.temporal[(entity, t)] {}
  }

  lemma IdsTogether(s: State, entity: string, times: set<nat>, more: set<nat>)
    requires times <= LiveTimes(s, entity) && more <= LiveTimes(s, entity)
    ensures IdsAt(s, entity, times + more) == IdsAt(s, entity, times) + IdsAt(s, entity, more)
  {
    hide LiveTimes;
  }

  lemma OneBatchLess(n: nat, limit: nat)
    requires n >= limit >= 1
    ensures (n - limit) / limit + 1 == n / limit
  {
    var q, r := (n - limit) / limit, (n - limit) % limit;
    assert n - limit == q * limit + r;
    assert (q + 1) * limit == q * limit + limit;
    QuotientIs(n, limit, q + 1, r);
  }

  lemma QuotientIs(n: nat, d: nat, q: nat, r: nat)
    requires n == q * d + r && r < d
    ensures n / d == q
  {
    var p, s := n / d, n % d;
    assert (p - q) * d == r - s;
    if p > q {
      AtLeastOne(p - q, d);
    } else if p < q {
      AtLeastOne(q - p, d);
    }
  }

  lemma AtLeastOne(a: nat, d: nat)
    requires a >= 1
    ensures a * d >= d
  {}

  lemma NoBatch(n: nat, limit: nat)
    requires n < limit
    ensures n / limit == 0
  {}

  lemma {:induction false} AtMostAsManyBatches(a: nat, b: nat, limit: nat)
    requires a <= b && limit >= 1
    ensures a / limit <= b / limit
  {
    if a < limit {
      NoBatch(a, limit);
    } else {
      AtMostAsManyBatches(a - limit, b - limit, limit);
      OneBatchLess(a, limit);
      OneBatchLess(b, limit);
    }
  }

  // ---------------------------------------------------------------------------------------
  //  More dangling entries than a batch
  // ---------------------------------------------------------------------------------------

  /** At the least batch size two entries that lead nowhere hide a third that leads to a record: the
      forget finds no candidate, says that it was not cut off and changes nothing. */
  lemma DanglingEntriesHideLive(m: Memory, entity: string, s: State, config: ForgetConfig, now: nat)
    requires config.maxBatch == 1
    requires m.entity == Some(entity) && m.createdAt == 3 && m.id == 9
    requires s.records == map[9 := m]
    requires s.temporal == map[(entity, 1) := 7, (entity, 2) := 8, (entity, 3) := 9]
    ensures IndexAgrees(s) && LiveTimes(s, entity) == {3}
    ensures Output(s, config, EntityOnly(entity)) == Ok(ForgetOutput(0, 0, false, 0))
    ensures AfterForget(s, config, EntityOnly(entity), now) == s
  {
    hide LiveTimes, Dangling, SortedIds, DanglingBefore, Taken, Output, AfterForget, Forgotten, IndexAgrees, Agrees,
      TimesOf, KeyedById;
    assert IndexAgrees(s) by { ThreeAgree(m, entity, s); }
    AgreesEverywhere(s, entity);
    ThreeEntries(m, entity, s);
    OnlyThird(s, entity);
    CallTakes(s, entity, 1);
    NothingForgotten(s, config, entity, now);
  }

  lemma ThreeAgree(m: Memory, entity: string, s: State)
    requires m.entity == Some(entity) && m.createdAt == 3 && m.id == 9
    requires s.records == map[9 := m]
    requires s.temporal == map[(entity, 1) := 7, (entity, 2) := 8, (entity, 3) := 9]
    ensures IndexAgrees(s)
  {}

  lemma OnlyThird(s: State, entity: string)
    requires LiveTimes(s, entity) == {3} && Dangling(s, entity) == {1, 2}
    ensures Live(s, entity) == [3] && DanglingBefore(s, entity, 3) == 2
  {
    hide LiveTimes, Dangling;
    assert SetOf([3]) == {3};
    SortedIdsOf([3]);
    assert Before({1, 2}, 3) == {1, 2};
  }

  lemma ThreeEntries(m: Memory, entity: string, s: State)
    requires s.records == map[9 := m]
    requires s.temporal == map[(entity, 1) := 7, (entity, 2) := 8, (entity, 3) := 9]
    ensures TimesOf(s, entity) == {1, 2, 3} && LiveTimes(s, entity) == {3} && Dangling(s, entity) == {1, 2}
  {
    assert TimesOf(s, entity) == {1, 2, 3} by {
      forall t | t in {1, 2, 3} ensures t in TimesOf(s, entity) { assert (entity, t) in s.temporal; }
    }
  }

  lemma NothingForgotten(s: State, config: ForgetConfig, entity: string, now: nat)
    requires Agrees(s, entity) && Taken(s, entity, BatchLimit(config)) == [] && BatchLimit(config) >= 1
    ensures Output(s, config, EntityOnly(entity)) == Ok(ForgetOutput(0, 0, false, 0))
    ensures AfterForget(s, config, EntityOnly(entity), now) == s
  {
    hide Taken, Candidates, BatchLimit, Without;
    EntityCandidates(s, entity, BatchLimit(config));
    WithoutNothing(s);
  }
}
