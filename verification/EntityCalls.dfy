/** One call that forgets an entity: which of its temporal entries it takes, what it leaves, and what
    entries that lead to no record any more have to do with it. */
module EntityCalls {
  import opened Results
  import opened Sequences
  import opened Memories
  import opened IdOrder
  import opened Store
  import opened Revisions
  import opened Forgetting
  import opened ForgetProperties

  // ---------------------------------------------------------------------------------------
  //  Live and dangling entries
  // ---------------------------------------------------------------------------------------

  /** The times of the entries of an entity that lead to a record. */
  function LiveTimes(s: State, entity: string): set<nat> {
    set t | t in TimesOf(s, entity) && s.temporal[(entity, t)] in s.records
  }

  function Dangling(s: State, entity: string): set<nat> {
    TimesOf(s, entity) - LiveTimes(s, entity)
  }

  function RecordAt(s: State, entity: string, t: nat): Memory
    requires t in LiveTimes(s, entity)
  {
    s.records[s.temporal[(entity, t)]]
  }

  /** The records that the entries of some times lead to. */
  function IdsAt(s: State, entity: string, times: set<nat>): set<Id>
    requires times <= LiveTimes(s, entity)
  {
    set t | t in times :: s.temporal[(entity, t)]
  }

  /** Records are stored under their own ids, and an entry of the entity that leads to a record leads
      to one of that entity and time. */
  predicate Agrees(s: State, entity: string) {
    && KeyedById(s)
    && forall t :: t in LiveTimes(s, entity) ==>
         RecordAt(s, entity, t).entity == Some(entity) && RecordAt(s, entity, t).createdAt == t
  }

  /** The same of all entities. */
  predicate IndexAgrees(s: State) {
    && KeyedById(s)
    && forall k :: k in s.temporal && s.temporal[k] in s.records ==>
         s.records[s.temporal[k]].entity == Some(k.0) && s.records[s.temporal[k]].createdAt == k.1
  }

  lemma AgreesEverywhere(s: State, entity: string)
    requires IndexAgrees(s)
    ensures Agrees(s, entity)
  {}

  // ---------------------------------------------------------------------------------------
  //  What one call takes
  // ---------------------------------------------------------------------------------------

  function OnlyLive(s: State, entity: string, times: seq<nat>): (live: seq<nat>)
    ensures forall t :: t in live <==> t in times && t in LiveTimes(s, entity)
    ensures Increasing(times) ==> Increasing(live)
  {
    if times == [] then []
    else
      var init, last := times[..|times| - 1], times[|times| - 1];
      var before := OnlyLive(s, entity, init);
      assert forall t :: t in times <==> t in init || t == last by { assert times == init + [last]; }
      assert Increasing(times) ==> forall i :: 0 <= i < |before| ==> before[i] < last by {
        LastIsGreatest(times, before);
      }
      if last in LiveTimes(s, entity) then before + [last] else before
  }

  lemma LastIsGreatest(times: seq<nat>, some: seq<nat>)
    requires times != [] && forall t :: t in some ==> t in times[..|times| - 1]
    ensures Increasing(times) ==> forall i :: 0 <= i < |some| ==> some[i] < times[|times| - 1]
  {
    forall i | 0 <= i < |some| && Increasing(times) ensures some[i] < times[|times| - 1] {
      assert some[i] in some;
    }
  }

  /** The times that one call forgets: of the live entries among the first 2 * limit, as many as fit
      the batch. */
  function Taken(s: State, entity: string, limit: nat): (taken: seq<nat>)
    ensures |taken| <= limit
    ensures forall t :: t in taken ==> t in LiveTimes(s, entity)
  {
    Take(OnlyLive(s, entity, FirstTimes(s, entity, 2 * limit)), limit)
  }

  function RecordsAt(s: State, entity: string, times: seq<nat>): (records: seq<Memory>)
    requires forall t :: t in times ==> t in LiveTimes(s, entity)
    ensures |records| == |times|
    ensures forall i :: 0 <= i < |times| ==> records[i] == RecordAt(s, entity, times[i])
  {
    seq(|times|, i requires 0 <= i < |times| => RecordAt(s, entity, times[i]))
  }

  lemma {:induction false} ExistingAreLive(s: State, entity: string, times: seq<nat>)
    requires forall t :: t in times ==> (entity, t) in s.temporal && t in TimesOf(s, entity)
    ensures Existing(s, AtTimes(s, entity, times)) == RecordsAt(s, entity, OnlyLive(s, entity, times))
  {
    hide TimesOf, LiveTimes;
    if times != [] {
      var init, last := times[..|times| - 1], times[|times| - 1];
      assert forall t :: t in init ==> t in times;
      assert last in times;
      EntryOf(s, entity, last);
      ExistingAreLive(s, entity, init);
      var ids := AtTimes(s, entity, times);
      assert ids[..|ids| - 1] == AtTimes(s, entity, init);
      assert ids[|ids| - 1] == s.temporal[(entity, last)];
    }
  }

  lemma EntryOf(s: State, entity: string, t: nat)
    requires t in TimesOf(s, entity)
    ensures (entity, t) in s.temporal && (t in LiveTimes(s, entity) <==> s.temporal[(entity, t)] in s.records)
  {}

  lemma EntityCandidates(s: State, entity: string, limit: nat)
    requires Agrees(s, entity)
    ensures Candidates(s, EntityOnly(entity), limit) == Ok(RecordsAt(s, entity, Taken(s, entity, limit)))
  {
    hide FirstTimes, TimesOf, Existing, Filtered, OnlyLive, LiveTimes, Take;
    var times := FirstTimes(s, entity, 2 * limit);
    var live := OnlyLive(s, entity, times);
    ExistingAreLive(s, entity, times);
    var memories := RecordsAt(s, entity, live);
    forall m | m in memories ensures Matches(m, EntityOnly(entity)) {
      var i :| 0 <= i < |memories| && memories[i] == m;
      assert live[i] in live;
    }
    FilteredAll(memories, EntityOnly(entity));
    assert Take(memories, limit) == RecordsAt(s, entity, Take(live, limit)) by { TakeRecords(s, entity, live, limit); }
  }

  lemma TakeRecords(s: State, entity: string, times: seq<nat>, limit: nat)
    requires forall t :: t in times ==> t in LiveTimes(s, entity)
    ensures Take(RecordsAt(s, entity, times), limit) == RecordsAt(s, entity, Take(times, limit))
  {
    hide LiveTimes;
  }

  lemma TakenAreRecords(s: State, entity: string, limit: nat)
    requires Agrees(s, entity)
    ensures forall m :: m in RecordsAt(s, entity, Taken(s, entity, limit)) ==> IsRecord(s, m)
    ensures IdsOf(RecordsAt(s, entity, Taken(s, entity, limit))) == IdsAt(s, entity, SetOf(Taken(s, entity, limit)))
  {
    hide Taken;
    var taken := Taken(s, entity, limit);
    var memories := RecordsAt(s, entity, taken);
    forall m | m in memories ensures exists t :: t in taken && m == RecordAt(s, entity, t) {
      var i :| 0 <= i < |memories| && memories[i] == m;
      assert taken[i] in taken;
    }
    forall t | t in taken
      ensures RecordAt(s, entity, t) in memories && RecordAt(s, entity, t).id == s.temporal[(entity, t)]
    {
      var i :| 0 <= i < |taken| && taken[i] == t;
      assert memories[i] == RecordAt(s, entity, t);
    }
  }

  lemma CallForgets(s: State, config: ForgetConfig, entity: string, now: nat)
    requires Agrees(s, entity)
    ensures var taken := RecordsAt(s, entity, Taken(s, entity, BatchLimit(config)));
      && AfterForget(s, config, EntityOnly(entity), now) == Forgotten(s, config, taken, now)
      && Output(s, config, EntityOnly(entity)).Ok?
      && Output(s, config, EntityOnly(entity)).value.truncated
         == (|taken| > 0 && |taken| >= BatchLimit(config))
  {
    hide Taken, Forgotten, Agrees, Candidates, Doomed, BatchLimit, LiveTimes;
    EntityCandidates(s, entity, BatchLimit(config));
  }

  /** The second state holds entries, records and edges of the first, and all the edges of the first
      between its records. */
  predicate IsPartOf(after: State, s: State) {
    && (forall k :: k in after.temporal ==> k in s.temporal && after.temporal[k] == s.temporal[k])
    && (forall x :: x in after.records ==> x in s.records && after.records[x] == s.records[x])
    && after.forward.Keys <= s.forward.Keys && after.reverse.Keys <= s.reverse.Keys
    && forall e :: e in s.forward && e.source in after.records && e.target in after.records ==> e in after.forward
  }

  /** No record of the entity that a live one was revised from, or is said to have been, is indexed
      at another time: snapshots have the time of the memory they were taken of. */
  predicate Apart(s: State, entity: string) {
    forall t, e ::
      t in LiveTimes(s, entity) && e in s.forward && e.source == s.temporal[(entity, t)] && e.kind == RevisedFrom
      && e.target in s.records && s.records[e.target].entity == Some(entity) ==>
        s.records[e.target].createdAt == t || s.records[e.target].createdAt !in TimesOf(s, entity)
  }

  /** Forgetting records of the entity takes no entry of other records along. */
  predicate TakesNoOthers(s: State, config: ForgetConfig, entity: string) {
    config.cascade ==> Apart(s, entity)
  }

  /** With cascading the snapshots of records go with them. */
  function Cascaded(s: State, config: ForgetConfig, ids: set<Id>): set<Id> {
    set x, c | config.cascade && c in ids && x in Snapshots(s, c) && x in s.records :: x
  }

  /** The times of a call, and in case of cascading those of snapshots, are all that goes. */
  predicate TakesOnly(s: State, entity: string, gone: set<Id>, taken: set<nat>)
    requires gone <= s.records.Keys
  {
    forall x :: x in gone && s.records[x].entity == Some(entity) ==>
      s.records[x].createdAt in taken || s.records[x].createdAt !in TimesOf(s, entity)
  }

  /** What a call leaves of the entity: none of the live entries taken, and no dangling entry that was
      not there before. The records that go are those taken and, with cascading, their snapshots; and if
      these have no entries of their own, all other entries stay. */
  lemma CallLeaves(s: State, config: ForgetConfig, entity: string, now: nat)
    requires Agrees(s, entity) && Paired(s)
    ensures var after := AfterForget(s, config, EntityOnly(entity), now);
      var taken := SetOf(Taken(s, entity, BatchLimit(config)));
      && Agrees(after, entity) && Paired(after) && IsPartOf(after, s)
      && LiveTimes(after, entity) <= LiveTimes(s, entity) - taken && Dangling(after, entity) <= Dangling(s, entity)
      && after.records
         == s.records - (IdsAt(s, entity, taken) + Cascaded(s, config, IdsAt(s, entity, taken)))
      && (TakesNoOthers(s, config, entity) ==>
            && LiveTimes(after, entity) == LiveTimes(s, entity) - taken
            && Dangling(after, entity) == Dangling(s, entity)
            && TakesNoOthers(after, config, entity))
  {
    hide AfterForget, Output, Taken, Forgotten, BatchLimit, EdgesAt, Snapshots, IsPartOf, Cascaded, Apart, Gone,
      TakesOnly;
    var taken := Taken(s, entity, BatchLimit(config));
    var candidates := RecordsAt(s, entity, taken);
    var after := AfterForget(s, config, EntityOnly(entity), now);
    CallForgets(s, config, entity, now);
    TakenAreRecords(s, entity, BatchLimit(config));
    RemovedPart(s, config, entity, candidates, SetOf(taken), now);
  }

  /** Forgetting the records at some times of an entity. */
  lemma RemovedPart(
      s: State, config: ForgetConfig, entity: string, candidates: seq<Memory>, taken: set<nat>, now: nat)
    requires Agrees(s, entity) && Paired(s) && taken <= LiveTimes(s, entity)
    requires (forall m :: m in candidates ==> IsRecord(s, m)) && IdsOf(candidates) == IdsAt(s, entity, taken)
    ensures var after, gone := Forgotten(s, config, candidates, now), Gone(s, config, candidates);
      && Agrees(after, entity) && Paired(after) && IsPartOf(after, s)
      && LiveTimes(after, entity) <= LiveTimes(s, entity) - taken && Dangling(after, entity) <= Dangling(s, entity)
      && gone == IdsAt(s, entity, taken) + Cascaded(s, config, IdsAt(s, entity, taken))
      && after.records == s.records - gone
      && (TakesNoOthers(s, config, entity) ==>
            && LiveTimes(after, entity) == LiveTimes(s, entity) - taken
            && Dangling(after, entity) == Dangling(s, entity)
            && TakesNoOthers(after, config, entity))
  {
    hide Forgotten, BatchLimit, EdgesAt, Snapshots, IsPartOf, Cascaded, Apart, Gone, TakesOnly, LiveTimes, IdsAt, IdsOf,
      Agrees, Paired, Dangling;
    var after, gone := Forgotten(s, config, candidates, now), Gone(s, config, candidates);
    AgreesKeyed(s, entity);
    ForgetRemovesExactly(s, config, candidates, now);
    ForgetKeepsStore(s, config, candidates, now);
    GoneIs(s, config, entity, candidates, taken);
    PartLeft(s, after, gone);
    if TakesNoOthers(s, config, entity) { SnapshotsAreApart(s, config, entity, taken, gone); }
    LeftOf(s, after, entity, gone, taken);
    if config.cascade && Apart(s, entity) { PartIsApart(s, after, entity); }
  }

  lemma AgreesKeyed(s: State, entity: string)
    requires Agrees(s, entity)
    ensures KeyedById(s)
  {}

  lemma GoneIs(s: State, config: ForgetConfig, entity: string, candidates: seq<Memory>, taken: set<nat>)
    requires taken <= LiveTimes(s, entity) && IdsOf(candidates) == IdsAt(s, entity, taken)
    ensures Gone(s, config, candidates) == IdsAt(s, entity, taken) + Cascaded(s, config, IdsAt(s, entity, taken))
    ensures IdsAt(s, entity, taken) <= Gone(s, config, candidates) <= s.records.Keys
  {
    hide Snapshots;
    var ids := IdsOf(candidates);
    forall x | x in Cascaded(s, config, ids) ensures x in Gone(s, config, candidates) {
      var c :| c in ids && x in Snapshots(s, c);
      var m :| m in candidates && m.id == c;
    }
    forall x | x in Gone(s, config, candidates) && x !in ids ensures x in Cascaded(s, config, ids) {
      var m :| m in candidates && x in Snapshots(s, m.id);
      assert m.id in ids;
    }
  }

  lemma PartLeft(s: State, after: State, gone: set<Id>)
    requires gone <= s.records.Keys && after.records == s.records - gone
    requires after.temporal == s.temporal - OwnKeys(s, gone)
    requires after.forward == s.forward - EdgesAt(s, gone) && after.reverse == s.reverse - EdgesAt(s, gone)
    ensures IsPartOf(after, s)
  {
    hide OwnKeys;
  }

  lemma SnapshotsAreApart(s: State, config: ForgetConfig, entity: string, taken: set<nat>, gone: set<Id>)
    requires Agrees(s, entity) && TakesNoOthers(s, config, entity) && taken <= LiveTimes(s, entity)
    requires gone <= s.records.Keys
    requires gone == IdsAt(s, entity, taken) + Cascaded(s, config, IdsAt(s, entity, taken))
    ensures TakesOnly(s, entity, gone, taken)
  {
    var ids := IdsAt(s, entity, taken);
    forall x | x in gone && s.records[x].entity == Some(entity)
      ensures s.records[x].createdAt in taken || s.records[x].createdAt !in TimesOf(s, entity)
    {
      if x in ids {
        var t :| t in taken && x == s.temporal[(entity, t)];
        assert RecordAt(s, entity, t).createdAt == t;
      } else {
        var c :| c in ids && x in Snapshots(s, c);
        var t :| t in taken && c == s.temporal[(entity, t)];
        assert Edge(c, RevisedFrom, x) in s.forward;
      }
    }
  }

  lemma PartIsApart(s: State, after: State, entity: string)
    requires IsPartOf(after, s) && Apart(s, entity)
    ensures Apart(after, entity)
  {
    forall t | t in LiveTimes(after, entity)
      ensures t in LiveTimes(s, entity) && after.temporal[(entity, t)] == s.temporal[(entity, t)]
    {}
    assert TimesOf(after, entity) <= TimesOf(s, entity);
  }

  /** The keys under which records of a state are indexed. */
  function OwnKeys(s: State, ids: set<Id>): set<(string, nat)>
    requires ids <= s.records.Keys
  {
    set x | x in ids && s.records[x].entity.Some? :: (s.records[x].entity.value, s.records[x].createdAt)
  }

  /** A state without the records in `gone` and without their temporal entries. */
  lemma LeftOf(s: State, after: State, entity: string, gone: set<Id>, taken: set<nat>)
    requires Agrees(s, entity) && KeyedById(after) && gone <= s.records.Keys
    requires after.records == s.records - gone
    requires after.temporal == s.temporal - OwnKeys(s, gone)
    requires taken <= LiveTimes(s, entity) && IdsAt(s, entity, taken) <= gone
    ensures Agrees(after, entity)
    ensures LiveTimes(after, entity) <= LiveTimes(s, entity) - taken && Dangling(after, entity) <= Dangling(s, entity)
    ensures TakesOnly(s, entity, gone, taken) ==>
      LiveTimes(after, entity) == LiveTimes(s, entity) - taken && Dangling(after, entity) == Dangling(s, entity)
  {
    KeptEntries(s, after, entity, gone);
    KeptAgree(s, after, entity, gone);
    if TakesOnly(s, entity, gone, taken) {
      hide TakesOnly;
      forall t | t in TimesOf(s, entity) && t !in taken
        ensures t in TimesOf(after, entity) && (t in LiveTimes(s, entity) ==> s.temporal[(entity, t)] !in gone)
      {
        UntakenStays(s, entity, gone, taken, t);
      }
    }
  }

  lemma KeptEntries(s: State, after: State, entity: string, gone: set<Id>)
    requires Agrees(s, entity) && gone <= s.records.Keys
    requires after.temporal == s.temporal - OwnKeys(s, gone)
    ensures forall t :: t in TimesOf(after, entity) ==>
      && t in TimesOf(s, entity) && after.temporal[(entity, t)] == s.temporal[(entity, t)]
      && (t in LiveTimes(s, entity) ==> s.temporal[(entity, t)] !in gone)
  {}

  lemma KeptAgree(s: State, after: State, entity: string, gone: set<Id>)
    requires Agrees(s, entity) && KeyedById(after) && gone <= s.records.Keys
    requires after.records == s.records - gone && after.temporal == s.temporal - OwnKeys(s, gone)
    ensures Agrees(after, entity)
  {
    hide OwnKeys;
    forall t | t in LiveTimes(after, entity)
      ensures RecordAt(after, entity, t).entity == Some(entity) && RecordAt(after, entity, t).createdAt == t
    {
      assert after.temporal[(entity, t)] == s.temporal[(entity, t)];
      assert t in LiveTimes(s, entity) && RecordAt(after, entity, t) == RecordAt(s, entity, t);
    }
  }

  lemma UntakenStays(s: State, entity: string, gone: set<Id>, taken: set<nat>, t: nat)
    requires Agrees(s, entity) && gone <= s.records.Keys && TakesOnly(s, entity, gone, taken)
    requires t in TimesOf(s, entity) && t !in taken
    ensures (entity, t) !in OwnKeys(s, gone)
    ensures t in LiveTimes(s, entity) ==> s.temporal[(entity, t)] !in gone
  {}

  // ---------------------------------------------------------------------------------------
  //  Which entries a call reaches
  // ---------------------------------------------------------------------------------------

  function Before(times: set<nat>, t: nat): set<nat> {
    set x | x in times && x < t
  }

  /** How many dangling entries of the entity are older than a time. */
  function DanglingBefore(s: State, entity: string, t: nat): nat {
    |Before(Dangling(s, entity), t)|
  }

  function Live(s: State, entity: string): seq<nat> {
    SortedIds(LiveTimes(s, entity))
  }

  lemma IncreasingCount(ids: seq<nat>)
    requires Increasing(ids)
    ensures |SetOf(ids)| == |ids|
  {
    SortedIdsOf(ids);
  }

  lemma RankInSequence(ids: seq<nat>, i: nat)
    requires Increasing(ids) && i < |ids|
    ensures |Before(SetOf(ids), ids[i])| == i
  {
    assert Before(SetOf(ids), ids[i]) == SetOf(ids[..i]) by {
      forall x | x in ids && x < ids[i] ensures x in ids[..i] {
        var j :| 0 <= j < |ids| && ids[j] == x;
        assert j < i;
      }
    }
    IncreasingCount(ids[..i]);
  }

  /** The first n of a set are those with fewer than n before them. */
  lemma FirstByRank(times: set<nat>, n: nat, t: nat)
    requires t in times
    ensures t in Take(SortedIds(times), n) <==> |Before(times, t)| < n
  {
    hide SortedIds, Before, Take;
    var sorted := SortedIds(times);
    assert SetOf(sorted) == times;
    var i :| 0 <= i < |sorted| && sorted[i] == t;
    RankInSequence(sorted, i);
    var first := Take(sorted, n);
    if t in first {
      var j :| 0 <= j < |first| && first[j] == t;
      assert first[j] == sorted[j];
      RankInSequence(sorted, j);
    } else {
      assert forall j :: 0 <= j < |first| ==> first[j] == sorted[j];
    }
  }

  lemma BeforeSplits(s: State, entity: string, t: nat)
    ensures |Before(TimesOf(s, entity), t)| == |Before(LiveTimes(s, entity), t)| + DanglingBefore(s, entity, t)
  {
    hide TimesOf;
    assert Before(TimesOf(s, entity), t) == Before(LiveTimes(s, entity), t) + Before(Dangling(s, entity), t);
    assert Before(LiveTimes(s, entity), t) !! Before(Dangling(s, entity), t);
  }

  /** A live entry is looked at exactly if fewer than 2 * limit entries are older. */
  lemma LookedAtIff(s: State, entity: string, limit: nat, i: nat)
    requires i < |Live(s, entity)|
    ensures Live(s, entity)[i] in OnlyLive(s, entity, FirstTimes(s, entity, 2 * limit))
       <==> i + DanglingBefore(s, entity, Live(s, entity)[i]) < 2 * limit
  {
    hide SortedIds, OnlyLive, TimesOf, DanglingBefore, Before;
    var live := Live(s, entity);
    var t := live[i];
    assert t in live && t in LiveTimes(s, entity) && t in TimesOf(s, entity);
    FirstByRank(TimesOf(s, entity), 2 * limit, t);
    BeforeSplits(s, entity, t);
    RankInSequence(live, i);
    assert SetOf(live) == LiveTimes(s, entity);
  }

  lemma DanglingGrows(s: State, entity: string, t: nat, u: nat)
    requires t <= u
    ensures DanglingBefore(s, entity, t) <= DanglingBefore(s, entity, u) <= |Dangling(s, entity)|
  {
    hide Dangling;
    SubsetSize(Before(Dangling(s, entity), t), Before(Dangling(s, entity), u));
    SubsetSize(Before(Dangling(s, entity), u), Dangling(s, entity));
  }

  lemma SubsetSize(a: set<nat>, b: set<nat>)
    requires a <= b
    ensures |a| <= |b|
  {
    assert b == a + (b - a);
  }

  /** An increasing selection that with each time has all the older ones is a prefix. */
  lemma SelectionIsPrefix(all: seq<nat>, some: seq<nat>)
    requires Increasing(all) && Increasing(some) && forall t :: t in some ==> t in all
    requires forall i, j :: 0 <= i < j < |all| && all[j] in some ==> all[i] in some
    ensures |some| <= |all| && some == all[..|some|]
  {
    if some != [] {
      var last := some[|some| - 1];
      assert last in some;
      var k :| 0 <= k < |all| && all[k] == last;
      forall t ensures t in some <==> t in all[..k + 1] {
        if t in some {
          var i :| 0 <= i < |some| && some[i] == t;
          var j :| 0 <= j < |all| && all[j] == t;
          assert t <= last;
          assert j <= k;
        }
      }
      IncreasingUnique(some, all[..k + 1]);
    }
  }

  /** A call takes the oldest live entries, and which it takes is decided by how many entries are
      older: a whole batch exactly if no more than `limit` dangling ones are older than the last of
      the batch, otherwise those that are looked at. */
  lemma CallTakes(s: State, entity: string, limit: nat)
    requires limit >= 1
    ensures var live, taken := Live(s, entity), Taken(s, entity, limit);
      && |taken| <= |live| && taken == live[..|taken|]
      && (|taken| == limit <==> |live| >= limit && DanglingBefore(s, entity, live[limit - 1]) <= limit)
      && (|taken| < limit ==> (|taken| == |live| <==>
            |live| == 0 || |live| + DanglingBefore(s, entity, live[|live| - 1]) <= 2 * limit))
  {
    hide SortedIds, OnlyLive, FirstTimes, DanglingBefore, LiveTimes, Taken, Increasing;
    var live := Live(s, entity);
    var seen := OnlyLive(s, entity, FirstTimes(s, entity, 2 * limit));
    SeenIsPrefix(s, entity, limit);
    assert Taken(s, entity, limit) == Take(seen, limit) by { TakenOfSeen(s, entity, limit); }
    if |live| >= limit {
      LookedAtIff(s, entity, limit, limit - 1);
      InPrefix(live, |seen|, limit - 1);
    }
    if |live| > 0 {
      LookedAtIff(s, entity, limit, |live| - 1);
      InPrefix(live, |seen|, |live| - 1);
    }
  }

  lemma TakenOfSeen(s: State, entity: string, limit: nat)
    ensures Taken(s, entity, limit) == Take(OnlyLive(s, entity, FirstTimes(s, entity, 2 * limit)), limit)
  {}

  lemma InPrefix(all: seq<nat>, n: nat, i: nat)
    requires Increasing(all) && n <= |all| && i < |all|
    ensures all[i] in all[..n] <==> i < n
  {}

  lemma SeenIsPrefix(s: State, entity: string, limit: nat)
    ensures var live, seen := Live(s, entity), OnlyLive(s, entity, FirstTimes(s, entity, 2 * limit));
      |seen| <= |live| && seen == live[..|seen|] && Increasing(live)
  {
    hide SortedIds, OnlyLive, DanglingBefore, LiveTimes;
    var live, seen := Live(s, entity), OnlyLive(s, entity, FirstTimes(s, entity, 2 * limit));
    forall i, j | 0 <= i < j < |live| && live[j] in seen ensures live[i] in seen {
      LookedAtIff(s, entity, limit, i);
      LookedAtIff(s, entity, limit, j);
      DanglingGrows(s, entity, live[i], live[j]);
    }
    SelectionIsPrefix(live, seen);
  }

  // ---------------------------------------------------------------------------------------
  //  One call
  // ---------------------------------------------------------------------------------------

  lemma TakenCount(s: State, entity: string, limit: nat)
    requires limit >= 1
    ensures |SetOf(Taken(s, entity, limit))| == |Taken(s, entity, limit)| && |Live(s, entity)| == |LiveTimes(s, entity)|
    ensures SetOf(Taken(s, entity, limit)) <= LiveTimes(s, entity)
  {
    hide Taken, LiveTimes, SortedIds, DanglingBefore;
    CallTakes(s, entity, limit);
    IncreasingCount(Taken(s, entity, limit));
  }

  lemma Leaves(all: set<nat>, gone: set<nat>, left: set<nat>)
    requires gone <= all && left <= all - gone
    ensures |left| <= |all| - |gone|
  {
    assert |all - gone| == |all| - |gone|;
    SubsetSize(left, all - gone);
  }

  /** One call for an entity says that it was cut off exactly if it took a whole batch, which it does
      if that many entries are live and no more dangling ones than fit the batch are older. It leaves
      what `CallLeaves` says. With at most a batch of dangling entries the number of live ones
      decides, and a call that is not cut off leaves none. */
  lemma EntityCall(s: State, config: ForgetConfig, entity: string, now: nat)
    requires Agrees(s, entity) && Paired(s) && BatchLimit(config) >= 1
    ensures var after := AfterForget(s, config, EntityOnly(entity), now);
      var live, limit := Live(s, entity), BatchLimit(config);
      && Agrees(after, entity) && Paired(after)
      && Dangling(after, entity) <= Dangling(s, entity)
      && Output(s, config, EntityOnly(entity)).Ok?
      && var truncated := Output(s, config, EntityOnly(entity)).value.truncated;
      && (truncated <==> |live| >= limit && DanglingBefore(s, entity, live[limit - 1]) <= limit)
      && (truncated ==> |LiveTimes(after, entity)| <= |live| - limit)
      && (|Dangling(s, entity)| <= limit ==>
            (truncated <==> |live| >= limit) && (!truncated ==> LiveTimes(after, entity) == {}))
  {
    hide AfterForget, Output, Taken, Agrees, LiveTimes, SortedIds, DanglingBefore, BatchLimit, Paired, Dangling,
      IdsAt, IsPartOf, Live, IsEmpty, Forgotten, RecordsAt, TakesNoOthers, Cascaded;
    var limit, live, taken := BatchLimit(config), Live(s, entity), Taken(s, entity, BatchLimit(config));
    var after := AfterForget(s, config, EntityOnly(entity), now);
    CallForgets(s, config, entity, now);
    CallLeaves(s, config, entity, now);
    CallTakes(s, entity, limit);
    TakenCount(s, entity, limit);
    Leaves(LiveTimes(s, entity), SetOf(taken), LiveTimes(after, entity));
    forall t ensures DanglingBefore(s, entity, t) <= |Dangling(s, entity)| { DanglingGrows(s, entity, t, t); }
  }

  /** A call can say that it was cut off and yet leave nothing of the entity: exactly when the last
      live entry completes the batch, if snapshots have no entries of their own or nothing cascades. */
  lemma CutOffWithNothingLeftIff(s: State, config: ForgetConfig, entity: string, now: nat)
    requires Agrees(s, entity) && Paired(s) && BatchLimit(config) >= 1 && TakesNoOthers(s, config, entity)
    ensures var after := AfterForget(s, config, EntityOnly(entity), now);
      var live, limit := Live(s, entity), BatchLimit(config);
      && Output(s, config, EntityOnly(entity)).Ok?
      && (Output(s, config, EntityOnly(entity)).value.truncated && LiveTimes(after, entity) == {}
          <==> |live| == limit && DanglingBefore(s, entity, live[limit - 1]) <= limit)
  {
    hide AfterForget, Output, Taken, Agrees, LiveTimes, SortedIds, DanglingBefore, BatchLimit, Paired, Dangling,
      IdsAt, IsPartOf, Live, IsEmpty, Forgotten, RecordsAt, TakesNoOthers, Cascaded;
    var limit, taken := BatchLimit(config), Taken(s, entity, BatchLimit(config));
    CallForgets(s, config, entity, now);
    CallLeaves(s, config, entity, now);
    CallTakes(s, entity, limit);
    TakenCount(s, entity, limit);
    AllTaken(LiveTimes(s, entity), SetOf(taken));
  }

  lemma AllTaken(all: set<nat>, taken: set<nat>)
    requires taken <= all
    ensures all - taken == {} <==> |taken| == |all|
  {
    assert |all - taken| == |all| - |taken|;
  }

  /** One live entry and a batch of one are such a case, cascading or not. */
  lemma CutOffWithNothingLeft(m: Memory, entity: string, s: State, config: ForgetConfig, now: nat)
    requires config.maxBatch == 1 && m.entity == Some(entity) && m.createdAt < END_OF_TIME
    requires s.records == map[m.id := m] && s.temporal == map[(entity, m.createdAt) := m.id]
    requires s.forward == map[] && s.reverse == map[]
    ensures Output(s, config, EntityOnly(entity)).Ok? && Output(s, config, EntityOnly(entity)).value.truncated
    ensures AfterForget(s, config, EntityOnly(entity), now).records == map[]
    ensures AfterForget(s, config, EntityOnly(entity), now).temporal == map[]
  {
    hide AfterForget, Output, Forgotten, DanglingBefore, SortedIds, Taken;
    OnlyEntry(m, entity, s);
    var after := AfterForget(s, config, EntityOnly(entity), now);
    CallLeaves(s, config, entity, now);
    CutOffWithNothingLeftIff(s, config, entity, now);
    NoEntryLeft(s, after, entity);
  }

  lemma NoEntryLeft(s: State, after: State, entity: string)
    requires IsPartOf(after, s) && LiveTimes(after, entity) == Dangling(after, entity) == {}
    requires forall k :: k in s.temporal ==> k.0 == entity && k.1 < END_OF_TIME
    ensures after.temporal == map[]
  {
    assert TimesOf(after, entity) == {};
    assert forall k :: k in after.temporal ==> k.1 in TimesOf(after, entity);
  }

  lemma OnlyEntry(m: Memory, entity: string, s: State)
    requires m.entity == Some(entity) && m.createdAt < END_OF_TIME
    requires s.records == map[m.id := m] && s.temporal == map[(entity, m.createdAt) := m.id]
    ensures Agrees(s, entity) && LiveTimes(s, entity) == {m.createdAt} && Dangling(s, entity) == {}
    ensures Live(s, entity) == [m.createdAt] && DanglingBefore(s, entity, m.createdAt) == 0
  {
    assert TimesOf(s, entity) == {m.createdAt} by { assert (entity, m.createdAt) in s.temporal; }
    assert LiveTimes(s, entity) == {m.createdAt} && Dangling(s, entity) == {};
    hide LiveTimes, Dangling, SortedIds, TimesOf;
    assert SetOf([m.createdAt]) == {m.createdAt};
    SortedIdsOf([m.createdAt]);
    assert Before({}, m.createdAt) == {};
  }
}
