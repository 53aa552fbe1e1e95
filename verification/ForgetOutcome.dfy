/** What becomes of a record in a forget, by its own fields, and what the forget reports. */
module ForgetOutcome {
  import opened Results
  import opened Sequences
  import opened Memories
  import opened IdOrder
  import opened Store
  import opened Revisions
  import opened Forgetting
  import opened ForgetProperties
  import opened Truncation

  // ---------------------------------------------------------------------------------------
  //  Which records go
  // ---------------------------------------------------------------------------------------

  /** Everything that is asked for, of the record under an id: named if any are named, of the entity
      and on its index, of the kind, and below every bound given. */
  predicate IsAskedFor(s: State, c: Criteria, x: Id)
    requires x in s.records
  {
    var m := s.records[x];
    && (c.ids == [] || exists i :: 0 <= i < |c.ids| && c.ids[i] == Ref(x))
    && (c.entity == None ||
          (m.entity == c.entity
           && exists k :: k in s.temporal && s.temporal[k] == x && Some(k.0) == c.entity && k.1 < END_OF_TIME))
    && (c.kind == None || c.kind == Some(m.kind))
    && !(c.staleBefore.Some? && c.staleBefore.value <= m.lastAccessedAt)
    && !(c.accessBelow.Some? && c.accessBelow.value <= m.accessCount)
    && !(c.decayBelow.Some? && c.decayBelow.value <= m.decayScore)
  }

  /** No record that is still there was revised from this one, or is said to have been. */
  predicate IsNobodysSource(s: State, x: Id) {
    forall e :: e in s.forward && e.target == x ==> e.kind != RevisedFrom
  }

  lemma AskedForIff(s: State, c: Criteria, x: Id)
    requires KeyedById(s) && x in s.records
    ensures IsAskedFor(s, c, x) <==> Reachable(s, c, s.records[x]) && Matches(s.records[x], c)
  {
    IndexedIff(s, c, x);
    assert Ref(x) in c.ids <==> exists i :: 0 <= i < |c.ids| && c.ids[i] == Ref(x);
  }

  lemma IndexedIff(s: State, c: Criteria, x: Id)
    requires KeyedById(s) && x in s.records
    ensures Reachable(s, c, s.records[x])
       <==> c.entity == None
            || exists k :: k in s.temporal && s.temporal[k] == x && Some(k.0) == c.entity && k.1 < END_OF_TIME
  {
    if c.entity.Some? {
      if k :| k in s.temporal && s.temporal[k] == x && Some(k.0) == c.entity && k.1 < END_OF_TIME {
        assert k.1 in TimesOf(s, c.entity.value) && k == (c.entity.value, k.1);
      }
      if t :| t in TimesOf(s, c.entity.value) && s.temporal[(c.entity.value, t)] == x {
        assert (c.entity.value, t) in s.temporal;
      }
    }
  }

  /** After a forget that is not cut off and whose scan sees everything, a record that no cascade takes
      is gone exactly if it is what was asked for. */
  lemma ForgottenIffAskedFor(s: State, config: ForgetConfig, c: Criteria, now: nat, x: Id)
    requires KeyedById(s) && Paired(s) && x in s.records && BatchLimit(config) >= 1
    requires Output(s, config, c).Ok? && !Output(s, config, c).value.truncated && SeesAll(s, c, BatchLimit(config))
    requires config.cascade ==> IsNobodysSource(s, x)
    ensures x !in AfterForget(s, config, c, now).records <==> IsAskedFor(s, c, x)
  {
    hide Candidates, AfterForget, BatchLimit, Doomed, Paired, Reachable, Matches, SeesAll, IsAskedFor, Gone, Forgotten,
      IsRecord, EdgesAt;
    var limit := BatchLimit(config);
    assert !IsEmpty(c) && Candidates(s, c, limit).Ok?;
    var candidates := Candidates(s, c, limit).value;
    ForgetsCandidates(s, config, c, now);
    CandidatesMatch(s, c, limit);
    UntruncatedIsComplete(s, c, limit);
    ForgetRemovesExactly(s, config, candidates, now);
    CandidatesAreMatching(s, c, limit);
    AskedForIff(s, c, x);
    OwnRecord(s, x);
    GoneIffCandidate(s, config, candidates, x);
    assert x in IdsOf(candidates) ==> x in Matching(s, c);
  }

  lemma OwnRecord(s: State, x: Id)
    requires KeyedById(s) && x in s.records
    ensures IsRecord(s, s.records[x]) && s.records[x].id == x
  {}

  lemma GoneIffCandidate(s: State, config: ForgetConfig, candidates: seq<Memory>, x: Id)
    requires x in s.records && KeyedById(s) && forall m :: m in candidates ==> IsRecord(s, m)
    requires config.cascade ==> IsNobodysSource(s, x)
    ensures x in Gone(s, config, candidates) <==> x in IdsOf(candidates)
    ensures x in IdsOf(candidates) <==> s.records[x] in candidates
  {
    if config.cascade {
      forall c: Memory ensures x !in Snapshots(s, c.id) { NotSnapshot(s, x, c.id); }
    }
  }

  lemma NotSnapshot(s: State, x: Id, id: Id)
    requires IsNobodysSource(s, x)
    ensures x !in Snapshots(s, id)
  {}

  /** For each of the three bounds alone, over a store that the scan sees. */
  lemma BelowIsForgotten(s: State, config: ForgetConfig, now: nat, x: Id, bound: nat, floor: real)
    requires KeyedById(s) && Paired(s) && x in s.records && |s.records.Keys| <= 2 * BatchLimit(config)
    requires BatchLimit(config) >= 1 && (config.cascade ==> IsNobodysSource(s, x))
    ensures var stale := Criteria([], None, Some(bound), None, None, None);
      Output(s, config, stale).Ok?
      && (!Output(s, config, stale).value.truncated ==>
            (x !in AfterForget(s, config, stale, now).records <==> s.records[x].lastAccessedAt < bound))
    ensures var rare := Criteria([], None, None, Some(bound), None, None);
      Output(s, config, rare).Ok?
      && (!Output(s, config, rare).value.truncated ==>
            (x !in AfterForget(s, config, rare, now).records <==> s.records[x].accessCount < bound))
    ensures var faded := Criteria([], None, None, None, None, Some(floor));
      Output(s, config, faded).Ok?
      && (!Output(s, config, faded).value.truncated ==>
            (x !in AfterForget(s, config, faded, now).records <==> s.records[x].decayScore < floor))
  {
    hide AfterForget, Output, BatchLimit, Paired, KeyedById, IsNobodysSource, SeesAll;
    ScanForgets(s, config, Criteria([], None, Some(bound), None, None, None), now, x);
    ScanForgets(s, config, Criteria([], None, None, Some(bound), None, None), now, x);
    ScanForgets(s, config, Criteria([], None, None, None, None, Some(floor)), now, x);
  }

  lemma ScanForgets(s: State, config: ForgetConfig, c: Criteria, now: nat, x: Id)
    requires KeyedById(s) && Paired(s) && x in s.records && |s.records.Keys| <= 2 * BatchLimit(config)
    requires BatchLimit(config) >= 1 && (config.cascade ==> IsNobodysSource(s, x))
    requires c.ids == [] && c.entity == None && !IsEmpty(c)
    ensures Output(s, config, c).Ok?
    ensures !Output(s, config, c).value.truncated ==>
      (x !in AfterForget(s, config, c, now).records <==> IsAskedFor(s, c, x))
  {
    hide AfterForget, Output, BatchLimit, Paired, KeyedById, IsNobodysSource, SeesAll, IsAskedFor, IsEmpty;
    ScansAll(s, config, c);
    if !Output(s, config, c).value.truncated { ForgottenIffAskedFor(s, config, c, now, x); }
  }

  lemma ScansAll(s: State, config: ForgetConfig, c: Criteria)
    requires c.ids == [] && c.entity == None && !IsEmpty(c) && |s.records.Keys| <= 2 * BatchLimit(config)
    ensures Output(s, config, c).Ok? && SeesAll(s, c, BatchLimit(config))
  {
    hide Existing, Filtered, Doomed, BatchLimit, SortedIds, Take;
  }

  // ---------------------------------------------------------------------------------------
  //  When it is refused
  // ---------------------------------------------------------------------------------------

  /** How many of the first n ids given are those of records. */
  function Known(s: State, refs: seq<IdRef>, n: nat): nat
    requires n <= |refs|
  {
    if n == 0 then 0
    else Known(s, refs, n - 1) + if refs[n - 1].Ref? && refs[n - 1].id in s.records then 1 else 0
  }

  lemma {:induction false} KnownOfPrefix(s: State, refs: seq<IdRef>, n: nat, k: nat)
    requires k <= n <= |refs|
    ensures Known(s, refs[..n], k) == Known(s, refs, k)
  {
    if k > 0 {
      KnownOfPrefix(s, refs, n, k - 1);
    }
  }

  /** An id that is malformed is met before the limit is reached. */
  predicate MeetsMalformed(s: State, refs: seq<IdRef>, limit: nat) {
    exists i :: 0 <= i < |refs| && refs[i].Malformed? && Known(s, refs, i) < limit
  }

  lemma {:induction false} ByIdsRefusedIff(s: State, refs: seq<IdRef>, limit: nat)
    ensures ByIds(s, refs, limit).Err? <==> MeetsMalformed(s, refs, limit)
    ensures ByIds(s, refs, limit).Ok? ==>
      |ByIds(s, refs, limit).value| == if Known(s, refs, |refs|) < limit then Known(s, refs, |refs|) else limit
  {
    if refs != [] {
      hide MeetsMalformed;
      var n := |refs| - 1;
      ByIdsRefusedIff(s, refs[..n], limit);
      KnownOfPrefix(s, refs, n, n);
      OneMoreRefused(s, refs, limit);
    } else {
      assert !MeetsMalformed(s, refs, limit);
    }
  }

  lemma OneMoreRefused(s: State, refs: seq<IdRef>, limit: nat)
    requires refs != []
    ensures var n := |refs| - 1;
      MeetsMalformed(s, refs, limit)
      <==> MeetsMalformed(s, refs[..n], limit) || (refs[n].Malformed? && Known(s, refs, n) < limit)
  {
    hide Known;
    var n := |refs| - 1;
    var init := refs[..n];
    forall i: nat | i < n ensures init[i] == refs[i] && Known(s, init, i) == Known(s, refs, i) {
      KnownOfPrefix(s, refs, n, i);
    }
    if MeetsMalformed(s, init, limit) {
      var i :| 0 <= i < |init| && init[i].Malformed? && Known(s, init, i) < limit;
      assert refs[i].Malformed? && Known(s, refs, i) < limit;
    }
    if MeetsMalformed(s, refs, limit) {
      var i :| 0 <= i < |refs| && refs[i].Malformed? && Known(s, refs, i) < limit;
      assert i < n ==> init[i].Malformed? && Known(s, init, i) < limit;
    }
  }

  lemma {:induction false} KnownAtMost(s: State, refs: seq<IdRef>, n: nat)
    requires n <= |refs|
    ensures Known(s, refs, n) <= n
  {
    if n > 0 {
      KnownAtMost(s, refs, n - 1);
    }
  }

  /** A forget is refused exactly if nothing is asked for, or an id that is looked at is malformed:
      with ids alone those up to the limit are, together with other criteria all of them, and none if
      there is an entity. */
  lemma RefusedIff(s: State, config: ForgetConfig, c: Criteria)
    ensures Output(s, config, c).Err?
       <==> || c == Criteria([], None, None, None, None, None)
            || (c.entity == None
                && (if c == Criteria(c.ids, None, None, None, None, None)
                    then MeetsMalformed(s, c.ids, BatchLimit(config))
                    else exists i :: 0 <= i < |c.ids| && c.ids[i] == Malformed))
  {
    hide Existing, Filtered, Doomed, BatchLimit, SortedIds, Take, ByIds, FirstTimes, AtTimes;
    ByIdsRefusedIff(s, c.ids, BatchLimit(config));
    ByIdsRefusedIff(s, c.ids, |c.ids|);
    forall i: nat | i < |c.ids| ensures Known(s, c.ids, i) < |c.ids| { KnownAtMost(s, c.ids, i); }
  }

  // ---------------------------------------------------------------------------------------
  //  What it reports
  // ---------------------------------------------------------------------------------------

  /** What a candidate takes along: itself and, with cascading, its snapshots. */
  function TakenWith(s: State, config: ForgetConfig, m: Memory): set<Id> {
    {m.id} + if config.cascade then Snapshots(s, m.id) * s.records.Keys else {}
  }

  /** No record is taken twice: no candidate is its own snapshot, and no two take the same record. */
  predicate TakesNoneTwice(s: State, config: ForgetConfig, candidates: seq<Memory>) {
    && (forall i :: 0 <= i < |candidates| && config.cascade ==> candidates[i].id !in Snapshots(s, candidates[i].id))
    && forall i, j :: 0 <= i < j < |candidates| ==>
         TakenWith(s, config, candidates[i]) !! TakenWith(s, config, candidates[j])
  }

  lemma DistinctTogether(a: seq<Memory>, b: seq<Memory>)
    ensures Distinct(a + b) <==> Distinct(a) && Distinct(b) && IdsOf(a) !! IdsOf(b)
    ensures IdsOf(a + b) == IdsOf(a) + IdsOf(b)
  {
    if Distinct(a + b) {
      assert forall i :: 0 <= i < |a| ==> (a + b)[i] == a[i];
      assert forall i :: 0 <= i < |b| ==> (a + b)[|a| + i] == b[i];
    }
    assert forall m :: m in a + b <==> m in a || m in b;
    if IdsOf(a) !! IdsOf(b) {
      forall i, j | 0 <= i < |a| && 0 <= j < |b| ensures a[i].id != b[j].id {
        assert a[i] in a && b[j] in b && a[i].id in IdsOf(a) && b[j].id in IdsOf(b);
      }
    }
  }

  lemma OwnPart(s: State, config: ForgetConfig, m: Memory)
    requires KeyedById(s)
    ensures var part := [m] + Cascade(s, config, m.id);
      && IdsOf(part) == TakenWith(s, config, m)
      && (Distinct(part) <==> (config.cascade && m.id in s.records ==> m.id !in Snapshots(s, m.id)))
  {
    hide Snapshots, SortedIds, Existing;
    var cascade := Cascade(s, config, m.id);
    DistinctTogether([m], cascade);
    assert IdsOf([m]) == {m.id} by { assert m in [m]; }
    if config.cascade {
      var ids := SortedIds(Snapshots(s, m.id));
      ExistingIs(s, ids);
      DistinctExisting(s, ids);
      forall x | x in Snapshots(s, m.id) && x in s.records ensures x in IdsOf(cascade) {
        OwnRecord(s, x);
        assert s.records[x] in cascade;
      }
    }
  }

  lemma {:induction false} DoomedTakes(s: State, config: ForgetConfig, candidates: seq<Memory>)
    requires KeyedById(s) && forall m :: m in candidates ==> IsRecord(s, m)
    ensures forall x :: x in IdsOf(Doomed(s, config, candidates)) <==>
      exists i :: 0 <= i < |candidates| && x in TakenWith(s, config, candidates[i])
    ensures Distinct(Doomed(s, config, candidates)) <==> TakesNoneTwice(s, config, candidates)
  {
    hide Cascade, TakenWith, Snapshots, Distinct, IdsOf;
    if candidates == [] {
      NoneDoomed(s, config);
    } else {
      var n := |candidates| - 1;
      var init, last := candidates[..n], candidates[n];
      DoomedTakes(s, config, init);
      OwnPart(s, config, last);
      DistinctTogether(Doomed(s, config, init), [last] + Cascade(s, config, last.id));
      assert last in candidates;
      assert forall i :: 0 <= i < n ==> init[i] == candidates[i];
      assert TakesNoneTwice(s, config, candidates)
        <==> (TakesNoneTwice(s, config, init) && (config.cascade ==> last.id !in Snapshots(s, last.id))
              && forall i :: 0 <= i < n ==> TakenWith(s, config, candidates[i]) !! TakenWith(s, config, last)) by {
        OneMoreTaken(s, config, candidates);
      }
    }
  }

  lemma NoneDoomed(s: State, config: ForgetConfig)
    ensures Doomed(s, config, []) == [] && IdsOf([]) == {} && Distinct([])
  {}

  lemma OneMoreTaken(s: State, config: ForgetConfig, candidates: seq<Memory>)
    requires candidates != []
    ensures var n := |candidates| - 1;
      TakesNoneTwice(s, config, candidates)
      <==> (TakesNoneTwice(s, config, candidates[..n])
            && (config.cascade ==> candidates[n].id !in Snapshots(s, candidates[n].id))
            && forall i :: 0 <= i < n ==> TakenWith(s, config, candidates[i]) !! TakenWith(s, config, candidates[n]))
  {
    hide TakenWith, Snapshots;
    var init := candidates[..|candidates| - 1];
    assert forall i :: 0 <= i < |init| ==> init[i] == candidates[i];
  }

  lemma {:induction false} AtMostAsMany(memories: seq<Memory>)
    ensures |IdsOf(memories)| <= |memories|
    ensures |IdsOf(memories)| == |memories| <==> Distinct(memories)
  {
    if memories == [] {
      assert IdsOf(memories) == {};
    } else {
      var init, last := memories[..|memories| - 1], memories[|memories| - 1];
      AtMostAsMany(init);
      DistinctTogether(init, [last]);
      assert memories == init + [last];
      assert IdsOf([last]) == {last.id} by { assert last in [last]; }
      if last.id in IdsOf(init) {
        assert IdsOf(memories) == IdsOf(init);
      } else {
        assert IdsOf(memories) == IdsOf(init) + {last.id};
      }
    }
  }

  /** A forget reports at least as many forgotten and cascaded memories as records go, and exactly as
      many if and only if none is taken twice. There is a tombstone for every forgotten one. */
  lemma ReportedIff(s: State, config: ForgetConfig, c: Criteria, now: nat)
    requires KeyedById(s) && Paired(s) && Output(s, config, c).Ok?
    ensures Candidates(s, c, BatchLimit(config)).Ok?
    ensures var out, after := Output(s, config, c).value, AfterForget(s, config, c, now);
      && out.forgotten == out.tombstones == |Candidates(s, c, BatchLimit(config)).value|
      && |s.records.Keys| - |after.records.Keys| <= out.forgotten + out.cascaded
      && (|s.records.Keys| - |after.records.Keys| == out.forgotten + out.cascaded
          <==> TakesNoneTwice(s, config, Candidates(s, c, BatchLimit(config)).value))
  {
    hide Candidates, AfterForget, BatchLimit, Paired, Gone, Forgotten, EdgesAt, TakesNoneTwice, Snapshots, Doomed,
      IsRecord;
    var candidates := Candidates(s, c, BatchLimit(config)).value;
    ForgetsCandidates(s, config, c, now);
    CandidatesMatch(s, c, BatchLimit(config));
    ForgetRemovesExactly(s, config, candidates, now);
    IdsOfRecords(s, config, candidates);
    DoomedTakes(s, config, candidates);
    AtMostAsMany(Doomed(s, config, candidates));
    GoneAreRecords(s, config, candidates);
    FewerRecords(s.records.Keys, Gone(s, config, candidates));
    assert AfterForget(s, config, c, now).records.Keys == s.records.Keys - Gone(s, config, candidates);
  }

  lemma GoneAreRecords(s: State, config: ForgetConfig, candidates: seq<Memory>)
    ensures Gone(s, config, candidates) <= s.records.Keys
  {}

  lemma FewerRecords(all: set<Id>, gone: set<Id>)
    requires gone <= all
    ensures |all - gone| == |all| - |gone|
  {}
}
