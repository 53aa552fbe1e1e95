/** `auto_forget` of engine.rs: the candidates that decay sweeps have listed are forgotten and the
    list is cleared. */
module AutoForget {
  import opened Results
  import opened Sequences
  import opened Memories
  import opened IdOrder
  import opened Store
  import opened Revisions
  import opened Forgetting
  import opened ForgetProperties

  function Refs(ids: seq<Id>): (refs: seq<IdRef>)
    ensures |refs| == |ids|
    ensures forall i :: 0 <= i < |ids| ==> refs[i] == Ref(ids[i])
  {
    seq(|ids|, i requires 0 <= i < |ids| => Ref(ids[i]))
  }

  /** Criteria for the listed candidates, in key order, which is the order of their hex digits. */
  function CandidateCriteria(listed: set<Id>): Criteria {
    Criteria(Refs(SortedIds(listed)), None, None, None, None, None)
  }

  class CandidateList {
    var listed: set<Id>

    constructor (listed: set<Id>)
      ensures this.listed == listed
    {
      this.listed := listed;
    }

    /** auto_forget */
    method AutoForget(db: Database, config: ForgetConfig, now: nat) returns (result: Result<ForgetOutput, ForgetError>)
      modifies this, db
      ensures old(listed) == {} ==>
          result == Ok(ForgetOutput(0, 0, false, 0)) && db.state == old(db.state) && listed == {}
      ensures old(listed) != {} ==>
        && result == Output(old(db.state), config, CandidateCriteria(old(listed)))
        && db.state == AfterForget(old(db.state), config, CandidateCriteria(old(listed)), now)
        && listed == if result.Ok? then {} else old(listed)
    {
      hide Output, AfterForget, SortedIds;
      if listed == {} {
        return Ok(ForgetOutput(0, 0, false, 0));
      }
      result := Forget(db, config, CandidateCriteria(listed), now);
      if result.Ok? {
        listed := {};
      }
    }
  }

  // ---------------------------------------------------------------------------------------
  //  Which candidates are forgotten
  // ---------------------------------------------------------------------------------------

  lemma RefsOneMore(ids: seq<Id>)
    requires ids != []
    ensures Refs(ids)[..|ids| - 1] == Refs(ids[..|ids| - 1]) && Refs(ids)[|ids| - 1] == Ref(ids[|ids| - 1])
  {}

  lemma {:induction false} RefsResolve(s: State, ids: seq<Id>, limit: nat)
    ensures ByIds(s, Refs(ids), limit) == Ok(Take(Existing(s, ids), limit))
  {
    hide Refs, Take;
    if ids == [] {
      assert Take<Memory>([], limit) == [];
    } else {
      var init, last := ids[..|ids| - 1], ids[|ids| - 1];
      RefsOneMore(ids);
      RefsResolve(s, init, limit);
      if last in s.records {
        TakeOneMore(Existing(s, init), s.records[last], limit);
      }
    }
  }

  lemma TakeOneMore<T>(items: seq<T>, item: T, limit: nat)
    ensures Take(items + [item], limit) == if |Take(items, limit)| >= limit then Take(items, limit)
        else Take(items, limit) + [item]
  {}

  /** The listed ids that are still those of records, in ascending order. */
  function Present(s: State, listed: set<Id>): seq<Id> {
    SortedIds(listed * s.records.Keys)
  }

  function OnlyPresent(s: State, ids: seq<Id>): (present: seq<Id>)
    ensures forall x :: x in present <==> x in ids && x in s.records
  {
    if ids == [] then []
    else
      var init, last := ids[..|ids| - 1], ids[|ids| - 1];
      assert forall x :: x in ids <==> x in init || x == last;
      if last in s.records then OnlyPresent(s, init) + [last] else OnlyPresent(s, init)
  }

  lemma {:induction false} ExistingIsPresent(s: State, ids: seq<Id>)
    requires Increasing(ids)
    ensures Existing(s, ids) == Existing(s, OnlyPresent(s, ids)) && Increasing(OnlyPresent(s, ids))
  {
    if ids != [] {
      var init, last := ids[..|ids| - 1], ids[|ids| - 1];
      ExistingIsPresent(s, init);
      var before := OnlyPresent(s, init);
      forall i | 0 <= i < |before| ensures before[i] < last {
        assert before[i] in before;
      }
      assert (before + [last])[..|before|] == before;
    }
  }

  /** An auto-forget takes the listed memories that still exist, oldest id first, as many as fit one
      batch. */
  lemma ListedCandidates(s: State, config: ForgetConfig, listed: set<Id>)
    requires listed != {}
    ensures var taken := Take(Present(s, listed), BatchLimit(config));
      && (forall x :: x in taken ==> x in s.records)
      && Candidates(s, CandidateCriteria(listed), BatchLimit(config)) == Ok(Existing(s, taken))
  {
    hide SortedIds, Existing, ByIds, Increasing, Take;
    var sorted, present, limit := SortedIds(listed), Present(s, listed), BatchLimit(config);
    RefsResolve(s, sorted, limit);
    ExistingIsPresent(s, sorted);
    IncreasingUnique(OnlyPresent(s, sorted), present);
    ExistingOfPrefix(s, present, limit);
    assert CandidateCriteria(listed).ids != [] by { assert |sorted| == |listed|; }
  }

  lemma ExistingOfPrefix(s: State, ids: seq<Id>, limit: nat)
    requires forall x :: x in ids ==> x in s.records
    ensures Take(Existing(s, ids), limit) == Existing(s, Take(ids, limit))
  {
    ExistingAll(s, ids);
    ExistingAll(s, Take(ids, limit));
  }

  /** After an auto-forget exactly those are gone, with their snapshots if it cascades. The list is
      cleared all the same: a candidate beyond the batch is kept and no longer listed. */
  lemma AutoForgetForgets(s: State, config: ForgetConfig, listed: set<Id>, now: nat)
    requires listed != {} && Paired(s) && KeyedById(s)
    ensures var after, taken := AfterForget(s, config, CandidateCriteria(listed), now),
        Take(Present(s, listed), BatchLimit(config));
      && Output(s, config, CandidateCriteria(listed)).Ok?
      && after.records
         == s.records - (set x | x in s.records
             && (x in taken || (config.cascade && exists c :: c in taken && x in Snapshots(s, c))))
      && (!config.cascade ==> forall x :: x in Present(s, listed) && x !in taken ==> x in after.records)
  {
    hide SortedIds, Candidates, Forgotten, Snapshots, Doomed, Take, EdgesAt, Output, AfterForget, CandidateCriteria,
        Paired,
      KeyedById, Existing, Present, BatchLimit, Gone, IsEmpty;
    var taken := Take(Present(s, listed), BatchLimit(config));
    var candidates := Existing(s, taken);
    NotEmpty(listed);
    ForgetOf(s, config, CandidateCriteria(listed), now);
    ListedCandidates(s, config, listed);
    ExistingIs(s, taken);
    ForgetRemovesExactly(s, config, candidates, now);
    ListedGone(s, config, taken);
    PresentAreRecords(s, listed);
  }

  lemma PresentAreRecords(s: State, listed: set<Id>)
    ensures forall x :: x in Present(s, listed) ==> x in s.records
  {}

  lemma NotEmpty(listed: set<Id>)
    requires listed != {}
    ensures !IsEmpty(CandidateCriteria(listed))
  {
    assert |SortedIds(listed)| == |listed|;
  }

  lemma ForgetOf(s: State, config: ForgetConfig, c: Criteria, now: nat)
    requires !IsEmpty(c)
    ensures match Candidates(s, c, BatchLimit(config))
      case Err(_) => Output(s, config, c).Err? && AfterForget(s, config, c, now) == s
      case Ok(candidates) =>
        Output(s, config, c).Ok? && AfterForget(s, config, c, now) == Forgotten(s, config, candidates, now)
  {
    hide Candidates, Forgotten, IsEmpty, Doomed, BatchLimit;
  }

  lemma ListedGone(s: State, config: ForgetConfig, taken: seq<Id>)
    requires KeyedById(s) && forall x :: x in taken ==> x in s.records
    ensures Gone(s, config, Existing(s, taken))
         == set x | x in s.records && (x in taken || (config.cascade && exists c :: c in taken && x in Snapshots(s, c)))
  {
    hide Snapshots, Existing;
    ExistingIs(s, taken);
    var candidates := Existing(s, taken);
    forall x | x in taken ensures s.records[x] in candidates {
      assert IsRecord(s, s.records[x]);
    }
    forall x ensures x in IdsOf(candidates) <==> x in taken {
      if x in taken { assert s.records[x] in candidates && s.records[x].id == x; }
    }
    forall x | x in s.records
      ensures (exists c :: c in candidates && x in Snapshots(s, c.id))
          <==> (exists c :: c in taken && x in Snapshots(s, c))
    {
      if c :| c in taken && x in Snapshots(s, c) {
        assert s.records[c] in candidates && x in Snapshots(s, s.records[c].id);
      }
    }
  }

  /** A memory that is listed alone is forgotten, whatever its score has become. */
  lemma ListedIsForgotten(s: State, config: ForgetConfig, x: Id, now: nat)
    requires Paired(s) && KeyedById(s) && x in s.records && BatchLimit(config) >= 1
    ensures x !in AfterForget(s, config, CandidateCriteria({x}), now).records
  {
    hide AfterForget, Output, Snapshots, Paired, KeyedById, BatchLimit, SortedIds;
    AutoForgetForgets(s, config, {x}, now);
    assert {x} * s.records.Keys == {x};
    var present := Present(s, {x});
    assert |present| == 1 && x in present;
    assert Take(present, BatchLimit(config)) == present;
  }
}
