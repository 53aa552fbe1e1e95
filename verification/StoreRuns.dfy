/** Runs of all the operations that change the memory store, in any order: checks and commits of
    contradictions, added edges, revisions, forgets and auto-forgets. */
module StoreRuns {
  import opened Results
  import opened Memories
  import opened Store
  import opened Revisions
  import opened Forgetting
  import opened ForgetProperties
  import opened EntityCalls
  import opened EntityForgetting
  import opened IndexAgreement
  import AutoForget
  import Contradictions
  import Lineage

  datatype Command =
    | Reconcile(command: Contradictions.Command)
    | ReviseOne(engine: Engine, input: ReviseInput, now: nat, snapshot: Id)
    | ForgetBy(config: ForgetConfig, criteria: Criteria, now: nat)
    | ForgetListed(config: ForgetConfig, listed: set<Id>, now: nat)

  function Done(s: State, command: Command): State {
    match command
    case Reconcile(command) => Contradictions.Done(s, command)
    case ReviseOne(engine, input, now, snapshot) => AfterRevise(engine, s, input, now, snapshot)
    case ForgetBy(config, criteria, now) => AfterForget(s, config, criteria, now)
    case ForgetListed(config, listed, now) =>
      if listed == {} then s else AfterForget(s, config, AutoForget.CandidateCriteria(listed), now)
  }

  function AllDone(s: State, run: seq<Command>): State {
    if run == [] then s else Done(AllDone(s, run[..|run| - 1]), run[|run| - 1])
  }

  /** Contradicts edges are left to checks and commits. */
  predicate AddsNoContradicts(command: Command) {
    match command
    case Reconcile(command) => Contradictions.AddsNoContradicts(command)
    case ReviseOne(_, input, _, _) => forall e :: e in input.edges ==> e.kind != Contradicts
    case _ => true
  }

  ghost predicate IsSound(s: State) {
    Paired(s) && Symmetric(s) && KeyedById(s)
  }

  predicate TakenBy(s: State, config: ForgetConfig, criteria: Criteria, id: Id) {
    && !IsEmpty(criteria)
    && Candidates(s, criteria, BatchLimit(config)).Ok?
    && id in IdsOf(Candidates(s, criteria, BatchLimit(config)).value)
  }

  /** The command forgets the memory as one of its candidates. */
  predicate Takes(s: State, command: Command, id: Id) {
    match command
    case ForgetBy(config, criteria, _) => TakenBy(s, config, criteria, id)
    case ForgetListed(config, listed, _) => listed != {} && TakenBy(s, config, AutoForget.CandidateCriteria(listed), id)
    case _ => false
  }

  // ---------------------------------------------------------------------------------------
  //  One command
  // ---------------------------------------------------------------------------------------

  lemma ChangeKeepsRecords(s: State, change: Contradictions.Change)
    ensures Contradictions.Changed(s, change).records == s.records
    ensures Contradictions.Changed(s, change).temporal == s.temporal
  {}

  lemma {:induction false} ChangesKeepRecords(s: State, changes: seq<Contradictions.Change>)
    ensures Contradictions.AllChanged(s, changes).records == s.records
    ensures Contradictions.AllChanged(s, changes).temporal == s.temporal
    decreases |changes|
  {
    hide Contradictions.Changed;
    if changes != [] {
      ChangeKeepsRecords(s, changes[0]);
      ChangesKeepRecords(Contradictions.Changed(s, changes[0]), changes[1..]);
    }
  }

  lemma ReconcileKeepsRecords(s: State, command: Contradictions.Command)
    ensures Contradictions.Done(s, command).records == s.records
    ensures Contradictions.Done(s, command).temporal == s.temporal
  {
    hide Contradictions.CheckChanges, Contradictions.CommitChanges, EdgeAdded, Contradictions.AllChanged;
    match command
    case DoCheck(id, config, classifier, now, candidates) =>
      var result := Contradictions.CheckChanges(s, id, config, classifier, now, candidates);
      if result.Ok? { ChangesKeepRecords(s, result.value); }
    case DoCommit(verdicts, now) =>
      var result := Contradictions.CommitChanges(s, verdicts, now);
      if result.Ok? { ChangesKeepRecords(s, result.value); }
    case DoAddEdge(edge, confidence, now) =>
      AddedEdgeKeepsRecords(s, edge, confidence, now);
  }

  lemma AddedEdgeKeepsRecords(s: State, edge: Edge, confidence: real, now: nat)
    ensures EdgeAdded(s, edge, confidence, now).records == s.records
    ensures EdgeAdded(s, edge, confidence, now).temporal == s.temporal
  {
    ApplyPutEdge(s, edge, EdgeMetadata(confidence, now));
  }

  lemma ReviseKeepsKeyed(engine: Engine, s: State, input: ReviseInput, now: nat, snapshot: Id)
    requires KeyedById(s)
    ensures KeyedById(AfterRevise(engine, s, input, now, snapshot))
  {
    hide Revised, AfterRevise, Excess;
    if Revised(engine, s, input, now).Ok? {
      Lineage.RevisedRecords(engine, s, input, now, snapshot);
    } else {
      RefusedLeavesState(engine, s, input, now, snapshot);
    }
  }

  lemma ForgetKeepsSound(s: State, config: ForgetConfig, criteria: Criteria, now: nat)
    requires IsSound(s)
    ensures IsSound(AfterForget(s, config, criteria, now))
  {
    hide Candidates, Forgotten, IsEmpty, KeyedById, Paired, Symmetric;
    var limit := BatchLimit(config);
    if Candidates(s, criteria, limit).Ok? {
      CandidatesMatch(s, criteria, limit);
      ForgetKeepsStore(s, config, Candidates(s, criteria, limit).value, now);
    }
  }

  lemma DoneKeepsSound(s: State, command: Command)
    requires IsSound(s) && AddsNoContradicts(command)
    ensures IsSound(Done(s, command))
  {
    hide Contradictions.Done, AfterRevise, AfterForget, Paired, Symmetric;
    match command
    case Reconcile(inner) =>
      Contradictions.DoneKeepsGraph(s, inner);
      ReconcileKeepsRecords(s, inner);
    case ReviseOne(engine, input, now, snapshot) =>
      ReviseKeepsPaired(engine, s, input, now, snapshot);
      ReviseKeepsSymmetric(engine, s, input, now, snapshot);
      ReviseKeepsKeyed(engine, s, input, now, snapshot);
    case ForgetBy(config, criteria, now) =>
      ForgetKeepsSound(s, config, criteria, now);
    case ForgetListed(config, listed, now) =>
      if listed != {} {
        ForgetKeepsSound(s, config, AutoForget.CandidateCriteria(listed), now);
      }
  }

  /** A memory joined to another by Contradicts is nobody's snapshot, so no pruning and no cascade
      reaches it. */
  lemma JoinedIsNoSnapshot(s: State, a: Id, b: Id, source: Id)
    requires Paired(s) && Symmetric(s) && Contradictions.Joined(s, a, b)
    ensures a !in Snapshots(s, source) && b !in Snapshots(s, source)
    ensures Edge(a, Contradicts, b) in s.forward && Edge(b, Contradicts, a) in s.forward
  {
    assert ContradictsBothWays(s.forward, a, b);
    var there, back := Edge(a, Contradicts, b), Edge(b, Contradicts, a);
    assert there in s.reverse && back in s.reverse;
    assert there.target == b && back.target == a;
  }

  lemma ReviseKeepsJoined(engine: Engine, s: State, input: ReviseInput, now: nat, snapshot: Id, a: Id, b: Id)
    requires Paired(s) && Symmetric(s) && Contradictions.Joined(s, a, b)
    ensures Contradictions.Joined(AfterRevise(engine, s, input, now, snapshot), a, b)
  {
    hide Revised, AfterRevise, Excess, Snapshots, Lineage.NewEdges, Symmetric;
    JoinedIsNoSnapshot(s, a, b, input.id);
    if Revised(engine, s, input, now).Ok? {
      Lineage.RevisedEdges(engine, s, input, now, snapshot);
      PrunedAreSnapshots(engine, s, input.id);
      var keys := AfterRevise(engine, s, input, now, snapshot).forward.Keys;
      assert Edge(a, Contradicts, b) in keys;
    } else {
      RefusedLeavesState(engine, s, input, now, snapshot);
    }
  }

  lemma PrunedAreSnapshots(engine: Engine, s: State, id: Id)
    ensures forall x :: x in Excess(engine, s, id) ==> x in Snapshots(s, id)
  {
    hide Snapshots;
  }

  lemma ForgetKeepsJoined(s: State, config: ForgetConfig, criteria: Criteria, now: nat, a: Id, b: Id)
    requires IsSound(s) && Contradictions.Joined(s, a, b)
    requires !TakenBy(s, config, criteria, a) && !TakenBy(s, config, criteria, b)
    ensures Contradictions.Joined(AfterForget(s, config, criteria, now), a, b)
  {
    hide Candidates, Forgotten, IsEmpty, KeyedById, Paired, Symmetric, Snapshots, IdsOf, Cascade;
    var limit := BatchLimit(config);
    forall source { JoinedIsNoSnapshot(s, a, b, source); }
    JoinedIsNoSnapshot(s, a, b, a);
    if !IsEmpty(criteria) && Candidates(s, criteria, limit).Ok? {
      CandidatesMatch(s, criteria, limit);
      ForgetRemovesExactly(s, config, Candidates(s, criteria, limit).value, now);
    }
  }

  lemma DoneKeepsJoined(s: State, command: Command, a: Id, b: Id)
    requires IsSound(s) && AddsNoContradicts(command) && Contradictions.Joined(s, a, b)
    requires !Takes(s, command, a) && !Takes(s, command, b)
    ensures Contradictions.Joined(Done(s, command), a, b)
  {
    hide Contradictions.Done, AfterRevise, AfterForget, Paired, Symmetric, KeyedById, TakenBy;
    match command
    case Reconcile(inner) =>
      Contradictions.DoneKeepsGraph(s, inner);
    case ReviseOne(engine, input, now, snapshot) =>
      ReviseKeepsJoined(engine, s, input, now, snapshot, a, b);
    case ForgetBy(config, criteria, now) =>
      ForgetKeepsJoined(s, config, criteria, now, a, b);
    case ForgetListed(config, listed, now) =>
      if listed != {} {
        ForgetKeepsJoined(s, config, AutoForget.CandidateCriteria(listed), now, a, b);
      }
  }

  // ---------------------------------------------------------------------------------------
  //  Runs
  // ---------------------------------------------------------------------------------------

  /** No command of the run forgets the memory as one of its candidates. */
  predicate NeverTaken(s: State, run: seq<Command>, id: Id) {
    run == [] || (NeverTaken(s, run[..|run| - 1], id) && !Takes(AllDone(s, run[..|run| - 1]), run[|run| - 1], id))
  }

  /** Over all runs forward and reverse entries stay paired, Contradicts symmetric and records under
      their own ids; and a pair joined by Contradicts stays joined until a forget takes one of the
      two as a candidate, so that neither pruning nor cascading ever separates it. */
  lemma {:induction false} RunKeepsStore(s: State, run: seq<Command>, a: Id, b: Id)
    requires IsSound(s) && forall i :: 0 <= i < |run| ==> AddsNoContradicts(run[i])
    ensures IsSound(AllDone(s, run))
    ensures Contradictions.Joined(s, a, b) && NeverTaken(s, run, a) && NeverTaken(s, run, b) ==>
      Contradictions.Joined(AllDone(s, run), a, b)
  {
    hide Done, IsSound, Takes, AddsNoContradicts, Contradictions.Joined;
    if run != [] {
      var init, last := run[..|run| - 1], run[|run| - 1];
      RunKeepsStore(s, init, a, b);
      DoneKeepsSound(AllDone(s, init), last);
      if Contradictions.Joined(s, a, b) && NeverTaken(s, run, a) && NeverTaken(s, run, b) {
        DoneKeepsJoined(AllDone(s, init), last, a, b);
      }
    }
  }

  /** Until then no check says anything about the pair. */
  lemma JoinedStaysSettled(
      s: State, run: seq<Command>, id: Id, other: Id, config: Contradictions.CheckConfig,
      classifier: Contradictions.Classifier, now: nat, candidates: seq<Contradictions.Candidate>)
    requires IsSound(s) && forall i :: 0 <= i < |run| ==> AddsNoContradicts(run[i])
    requires Contradictions.Joined(s, id, other) && NeverTaken(s, run, id) && NeverTaken(s, run, other)
    ensures !Contradictions.Reports(
      Contradictions.CheckChanges(AllDone(s, run), id, config, classifier, now, candidates), id, other)
  {
    hide NeverTaken, AllDone, AddsNoContradicts, Contradictions.CheckChanges;
    RunKeepsStore(s, run, id, other);
    Contradictions.CheckSkipsJoined(AllDone(s, run), id, other, config, classifier, now, candidates);
  }

  // ---------------------------------------------------------------------------------------
  //  The temporal index over runs
  // ---------------------------------------------------------------------------------------

  /** Every revision of the run gives its snapshot an id that neither the records nor the temporal
      index hold by then. */
  predicate UsesUnusedIds(s: State, run: seq<Command>) {
    run == [] ||
      var init, last := run[..|run| - 1], run[|run| - 1];
      UsesUnusedIds(s, init) && (last.ReviseOne? ==> IsUnused(AllDone(s, init), last.snapshot))
  }

  lemma DoneKeepsAgreement(s: State, command: Command)
    requires IndexAgrees(s) && Paired(s)
    requires command.ReviseOne? ==> IsUnused(s, command.snapshot)
    ensures IndexAgrees(Done(s, command))
  {
    hide Contradictions.Done, AfterRevise, AfterForget, Paired, IsUnused;
    match command
    case Reconcile(inner) =>
      ReconcileKeepsRecords(s, inner);
    case ReviseOne(engine, input, now, snapshot) =>
      ReviseKeepsAgreement(engine, s, input, now, snapshot);
    case ForgetBy(config, criteria, now) =>
      ForgetKeepsAgreement(s, config, criteria, now);
    case ForgetListed(config, listed, now) =>
      if listed != {} {
        ForgetKeepsAgreement(s, config, AutoForget.CandidateCriteria(listed), now);
      }
  }

  /** Over all runs an entry of the temporal index leads to no record or to one of its entity and
      time, although revisions leave entries that lead nowhere. */
  lemma {:induction false} RunKeepsAgreement(s: State, run: seq<Command>)
    requires IsSound(s) && IndexAgrees(s) && UsesUnusedIds(s, run)
    requires forall i :: 0 <= i < |run| ==> AddsNoContradicts(run[i])
    ensures IndexAgrees(AllDone(s, run))
  {
    hide Done, AddsNoContradicts, IndexAgrees, Symmetric, KeyedById, Paired, IsUnused;
    if run != [] {
      var init := run[..|run| - 1];
      RunKeepsAgreement(s, init);
      RunKeepsStore(s, init, 0, 0);
      DoneKeepsAgreement(AllDone(s, init), run[|run| - 1]);
    }
  }

  /** So after any such run repeated forgets of an entity leave none of its live entries if no more
      than a batch of its entries lead nowhere. */
  lemma EntityIsForgottenAfterRun(
      s: State, run: seq<Command>, config: ForgetConfig, entity: string, clock: nat -> nat)
    requires IsSound(s) && IndexAgrees(s) && UsesUnusedIds(s, run) && BatchLimit(config) >= 1
    requires forall i :: 0 <= i < |run| ==> AddsNoContradicts(run[i])
    ensures var before := AllDone(s, run);
      && Agrees(before, entity) && Paired(before)
      && var (calls, after) := ForgetEntity(before, config, entity, clock, 0);
      && calls <= |LiveTimes(before, entity)| / BatchLimit(config) + 1
      && (|Dangling(before, entity)| <= BatchLimit(config) ==> LiveTimes(after, entity) == {})
  {
    hide AllDone, AddsNoContradicts, IndexAgrees, Symmetric, KeyedById, Paired, UsesUnusedIds, ForgetEntity, LiveTimes,
      Dangling, BatchLimit, Agrees;
    RunKeepsAgreement(s, run);
    RunKeepsStore(s, run, 0, 0);
    AgreesEverywhere(AllDone(s, run), entity);
    EntityIsForgotten(AllDone(s, run), config, entity, clock, 0);
  }

  // ---------------------------------------------------------------------------------------
  //  Lineage over runs
  // ---------------------------------------------------------------------------------------

  /** The command adds no RevisedFrom edge, but for those of revisions to their snapshots, and these
      get new ids. */
  predicate KeepsLineage(s: State, command: Command) {
    match command
    case Reconcile(inner) =>
      forall e :: e in Contradictions.Done(s, inner).forward && e.kind == RevisedFrom ==> e in s.forward
    case ReviseOne(_, input, _, snapshot) =>
      && HasNoEdges(s, snapshot) && snapshot !in s.records
      && forall i :: 0 <= i < |input.edges| ==> input.edges[i].kind != RevisedFrom
    case _ => true
  }

  predicate AllKeepLineage(s: State, run: seq<Command>) {
    run == [] ||
      var init, last := run[..|run| - 1], run[|run| - 1];
      AllKeepLineage(s, init) && KeepsLineage(AllDone(s, init), last)
  }

  lemma DoneKeepsLineage(s: State, command: Command)
    requires LineageSharesTime(s) && KeyedById(s) && KeepsLineage(s, command)
    ensures LineageSharesTime(Done(s, command))
  {
    hide Contradictions.Done, AfterRevise, AfterForget, KeyedById, HasNoEdges;
    match command
    case Reconcile(inner) =>
      ReconcileKeepsRecords(s, inner);
    case ReviseOne(engine, input, now, snapshot) =>
      ReviseKeepsLineage(engine, s, input, now, snapshot);
    case ForgetBy(config, criteria, now) =>
      ForgetKeepsLineage(s, config, criteria, now);
    case ForgetListed(config, listed, now) =>
      if listed != {} {
        ForgetKeepsLineage(s, config, AutoForget.CandidateCriteria(listed), now);
      }
  }

  lemma {:induction false} RunKeepsLineage(s: State, run: seq<Command>)
    requires IsSound(s) && LineageSharesTime(s) && AllKeepLineage(s, run)
    requires forall i :: 0 <= i < |run| ==> AddsNoContradicts(run[i])
    ensures LineageSharesTime(AllDone(s, run))
  {
    hide Done, AddsNoContradicts, LineageSharesTime, Symmetric, KeyedById, Paired, KeepsLineage;
    if run != [] {
      var init := run[..|run| - 1];
      RunKeepsLineage(s, init);
      RunKeepsStore(s, init, 0, 0);
      DoneKeepsLineage(AllDone(s, init), run[|run| - 1]);
    }
  }

  /** After any run in which nothing but revisions adds RevisedFrom edges, it is exact when repeated
      forgets of an entity leave none of its live entries and how many calls they take, whether they
      cascade or not. */
  lemma EntityIsForgottenIffAfterRun(
      s: State, run: seq<Command>, config: ForgetConfig, entity: string, clock: nat -> nat)
    requires IsSound(s) && IndexAgrees(s) && LineageSharesTime(s) && BatchLimit(config) >= 1
    requires UsesUnusedIds(s, run) && AllKeepLineage(s, run)
    requires forall i :: 0 <= i < |run| ==> AddsNoContradicts(run[i])
    ensures var before := AllDone(s, run);
      && Agrees(before, entity) && Paired(before)
      && var (calls, after) := ForgetEntity(before, config, entity, clock, 0);
      && (LiveTimes(after, entity) == {} <==> IsWithinReach(before, entity, BatchLimit(config)))
      && (IsWithinReach(before, entity, BatchLimit(config)) ==>
            calls == |LiveTimes(before, entity)| / BatchLimit(config) + 1)
  {
    hide AllDone, AddsNoContradicts, IndexAgrees, Symmetric, KeyedById, Paired, UsesUnusedIds, ForgetEntity, LiveTimes,
      Dangling, BatchLimit, Agrees, LineageSharesTime, AllKeepLineage, Apart, IsWithinReach, LeavesRecords, IdsAt;
    RunKeepsAgreement(s, run);
    RunKeepsStore(s, run, 0, 0);
    RunKeepsLineage(s, run);
    AgreesEverywhere(AllDone(s, run), entity);
    LineageIsApart(AllDone(s, run), entity);
    EntityIsForgottenIff(AllDone(s, run), config, entity, clock, 0);
  }
}
