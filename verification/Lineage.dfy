/** What repeated revision leaves behind: which earlier states of a memory survive as snapshots
    over runs of revisions of it and of others, and how a RevisedFrom edge from another source
    breaks that. */
module Lineage {
  import opened Results
  import opened Memories
  import opened IdOrder
  import opened Store
  import opened Revisions

  /** The snapshots that a retention limit leaves; a limit of 0 leaves all. */
  function Live(snaps: seq<Id>, limit: nat): seq<Id> {
    if limit == 0 || |snaps| <= limit then snaps else snaps[|snaps| - limit..]
  }

  /** The RevisedFrom edges of p lead to the live snapshots, nothing else enters one of those, and
      p is nobody's snapshot. */
  ghost predicate LineageEdges(edges: set<Edge>, p: Id, live: seq<Id>) {
    && (forall e :: e in edges && e.kind == RevisedFrom && e.source == p ==> e.target in live)
    && (forall e :: e in edges && e.kind == RevisedFrom ==> e.target != p)
    && (forall x :: x in live ==> Edge(p, RevisedFrom, x) in edges)
    && (forall e :: e in edges && e.target in live ==> e == Edge(p, RevisedFrom, e.target))
  }

  /** The live snapshots hold the states `priors` under their own ids; the others are gone. */
  ghost predicate LineageRecords(records: map<Id, Memory>, p: Id, snaps: seq<Id>, priors: seq<Memory>, live: seq<Id>)
    requires p in records
  {
    && |snaps| == |priors|
    && records[p].id == p && p !in snaps
    && forall i :: 0 <= i < |snaps| ==>
         if snaps[i] in live then snaps[i] in records && records[snaps[i]] == priors[i].(id := snaps[i])
         else snaps[i] !in records
  }

  /** The snapshots of p so far are `snaps`, taken of the states `priors`, and just the live ones
      are left. */
  ghost predicate HasLineage(s: State, p: Id, snaps: seq<Id>, priors: seq<Memory>, limit: nat) {
    && Paired(s) && Increasing(snaps) && p in s.records
    && LineageEdges(s.forward.Keys, p, Live(snaps, limit))
    && LineageRecords(s.records, p, snaps, priors, Live(snaps, limit))
  }

  /** Every id in use is smaller than a bound. */
  predicate Below(s: State, bound: nat) {
    && (forall id :: id in s.records ==> id < bound)
    && (forall e :: e in s.forward ==> e.source < bound && e.target < bound)
  }

  /** A revision keeps clear of the snapshots of p: it revises none of them, its edges point at
      none of them and at no id not yet generated, and by no RevisedFrom edge of its own does it
      make p a snapshot or give p another one. */
  predicate Spares(input: ReviseInput, snapshot: Id, p: Id, live: seq<Id>) {
    && input.id !in live
    && forall e :: e in input.edges ==>
         && e.target !in live && e.target < snapshot
         && (e.kind == RevisedFrom ==> e.target != p && input.id != p)
  }

  // ---------------------------------------------------------------------------------------
  //  The records and edges after a revision
  // ---------------------------------------------------------------------------------------

  function NewEdges(input: ReviseInput, snapshot: Id): set<Edge> {
    {Edge(input.id, RevisedFrom, snapshot)} + set e | e in input.edges :: EdgeFrom(input.id, e)
  }

  function EdgesOfAny(edges: set<Edge>, ids: seq<Id>): set<Edge> {
    set e | e in edges && (e.source in ids || e.target in ids)
  }

  lemma RevisedEdges(engine: Engine, s: State, input: ReviseInput, now: nat, snapshot: Id)
    requires Paired(s) && Revised(engine, s, input, now).Ok?
    ensures AfterRevise(engine, s, input, now, snapshot).forward.Keys
         == s.forward.Keys + NewEdges(input, snapshot) - EdgesOfAny(s.forward.Keys, Excess(engine, s, input.id))
  {
    hide Revised, EdgeEntries, Pruning, Excess, Moved, RevisionEdges, Touching, NewEdges, EdgesOfAny;
    var ids := Excess(engine, s, input.id);
    var createdAt := s.records[input.id].createdAt;
    assert EdgeEntries(input.id, RevisionEdges(input, snapshot), createdAt).Keys == NewEdges(input, snapshot) by {
      EntriesAreNew(input, snapshot, createdAt);
    }
    assert Pruning(s, ids).edges == EdgesOfAny(s.forward.Keys, ids) by { PrunedEdges(s, ids); }
    var keys := AfterRevise(engine, s, input, now, snapshot).forward.Keys;
    assert keys == s.forward.Keys + NewEdges(input, snapshot) - Pruning(s, ids).edges;
  }

  /** The metadata of what a revision writes on an edge: the confidence asked for last, 1 if none is
      given and for the snapshot, and the creation time of the memory. */
  function Metadata(input: ReviseInput, snapshot: Id, createdAt: nat, e: Edge, n: nat): Option<EdgeMetadata>
    requires n <= |input.edges|
  {
    if e.source != input.id then None
    else if n > 0 && input.edges[n - 1].kind == e.kind && input.edges[n - 1].target == e.target then
      Some(EdgeMetadata(
        if input.edges[n - 1].confidence == None then 1.0 else input.edges[n - 1].confidence.value, createdAt))
    else if n > 0 then Metadata(input, snapshot, createdAt, e, n - 1)
    else if e == Edge(input.id, RevisedFrom, snapshot) then Some(EdgeMetadata(1.0, createdAt))
    else None
  }

  lemma {:induction false} EntryMetadata(input: ReviseInput, snapshot: Id, createdAt: nat, e: Edge, n: nat)
    requires n <= |input.edges|
    ensures var entries := EdgeEntries(
        input.id, [EdgeInput(snapshot, RevisedFrom, Some(1.0))] + input.edges[..n], createdAt);
      match Metadata(input, snapshot, createdAt, e, n)
      case None => e !in entries
      case Some(m) => e in entries && entries[e] == m
  {
    var first := EdgeInput(snapshot, RevisedFrom, Some(1.0));
    var edges := [first] + input.edges[..n];
    if n == 0 {
      assert edges == [first] && edges[..0] == [];
    } else {
      EntryMetadata(input, snapshot, createdAt, e, n - 1);
      assert edges[..|edges| - 1] == [first] + input.edges[..n - 1];
      assert edges[|edges| - 1] == input.edges[n - 1];
    }
  }

  /** After a revision an edge has the metadata that the revision writes on it, or what it had. */
  lemma RevisedMetadata(engine: Engine, s: State, input: ReviseInput, now: nat, snapshot: Id, e: Edge)
    requires Revised(engine, s, input, now).Ok?
    ensures var after := AfterRevise(engine, s, input, now, snapshot).forward;
      e in after ==>
        match Metadata(input, snapshot, s.records[input.id].createdAt, e, |input.edges|)
        case None => e in s.forward && after[e] == s.forward[e]
        case Some(m) => after[e] == m
  {
    hide Revised, EdgeEntries, Pruning, Excess, Moved, Metadata;
    EntryMetadata(input, snapshot, s.records[input.id].createdAt, e, |input.edges|);
    assert input.edges[..|input.edges|] == input.edges;
  }

  lemma EntriesAreNew(input: ReviseInput, snapshot: Id, createdAt: nat)
    ensures EdgeEntries(input.id, RevisionEdges(input, snapshot), createdAt).Keys == NewEdges(input, snapshot)
  {
    hide EdgeEntries, RevisionEdges;
    RevisionEdgesKinds(input, snapshot);
    var first := EdgeInput(snapshot, RevisedFrom, Some(1.0));
    assert first in RevisionEdges(input, snapshot);
    assert EdgeFrom(input.id, first) == Edge(input.id, RevisedFrom, snapshot);
    forall edge
      ensures edge in EdgeEntries(input.id, RevisionEdges(input, snapshot), createdAt)
          <==> edge in NewEdges(input, snapshot)
    {
      EntriesAre(input.id, RevisionEdges(input, snapshot), createdAt, edge);
    }
  }

  lemma PrunedEdges(s: State, ids: seq<Id>)
    requires Paired(s)
    ensures Pruning(s, ids).edges == EdgesOfAny(s.forward.Keys, ids)
  {
    hide Pruning, Touching;
    PruningIs(s, ids);
    forall x ensures Touching(s, x) == Incident(s.forward, x) { TouchingIsIncident(s, x); }
    forall e | e in EdgesOfAny(s.forward.Keys, ids) ensures e in Pruning(s, ids).edges {
      assert e in Touching(s, e.source) && e in Touching(s, e.target);
    }
  }

  lemma RevisedRecords(engine: Engine, s: State, input: ReviseInput, now: nat, snapshot: Id)
    requires Revised(engine, s, input, now).Ok?
    ensures AfterRevise(engine, s, input, now, snapshot).records
         == s.records[snapshot := s.records[input.id].(id := snapshot)]
             [input.id := Revised(engine, s, input, now).value]
            - SetOf(Excess(engine, s, input.id))
  {
    hide Revised, EdgeEntries, Pruning, Excess, Moved;
    PruningIs(s, Excess(engine, s, input.id));
  }

  // ---------------------------------------------------------------------------------------
  //  What is pruned
  // ---------------------------------------------------------------------------------------

  lemma ExcessIsSnapshots(engine: Engine, s: State, id: Id)
    ensures forall x :: x in Excess(engine, s, id) ==> Edge(id, RevisedFrom, x) in s.forward
  {
    hide SortedIds, OnlyLineageEnters;
    forall x | x in Excess(engine, s, id) ensures Edge(id, RevisedFrom, x) in s.forward {
      assert x in SortedIds(Snapshots(s, id));
      var e :| e in s.forward && e.source == id && e.kind == RevisedFrom && e.target == x;
      assert e == Edge(id, RevisedFrom, x);
    }
  }

  /** The oldest live snapshot, if the limit is reached. */
  function Oldest(live: seq<Id>, limit: nat): seq<Id> {
    if limit == 0 || |live| < limit then [] else live[..1]
  }

  lemma SnapshotsAreLive(s: State, p: Id, snaps: seq<Id>, priors: seq<Memory>, limit: nat)
    requires HasLineage(s, p, snaps, priors, limit)
    ensures Snapshots(s, p) == SetOf(Live(snaps, limit))
  {
    hide Increasing, LineageRecords, Live;
    forall x | x in Live(snaps, limit) ensures x in Snapshots(s, p) {
      assert Edge(p, RevisedFrom, x) in s.forward && Edge(p, RevisedFrom, x).target == x;
    }
  }

  lemma ExcessOfLineage(engine: Engine, s: State, p: Id, snaps: seq<Id>, priors: seq<Memory>)
    requires HasLineage(s, p, snaps, priors, engine.maxSnapshots)
    ensures Excess(engine, s, p) == Oldest(Live(snaps, engine.maxSnapshots), engine.maxSnapshots)
  {
    hide SortedIds, Increasing, Snapshots;
    var live := Live(snaps, engine.maxSnapshots);
    SnapshotsAreLive(s, p, snaps, priors, engine.maxSnapshots);
    LiveIncreases(snaps, engine.maxSnapshots);
    SortedIdsOf(live);
  }

  lemma LiveIncreases(snaps: seq<Id>, limit: nat)
    requires Increasing(snaps)
    ensures Increasing(Live(snaps, limit))
  {}

  /** One more snapshot: the oldest live one makes room if the limit is reached. */
  lemma LiveGrows(snaps: seq<Id>, limit: nat, x: Id)
    requires Increasing(snaps) && forall y :: y in snaps ==> y < x
    ensures Increasing(snaps + [x])
    ensures forall y :: y in Live(snaps + [x], limit) <==>
      y == x || (y in Live(snaps, limit) && y !in Oldest(Live(snaps, limit), limit))
  {
    forall i | 0 <= i < |snaps| ensures snaps[i] < x { assert snaps[i] in snaps; }
    var live := Live(snaps, limit);
    if limit == 0 || |live| < limit {
      assert Live(snaps + [x], limit) == live + [x];
    } else {
      LiveIncreases(snaps, limit);
      assert Live(snaps + [x], limit) == live[1..] + [x];
      WithoutFirst(live);
    }
  }

  lemma WithoutFirst(ids: seq<Id>)
    requires Increasing(ids) && ids != []
    ensures forall y :: y in ids[1..] <==> y in ids && y !in ids[..1]
  {
    forall y ensures y in ids[1..] <==> y in ids && y !in ids[..1] {
      assert y in ids[..1] <==> y == ids[0];
      assert y in ids && y != ids[0] ==> y in ids[1..];
    }
  }

  // ---------------------------------------------------------------------------------------
  //  One revision
  // ---------------------------------------------------------------------------------------

  lemma OwnEdges(
      edges: set<Edge>, p: Id, live: seq<Id>, live': seq<Id>, gone: seq<Id>, input: ReviseInput, snapshot: Id)
    requires LineageEdges(edges, p, live) && p !in live
    requires forall e :: e in edges ==> e.source < snapshot && e.target < snapshot
    requires input.id == p < snapshot && Spares(input, snapshot, p, live)
    requires forall x :: x in gone ==> x in live
    requires forall y :: y in live' <==> y == snapshot || (y in live && y !in gone)
    ensures LineageEdges(edges + NewEdges(input, snapshot) - EdgesOfAny(edges, gone), p, live')
  {
    var after := edges + NewEdges(input, snapshot) - EdgesOfAny(edges, gone);
    forall x | x in live ensures x < snapshot { assert Edge(p, RevisedFrom, x) in edges; }
    forall x | x in live' ensures Edge(p, RevisedFrom, x) in after {
      assert x != snapshot ==> Edge(p, RevisedFrom, x) in edges;
    }
  }

  lemma OtherEdges(edges: set<Edge>, p: Id, live: seq<Id>, gone: seq<Id>, input: ReviseInput, snapshot: Id)
    requires LineageEdges(edges, p, live)
    requires forall e :: e in edges ==> e.source < snapshot && e.target < snapshot
    requires input.id != p < snapshot && Spares(input, snapshot, p, live)
    requires forall x :: x in gone ==> Edge(input.id, RevisedFrom, x) in edges
    ensures forall x :: x in gone ==> x !in live && x != p
    ensures LineageEdges(edges + NewEdges(input, snapshot) - EdgesOfAny(edges, gone), p, live)
  {
    var after := edges + NewEdges(input, snapshot) - EdgesOfAny(edges, gone);
    forall x | x in gone ensures x !in live && x != p { assert Edge(input.id, RevisedFrom, x) in edges; }
    forall x | x in live ensures x < snapshot && Edge(p, RevisedFrom, x) in after {
      assert Edge(p, RevisedFrom, x) in edges;
    }
  }

  lemma OwnRevision(
      engine: Engine, s: State, p: Id, snaps: seq<Id>, priors: seq<Memory>, input: ReviseInput, now: nat, snapshot: Id)
    requires HasLineage(s, p, snaps, priors, engine.maxSnapshots) && Below(s, snapshot)
    requires forall x :: x in snaps ==> x < snapshot
    requires Spares(input, snapshot, p, Live(snaps, engine.maxSnapshots))
    requires input.id == p && Revised(engine, s, input, now).Ok?
    ensures var s' := AfterRevise(engine, s, input, now, snapshot);
      && HasLineage(s', p, snaps + [snapshot], priors + [s.records[p]], engine.maxSnapshots)
      && s'.records[p] == Revised(engine, s, input, now).value
  {
    hide Revised, AfterRevise, Excess, Increasing, LineageEdges, NewEdges, EdgesOfAny, Spares;
    var live := Live(snaps, engine.maxSnapshots);
    var s' := AfterRevise(engine, s, input, now, snapshot);
    ReviseKeepsPaired(engine, s, input, now, snapshot);
    RevisedRecords(engine, s, input, now, snapshot);
    RevisedEdges(engine, s, input, now, snapshot);
    ExcessOfLineage(engine, s, p, snaps, priors);
    LiveGrows(snaps, engine.maxSnapshots, snapshot);
    OwnEdges(s.forward.Keys, p, live, Live(snaps + [snapshot], engine.maxSnapshots), Excess(engine, s, p), input,
        snapshot);
  }

  lemma OtherRecords(
      records: map<Id, Memory>, p: Id, snaps: seq<Id>, priors: seq<Memory>, live: seq<Id>, gone: seq<Id>,
      snapshot: Id, memory: Memory)
    requires p in records && LineageRecords(records, p, snaps, priors, live)
    requires forall x :: x in snaps ==> x < snapshot
    requires p < snapshot
    requires forall x :: x in gone ==> x !in live && x != p
    requires memory.id in records && memory.id !in live && memory.id != p
    ensures var after := records[snapshot := records[memory.id].(id := snapshot)][memory.id := memory] - SetOf(gone);
      p in after && LineageRecords(after, p, snaps, priors, live) && after[p] == records[p]
  {
    forall i | 0 <= i < |snaps| ensures snaps[i] < snapshot { assert snaps[i] in snaps; }
  }

  lemma OtherRevision(
      engine: Engine, s: State, p: Id, snaps: seq<Id>, priors: seq<Memory>, input: ReviseInput, now: nat, snapshot: Id)
    requires HasLineage(s, p, snaps, priors, engine.maxSnapshots) && Below(s, snapshot)
    requires forall x :: x in snaps ==> x < snapshot
    requires Spares(input, snapshot, p, Live(snaps, engine.maxSnapshots))
    requires input.id != p && Revised(engine, s, input, now).Ok?
    ensures var s' := AfterRevise(engine, s, input, now, snapshot);
      && HasLineage(s', p, snaps, priors, engine.maxSnapshots)
      && s'.records[p] == s.records[p]
  {
    hide Revised, AfterRevise, Excess, Increasing, LineageEdges, LineageRecords, NewEdges, EdgesOfAny, Live;
    ReviseKeepsPaired(engine, s, input, now, snapshot);
    RevisedRecords(engine, s, input, now, snapshot);
    RevisedEdges(engine, s, input, now, snapshot);
    ExcessIsSnapshots(engine, s, input.id);
    var gone := Excess(engine, s, input.id);
    OtherEdges(s.forward.Keys, p, Live(snaps, engine.maxSnapshots), gone, input, snapshot);
    OtherRecords(s.records, p, snaps, priors, Live(snaps, engine.maxSnapshots), gone, snapshot,
        Revised(engine, s, input, now).value);
  }

  // ---------------------------------------------------------------------------------------
  //  Runs
  // ---------------------------------------------------------------------------------------

  /** A call of revise, with the time it reads and the id it generates. */
  datatype Call = Call(input: ReviseInput, now: nat, snapshot: Id)

  function After(engine: Engine, s: State, run: seq<Call>): State {
    if run == [] then s
    else
      var last := run[|run| - 1];
      AfterRevise(engine, After(engine, s, run[..|run| - 1]), last.input, last.now, last.snapshot)
  }

  /** The last call of the run revises p and succeeds. */
  predicate Revises(engine: Engine, s: State, p: Id, run: seq<Call>)
    requires run != []
  {
    var last := run[|run| - 1];
    last.input.id == p && Revised(engine, After(engine, s, run[..|run| - 1]), last.input, last.now).Ok?
  }

  /** The ids generated by the successful revisions of p. */
  function Snaps(engine: Engine, s: State, p: Id, run: seq<Call>): seq<Id> {
    if run == [] then []
    else
      var before := Snaps(engine, s, p, run[..|run| - 1]);
      if Revises(engine, s, p, run) then before + [run[|run| - 1].snapshot] else before
  }

  /** The states p goes through: the first one and what each of those revisions makes of the one
      before. */
  function States(engine: Engine, s: State, p: Id, run: seq<Call>): (states: seq<Memory>)
    requires p in s.records
    ensures |states| == |Snaps(engine, s, p, run)| + 1
  {
    if run == [] then [s.records[p]]
    else
      var before := States(engine, s, p, run[..|run| - 1]);
      var last := run[|run| - 1];
      if Revises(engine, s, p, run)
      then before + [Revised(engine, After(engine, s, run[..|run| - 1]), last.input, last.now).value]
      else before
  }

  /** Ids are generated in ascending order, and every revision of the run spares the snapshots
      that p has at that moment. */
  predicate Careful(engine: Engine, s: State, p: Id, run: seq<Call>) {
    run == [] ||
      var init, last := run[..|run| - 1], run[|run| - 1];
      && Careful(engine, s, p, init)
      && (if init == [] then Below(s, last.snapshot) else init[|init| - 1].snapshot < last.snapshot)
      && Spares(last.input, last.snapshot, p, Live(Snaps(engine, s, p, init), engine.maxSnapshots))
  }

  /** A memory that was never revised and that nothing claims as a predecessor. */
  ghost predicate Unrevised(s: State, p: Id) {
    && Paired(s) && p in s.records && s.records[p].id == p
    && forall e :: e in s.forward && e.kind == RevisedFrom ==> e.source != p && e.target != p
  }

  lemma StaysBelow(engine: Engine, s: State, input: ReviseInput, now: nat, snapshot: Id, bound: nat)
    requires Paired(s) && Below(s, snapshot) && snapshot < bound
    requires forall e :: e in input.edges ==> e.target < snapshot
    ensures Below(AfterRevise(engine, s, input, now, snapshot), bound)
  {
    hide Revised, AfterRevise, Excess, EdgesOfAny;
    if Revised(engine, s, input, now).Ok? {
      RevisedRecords(engine, s, input, now, snapshot);
      RevisedEdges(engine, s, input, now, snapshot);
      var keys := AfterRevise(engine, s, input, now, snapshot).forward.Keys;
      forall e | e in keys ensures e.source < bound && e.target < bound {
        assert e in s.forward || e in NewEdges(input, snapshot);
      }
    } else {
      RefusedLeavesState(engine, s, input, now, snapshot);
    }
  }

  /** What is known after any number of calls. */
  ghost predicate Kept(engine: Engine, s: State, p: Id, run: seq<Call>)
    requires p in s.records
  {
    var s', snaps, states := After(engine, s, run), Snaps(engine, s, p, run), States(engine, s, p, run);
    && HasLineage(s', p, snaps, states[..|snaps|], engine.maxSnapshots)
    && s'.records[p] == states[|snaps|]
    && (forall x :: x in snaps ==> run != [] && x <= run[|run| - 1].snapshot)
  }

  lemma OneMoreCall(engine: Engine, s: State, p: Id, run: seq<Call>)
    requires run != [] && p in s.records && Careful(engine, s, p, run) && Kept(engine, s, p, run[..|run| - 1])
    requires Below(After(engine, s, run[..|run| - 1]), run[|run| - 1].snapshot)
    ensures Kept(engine, s, p, run)
  {
    hide HasLineage, AfterRevise, Revised, Spares, Below;
    var init, last := run[..|run| - 1], run[|run| - 1];
    var s0, snaps, states := After(engine, s, init), Snaps(engine, s, p, init), States(engine, s, p, init);
    forall x | x in snaps ensures x < last.snapshot {}
    if Revised(engine, s0, last.input, last.now).Err? {
      RefusedLeavesState(engine, s0, last.input, last.now, last.snapshot);
    } else if last.input.id == p {
      OwnRevision(engine, s0, p, snaps, states[..|snaps|], last.input, last.now, last.snapshot);
      var after := States(engine, s, p, run);
      assert states == states[..|snaps|] + [s0.records[p]];
      assert after[..|snaps| + 1] == states;
    } else {
      OtherRevision(engine, s0, p, snaps, states[..|snaps|], last.input, last.now, last.snapshot);
    }
  }

  lemma {:induction false} RunIsKept(engine: Engine, s: State, p: Id, run: seq<Call>, bound: nat)
    requires Unrevised(s, p) && Careful(engine, s, p, run)
    ensures Kept(engine, s, p, run)
    ensures (if run == [] then Below(s, bound) else run[|run| - 1].snapshot < bound) ==>
        Below(After(engine, s, run), bound)
  {
    hide AfterRevise, Revised, Below;
    if run != [] {
      var init, last := run[..|run| - 1], run[|run| - 1];
      RunIsKept(engine, s, p, init, last.snapshot);
      OneMoreCall(engine, s, p, run);
      if last.snapshot < bound {
        StaysBelow(engine, After(engine, s, init), last.input, last.now, last.snapshot, bound);
      }
    }
  }

  lemma {:induction false} StatesCount(engine: Engine, s: State, p: Id, run: seq<Call>)
    requires Unrevised(s, p) && Careful(engine, s, p, run)
    ensures forall i :: 0 <= i < |States(engine, s, p, run)| ==>
      && States(engine, s, p, run)[i].createdAt == s.records[p].createdAt
      && States(engine, s, p, run)[i].id == p
      && States(engine, s, p, run)[i].logicalClock == s.records[p].logicalClock + i
  {
    hide AfterRevise, Revised, Below, Unrevised, HasLineage, Spares;
    if run == [] {
      assert s.records[p].id == p by { UnrevisedId(s, p); }
    } else {
      var init, last := run[..|run| - 1], run[|run| - 1];
      StatesCount(engine, s, p, init);
      RunIsKept(engine, s, p, init, last.snapshot);
    }
  }

  lemma UnrevisedId(s: State, p: Id)
    requires Unrevised(s, p)
    ensures p in s.records && s.records[p].id == p
  {}

  /** After any run of revisions of p and of other memories, k of them successful revisions of p,
      the snapshots of p are the last k, or the last `maxSnapshots` if that is fewer, in the order
      of their ids and each with the state it was taken of; every older one is gone; and p itself
      holds its latest state, with the id and the creation time of the first and a logical clock
      that has advanced by k. */
  lemma LastStatesSurvive(engine: Engine, s: State, p: Id, run: seq<Call>)
    requires Unrevised(s, p) && Careful(engine, s, p, run)
    ensures var s', snaps, states := After(engine, s, run), Snaps(engine, s, p, run), States(engine, s, p, run);
      var k := |snaps|;
      var kept := if engine.maxSnapshots == 0 || k <= engine.maxSnapshots then k else engine.maxSnapshots;
      && Increasing(snaps)
      && Snapshots(s', p) == SetOf(snaps[k - kept..])
      && (forall i :: k - kept <= i < k ==>
          snaps[i] in s'.records && s'.records[snaps[i]] == states[i].(id := snaps[i]))
      && (forall i :: 0 <= i < k - kept ==> snaps[i] !in s'.records)
      && p in s'.records && s'.records[p] == states[k]
      && states[k].id == p && states[k].createdAt == s.records[p].createdAt
      && states[k].logicalClock == s.records[p].logicalClock + k
  {
    hide AfterRevise, Revised, Below, Spares, After, Careful, Snaps, States, Snapshots, LineageEdges;
    RunIsKept(engine, s, p, run, 0);
    StatesCount(engine, s, p, run);
    var s', snaps, states := After(engine, s, run), Snaps(engine, s, p, run), States(engine, s, p, run);
    SnapshotsAreLive(s', p, snaps, states[..|snaps|], engine.maxSnapshots);
    LiveIsSuffix(snaps, engine.maxSnapshots);
  }

  lemma LiveIsSuffix(snaps: seq<Id>, limit: nat)
    requires Increasing(snaps)
    ensures forall i :: 0 <= i < |snaps| ==> (snaps[i] in Live(snaps, limit) <==> limit == 0 || i >= |snaps| - limit)
  {
    var live := Live(snaps, limit);
    var start := |snaps| - |live|;
    forall i | start <= i < |snaps| ensures snaps[i] in live {
      assert live[i - start] == snaps[i];
    }
    forall i | 0 <= i < start ensures snaps[i] !in live {
      assert forall j :: 0 <= j < |live| ==> live[j] == snaps[start + j];
    }
  }

  // ---------------------------------------------------------------------------------------
  //  Without that care
  // ---------------------------------------------------------------------------------------

  /** A RevisedFrom edge does not have to come from a revision: a contradiction commit and a caller
      write them too, and a memory that only such edges enter counts as a snapshot of their source.
      Once the limit is reached the oldest of them is lost in the next revision of the source,
      primary memory or not, and because pruning passes no entity its temporal entry stays behind
      and leads nowhere. */
  lemma AdoptedMemoryIsLost(
      engine: Engine, s: State, input: ReviseInput, now: nat, snapshot: Id, q: Id, entity: string, at: nat)
    requires Revised(engine, s, input, now).Ok?
    requires 1 <= engine.maxSnapshots <= |Snapshots(s, input.id)|
    requires q in Snapshots(s, input.id) && forall x :: x in Snapshots(s, input.id) ==> q <= x
    requires (entity, at) in s.temporal && s.temporal[(entity, at)] == q && at != s.records[input.id].createdAt
    ensures var s' := AfterRevise(engine, s, input, now, snapshot);
      && q !in s'.records && q !in s'.vectors
      && (entity, at) in s'.temporal && s'.temporal[(entity, at)] == q
  {
    hide Revised, EdgeEntries, Pruning, Snapshots, SortedIds, RevisionEdges;
    var gone := Excess(engine, s, input.id);
    var sorted := SortedIds(Snapshots(s, input.id));
    assert q in sorted;
    assert sorted[0] in sorted && sorted[0] == q;
    assert gone[0] == q;
    PruningIs(s, gone);
  }
}
