/** Contradiction detection, after contradict.rs: a check that classifies a memory against its
    neighbours and a commit of reviewed verdicts. Classifier answers, neighbour lists, times and
    generated ids are parameters. */
module Contradictions {
  import opened Results
  import opened Memories
  import opened Store

  // ---------------------------------------------------------------------------------------
  //  Changes and the operations they consist of
  // ---------------------------------------------------------------------------------------

  datatype Change =
    | Confirm(a: Id, b: Id, metadata: EdgeMetadata)
    | Supersede(newer: Id, older: Id, metadata: EdgeMetadata)
    | Queue(pending: Pending)
    | Consume(id: Id)

  function OpsOf(change: Change): seq<Op> {
    match change
    case Confirm(a, b, metadata) =>
      PutEdge(Edge(a, Contradicts, b), metadata) + PutEdge(Edge(b, Contradicts, a), metadata)
    case Supersede(newer, older, metadata) => PutEdge(Edge(newer, RevisedFrom, older), metadata)
    case Queue(pending) => [PutPending(pending)]
    case Consume(id) => [DeletePending(id)]
  }

  function AllOps(changes: seq<Change>): seq<Op> {
    if changes == [] then [] else OpsOf(changes[0]) + AllOps(changes[1..])
  }

  lemma {:induction false} AllOpsAppend(a: seq<Change>, b: seq<Change>)
    ensures AllOps(a + b) == AllOps(a) + AllOps(b)
  {
    hide OpsOf;
    if a == [] {
      assert a + b == b;
    } else {
      assert (a + b)[0] == a[0] && (a + b)[1..] == a[1..] + b;
      AllOpsAppend(a[1..], b);
    }
  }

  function Changed(s: State, change: Change): State {
    match change
    case Confirm(a, b, metadata) =>
      s.(forward := s.forward[Edge(a, Contradicts, b) := metadata][Edge(b, Contradicts, a) := metadata],
         reverse := s.reverse[Edge(a, Contradicts, b) := metadata][Edge(b, Contradicts, a) := metadata])
    case Supersede(newer, older, metadata) =>
      s.(forward := s.forward[Edge(newer, RevisedFrom, older) := metadata],
         reverse := s.reverse[Edge(newer, RevisedFrom, older) := metadata])
    case Queue(pending) => s.(pending := s.pending[pending.id := pending])
    case Consume(id) => s.(pending := s.pending - {id})
  }

  function AllChanged(s: State, changes: seq<Change>): State
    decreases |changes|
  {
    if changes == [] then s else AllChanged(Changed(s, changes[0]), changes[1..])
  }

  lemma ApplyOpsOf(s: State, change: Change)
    ensures Apply(s, OpsOf(change)) == Changed(s, change)
  {
    match change
    case Confirm(a, b, metadata) =>
      var ab, ba := Edge(a, Contradicts, b), Edge(b, Contradicts, a);
      ApplyAppend(s, PutEdge(ab, metadata), PutEdge(ba, metadata));
      ApplyPutEdge(s, ab, metadata);
      ApplyPutEdge(Apply(s, PutEdge(ab, metadata)), ba, metadata);
    case Supersede(newer, older, metadata) => ApplyPutEdge(s, Edge(newer, RevisedFrom, older), metadata);
    case Queue(pending) => assert Apply(s, [PutPending(pending)]) == Apply(ApplyOne(s, PutPending(pending)), []);
    case Consume(id) => assert Apply(s, [DeletePending(id)]) == Apply(ApplyOne(s, DeletePending(id)), []);
  }

  lemma {:induction false} ApplyAllOps(s: State, changes: seq<Change>)
    ensures Apply(s, AllOps(changes)) == AllChanged(s, changes)
    decreases |changes|
  {
    hide OpsOf, Changed, ApplyOne;
    if changes != [] {
      ApplyAppend(s, OpsOf(changes[0]), AllOps(changes[1..]));
      ApplyOpsOf(s, changes[0]);
      ApplyAllOps(Changed(s, changes[0]), changes[1..]);
    }
  }

  // ---------------------------------------------------------------------------------------
  //  What changes keep
  // ---------------------------------------------------------------------------------------

  lemma ChangeKeepsGraph(s: State, change: Change)
    requires Paired(s) && Symmetric(s)
    ensures Paired(Changed(s, change)) && Symmetric(Changed(s, change))
    ensures forall e :: e in s.forward ==> e in Changed(s, change).forward
  {
    var after := Changed(s, change).forward;
    forall a, b ensures ContradictsBothWays(after, a, b) {
      assert ContradictsBothWays(s.forward, a, b);
    }
  }

  /** Whatever the changes, forward and reverse entries stay paired, Contradicts stays symmetric,
      and no edge is lost. */
  lemma {:induction false} ChangesKeepGraph(s: State, changes: seq<Change>)
    requires Paired(s) && Symmetric(s)
    ensures Paired(AllChanged(s, changes)) && Symmetric(AllChanged(s, changes))
    ensures forall e :: e in s.forward ==> e in AllChanged(s, changes).forward
    decreases |changes|
  {
    hide Changed, Symmetric, Paired;
    if changes != [] {
      ChangeKeepsGraph(s, changes[0]);
      ChangesKeepGraph(Changed(s, changes[0]), changes[1..]);
    }
  }

  // ---------------------------------------------------------------------------------------
  //  The check
  // ---------------------------------------------------------------------------------------

  /** Answers of the heuristic classifier and of the LLM; `NoAnswer` is a failed LLM call. */
  datatype Entailment = Contradiction(confidence: real) | Revision(confidence: real) | Neutral
  datatype LlmAnswer = LlmContradiction(confidence: real) | LlmRevision(confidence: real) | LlmDismiss | NoAnswer

  datatype Classifier =
    | Heuristic(classify: (string, string) -> Entailment)
    | Llm(ask: (string, string) -> LlmAnswer)

  datatype CheckConfig = CheckConfig(enabled: bool, minSimilarity: real, minConfidence: real)

  datatype Candidate = Candidate(id: Id, distance: real, pendingId: Id)

  datatype CheckError = MemoryNotFound

  /** char::is_whitespace, the Unicode property White_Space. */
  predicate IsSpace(c: char) {
    || '\t' <= c <= '\r' || c == ' ' || c == '\U{85}' || c == '\U{A0}' || c == '\U{1680}'
    || '\U{2000}' <= c <= '\U{200A}' || c == '\U{2028}' || c == '\U{2029}' || c == '\U{202F}' || c == '\U{205F}'
    || c == '\U{3000}'
  }

  /** Nothing is left of it by trim. */
  predicate IsBlank(text: string) {
    forall i :: 0 <= i < |text| ==> IsSpace(text[i])
  }

  function Similarity(distance: real): real {
    1.0 - (if distance <= 2.0 then distance else 2.0) / 2.0
  }

  /** Memories already classified against this one, as seen from this one. */
  function AlreadyClassified(s: State, id: Id): set<Id> {
    set e | e in s.forward && e.source == id && e.kind in {Contradicts, RevisedFrom} :: e.target
  }

  lemma AlreadyClassifiedIff(s: State, id: Id, other: Id)
    ensures other in AlreadyClassified(s, id)
       <==> Edge(id, Contradicts, other) in s.forward || Edge(id, RevisedFrom, other) in s.forward
  {
    assert Edge(id, Contradicts, other).target == other && Edge(id, RevisedFrom, other).target == other;
    if other in AlreadyClassified(s, id) {
      var e :| e in s.forward && e.source == id && e.kind in {Contradicts, RevisedFrom} && e.target == other;
      assert e == Edge(id, Contradicts, other) || e == Edge(id, RevisedFrom, other);
    }
  }

  /** What the check does about one candidate. */
  function Judged(s: State, id: Id, config: CheckConfig, classifier: Classifier, now: nat, c: Candidate): seq<Change>
    requires id in s.records
  {
    if Similarity(c.distance) < config.minSimilarity then []
    else if c.id == id then []
    else if c.id in AlreadyClassified(s, id) then []
    else if c.id !in s.records then []
    else if IsBlank(s.records[c.id].content) then []
    else
      var content, other := s.records[id].content, s.records[c.id].content;
      match classifier
      case Llm(ask) => (
        match ask(content, other)
        case LlmContradiction(confidence) =>
          if confidence < config.minConfidence then [] else [Confirm(id, c.id, EdgeMetadata(confidence, now))]
        case LlmRevision(confidence) =>
          if confidence < config.minConfidence then [] else [Supersede(c.id, id, EdgeMetadata(confidence, now))]
        case LlmDismiss => []
        case NoAnswer => [])
      case Heuristic(classify) => (
        match classify(content, other)
        case Contradiction(confidence) =>
          if confidence >= config.minConfidence
          then [Queue(Pending(c.pendingId, id, c.id, confidence, Similarity(c.distance), now))]
          else []
        case Revision(_) => []
        case Neutral => [])
  }

  function JudgedAll(
      s: State, id: Id, config: CheckConfig, classifier: Classifier, now: nat, candidates: seq<Candidate>): seq<Change>
    requires id in s.records
  {
    if candidates == [] then []
    else
      var last := |candidates| - 1;
      JudgedAll(s, id, config, classifier, now, candidates[..last])
          + Judged(s, id, config, classifier, now, candidates[last])
  }

  function CheckChanges(
      s: State, id: Id, config: CheckConfig, classifier: Classifier, now: nat, candidates: seq<Candidate>)
    : Result<seq<Change>, CheckError>
  {
    if !config.enabled then Ok([])
    else if id !in s.records then Err(MemoryNotFound)
    else if IsBlank(s.records[id].content) || s.records[id].embedding == None then Ok([])
    else Ok(JudgedAll(s, id, config, classifier, now, candidates))
  }

  /** check_memory_contradictions */
  method CheckMemory(
      db: Database, id: Id, config: CheckConfig, classifier: Classifier, now: nat, candidates: seq<Candidate>)
    returns (result: Result<seq<Change>, CheckError>)
    modifies db
    ensures result == CheckChanges(old(db.state), id, config, classifier, now, candidates)
    ensures db.state == if result.Ok? then AllChanged(old(db.state), result.value) else old(db.state)
  {
    hide Changed, Judged, OpsOf;
    if !config.enabled {
      return Ok([]);
    }
    if id !in db.state.records {
      return Err(MemoryNotFound);
    }
    var memory := db.state.records[id];
    if IsBlank(memory.content) || memory.embedding == None {
      return Ok([]);
    }
    var before := db.state;
    var output: seq<Change>, batch: seq<Op> := [], [];
    for i := 0 to |candidates|
      invariant db.state == before
      invariant output == JudgedAll(before, id, config, classifier, now, candidates[..i])
      invariant batch == AllOps(output)
    {
      assert candidates[..i + 1][..i] == candidates[..i];
      var found := Judged(before, id, config, classifier, now, candidates[i]);
      AllOpsAppend(output, found);
      output := output + found;
      batch := batch + AllOps(found);
    }
    assert candidates[..|candidates|] == candidates;
    ApplyAllOps(db.state, output);
    if batch != [] {
      db.WriteBatch(batch);
    }
    result := Ok(output);
  }

  predicate Joined(s: State, a: Id, b: Id) {
    Edge(a, Contradicts, b) in s.forward || Edge(b, Contradicts, a) in s.forward
  }

  /** A change that says something about the relation of two memories. */
  predicate Concerns(change: Change, a: Id, b: Id) {
    match change
    case Confirm(x, y, _) => {x, y} == {a, b}
    case Supersede(x, y, _) => {x, y} == {a, b}
    case Queue(pending) => {pending.a, pending.b} == {a, b}
    case Consume(_) => false
  }

  lemma {:induction false} JudgedSkipsJoined(
      s: State, id: Id, other: Id, config: CheckConfig, classifier: Classifier, now: nat, candidates: seq<Candidate>)
    requires Symmetric(s) && Joined(s, id, other) && id in s.records
    ensures forall c :: c in JudgedAll(s, id, config, classifier, now, candidates) ==> !Concerns(c, id, other)
  {
    if candidates != [] {
      var last := |candidates| - 1;
      JudgedSkipsJoined(s, id, other, config, classifier, now, candidates[..last]);
      assert ContradictsBothWays(s.forward, id, other);
      assert Edge(id, Contradicts, other) in s.forward;
      assert other in AlreadyClassified(s, id);
      forall c | c in Judged(s, id, config, classifier, now, candidates[last]) ensures !Concerns(c, id, other) {
        assert candidates[last].id != other && candidates[last].id != id;
      }
    }
  }

  /** Two memories joined by Contradicts are not classified again, whichever of them is checked,
      whatever the neighbours and whatever the classifier says. */
  lemma CheckSkipsJoined(
      s: State, id: Id, other: Id, config: CheckConfig, classifier: Classifier, now: nat, candidates: seq<Candidate>)
    requires Symmetric(s) && Joined(s, id, other)
    ensures var result := CheckChanges(s, id, config, classifier, now, candidates);
      result.Ok? ==> forall c :: c in result.value ==> !Concerns(c, id, other)
  {
    if id in s.records {
      JudgedSkipsJoined(s, id, other, config, classifier, now, candidates);
    }
  }

  /** An answer about two contents that makes the check write something. */
  predicate Accepts(config: CheckConfig, classifier: Classifier, content: string, other: string) {
    match classifier
    case Llm(ask) => (
      match ask(content, other)
      case LlmContradiction(confidence) => confidence >= config.minConfidence
      case LlmRevision(confidence) => confidence >= config.minConfidence
      case _ => false)
    case Heuristic(classify) =>
      var answer := classify(content, other);
      answer.Contradiction? && answer.confidence >= config.minConfidence
  }

  /** Some neighbour is the other memory, near enough, and the classifier's answer is accepted. */
  predicate Finds(
      config: CheckConfig, classifier: Classifier, content: string, other: Id, otherContent: string,
      candidates: seq<Candidate>)
  {
    && Accepts(config, classifier, content, otherContent)
    && exists c :: c in candidates && c.id == other && Similarity(c.distance) >= config.minSimilarity
  }

  /** A check can be made of the memory, and the other one can be classified against it. */
  predicate Comparable(s: State, id: Id, other: Id, config: CheckConfig) {
    && config.enabled && id in s.records && other in s.records
    && !IsBlank(s.records[id].content) && !IsBlank(s.records[other].content)
    && s.records[id].embedding.Some?
  }

  predicate Reports(result: Result<seq<Change>, CheckError>, a: Id, b: Id) {
    result.Ok? && exists change :: change in result.value && Concerns(change, a, b)
  }

  lemma JudgedConcernsIff(
      s: State, id: Id, other: Id, config: CheckConfig, classifier: Classifier, now: nat, c: Candidate)
    requires id in s.records && id != other
    ensures (exists change :: change in Judged(s, id, config, classifier, now, c) && Concerns(change, id, other))
       <==> && c.id == other && Similarity(c.distance) >= config.minSimilarity
            && other !in AlreadyClassified(s, id) && other in s.records && !IsBlank(s.records[other].content)
            && Accepts(config, classifier, s.records[id].content, s.records[other].content)
  {
    hide AlreadyClassified, IsBlank, Similarity;
    var judged := Judged(s, id, config, classifier, now, c);
    if judged != [] {
      assert judged == [judged[0]];
      assert Concerns(judged[0], id, other) <==> c.id == other;
    }
  }

  lemma {:induction false} JudgedAllConcernsIff(
      s: State, id: Id, other: Id, config: CheckConfig, classifier: Classifier, now: nat, candidates: seq<Candidate>)
    requires id in s.records && id != other
    ensures (exists change ::
              change in JudgedAll(s, id, config, classifier, now, candidates) && Concerns(change, id, other))
       <==> && other !in AlreadyClassified(s, id) && other in s.records && !IsBlank(s.records[other].content)
            && Finds(config, classifier, s.records[id].content, other, s.records[other].content, candidates)
  {
    hide AlreadyClassified, IsBlank, Similarity, Accepts, Judged, Concerns;
    if candidates != [] {
      var init, last := candidates[..|candidates| - 1], candidates[|candidates| - 1];
      JudgedAllConcernsIff(s, id, other, config, classifier, now, init);
      JudgedConcernsIff(s, id, other, config, classifier, now, last);
      assert candidates == init + [last];
    }
  }

  /** A check says something about two memories exactly if they can be compared, no Contradicts or
      RevisedFrom edge leads from the one checked to the other, and a near enough neighbour is found
      to be the other with an answer that is accepted. Only outgoing edges are looked at. */
  lemma ReclassifiedUnlessOutgoing(
      s: State, id: Id, other: Id, config: CheckConfig, classifier: Classifier, now: nat, candidates: seq<Candidate>)
    requires id != other
    ensures Reports(CheckChanges(s, id, config, classifier, now, candidates), id, other)
       <==> && Comparable(s, id, other, config)
            && Edge(id, Contradicts, other) !in s.forward && Edge(id, RevisedFrom, other) !in s.forward
            && Finds(config, classifier, s.records[id].content, other, s.records[other].content, candidates)
  {
    hide AlreadyClassified, IsBlank, JudgedAll, Concerns, Finds;
    AlreadyClassifiedIff(s, id, other);
    if id in s.records {
      JudgedAllConcernsIff(s, id, other, config, classifier, now, candidates);
    }
  }

  /** So a revision is never classified again from the newer memory, but from the older one it is
      whenever a sure enough answer about a near enough neighbour says so. */
  lemma RevisionIsSkippedFromOneSide(
      s: State, newer: Id, older: Id, config: CheckConfig, classifier: Classifier, now: nat, candidates: seq<Candidate>)
    requires newer != older && Edge(newer, RevisedFrom, older) in s.forward
    requires Edge(older, RevisedFrom, newer) !in s.forward && Edge(older, Contradicts, newer) !in s.forward
    ensures !Reports(CheckChanges(s, newer, config, classifier, now, candidates), newer, older)
    ensures Reports(CheckChanges(s, older, config, classifier, now, candidates), older, newer)
       <==> && Comparable(s, older, newer, config)
            && Finds(config, classifier, s.records[older].content, newer, s.records[newer].content, candidates)
  {
    hide CheckChanges, Reports, Finds, Comparable;
    ReclassifiedUnlessOutgoing(s, newer, older, config, classifier, now, candidates);
    ReclassifiedUnlessOutgoing(s, older, newer, config, classifier, now, candidates);
  }

  function Sure(content: string, other: string): LlmAnswer {
    LlmContradiction(1.0)
  }

  /** One such check. */
  lemma RevisionIsReclassified(s: State, newer: Id, older: Id, now: nat)
    requires newer != older && Edge(newer, RevisedFrom, older) in s.forward
    requires Edge(older, RevisedFrom, newer) !in s.forward && Edge(older, Contradicts, newer) !in s.forward
    requires Comparable(s, older, newer, CheckConfig(true, 0.0, 1.0))
    ensures var config := CheckConfig(true, 0.0, 1.0);
      var result := CheckChanges(s, older, config, Llm(Sure), now, [Candidate(newer, 0.0, 0)]);
      Reports(result, older, newer)
  {
    hide CheckChanges, Reports, Comparable;
    var c := Candidate(newer, 0.0, 0);
    assert c in [c] && Similarity(0.0) == 1.0;
    RevisionIsSkippedFromOneSide(s, newer, older, CheckConfig(true, 0.0, 1.0), Llm(Sure), now, [c]);
  }

  // ---------------------------------------------------------------------------------------
  //  The commit
  // ---------------------------------------------------------------------------------------

  /** A pending id as the caller sent it, decoded from hex. */
  datatype PendingRef = BadHex | WrongLength | Ref(id: Id)

  datatype Verdict = Verdict(pending: PendingRef, verdict: string, confidence: real)

  datatype CommitError = InvalidHex | InvalidLength | PendingNotFound

  datatype Confirmed = Confirmed(a: Id, b: Id, confidence: real)

  datatype CommitResult = CommitResult(confirmedCount: nat, revisions: nat, dismissed: nat, confirmed: seq<Confirmed>)

  function CheckedRef(s: State, verdict: Verdict): Result<Pending, CommitError> {
    match verdict.pending
    case BadHex => Err(InvalidHex)
    case WrongLength => Err(InvalidLength)
    case Ref(id) => if id in s.pending then Ok(s.pending[id]) else Err(PendingNotFound)
  }

  /** The pending record goes whatever the verdict says; an unknown verdict is a dismissal. */
  function Decided(verdict: Verdict, id: Id, record: Pending, now: nat): seq<Change> {
    var metadata := EdgeMetadata(verdict.confidence, now);
    [Consume(id)]
    + if verdict.verdict == "contradiction" then [Confirm(record.a, record.b, metadata)]
      else if verdict.verdict == "revision" then [Supersede(record.b, record.a, metadata)]
      else []
  }

  function CommitChanges(s: State, verdicts: seq<Verdict>, now: nat): Result<seq<Change>, CommitError> {
    if verdicts == [] then Ok([])
    else
      var last := verdicts[|verdicts| - 1];
      match CommitChanges(s, verdicts[..|verdicts| - 1], now)
      case Err(error) => Err(error)
      case Ok(changes) =>
        match CheckedRef(s, last)
        case Err(error) => Err(error)
        case Ok(record) => Ok(changes + Decided(last, last.pending.id, record, now))
  }

  /** How many verdicts of a list are of one kind. */
  function CountOf(verdicts: seq<Verdict>, kind: Verdict -> bool): nat {
    if verdicts == [] then 0
    else CountOf(verdicts[..|verdicts| - 1], kind) + if kind(verdicts[|verdicts| - 1]) then 1 else 0
  }

  predicate Confirms(v: Verdict) { v.verdict == "contradiction" }
  predicate Revises(v: Verdict) { v.verdict == "revision" }
  predicate Dismisses(v: Verdict) { !Confirms(v) && !Revises(v) }

  /** The details of the contradictions confirmed, in the order of the verdicts. */
  function ConfirmedOf(s: State, verdicts: seq<Verdict>): seq<Confirmed> {
    if verdicts == [] then []
    else
      var before, last := ConfirmedOf(s, verdicts[..|verdicts| - 1]), verdicts[|verdicts| - 1];
      if Confirms(last) && IsPending(s, last)
      then before + [Confirmed(s.pending[last.pending.id].a, s.pending[last.pending.id].b, last.confidence)]
      else before
  }

  /** commit_contradictions */
  method CommitContradictions(
      db: Database, verdicts: seq<Verdict>, now: nat) returns (result: Result<CommitResult, CommitError>)
    modifies db
    ensures match CommitChanges(old(db.state), verdicts, now)
      case Err(error) => result == Err(error) && db.state == old(db.state)
      case Ok(changes) =>
        && db.state == AllChanged(old(db.state), changes)
        && result.Ok?
        && result.value.confirmed == ConfirmedOf(old(db.state), verdicts)
        && result.value.confirmedCount == CountOf(verdicts, Confirms)
        && result.value.revisions == CountOf(verdicts, Revises)
        && result.value.dismissed == CountOf(verdicts, Dismisses)
  {
    hide Changed, OpsOf;
    var before := db.state;
    var batch: seq<Op> := [];
    var confirmedCount, revisions, dismissed := 0, 0, 0;
    var confirmed: seq<Confirmed> := [];
    ghost var changes: seq<Change> := [];
    var i := 0;
    while i < |verdicts|
      invariant 0 <= i <= |verdicts|
      invariant db.state == before
      invariant CommitChanges(before, verdicts[..i], now) == Ok(changes)
      invariant batch == AllOps(changes)
      invariant confirmed == ConfirmedOf(before, verdicts[..i])
      invariant confirmedCount == CountOf(verdicts[..i], Confirms)
      invariant revisions == CountOf(verdicts[..i], Revises)
      invariant dismissed == CountOf(verdicts[..i], Dismisses)
    {
      var verdict := verdicts[i];
      assert verdicts[..i + 1][..i] == verdicts[..i];
      match CheckedRef(before, verdict)
      case Err(error) =>
        FirstErrorStays(before, verdicts, i + 1, now);
        return Err(error);
      case Ok(record) =>
        var decided := Decided(verdict, verdict.pending.id, record, now);
        AllOpsAppend(changes, decided);
        changes := changes + decided;
        batch := batch + AllOps(decided);
        if verdict.verdict == "contradiction" {
          confirmed := confirmed + [Confirmed(record.a, record.b, verdict.confidence)];
          confirmedCount := confirmedCount + 1;
        } else if verdict.verdict == "revision" {
          revisions := revisions + 1;
        } else {
          dismissed := dismissed + 1;
        }
        i := i + 1;
    }
    assert verdicts[..|verdicts|] == verdicts;
    ApplyAllOps(before, changes);
    if batch != [] {
      db.WriteBatch(batch);
    }
    result := Ok(CommitResult(confirmedCount, revisions, dismissed, confirmed));
  }

  lemma {:induction false} FirstErrorStays(s: State, verdicts: seq<Verdict>, n: nat, now: nat)
    requires n <= |verdicts| && CommitChanges(s, verdicts[..n], now).Err?
    ensures CommitChanges(s, verdicts, now) == CommitChanges(s, verdicts[..n], now)
    decreases |verdicts|
  {
    if n == |verdicts| {
      assert verdicts[..n] == verdicts;
    } else {
      var init := verdicts[..|verdicts| - 1];
      assert init[..n] == verdicts[..n];
      FirstErrorStays(s, init, n, now);
    }
  }

  predicate IsPending(s: State, v: Verdict) {
    v.pending.Ref? && v.pending.id in s.pending
  }

  /** What is wrong with the reference of a verdict. */
  predicate IsWrong(s: State, v: Verdict, error: CommitError) {
    match error
    case InvalidHex => v.pending == BadHex
    case InvalidLength => v.pending == WrongLength
    case PendingNotFound => v.pending.Ref? && v.pending.id !in s.pending
  }

  /** The error of a commit that fails is that of the first verdict that names no pending record. */
  lemma {:induction false} CommitErrorIff(s: State, verdicts: seq<Verdict>, now: nat, error: CommitError)
    ensures CommitChanges(s, verdicts, now) == Err(error)
       <==> exists i :: 0 <= i < |verdicts| && IsWrong(s, verdicts[i], error)
              && forall j :: 0 <= j < i ==> IsPending(s, verdicts[j])
  {
    hide Decided;
    if verdicts != [] {
      var n := |verdicts| - 1;
      var init := verdicts[..n];
      CommitErrorIff(s, init, now, error);
      CommitSucceedsIff(s, init, now);
      assert forall i :: 0 <= i < n ==> init[i] == verdicts[i] && init[i] in init;
      assert CheckedRef(s, verdicts[n]) == Err(error) <==> IsWrong(s, verdicts[n], error);
    }
  }

  /** A commit goes through exactly if every verdict names a pending record; otherwise, as the
      method's contract says, nothing is written. */
  lemma {:induction false} CommitSucceedsIff(s: State, verdicts: seq<Verdict>, now: nat)
    ensures CommitChanges(s, verdicts, now).Ok? <==> forall v :: v in verdicts ==> IsPending(s, v)
  {
    if verdicts != [] {
      var init, last := verdicts[..|verdicts| - 1], verdicts[|verdicts| - 1];
      CommitSucceedsIff(s, init, now);
      assert verdicts == init + [last];
      assert CheckedRef(s, last).Ok? <==> IsPending(s, last);
      assert last in verdicts;
      assert forall v :: v in init ==> v in verdicts;
    }
  }

  /** The three counters add up to the number of verdicts. */
  lemma {:induction false} CountersAddUp(verdicts: seq<Verdict>)
    ensures CountOf(verdicts, Confirms) + CountOf(verdicts, Revises) + CountOf(verdicts, Dismisses) == |verdicts|
  {
    if verdicts != [] {
      CountersAddUp(verdicts[..|verdicts| - 1]);
    }
  }

  lemma {:induction false} AllChangedAppend(s: State, a: seq<Change>, b: seq<Change>)
    ensures AllChanged(s, a + b) == AllChanged(AllChanged(s, a), b)
    decreases |a|
  {
    hide Changed;
    if a == [] {
      assert a + b == b;
    } else {
      assert (a + b)[0] == a[0] && (a + b)[1..] == a[1..] + b;
      AllChangedAppend(Changed(s, a[0]), a[1..], b);
    }
  }

  function Consumed(verdicts: seq<Verdict>): set<Id> {
    set v | v in verdicts && v.pending.Ref? :: v.pending.id
  }

  lemma DecidedEffect(s: State, verdict: Verdict, id: Id, record: Pending, now: nat)
    ensures var after := AllChanged(s, Decided(verdict, id, record, now));
      && after == s.(pending := s.pending - {id}, forward := after.forward, reverse := after.reverse)
      && after.forward
         == if Confirms(verdict)
            then s.forward[Edge(record.a, Contradicts, record.b) := EdgeMetadata(verdict.confidence, now)]
                          [Edge(record.b, Contradicts, record.a) := EdgeMetadata(verdict.confidence, now)]
            else if Revises(verdict)
            then s.forward[Edge(record.b, RevisedFrom, record.a) := EdgeMetadata(verdict.confidence, now)]
            else s.forward
  {
    hide Changed, AllChanged;
    var metadata := EdgeMetadata(verdict.confidence, now);
    assert Changed(s, Consume(id)) == s.(pending := s.pending - {id}) by { ConsumeEffect(s, id); }
    if Confirms(verdict) {
      TwoChanges(s, Consume(id), Confirm(record.a, record.b, metadata));
      ConfirmEffect(s.(pending := s.pending - {id}), record.a, record.b, metadata);
    } else if Revises(verdict) {
      TwoChanges(s, Consume(id), Supersede(record.b, record.a, metadata));
      SupersedeEffect(s.(pending := s.pending - {id}), record.b, record.a, metadata);
    } else {
      assert Decided(verdict, id, record, now) == [Consume(id)];
      OneChange(s, Consume(id));
    }
  }

  lemma OneChange(s: State, a: Change)
    ensures AllChanged(s, [a]) == Changed(s, a)
  {
    hide Changed;
    assert AllChanged(s, [a]) == AllChanged(Changed(s, a), []);
  }

  lemma TwoChanges(s: State, a: Change, b: Change)
    ensures AllChanged(s, [a] + [b]) == Changed(Changed(s, a), b)
  {
    hide Changed;
    AllChangedAppend(s, [a], [b]);
    OneChange(s, a);
    OneChange(Changed(s, a), b);
  }

  lemma ConsumeEffect(s: State, id: Id)
    ensures Changed(s, Consume(id)) == s.(pending := s.pending - {id})
  {}

  lemma ConfirmEffect(s: State, a: Id, b: Id, metadata: EdgeMetadata)
    ensures var after := Changed(s, Confirm(a, b, metadata));
      && after == s.(forward := after.forward, reverse := after.reverse)
      && after.forward == s.forward[Edge(a, Contradicts, b) := metadata][Edge(b, Contradicts, a) := metadata]
  {}

  lemma SupersedeEffect(s: State, newer: Id, older: Id, metadata: EdgeMetadata)
    ensures var after := Changed(s, Supersede(newer, older, metadata));
      && after == s.(forward := after.forward, reverse := after.reverse)
      && after.forward == s.forward[Edge(newer, RevisedFrom, older) := metadata]
  {}

  /** The edges a verdict stands for: both ways for a contradiction, the newer to the older memory
      for a revision, none for a dismissal. */
  function EdgesOf(verdict: Verdict, record: Pending): set<Edge> {
    if Confirms(verdict) then {Edge(record.a, Contradicts, record.b), Edge(record.b, Contradicts, record.a)}
    else if Revises(verdict) then {Edge(record.b, RevisedFrom, record.a)}
    else {}
  }

  predicate Writes(s: State, verdict: Verdict, edge: Edge) {
    IsPending(s, verdict) && edge in EdgesOf(verdict, s.pending[verdict.pending.id])
  }

  /** The metadata that the last verdict standing for an edge gives it. */
  function Written(s: State, verdicts: seq<Verdict>, now: nat, edge: Edge): (metadata: Option<EdgeMetadata>)
    ensures metadata.Some? <==> exists v :: v in verdicts && Writes(s, v, edge)
  {
    if verdicts == [] then None
    else
      var init, last := verdicts[..|verdicts| - 1], verdicts[|verdicts| - 1];
      assert verdicts == init + [last];
      if Writes(s, last, edge) then Some(EdgeMetadata(last.confidence, now)) else Written(s, init, now, edge)
  }

  function EntryOf(edges: map<Edge, EdgeMetadata>, edge: Edge): Option<EdgeMetadata> {
    if edge in edges then Some(edges[edge]) else None
  }

  /** A successful commit consumes exactly the pending records named and leaves memories and their
      indexes alone. An edge changes exactly if a verdict stands for it; the last one decides. */
  lemma {:induction false} CommitEffect(s: State, verdicts: seq<Verdict>, now: nat, edge: Edge)
    requires CommitChanges(s, verdicts, now).Ok?
    ensures var after := AllChanged(s, CommitChanges(s, verdicts, now).value);
      && after == s.(pending := s.pending - Consumed(verdicts), forward := after.forward, reverse := after.reverse)
      && EntryOf(after.forward, edge)
         == if Written(s, verdicts, now, edge) == None then EntryOf(s.forward, edge)
            else Written(s, verdicts, now, edge)
  {
    hide Changed, Decided, Writes;
    if verdicts == [] {
      assert s.pending - Consumed([]) == s.pending;
    } else {
      var init, last := verdicts[..|verdicts| - 1], verdicts[|verdicts| - 1];
      CommitEffect(s, init, now, edge);
      var changes := CommitChanges(s, init, now).value;
      assert CheckedRef(s, last).Ok?;
      var record := s.pending[last.pending.id];
      AllChangedAppend(s, changes, Decided(last, last.pending.id, record, now));
      DecidedEntry(s, AllChanged(s, changes), last, now, edge);
      assert verdicts == init + [last];
      assert Consumed(verdicts) == Consumed(init) + {last.pending.id};
      assert s.pending - Consumed(init) - {last.pending.id} == s.pending - Consumed(verdicts);
    }
  }

  lemma DecidedEntry(read: State, s: State, verdict: Verdict, now: nat, edge: Edge)
    requires IsPending(read, verdict)
    ensures var id := verdict.pending.id;
      var after := AllChanged(s, Decided(verdict, id, read.pending[id], now));
      && after == s.(pending := s.pending - {id}, forward := after.forward, reverse := after.reverse)
      && EntryOf(after.forward, edge)
         == if Writes(read, verdict, edge) then Some(EdgeMetadata(verdict.confidence, now))
            else EntryOf(s.forward, edge)
  {
    hide AllChanged, Decided;
    DecidedEffect(s, verdict, verdict.pending.id, read.pending[verdict.pending.id], now);
  }

  // ---------------------------------------------------------------------------------------
  //  Runs
  // ---------------------------------------------------------------------------------------

  /** Anything that writes contradiction edges, and edges added by other means. */
  datatype Command =
    | DoCheck(id: Id, config: CheckConfig, classifier: Classifier, now: nat, candidates: seq<Candidate>)
    | DoCommit(verdicts: seq<Verdict>, now: nat)
    | DoAddEdge(edge: Edge, confidence: real, now: nat)

  function Done(s: State, command: Command): State {
    match command
    case DoCheck(id, config, classifier, now, candidates) => (
      match CheckChanges(s, id, config, classifier, now, candidates)
      case Ok(changes) => AllChanged(s, changes)
      case Err(_) => s)
    case DoCommit(verdicts, now) => (
      match CommitChanges(s, verdicts, now)
      case Ok(changes) => AllChanged(s, changes)
      case Err(_) => s)
    case DoAddEdge(edge, confidence, now) => EdgeAdded(s, edge, confidence, now)
  }

  function AllDone(s: State, run: seq<Command>): State {
    if run == [] then s else Done(AllDone(s, run[..|run| - 1]), run[|run| - 1])
  }

  /** Contradicts edges are left to checks and commits. */
  predicate AddsNoContradicts(command: Command) {
    command.DoAddEdge? ==> command.edge.kind != Contradicts
  }

  lemma DoneKeepsGraph(s: State, command: Command)
    requires Paired(s) && Symmetric(s) && AddsNoContradicts(command)
    ensures Paired(Done(s, command)) && Symmetric(Done(s, command))
    ensures forall e :: e in s.forward ==> e in Done(s, command).forward
  {
    hide Paired, Symmetric, CheckChanges, CommitChanges, EdgeAdded;
    match command
    case DoCheck(id, config, classifier, now, candidates) =>
      var result := CheckChanges(s, id, config, classifier, now, candidates);
      if result.Ok? { ChangesKeepGraph(s, result.value); }
    case DoCommit(verdicts, now) =>
      var result := CommitChanges(s, verdicts, now);
      if result.Ok? { ChangesKeepGraph(s, result.value); }
    case DoAddEdge(edge, confidence, now) =>
      EdgeAddedIsPaired(s, edge, confidence, now);
      EdgeAddedIsSymmetricIff(s, edge, confidence, now);
      EdgeAddedKeepsEdges(s, edge, confidence, now);
  }

  lemma EdgeAddedKeepsEdges(s: State, edge: Edge, confidence: real, now: nat)
    ensures forall e :: e in s.forward ==> e in EdgeAdded(s, edge, confidence, now).forward
  {
    ApplyPutEdge(s, edge, EdgeMetadata(confidence, now));
  }

  /** After any run both graph invariants hold, and a pair joined before it is joined after it. */
  lemma {:induction false} RunKeepsGraph(s: State, run: seq<Command>, a: Id, b: Id)
    requires Paired(s) && Symmetric(s)
    requires forall i :: 0 <= i < |run| ==> AddsNoContradicts(run[i])
    ensures Paired(AllDone(s, run)) && Symmetric(AllDone(s, run))
    ensures Joined(s, a, b) ==> Joined(AllDone(s, run), a, b)
  {
    hide Paired, Symmetric, Done;
    if run != [] {
      var init := run[..|run| - 1];
      RunKeepsGraph(s, init, a, b);
      DoneKeepsGraph(AllDone(s, init), run[|run| - 1]);
    }
  }

  /** Once joined by Contradicts, a pair is never classified again by a check, however many checks,
      commits and added edges lie between, and from whichever side. */
  lemma JoinedOnceNeverReclassified(
      s: State, run: seq<Command>, id: Id, other: Id,
      config: CheckConfig, classifier: Classifier, now: nat, candidates: seq<Candidate>)
    requires Paired(s) && Symmetric(s) && Joined(s, id, other)
    requires forall i :: 0 <= i < |run| ==> AddsNoContradicts(run[i])
    ensures var result := CheckChanges(AllDone(s, run), id, config, classifier, now, candidates);
      result.Ok? ==> forall c :: c in result.value ==> !Concerns(c, id, other)
  {
    RunKeepsGraph(s, run, id, other);
    CheckSkipsJoined(AllDone(s, run), id, other, config, classifier, now, candidates);
  }

  // ---------------------------------------------------------------------------------------
  //  Pairs that are pending twice
  // ---------------------------------------------------------------------------------------

  lemma {:induction false} PendingMakesNoDifference(
      s: State, pending: map<Id, Pending>, id: Id, config: CheckConfig, classifier: Classifier, now: nat,
      candidates: seq<Candidate>)
    requires id in s.records
    ensures JudgedAll(s.(pending := pending), id, config, classifier, now, candidates)
         == JudgedAll(s, id, config, classifier, now, candidates)
  {
    if candidates != [] {
      PendingMakesNoDifference(s, pending, id, config, classifier, now, candidates[..|candidates| - 1]);
    }
  }

  /** A check looks at edges, not at pending records: a pair that waits for review is queued again
      exactly if it would be queued without that. */
  lemma PendingPairIsQueuedAgain(
      s: State, waiting: Pending, id: Id, other: Id, config: CheckConfig, classify: (string, string) -> Entailment,
      now: nat, candidates: seq<Candidate>)
    requires id != other && {waiting.a, waiting.b} == {id, other}
    ensures var s' := s.(pending := s.pending[waiting.id := waiting]);
      var after := CheckChanges(s', id, config, Heuristic(classify), now, candidates);
      && after == CheckChanges(s, id, config, Heuristic(classify), now, candidates)
      && (Reports(after, id, other)
          <==> && Comparable(s, id, other, config)
               && Edge(id, Contradicts, other) !in s.forward && Edge(id, RevisedFrom, other) !in s.forward
               && Finds(
                    config, Heuristic(classify), s.records[id].content, other, s.records[other].content, candidates))
  {
    hide JudgedAll, Reports, Finds, Comparable;
    if id in s.records {
      PendingMakesNoDifference(s, s.pending[waiting.id := waiting], id, config, Heuristic(classify), now, candidates);
    }
    ReclassifiedUnlessOutgoing(s, id, other, config, Heuristic(classify), now, candidates);
  }

  predicate Classifies(s: State, v: Verdict, a: Id, b: Id) {
    IsPending(s, v) && !Dismisses(v) && {s.pending[v.pending.id].a, s.pending[v.pending.id].b} == {a, b}
  }

  /** So a commit can classify a pair that is already joined: it classifies a pair exactly if a
      verdict names a pending record of that pair and does not dismiss it. */
  lemma {:induction false} CommitClassifiesIff(s: State, verdicts: seq<Verdict>, now: nat, a: Id, b: Id)
    requires CommitChanges(s, verdicts, now).Ok?
    ensures (exists c :: c in CommitChanges(s, verdicts, now).value && Concerns(c, a, b))
       <==> exists v :: v in verdicts && Classifies(s, v, a, b)
  {
    hide Concerns, Decided, Classifies;
    if verdicts != [] {
      var init, last := verdicts[..|verdicts| - 1], verdicts[|verdicts| - 1];
      CommitClassifiesIff(s, init, now, a, b);
      assert verdicts == init + [last];
      assert CheckedRef(s, last).Ok?;
      DecidedConcerns(s, last, now, a, b);
    }
  }

  lemma DecidedConcerns(s: State, v: Verdict, now: nat, a: Id, b: Id)
    requires CheckedRef(s, v).Ok?
    ensures (exists c :: c in Decided(v, v.pending.id, CheckedRef(s, v).value, now) && Concerns(c, a, b))
       <==> Classifies(s, v, a, b)
  {
    var record, metadata := CheckedRef(s, v).value, EdgeMetadata(v.confidence, now);
    var decided := Decided(v, v.pending.id, record, now);
    if Confirms(v) {
      assert decided == [Consume(v.pending.id), Confirm(record.a, record.b, metadata)];
      assert decided[1] in decided;
    } else if Revises(v) {
      assert decided == [Consume(v.pending.id), Supersede(record.b, record.a, metadata)];
      assert decided[1] in decided;
    } else {
      assert decided == [Consume(v.pending.id)];
    }
  }
}
