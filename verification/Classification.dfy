/** What a contradiction check writes for which answer of the classifier. */
module Classification {
  import opened Results
  import opened Memories
  import opened Store
  import opened Contradictions

  /** The similarity of a neighbour, 1 - distance / 2 and never below zero, meets the minimum. */
  predicate IsClose(config: CheckConfig, c: Candidate) {
    if c.distance <= 2.0 then 2.0 * config.minSimilarity <= 2.0 - c.distance else config.minSimilarity <= 0.0
  }

  /** The characters with the Unicode property White_Space. */
  const WHITE_SPACE: set<char> := {
    '\U{9}', '\U{A}', '\U{B}', '\U{C}', '\U{D}', '\U{20}', '\U{85}', '\U{A0}', '\U{1680}', '\U{2000}', '\U{2001}',
    '\U{2002}', '\U{2003}', '\U{2004}', '\U{2005}', '\U{2006}', '\U{2007}', '\U{2008}', '\U{2009}', '\U{200A}',
    '\U{2028}', '\U{2029}', '\U{202F}', '\U{205F}', '\U{3000}' }

  predicate SaysSomething(text: string) {
    exists ch :: ch in text && ch !in WHITE_SPACE
  }

  lemma SpaceIsWhite(ch: char)
    ensures IsSpace(ch) <==> ch in WHITE_SPACE
  {}

  lemma BlankIff(text: string)
    ensures IsBlank(text) <==> !SaysSomething(text)
  {
    hide IsSpace;
    forall ch: char ensures IsSpace(ch) <==> ch in WHITE_SPACE { SpaceIsWhite(ch); }
    forall i | 0 <= i < |text| ensures text[i] in text {}
  }

  /** The check is on, both memories say something, the first has an embedding, and nothing leads from
      the first to the second yet. */
  predicate IsOpen(s: State, id: Id, other: Id, config: CheckConfig) {
    && config.enabled && id in s.records && other in s.records
    && SaysSomething(s.records[id].content) && SaysSomething(s.records[other].content)
    && s.records[id].embedding.Some?
    && Edge(id, Contradicts, other) !in s.forward && Edge(id, RevisedFrom, other) !in s.forward
  }

  predicate HasClose(config: CheckConfig, other: Id, candidates: seq<Candidate>) {
    exists c :: c in candidates && c.id == other && IsClose(config, c)
  }

  /** The LLM says contradiction, and surely enough. */
  predicate SaysContradiction(config: CheckConfig, classifier: Classifier, content: string, other: string) {
    && classifier.Llm? && classifier.ask(content, other).LlmContradiction?
    && config.minConfidence <= classifier.ask(content, other).confidence
  }

  predicate SaysRevision(config: CheckConfig, classifier: Classifier, content: string, other: string) {
    && classifier.Llm? && classifier.ask(content, other).LlmRevision?
    && config.minConfidence <= classifier.ask(content, other).confidence
  }

  /** The heuristic says contradiction, and surely enough. */
  predicate Suspects(config: CheckConfig, classifier: Classifier, content: string, other: string) {
    && classifier.Heuristic? && classifier.classify(content, other).Contradiction?
    && config.minConfidence <= classifier.classify(content, other).confidence
  }

  /** The changes that one candidate gives rise to. */
  predicate Warrants(
      s: State, id: Id, config: CheckConfig, classifier: Classifier, now: nat, c: Candidate, change: Change)
    requires id in s.records && c.id in s.records
  {
    var content, other := s.records[id].content, s.records[c.id].content;
    match change
    case Confirm(a, b, m) =>
      && a == id && b == c.id && SaysContradiction(config, classifier, content, other)
      && m == EdgeMetadata(classifier.ask(content, other).confidence, now)
    case Supersede(newer, older, m) =>
      && newer == c.id && older == id && SaysRevision(config, classifier, content, other)
      && m == EdgeMetadata(classifier.ask(content, other).confidence, now)
    case Queue(p) =>
      && p.id == c.pendingId && p.a == id && p.b == c.id && Suspects(config, classifier, content, other)
      && p.score == classifier.classify(content, other).confidence && p.createdAt == now
      && (if c.distance <= 2.0 then p.similarity == (2.0 - c.distance) / 2.0 else p.similarity == 0.0)
    case Consume(_) => false
  }

  lemma SimilarityIsClose(config: CheckConfig, c: Candidate)
    ensures Similarity(c.distance) >= config.minSimilarity <==> IsClose(config, c)
    ensures Similarity(c.distance) == if c.distance <= 2.0 then (2.0 - c.distance) / 2.0 else 0.0
  {}

  lemma JudgedIff(
      s: State, id: Id, config: CheckConfig, classifier: Classifier, now: nat, c: Candidate, change: Change)
    requires id in s.records
    ensures change in Judged(s, id, config, classifier, now, c)
       <==> && c.id != id && c.id in s.records && c.id !in AlreadyClassified(s, id) && !IsBlank(s.records[c.id].content)
            && IsClose(config, c) && Warrants(s, id, config, classifier, now, c, change)
  {
    hide AlreadyClassified, IsBlank, Similarity, IsClose;
    SimilarityIsClose(config, c);
  }

  lemma {:induction false} JudgedAllIff(
      s: State, id: Id, config: CheckConfig, classifier: Classifier, now: nat, candidates: seq<Candidate>,
      change: Change)
    requires id in s.records
    ensures change in JudgedAll(s, id, config, classifier, now, candidates)
       <==> exists c :: c in candidates && change in Judged(s, id, config, classifier, now, c)
  {
    hide Judged;
    if candidates != [] {
      var init, last := candidates[..|candidates| - 1], candidates[|candidates| - 1];
      JudgedAllIff(s, id, config, classifier, now, init, change);
      assert candidates == init + [last];
    }
  }

  /** A check makes exactly the changes that its answers about open pairs warrant. */
  lemma ChangeIffWarranted(
      s: State, id: Id, config: CheckConfig, classifier: Classifier, now: nat, candidates: seq<Candidate>,
      change: Change)
    ensures var result := CheckChanges(s, id, config, classifier, now, candidates);
      result.Ok? && change in result.value
      <==> exists c :: c in candidates && c.id != id && IsOpen(s, id, c.id, config) && IsClose(config, c)
             && Warrants(s, id, config, classifier, now, c, change)
  {
    hide AlreadyClassified, IsBlank, SaysSomething, Judged, JudgedAll, IsClose, Warrants;
    if id in s.records {
      BlankIff(s.records[id].content);
      JudgedAllIff(s, id, config, classifier, now, candidates, change);
      forall c: Candidate
        ensures change in Judged(s, id, config, classifier, now, c)
           <==> (&& c.id != id && c.id in s.records && c.id !in AlreadyClassified(s, id)
                 && !IsBlank(s.records[c.id].content)
                 && IsClose(config, c) && Warrants(s, id, config, classifier, now, c, change))
        ensures c.id in AlreadyClassified(s, id)
           <==> Edge(id, Contradicts, c.id) in s.forward || Edge(id, RevisedFrom, c.id) in s.forward
        ensures c.id in s.records ==> (IsBlank(s.records[c.id].content) <==> !SaysSomething(s.records[c.id].content))
      {
        if c.id in s.records { BlankIff(s.records[c.id].content); }
        JudgedIff(s, id, config, classifier, now, c, change);
        AlreadyClassifiedIff(s, id, c.id);
      }
    }
  }

  /** For two memories: a contradiction is written exactly if the LLM says so, a revision exactly if it
      says that, each with the confidence of the answer, and a pending record with score and
      similarity exactly if the heuristic suspects a contradiction. */
  lemma AnswerDecides(
      s: State, id: Id, other: Id, config: CheckConfig, classifier: Classifier, now: nat, candidates: seq<Candidate>,
      m: EdgeMetadata, p: Pending)
    requires id != other && IsOpen(s, id, other, config)
    ensures var content, otherContent := s.records[id].content, s.records[other].content;
      var result := CheckChanges(s, id, config, classifier, now, candidates);
      && result.Ok?
      && (Confirm(id, other, m) in result.value
          <==> && HasClose(config, other, candidates) && SaysContradiction(config, classifier, content, otherContent)
               && m == EdgeMetadata(classifier.ask(content, otherContent).confidence, now))
      && (Supersede(other, id, m) in result.value
          <==> && HasClose(config, other, candidates) && SaysRevision(config, classifier, content, otherContent)
               && m == EdgeMetadata(classifier.ask(content, otherContent).confidence, now))
      && (p.a == id && p.b == other ==>
            (Queue(p) in result.value
             <==> && Suspects(config, classifier, content, otherContent)
                  && p.score == classifier.classify(content, otherContent).confidence && p.createdAt == now
                  && exists c :: c in candidates && c.id == other && IsClose(config, c) && c.pendingId == p.id
                       && p.similarity == if c.distance <= 2.0 then (2.0 - c.distance) / 2.0 else 0.0))
  {
    hide CheckChanges, IsClose, IsOpen, SaysContradiction, SaysRevision, Suspects;
    OpenIsRecorded(s, id, other, config);
    ChangeIffWarranted(s, id, config, classifier, now, candidates, Confirm(id, other, m));
    ChangeIffWarranted(s, id, config, classifier, now, candidates, Supersede(other, id, m));
    ChangeIffWarranted(s, id, config, classifier, now, candidates, Queue(p));
    OpenIsOk(s, id, other, config, classifier, now, candidates);
  }

  lemma OpenIsRecorded(s: State, id: Id, other: Id, config: CheckConfig)
    requires IsOpen(s, id, other, config)
    ensures id in s.records && other in s.records
  {}

  lemma OpenIsOk(
      s: State, id: Id, other: Id, config: CheckConfig, classifier: Classifier, now: nat, candidates: seq<Candidate>)
    requires IsOpen(s, id, other, config)
    ensures CheckChanges(s, id, config, classifier, now, candidates).Ok?
  {
    hide IsBlank, SaysSomething, JudgedAll;
  }

  // ---------------------------------------------------------------------------------------
  //  The edges stored
  // ---------------------------------------------------------------------------------------

  /** The change writes this edge. */
  predicate Writes(change: Change, e: Edge) {
    match change
    case Confirm(a, b, _) => e == Edge(a, Contradicts, b) || e == Edge(b, Contradicts, a)
    case Supersede(newer, older, _) => e == Edge(newer, RevisedFrom, older)
    case _ => false
  }

  predicate WritesAny(changes: seq<Change>, e: Edge) {
    exists change :: change in changes && Writes(change, e)
  }

  lemma ChangedIff(s: State, change: Change, e: Edge)
    ensures var after := Changed(s, change).forward;
      && (e in after <==> e in s.forward || Writes(change, e))
      && (e in after ==> after[e] == if Writes(change, e) then change.metadata else s.forward[e])
  {}

  /** An edge is stored after changes exactly if it was before or one of them writes it; its metadata
      is then that of one that writes it, or what it was if none does. */
  lemma {:induction false} StoredIff(s: State, changes: seq<Change>, e: Edge)
    ensures var after := AllChanged(s, changes).forward;
      && (e in after <==> e in s.forward || WritesAny(changes, e))
      && (WritesAny(changes, e) ==>
            exists change :: change in changes && Writes(change, e) && after[e] == change.metadata)
      && (e in after && !WritesAny(changes, e) ==> after[e] == s.forward[e])
    decreases |changes|
  {
    hide Changed, Writes;
    if changes != [] {
      var first, rest := changes[0], changes[1..];
      StoredIff(Changed(s, first), rest, e);
      ChangedIff(s, first, e);
      assert changes == [first] + rest;
      assert WritesAny(changes, e) <==> Writes(first, e) || WritesAny(rest, e);
    }
  }

  /** After a check of an open pair Contradicts leads from the one to the other exactly if the LLM says
      contradiction about a close neighbour, and RevisedFrom from the other to the one, unless it did
      already, exactly if it says revision; a new edge has the confidence of the answer. */
  lemma CheckedEdges(
      s: State, id: Id, other: Id, config: CheckConfig, classifier: Classifier, now: nat, candidates: seq<Candidate>)
    requires id != other && IsOpen(s, id, other, config)
    ensures var content, otherContent := s.records[id].content, s.records[other].content;
      var result := CheckChanges(s, id, config, classifier, now, candidates);
      var contradicts := HasClose(config, other, candidates)
        && SaysContradiction(config, classifier, content, otherContent);
      var revises := HasClose(config, other, candidates) && SaysRevision(config, classifier, content, otherContent);
      && result.Ok?
      && var after := AllChanged(s, result.value).forward;
      && (Edge(id, Contradicts, other) in after <==> contradicts)
      && (Edge(other, RevisedFrom, id) in after <==> revises || Edge(other, RevisedFrom, id) in s.forward)
      && (contradicts ==>
            after[Edge(id, Contradicts, other)] == EdgeMetadata(classifier.ask(content, otherContent).confidence, now))
      && (revises ==>
            after[Edge(other, RevisedFrom, id)] == EdgeMetadata(classifier.ask(content, otherContent).confidence, now))
  {
    hide CheckChanges, AllChanged, SaysContradiction, SaysRevision, Suspects, HasClose, IsClose, Writes;
    OpenIsOk(s, id, other, config, classifier, now, candidates);
    var changes := CheckChanges(s, id, config, classifier, now, candidates).value;
    var confirmed, revised := Edge(id, Contradicts, other), Edge(other, RevisedFrom, id);
    StoredIff(s, changes, confirmed);
    StoredIff(s, changes, revised);
    ContradictionWritten(s, id, other, config, classifier, now, candidates);
    RevisionWritten(s, id, other, config, classifier, now, candidates);
  }

  lemma ContradictionWritten(
      s: State, id: Id, other: Id, config: CheckConfig, classifier: Classifier, now: nat, candidates: seq<Candidate>)
    requires id != other && IsOpen(s, id, other, config)
    requires CheckChanges(s, id, config, classifier, now, candidates).Ok?
    ensures var content, otherContent := s.records[id].content, s.records[other].content;
      var changes, e := CheckChanges(s, id, config, classifier, now, candidates).value, Edge(id, Contradicts, other);
      && (WritesAny(changes, e)
          <==> HasClose(config, other, candidates) && SaysContradiction(config, classifier, content, otherContent))
      && forall change :: change in changes && Writes(change, e) ==>
           change.metadata == EdgeMetadata(classifier.ask(content, otherContent).confidence, now)
  {
    hide CheckChanges, SaysRevision, Suspects, HasClose, IsClose, IsOpen;
    OpenIsRecorded(s, id, other, config);
    var changes, e := CheckChanges(s, id, config, classifier, now, candidates).value, Edge(id, Contradicts, other);
    var pending := Pending(0, other, id, 0.0, 0.0, 0);
    forall change | change in changes && Writes(change, e) ensures change == Confirm(id, other, change.metadata) {
      NoneBackwards(s, id, other, config, classifier, now, candidates, change.metadata);
    }
    forall change | change in changes && Writes(change, e)
      ensures HasClose(config, other, candidates)
      ensures SaysContradiction(config, classifier, s.records[id].content, s.records[other].content)
      ensures change.metadata
           == EdgeMetadata(classifier.ask(s.records[id].content, s.records[other].content).confidence, now)
    {
      AnswerDecides(s, id, other, config, classifier, now, candidates, change.metadata, pending);
    }
    if HasClose(config, other, candidates)
      && SaysContradiction(config, classifier, s.records[id].content, s.records[other].content)
    {
      var m := EdgeMetadata(classifier.ask(s.records[id].content, s.records[other].content).confidence, now);
      AnswerDecides(s, id, other, config, classifier, now, candidates, m, pending);
      assert Writes(Confirm(id, other, m), e);
    }
  }

  lemma RevisionWritten(
      s: State, id: Id, other: Id, config: CheckConfig, classifier: Classifier, now: nat, candidates: seq<Candidate>)
    requires id != other && IsOpen(s, id, other, config)
    requires CheckChanges(s, id, config, classifier, now, candidates).Ok?
    ensures var content, otherContent := s.records[id].content, s.records[other].content;
      var changes, e := CheckChanges(s, id, config, classifier, now, candidates).value, Edge(other, RevisedFrom, id);
      && (WritesAny(changes, e)
          <==> HasClose(config, other, candidates) && SaysRevision(config, classifier, content, otherContent))
      && forall change :: change in changes && Writes(change, e) ==>
           change.metadata == EdgeMetadata(classifier.ask(content, otherContent).confidence, now)
  {
    hide CheckChanges, SaysContradiction, Suspects, HasClose, IsClose, IsOpen;
    OpenIsRecorded(s, id, other, config);
    var changes, e := CheckChanges(s, id, config, classifier, now, candidates).value, Edge(other, RevisedFrom, id);
    var pending := Pending(0, other, id, 0.0, 0.0, 0);
    forall change | change in changes && Writes(change, e)
      ensures HasClose(config, other, candidates)
      ensures SaysRevision(config, classifier, s.records[id].content, s.records[other].content)
      ensures change.metadata
           == EdgeMetadata(classifier.ask(s.records[id].content, s.records[other].content).confidence, now)
    {
      AnswerDecides(s, id, other, config, classifier, now, candidates, change.metadata, pending);
    }
    if HasClose(config, other, candidates)
      && SaysRevision(config, classifier, s.records[id].content, s.records[other].content)
    {
      var m := EdgeMetadata(classifier.ask(s.records[id].content, s.records[other].content).confidence, now);
      AnswerDecides(s, id, other, config, classifier, now, candidates, m, pending);
      assert Writes(Supersede(other, id, m), e);
    }
  }

  lemma NoneBackwards(
      s: State, id: Id, other: Id, config: CheckConfig, classifier: Classifier, now: nat, candidates: seq<Candidate>,
      m: EdgeMetadata)
    requires id != other && CheckChanges(s, id, config, classifier, now, candidates).Ok?
    ensures Confirm(other, id, m) !in CheckChanges(s, id, config, classifier, now, candidates).value
  {
    hide CheckChanges, SaysContradiction, IsClose, IsOpen;
    forall c: Candidate | IsOpen(s, id, c.id, config) ensures id in s.records && c.id in s.records {
      OpenIsRecorded(s, id, c.id, config);
    }
    ChangeIffWarranted(s, id, config, classifier, now, candidates, Confirm(other, id, m));
  }
}
