/** How a score depends on each of its signals, and what that does to a ranking. Together the
    differences and the two ends give the score for every memory. */
module Scoring {
  import opened Sequences
  import opened Memories
  import opened Ranking

  /** Memories that differ in neither importance nor use. */
  predicate AlikeButForAge(a: Memory, b: Memory) {
    a.importance == b.importance && a.accessCount == b.accessCount
  }

  predicate AlikeButForImportance(a: Memory, b: Memory) {
    a.createdAt == b.createdAt && a.accessCount == b.accessCount
  }

  predicate AlikeButForUse(a: Memory, b: Memory) {
    a.createdAt == b.createdAt && a.importance == b.importance
  }

  // ---------------------------------------------------------------------------------------
  //  One signal at a time
  // ---------------------------------------------------------------------------------------

  lemma TimesDiffer(w: real, x: real, y: real)
    ensures Times(w, x) - Times(w, y) == w * (x - y)
  {}

  lemma PartsDiffer(x: real, y: real, d: real)
    requires d > 0.0
    ensures (1.0 - x / d) - (1.0 - y / d) == (y - x) / d
  {}

  lemma PartIsUnit(x: real, d: real)
    requires 0.0 <= x <= d && d > 0.0
    ensures 0.0 <= x / d <= 1.0
  {}

  lemma RecencyWithin(weights: Weights, createdAt: nat, now: nat)
    requires createdAt <= now <= createdAt + weights.maxAge && weights.maxAge > 0
    ensures Recency(weights, createdAt, now) == 1.0 - (now - createdAt) as real / weights.maxAge as real
  {
    PartIsUnit((now - createdAt) as real, weights.maxAge as real);
  }

  /** Within the maximum age the score falls in proportion to the age. */
  lemma AgeDecides(log2: real -> real, weights: Weights, relevance: real, younger: Memory, older: Memory, now: nat)
    requires AlikeButForAge(younger, older)
    requires older.createdAt <= younger.createdAt <= now <= older.createdAt + weights.maxAge && weights.maxAge > 0
    ensures Score(log2, weights, relevance, younger, now) - Score(log2, weights, relevance, older, now)
         == weights.recency * ((younger.createdAt - older.createdAt) as real / weights.maxAge as real)
  {
    hide Recency, Times, Reinforcement;
    RecencyWithin(weights, younger.createdAt, now);
    RecencyWithin(weights, older.createdAt, now);
    var max := weights.maxAge as real;
    PartsDiffer((now - younger.createdAt) as real, (now - older.createdAt) as real, max);
    TimesDiffer(weights.recency, Recency(weights, younger.createdAt, now), Recency(weights, older.createdAt, now));
  }

  lemma PartOverOne(x: real, d: real)
    requires x >= d > 0.0
    ensures x / d >= 1.0
  {}

  lemma RecencyBeyond(weights: Weights, createdAt: nat, now: nat)
    requires now >= createdAt + weights.maxAge && weights.maxAge > 0
    ensures Recency(weights, createdAt, now) == 0.0
  {
    PartOverOne((now - createdAt) as real, weights.maxAge as real);
  }

  /** Beyond it the age makes no difference any more, and neither do creation times to come, nor any
      age if there is no maximum. */
  lemma AgeIsBounded(log2: real -> real, weights: Weights, relevance: real, a: Memory, b: Memory, now: nat)
    requires AlikeButForAge(a, b)
    requires || weights.maxAge == 0
             || (a.createdAt >= now && b.createdAt >= now)
             || (a.createdAt + weights.maxAge <= now && b.createdAt + weights.maxAge <= now)
    ensures Score(log2, weights, relevance, a, now) == Score(log2, weights, relevance, b, now)
  {
    hide Times, Reinforcement;
    if weights.maxAge > 0 && a.createdAt + weights.maxAge <= now && b.createdAt + weights.maxAge <= now {
      RecencyBeyond(weights, a.createdAt, now);
      RecencyBeyond(weights, b.createdAt, now);
    }
  }

  /** Within 0 and 1 importance and relevance count in proportion, and what is outside counts as the
      nearer end. */
  lemma ImportanceDecides(log2: real -> real, weights: Weights, relevance: real, a: Memory, b: Memory, now: nat)
    requires AlikeButForImportance(a, b)
    ensures 0.0 <= a.importance <= 1.0 && 0.0 <= b.importance <= 1.0 ==>
      Score(log2, weights, relevance, a, now) - Score(log2, weights, relevance, b, now)
      == weights.importance * (a.importance - b.importance)
    ensures (a.importance <= 0.0 && b.importance <= 0.0) || (a.importance >= 1.0 && b.importance >= 1.0) ==>
      Score(log2, weights, relevance, a, now) == Score(log2, weights, relevance, b, now)
  {
    hide Times, Reinforcement, Recency;
    TimesDiffer(weights.importance, a.importance, b.importance);
  }

  lemma RelevanceDecides(log2: real -> real, weights: Weights, a: real, b: real, m: Memory, now: nat)
    ensures 0.0 <= a <= 1.0 && 0.0 <= b <= 1.0 ==>
      Score(log2, weights, a, m, now) - Score(log2, weights, b, m, now) == weights.relevance * (a - b)
    ensures (a <= 0.0 && b <= 0.0) || (a >= 1.0 && b >= 1.0) ==>
      Score(log2, weights, a, m, now) == Score(log2, weights, b, m, now)
  {
    hide Times, Reinforcement, Recency;
    TimesDiffer(weights.relevance, a, b);
  }

  lemma QuotientsDiffer(x: real, y: real, d: real)
    requires d > 0.0
    ensures x / d - y / d == (x - y) / d
    ensures x <= d ==> x / d <= 1.0
    ensures x < d ==> x / d < 1.0
    ensures x >= d ==> x / d >= 1.0
    ensures x > y ==> (x - y) / d > 0.0
  {}

  lemma UseWithin(log2: real -> real, weights: Weights, count: nat)
    requires IsLogarithm(log2) && count <= weights.reinforcementCap && weights.reinforcementCap > 0
    ensures log2(1.0 + weights.reinforcementCap as real) > 0.0
    ensures Reinforcement(log2, weights, count)
         == log2(1.0 + count as real) / log2(1.0 + weights.reinforcementCap as real)
  {
    var logCap, logCount := log2(1.0 + weights.reinforcementCap as real), log2(1.0 + count as real);
    assert log2(1.0) < logCap;
    assert logCount <= logCap;
    QuotientsDiffer(logCount, logCap, logCap);
  }

  lemma UseBeyond(log2: real -> real, weights: Weights, count: nat)
    requires IsLogarithm(log2) && count >= weights.reinforcementCap > 0
    ensures Reinforcement(log2, weights, count) == 1.0
  {
    var logCap, logCount := log2(1.0 + weights.reinforcementCap as real), log2(1.0 + count as real);
    assert log2(1.0) < logCap;
    assert logCount >= logCap;
    QuotientsDiffer(logCount, logCap, logCap);
  }

  lemma ProductPositive(w: real, x: real)
    requires w > 0.0 && x > 0.0
    ensures w * x > 0.0
  {}

  /** Up to the cap accesses count by their logarithm, so that more of them score strictly more. */
  lemma UseDecides(log2: real -> real, weights: Weights, relevance: real, more: Memory, less: Memory, now: nat)
    requires IsLogarithm(log2) && AlikeButForUse(more, less)
    requires less.accessCount <= more.accessCount <= weights.reinforcementCap && weights.reinforcementCap > 0
    ensures log2(1.0 + weights.reinforcementCap as real) > 0.0
    ensures Score(log2, weights, relevance, more, now) - Score(log2, weights, relevance, less, now)
         == weights.reinforcement * ((log2(1.0 + more.accessCount as real) - log2(1.0 + less.accessCount as real))
                                     / log2(1.0 + weights.reinforcementCap as real))
    ensures weights.reinforcement > 0.0 && less.accessCount < more.accessCount ==>
      Score(log2, weights, relevance, more, now) > Score(log2, weights, relevance, less, now)
  {
    var x, y := log2(1.0 + more.accessCount as real), log2(1.0 + less.accessCount as real);
    var logCap := log2(1.0 + weights.reinforcementCap as real);
    assert less.accessCount < more.accessCount ==> x > y;
    UseWithin(log2, weights, more.accessCount);
    UseWithin(log2, weights, less.accessCount);
    QuotientsDiffer(x, y, logCap);
    hide Times, Reinforcement, Recency, IsLogarithm;
    TimesDiffer(weights.reinforcement, x / logCap, y / logCap);
    if weights.reinforcement > 0.0 && less.accessCount < more.accessCount {
      ProductPositive(weights.reinforcement, (x - y) / logCap);
    }
  }

  /** Above the cap, or without one, it makes no difference how many there are. */
  lemma UseIsBounded(log2: real -> real, weights: Weights, relevance: real, a: Memory, b: Memory, now: nat)
    requires IsLogarithm(log2) && AlikeButForUse(a, b)
    requires a.accessCount >= weights.reinforcementCap && b.accessCount >= weights.reinforcementCap
    ensures Score(log2, weights, relevance, a, now) == Score(log2, weights, relevance, b, now)
  {
    if weights.reinforcementCap > 0 {
      UseBeyond(log2, weights, a.accessCount);
      UseBeyond(log2, weights, b.accessCount);
      hide Reinforcement;
    }
  }

  /** A new, fully relevant and important memory that was used as often as counts scores the sum of the
      weights; one that is as old as counts, irrelevant, unimportant and unused scores nothing. */
  lemma ScoreEnds(log2: real -> real, weights: Weights, m: Memory, now: nat)
    requires IsLogarithm(log2) && weights.reinforcementCap > 0
    ensures m.createdAt >= now && m.importance >= 1.0 && m.accessCount >= weights.reinforcementCap ==>
      Score(log2, weights, 1.0, m, now)
      == weights.relevance + weights.recency + weights.importance + weights.reinforcement
    ensures weights.maxAge > 0 && m.createdAt + weights.maxAge <= now && m.importance <= 0.0 && m.accessCount == 0 ==>
      Score(log2, weights, 0.0, m, now) == 0.0
  {
    if m.accessCount >= weights.reinforcementCap { UseBeyond(log2, weights, m.accessCount); }
    if m.accessCount == 0 { UseWithin(log2, weights, 0); }
    if weights.maxAge > 0 && m.createdAt + weights.maxAge <= now { RecencyBeyond(weights, m.createdAt, now); }
    hide Reinforcement, IsLogarithm;
  }

  /** Without a cap, use counts nothing. */
  lemma UseUncounted(log2: real -> real, weights: Weights, relevance: real, m: Memory, now: nat)
    requires weights.reinforcementCap == 0
    ensures Score(log2, weights, relevance, m, now) == Score(log2, weights.(reinforcement := 0.0), relevance, m, now)
  {
    TimesNothing(weights.reinforcement);
    TimesNothing(0.0);
    SameRecency(weights, m.createdAt, now);
    hide Recency, Times, Clamped;
  }

  lemma TimesNothing(w: real)
    ensures Times(w, 0.0) == 0.0
  {}

  lemma SameRecency(weights: Weights, createdAt: nat, now: nat)
    ensures Recency(weights.(reinforcement := 0.0), createdAt, now) == Recency(weights, createdAt, now)
  {}

  // ---------------------------------------------------------------------------------------
  //  The ranking
  // ---------------------------------------------------------------------------------------

  /** Of two memories that are kept, the one that scores more stands before the other, and is in the
      ranking if the other is. */
  lemma HigherComesFirst(
      log2: real -> real, results: seq<Found>, weights: Weights, now: nat, topK: nat, order: seq<Id>, k: nat, l: nat)
    requires AllFound(order, results) && k < |order| && l < |order|
    requires IsKept(results, order, k) && IsKept(results, order, l)
    requires ResultFor(log2, results, weights, now, order[k]).score
           > ResultFor(log2, results, weights, now, order[l]).score
    ensures var ranked := Ranked(log2, results, weights, now, topK, order);
      var high := ResultFor(log2, results, weights, now, order[k]);
      var low := ResultFor(log2, results, weights, now, order[l]);
      && (low in ranked ==> high in ranked)
      && forall i, j :: 0 <= i < |ranked| && 0 <= j < |ranked| && ranked[i] == high && ranked[j] == low ==> i < j
  {
    hide FoundIds, ContentOf, ResultFor, Survivors, SortedByScore, IsKept;
    var survivors := Survivors(log2, results, weights, now, order);
    var high := ResultFor(log2, results, weights, now, order[k]);
    var low := ResultFor(log2, results, weights, now, order[l]);
    SortedByScoreIsSorted(survivors);
    SameMembers(survivors, SortedByScore(survivors));
    assert Stands(log2, results, weights, now, order, k, high);
    assert Stands(log2, results, weights, now, order, l, low);
    SurvivorsStand(log2, results, weights, now, order, high);
    SurvivorsStand(log2, results, weights, now, order, low);
    CutKeepsBest(SortedByScore(survivors), topK);
  }

  /** So of two kept memories found equally relevant that are alike but for their age, within the
      maximum, the younger stands before the older. */
  lemma YoungerComesFirst(
      log2: real -> real, results: seq<Found>, weights: Weights, now: nat, topK: nat, order: seq<Id>, k: nat, l: nat)
    requires AllFound(order, results) && k < |order| && l < |order|
    requires IsKept(results, order, k) && IsKept(results, order, l)
    requires var a, b := MergedOf(results, order[k]), MergedOf(results, order[l]);
      && a.relevance == b.relevance && AlikeButForAge(a.memory, b.memory)
      && b.memory.createdAt < a.memory.createdAt <= now <= b.memory.createdAt + weights.maxAge
    requires weights.recency > 0.0
    ensures var ranked := Ranked(log2, results, weights, now, topK, order);
      var a, b := MergedOf(results, order[k]).memory, MergedOf(results, order[l]).memory;
      && ((exists j :: 0 <= j < |ranked| && ranked[j].memory == b) ==>
            exists i :: 0 <= i < |ranked| && ranked[i].memory == a)
      && forall i, j :: 0 <= i < |ranked| && 0 <= j < |ranked| && ranked[i].memory == a && ranked[j].memory == b ==>
           i < j
  {
    hide FoundIds, Score, Ranked, IsKept, MergedOf;
    var a, b := MergedOf(results, order[k]), MergedOf(results, order[l]);
    var ranked := Ranked(log2, results, weights, now, topK, order);
    AgeDecides(log2, weights, a.relevance, a.memory, b.memory, now);
    var part := (a.memory.createdAt - b.memory.createdAt) as real / weights.maxAge as real;
    QuotientsDiffer((a.memory.createdAt - b.memory.createdAt) as real, 0.0, weights.maxAge as real);
    ProductPositive(weights.recency, part);
    HigherComesFirst(log2, results, weights, now, topK, order, k, l);
    RankedAreResults(log2, results, weights, now, topK, order, k);
    RankedAreResults(log2, results, weights, now, topK, order, l);
    var high := ResultFor(log2, results, weights, now, order[k]);
    if high in ranked {
      var i :| 0 <= i < |ranked| && ranked[i] == high;
      assert ranked[i].memory == a.memory;
    }
  }

  /** What the ranking holds of a memory is its result. */
  lemma RankedAreResults(
      log2: real -> real, results: seq<Found>, weights: Weights, now: nat, topK: nat, order: seq<Id>, k: nat)
    requires AllFound(order, results) && k < |order|
    ensures forall r ::
      r in Ranked(log2, results, weights, now, topK, order) && r.memory == MergedOf(results, order[k]).memory ==>
        r == ResultFor(log2, results, weights, now, order[k])
  {
    hide FoundIds, ContentOf, ResultFor, Survivors, SortedByScore, IsKept, MergedOf, Stands;
    var survivors := Survivors(log2, results, weights, now, order);
    SortedByScoreIsSorted(survivors);
    SameMembers(survivors, SortedByScore(survivors));
    ResultIs(log2, results, weights, now, order[k]);
    ResultMemory(log2, results, weights, now, order[k]);
    forall r | r in survivors && r.memory == MergedOf(results, order[k]).memory
      ensures r == ResultFor(log2, results, weights, now, order[k])
    {
      SurvivorsStand(log2, results, weights, now, order, r);
      var j :| 0 <= j < |order| && Stands(log2, results, weights, now, order, j, r);
      StandsHas(log2, results, weights, now, order, j, r);
    }
  }

  lemma ResultMemory(log2: real -> real, results: seq<Found>, weights: Weights, now: nat, id: Id)
    requires id in FoundIds(results)
    ensures ResultFor(log2, results, weights, now, id).memory == MergedOf(results, id).memory
  {}
}
