/** `merge_and_rank` of engine.rs: what several recall strategies found is merged by memory,
    thinned by content, scored, sorted and cut. */
module Ranking {
  import opened Sequences
  import opened Memories
  import opened Store

  datatype Detail =
    | Similarity(distance: real, relevance: real)
    | Temporal(timestamp: nat, rank: nat, relevance: real)
    | Causal(depth: nat, edge: EdgeType, seed: Id, relevance: real)
    | Analogical(embeddingSimilarity: real, structuralSimilarity: real, relevance: real, usedVectorAnalogy: bool)

  /** What one strategy found. */
  datatype Found = Found(memory: Memory, relevance: real, detail: Detail)

  datatype Merged = Merged(memory: Memory, relevance: real, details: seq<Detail>)

  datatype RecallResult = RecallResult(memory: Memory, score: real, details: seq<Detail>)

  // ---------------------------------------------------------------------------------------
  //  The score
  // ---------------------------------------------------------------------------------------

  datatype Weights = Weights(
    relevance: real, recency: real, importance: real, reinforcement: real, maxAge: nat, reinforcementCap: nat)

  function Clamped(x: real): (y: real)
    ensures 0.0 <= y <= 1.0
    ensures 0.0 <= x <= 1.0 ==> y == x
  {
    if x < 0.0 then 0.0 else if x > 1.0 then 1.0 else x
  }

  function Recency(weights: Weights, createdAt: nat, now: nat): real {
    if weights.maxAge > 0 && now > createdAt
    then Clamped(1.0 - (now - createdAt) as real / weights.maxAge as real)
    else 1.0
  }

  /** The logarithm of 1 + cap is positive for a positive cap. */
  function Reinforcement(log2: real -> real, weights: Weights, accessCount: nat): real {
    var logCap := log2(1.0 + weights.reinforcementCap as real);
    if weights.reinforcementCap > 0 && logCap > 0.0 then
      var ratio := log2(1.0 + accessCount as real) / logCap;
      if ratio < 1.0 then ratio else 1.0
    else 0.0
  }

  /** compute_composite_score */
  function Score(log2: real -> real, weights: Weights, relevance: real, memory: Memory, now: nat): real {
    Weighed(weights, Clamped(relevance), Recency(weights, memory.createdAt, now), Clamped(memory.importance),
      Reinforcement(log2, weights, memory.accessCount))
  }

  function Weighed(w: Weights, relevance: real, recency: real, importance: real, reinforcement: real): real {
    Times(w.relevance, relevance) + Times(w.recency, recency) + Times(w.importance, importance)
    + Times(w.reinforcement, reinforcement)
  }

  function Times(w: real, x: real): real {
    w * x
  }

  ghost predicate IsLogarithm(log2: real -> real) {
    log2(1.0) == 0.0 && forall x: real, y: real :: 1.0 <= x < y ==> log2(x) < log2(y)
  }

  lemma Weighted(w: real, x: real, y: real)
    requires 0.0 <= w && 0.0 <= x <= y <= 1.0
    ensures 0.0 <= Times(w, x) <= Times(w, y) <= w
  {}

  predicate NoneNegative(w: Weights) {
    w.relevance >= 0.0 && w.recency >= 0.0 && w.importance >= 0.0 && w.reinforcement >= 0.0
  }

  predicate IsUnit(x: real) {
    0.0 <= x <= 1.0
  }

  lemma WeighedIsBounded(w: Weights, low: real, high: real, b: real, c: real, d: real)
    requires NoneNegative(w) && IsUnit(low) && IsUnit(high) && IsUnit(b) && IsUnit(c) && IsUnit(d) && low <= high
    ensures 0.0 <= Weighed(w, low, b, c, d) <= Weighed(w, high, b, c, d)
    ensures Weighed(w, high, b, c, d) <= w.relevance + w.recency + w.importance + w.reinforcement
  {
    hide Times;
    Weighted(w.relevance, low, high);
    Weighted(w.recency, b, b);
    Weighted(w.importance, c, c);
    Weighted(w.reinforcement, d, d);
  }

  lemma Quotient(x: real, y: real)
    requires x >= 0.0 && y > 0.0
    ensures x / y >= 0.0
  {}

  lemma ReinforcementIsBounded(log2: real -> real, weights: Weights, accessCount: nat)
    requires IsLogarithm(log2)
    ensures 0.0 <= Reinforcement(log2, weights, accessCount) <= 1.0
  {
    var logCap, logCount := log2(1.0 + weights.reinforcementCap as real), log2(1.0 + accessCount as real);
    if accessCount > 0 { assert log2(1.0) < logCount; }
    if logCap > 0.0 { Quotient(logCount, logCap); }
  }

  lemma RecencyIsBounded(weights: Weights, createdAt: nat, now: nat)
    ensures 0.0 <= Recency(weights, createdAt, now) <= 1.0
  {}

  /** With weights that are not negative a score lies between zero and their sum and does not fall
      when the relevance rises. */
  lemma ScoreIsBounded(log2: real -> real, weights: Weights, low: real, high: real, memory: Memory, now: nat)
    requires IsLogarithm(log2) && low <= high
    requires NoneNegative(weights)
    ensures 0.0 <= Score(log2, weights, low, memory, now) <= Score(log2, weights, high, memory, now)
    ensures Score(log2, weights, high, memory, now)
         <= weights.relevance + weights.recency + weights.importance + weights.reinforcement
  {
    hide Recency, Reinforcement, IsLogarithm, Weighed;
    ReinforcementIsBounded(log2, weights, memory.accessCount);
    RecencyIsBounded(weights, memory.createdAt, now);
    WeighedIsBounded(weights, Clamped(low), Clamped(high), Recency(weights, memory.createdAt, now),
        Clamped(memory.importance),
      Reinforcement(log2, weights, memory.accessCount));
  }

  // ---------------------------------------------------------------------------------------
  //  Merging by memory
  // ---------------------------------------------------------------------------------------

  /** What was found of one memory, in the order in which it was found. */
  function Of(results: seq<Found>, id: Id): (group: seq<Found>)
    ensures forall f :: f in group <==> f in results && f.memory.id == id
  {
    if results == [] then []
    else
      var last := results[|results| - 1];
      assert results == results[..|results| - 1] + [last];
      if last.memory.id == id then Of(results[..|results| - 1], id) + [last] else Of(results[..|results| - 1], id)
  }

  function FoundIds(results: seq<Found>): set<Id> {
    set f | f in results :: f.memory.id
  }

  lemma FoundMeansGroup(results: seq<Found>, id: Id)
    ensures id in FoundIds(results) <==> Of(results, id) != []
  {
    var group := Of(results, id);
    if group != [] {
      assert group[0] in group;
    }
  }

  function Highest(group: seq<Found>): (relevance: real)
    requires group != []
    ensures exists f :: f in group && f.relevance == relevance
    ensures forall f :: f in group ==> f.relevance <= relevance
  {
    var last := group[|group| - 1];
    assert group == group[..|group| - 1] + [last];
    if |group| == 1 then last.relevance
    else
      var before := Highest(group[..|group| - 1]);
      if last.relevance > before then last.relevance else before
  }

  function Details(group: seq<Found>): (details: seq<Detail>)
    ensures |details| == |group|
    ensures forall i :: 0 <= i < |group| ==> details[i] == group[i].detail
  {
    seq(|group|, i requires 0 <= i < |group| => group[i].detail)
  }

  function Merge(group: seq<Found>): Merged
    requires group != []
  {
    Merged(group[0].memory, Highest(group), Details(group))
  }

  function MergedOf(results: seq<Found>, id: Id): Merged
    requires id in FoundIds(results)
  {
    FoundMeansGroup(results, id);
    Merge(Of(results, id))
  }

  /** The map as the first loop leaves it. */
  predicate IsMerge(merged: map<Id, Merged>, results: seq<Found>) {
    && merged.Keys == FoundIds(results)
    && forall id :: id in merged ==> merged[id] == MergedOf(results, id)
  }

  lemma MergeOneMore(group: seq<Found>, f: Found)
    requires group != []
    ensures Merge(group + [f])
         == Merged(Merge(group).memory, if f.relevance > Merge(group).relevance then f.relevance
             else Merge(group).relevance,
                   Merge(group).details + [f.detail])
  {
    assert (group + [f])[..|group|] == group;
  }

  lemma MergeFirst(f: Found)
    ensures Merge([f]) == Merged(f.memory, f.relevance, [f.detail])
  {
    assert [f][0] == f;
  }

  lemma FoundOneMore(results: seq<Found>, f: Found)
    ensures FoundIds(results + [f]) == FoundIds(results) + {f.memory.id}
    ensures forall id :: Of(results + [f], id) == if id == f.memory.id then Of(results, id) + [f] else Of(results, id)
  {
    assert (results + [f])[..|results|] == results;
  }

  method MergeById(results: seq<Found>) returns (merged: map<Id, Merged>)
    ensures IsMerge(merged, results)
  {
    hide Of, FoundIds, Merge, Highest, Details;
    merged := map[];
    assert FoundIds([]) == {} by { NothingFound(); }
    for i := 0 to |results|
      invariant IsMerge(merged, results[..i])
    {
      var r, before := results[i], results[..i];
      var id := r.memory.id;
      assert results[..i + 1] == before + [r];
      FoundOneMore(before, r);
      FoundMeansGroup(before, id);
      ghost var was := merged;
      if id in merged {
        MergeOneMore(Of(before, id), r);
        var existing := merged[id];
        var relevance := if r.relevance > existing.relevance then r.relevance else existing.relevance;
        merged := merged[id := Merged(existing.memory, relevance, existing.details + [r.detail])];
      } else {
        assert Of(before, id) + [r] == [r];
        MergeFirst(r);
        merged := merged[id := Merged(r.memory, r.relevance, [r.detail])];
      }
      forall x | x in merged ensures merged[x] == MergedOf(results[..i + 1], x) {
        FoundMeansGroup(before, x);
        if x != id { assert was[x] == MergedOf(before, x); }
      }
    }
    assert results[..|results|] == results;
  }

  lemma NothingFound()
    ensures FoundIds([]) == {}
  {}

  // ---------------------------------------------------------------------------------------
  //  Thinning by content, scoring
  // ---------------------------------------------------------------------------------------

  /** The order in which a hash map yields its keys can be any order of them. */
  ghost predicate IsOrder(order: seq<Id>, ids: set<Id>) {
    && (forall id :: id in order <==> id in ids)
    && (forall i, j :: 0 <= i < j < |order| ==> order[i] != order[j])
  }

  predicate AllFound(order: seq<Id>, results: seq<Found>) {
    forall id :: id in order ==> id in FoundIds(results)
  }

  function ContentOf(results: seq<Found>, id: Id): string
    requires id in FoundIds(results)
  {
    MergedOf(results, id).memory.content
  }

  /** No memory before the i-th has its content. */
  predicate IsKept(results: seq<Found>, order: seq<Id>, i: nat)
    requires AllFound(order, results) && i < |order|
  {
    forall j :: 0 <= j < i ==> ContentOf(results, order[j]) != ContentOf(results, order[i])
  }

  function ResultOf(log2: real -> real, weights: Weights, merged: Merged, now: nat): RecallResult {
    RecallResult(merged.memory, Score(log2, weights, merged.relevance, merged.memory, now), merged.details)
  }

  function Survivors(
      log2: real -> real, results: seq<Found>, weights: Weights, now: nat, order: seq<Id>): seq<RecallResult>
    requires AllFound(order, results)
  {
    if order == [] then []
    else
      var init, last := order[..|order| - 1], order[|order| - 1];
      var before := Survivors(log2, results, weights, now, init);
      if IsKept(results, order, |order| - 1) then before + [ResultOf(log2, weights, MergedOf(results, last), now)]
      else before
  }

  predicate Descending(items: seq<RecallResult>) {
    forall i, j :: 0 <= i < j < |items| ==> items[i].score >= items[j].score
  }

  /** Behind every item that scores at least as much, as a stable sort puts it. */
  function Insert(items: seq<RecallResult>, item: RecallResult): (result: seq<RecallResult>)
    ensures result != []
  {
    if items == [] then [item]
    else if item.score > items[0].score then [item] + items
    else [items[0]] + Insert(items[1..], item)
  }

  /** sort_by with the scores compared in reverse. */
  function SortedByScore(items: seq<RecallResult>): seq<RecallResult> {
    if items == [] then [] else Insert(SortedByScore(items[..|items| - 1]), items[|items| - 1])
  }

  lemma FirstThenRest(first: RecallResult, rest: seq<RecallResult>)
    ensures Descending([first] + rest) <==> Descending(rest) && (rest == [] || first.score >= rest[0].score)
  {
    var all := [first] + rest;
    if Descending(all) {
      forall i, j | 0 <= i < j < |rest| ensures rest[i].score >= rest[j].score {
        assert all[i + 1].score >= all[j + 1].score;
      }
      if rest != [] { assert all[0].score >= all[1].score; }
    }
  }

  lemma {:induction false} InsertKeepsOrder(items: seq<RecallResult>, item: RecallResult)
    requires Descending(items)
    ensures var result := Insert(items, item);
      && multiset(result) == multiset(items) + multiset{item}
      && (result[0] == item || (items != [] && result[0] == items[0]))
      && Descending(result)
  {
    hide Descending;
    if items == [] {
      assert Descending([]) by { NothingDescends(); }
      FirstThenRest(item, []);
      assert [item] == [item] + [];
    } else {
      assert items == [items[0]] + items[1..];
      FirstThenRest(items[0], items[1..]);
      if item.score > items[0].score {
        FirstThenRest(item, items);
      } else {
        InsertKeepsOrder(items[1..], item);
        FirstThenRest(items[0], Insert(items[1..], item));
      }
    }
  }

  lemma NothingDescends()
    ensures Descending([])
  {}

  lemma {:induction false} SortedByScoreIsSorted(items: seq<RecallResult>)
    ensures multiset(SortedByScore(items)) == multiset(items)
    ensures Descending(SortedByScore(items))
  {
    if items != [] {
      var init, last := items[..|items| - 1], items[|items| - 1];
      assert items == init + [last];
      SortedByScoreIsSorted(init);
      InsertKeepsOrder(SortedByScore(init), last);
    }
  }

  function Ranked(
      log2: real -> real, results: seq<Found>, weights: Weights, now: nat, topK: nat, order: seq<Id>): seq<RecallResult>
    requires AllFound(order, results)
  {
    Take(SortedByScore(Survivors(log2, results, weights, now, order)), topK)
  }

  method IterationOrder(ids: set<Id>) returns (order: seq<Id>)
    ensures IsOrder(order, ids)
  {
    order := [];
    var left := ids;
    while left != {}
      invariant left <= ids && IsOrder(order, ids - left)
      decreases |left|
    {
      var id :| id in left;
      order := order + [id];
      left := left - {id};
    }
  }

  function Contents(results: seq<Found>, order: seq<Id>): set<string>
    requires AllFound(order, results)
  {
    if order == [] then {} else Contents(results, order[..|order| - 1]) + {ContentOf(results, order[|order| - 1])}
  }

  lemma {:induction false} ContentsAre(results: seq<Found>, order: seq<Id>, content: string)
    requires AllFound(order, results)
    ensures content in Contents(results, order)
        <==> exists j :: 0 <= j < |order| && ContentOf(results, order[j]) == content
  {
    hide ContentOf, FoundIds;
    if order != [] {
      ContentsAre(results, order[..|order| - 1], content);
    }
  }

  lemma KeptIffUnseen(results: seq<Found>, order: seq<Id>, i: nat)
    requires AllFound(order, results) && i < |order|
    ensures AllFound(order[..i], results)
    ensures IsKept(results, order, i) <==> ContentOf(results, order[i]) !in Contents(results, order[..i])
  {
    hide ContentOf, FoundIds, Contents;
    ContentsAre(results, order[..i], ContentOf(results, order[i]));
  }

  lemma ContentsOneMore(results: seq<Found>, order: seq<Id>, i: nat)
    requires AllFound(order, results) && i < |order|
    ensures Contents(results, order[..i + 1]) == Contents(results, order[..i]) + {ContentOf(results, order[i])}
  {
    hide ContentOf, FoundIds;
    assert order[..i + 1][..i] == order[..i];
  }

  /** The pass of `retain`: in iteration order, a memory whose content was seen before goes. */
  method RemoveRepeats(results: seq<Found>, merged: map<Id, Merged>, keys: seq<Id>) returns (kept: map<Id, Merged>)
    requires IsMerge(merged, results) && IsOrder(keys, merged.Keys) && AllFound(keys, results)
    ensures kept.Keys <= merged.Keys && forall id :: id in kept ==> kept[id] == merged[id]
    ensures forall i :: 0 <= i < |keys| ==> (keys[i] in kept <==> IsKept(results, keys, i))
  {
    hide MergedOf, FoundIds, Contents, IsKept;
    kept := merged;
    var seen: set<string> := {};
    assert Contents(results, keys[..0]) == {} by { NoContents(results, keys); }
    for i := 0 to |keys|
      invariant seen == Contents(results, keys[..i])
      invariant kept.Keys <= merged.Keys && forall id :: id in kept ==> kept[id] == merged[id]
      invariant forall j :: 0 <= j < i ==> (keys[j] in kept <==> IsKept(results, keys, j))
      invariant forall j :: i <= j < |keys| ==> keys[j] in kept
    {
      var content := kept[keys[i]].memory.content;
      KeptIffUnseen(results, keys, i);
      ContentsOneMore(results, keys, i);
      if content in seen {
        kept := kept - {keys[i]};
      } else {
        seen := seen + {content};
      }
    }
  }

  lemma NoContents(results: seq<Found>, order: seq<Id>)
    ensures AllFound(order[..0], results) && Contents(results, order[..0]) == {}
  {}

  lemma PrefixKept(results: seq<Found>, order: seq<Id>, i: nat)
    requires AllFound(order, results) && i < |order|
    ensures AllFound(order[..i], results) && AllFound(order[..i + 1], results)
    ensures IsKept(results, order[..i + 1], i) <==> IsKept(results, order, i)
  {
    hide ContentOf, FoundIds;
  }

  method ScoreAll(
      log2: real -> real, results: seq<Found>, weights: Weights, now: nat, keys: seq<Id>, kept: map<Id, Merged>)
    returns (unsorted: seq<RecallResult>)
    requires AllFound(keys, results)
    requires forall id :: id in kept ==> id in FoundIds(results) && kept[id] == MergedOf(results, id)
    requires forall i :: 0 <= i < |keys| ==> (keys[i] in kept <==> IsKept(results, keys, i))
    ensures unsorted == Survivors(log2, results, weights, now, keys)
  {
    hide MergedOf, FoundIds, ResultOf, ContentOf, IsKept, AllFound;
    unsorted := [];
    assert AllFound(keys[..0], results) by { NoContents(results, keys); }
    for i := 0 to |keys|
      invariant AllFound(keys[..i], results) && unsorted == Survivors(log2, results, weights, now, keys[..i])
    {
      assert keys[..i + 1][..i] == keys[..i];
      PrefixKept(results, keys, i);
      if keys[i] in kept {
        unsorted := unsorted + [ResultOf(log2, weights, kept[keys[i]], now)];
      }
    }
    assert keys[..|keys|] == keys;
  }

  /** merge_and_rank: a ranking for some iteration order of the map. */
  method MergeAndRank(log2: real -> real, results: seq<Found>, weights: Weights, now: nat, topK: nat)
    returns (ranked: seq<RecallResult>, order: seq<Id>)
    ensures IsOrder(order, FoundIds(results)) && AllFound(order, results)
    ensures ranked == Ranked(log2, results, weights, now, topK, order)
  {
    hide Of, MergedOf, ResultOf;
    if results == [] {
      return [], [];
    }
    var merged := MergeById(results);
    var keys := IterationOrder(merged.Keys);
    var kept := RemoveRepeats(results, merged, keys);
    var unsorted := ScoreAll(log2, results, weights, now, keys, kept);
    ranked, order := Take(SortedByScore(unsorted), topK), keys;
  }

  // ---------------------------------------------------------------------------------------
  //  What a ranking promises, whatever the iteration order
  // ---------------------------------------------------------------------------------------

  /** The result of a memory: the memory as first found, scored with its highest relevance, with
      every detail found. */
  function ResultFor(log2: real -> real, results: seq<Found>, weights: Weights, now: nat, id: Id): RecallResult
    requires id in FoundIds(results)
  {
    ResultOf(log2, weights, MergedOf(results, id), now)
  }

  lemma ResultIs(log2: real -> real, results: seq<Found>, weights: Weights, now: nat, id: Id)
    requires id in FoundIds(results)
    ensures var r, group := ResultFor(log2, results, weights, now, id), Of(results, id);
      && group != [] && r.memory == group[0].memory && r.memory.id == id
      && r.memory.content == ContentOf(results, id)
      && r.score == Score(log2, weights, Highest(group), r.memory, now)
      && r.details == Details(group)
  {
    hide Of, Highest, Details, Score, FoundIds;
    FoundMeansGroup(results, id);
    assert Of(results, id)[0] in Of(results, id);
  }

  /** The k-th memory in iteration order is kept, and r is its result. */
  predicate Stands(
      log2: real -> real, results: seq<Found>, weights: Weights, now: nat, order: seq<Id>, k: nat, r: RecallResult)
    requires AllFound(order, results) && k < |order|
  {
    IsKept(results, order, k) && r == ResultFor(log2, results, weights, now, order[k])
  }

  predicate StandsSomewhere(
      log2: real -> real, results: seq<Found>, weights: Weights, now: nat, order: seq<Id>, r: RecallResult)
    requires AllFound(order, results)
  {
    exists k :: 0 <= k < |order| && Stands(log2, results, weights, now, order, k, r)
  }

  lemma OneMoreStands(
      log2: real -> real, results: seq<Found>, weights: Weights, now: nat, order: seq<Id>, r: RecallResult)
    requires order != [] && AllFound(order, results) && AllFound(order[..|order| - 1], results)
    ensures StandsSomewhere(log2, results, weights, now, order, r)
       <==> || StandsSomewhere(log2, results, weights, now, order[..|order| - 1], r)
            || Stands(log2, results, weights, now, order, |order| - 1, r)
  {
    hide AllFound, Stands;
    var init := order[..|order| - 1];
    if StandsSomewhere(log2, results, weights, now, init, r) {
      var k :| 0 <= k < |init| && Stands(log2, results, weights, now, init, k, r);
      StandsInPrefix(log2, results, weights, now, order, k, r);
    }
    if StandsSomewhere(log2, results, weights, now, order, r)
       && !Stands(log2, results, weights, now, order, |order| - 1, r)
    {
      var k :| 0 <= k < |order| && Stands(log2, results, weights, now, order, k, r);
      StandsInPrefix(log2, results, weights, now, order, k, r);
    }
  }

  lemma SurvivorsStep(log2: real -> real, results: seq<Found>, weights: Weights, now: nat, order: seq<Id>)
    requires order != [] && AllFound(order, results)
    ensures var init, last := order[..|order| - 1], order[|order| - 1];
      && AllFound(init, results) && last in FoundIds(results)
      && Survivors(log2, results, weights, now, order)
         == if IsKept(results, order, |order| - 1)
            then Survivors(log2, results, weights, now, init) + [ResultFor(log2, results, weights, now, last)]
            else Survivors(log2, results, weights, now, init)
  {
    hide FoundIds, IsKept, MergedOf, ResultOf;
    PrefixFound(results, order);
  }

  lemma {:induction false} SurvivorsStand(
      log2: real -> real, results: seq<Found>, weights: Weights, now: nat, order: seq<Id>, r: RecallResult)
    requires AllFound(order, results)
    ensures r in Survivors(log2, results, weights, now, order)
        <==> StandsSomewhere(log2, results, weights, now, order, r)
  {
    hide FoundIds, AllFound, IsKept, ResultFor, StandsSomewhere, Survivors;
    if order == [] {
      NoneStands(log2, results, weights, now, r);
    } else {
      SurvivorsStep(log2, results, weights, now, order);
      SurvivorsStand(log2, results, weights, now, order[..|order| - 1], r);
      OneMoreStands(log2, results, weights, now, order, r);
    }
  }

  lemma NoneStands(log2: real -> real, results: seq<Found>, weights: Weights, now: nat, r: RecallResult)
    ensures AllFound([], results)
    ensures r !in Survivors(log2, results, weights, now, []) && !StandsSomewhere(log2, results, weights, now, [], r)
  {}

  lemma StandsInPrefix(
      log2: real -> real, results: seq<Found>, weights: Weights, now: nat, order: seq<Id>, k: nat, r: RecallResult)
    requires order != [] && AllFound(order, results) && AllFound(order[..|order| - 1], results) && k < |order| - 1
    ensures Stands(log2, results, weights, now, order[..|order| - 1], k, r)
        <==> Stands(log2, results, weights, now, order, k, r)
  {
    hide FoundIds, ContentOf, ResultFor;
    var init := order[..|order| - 1];
    assert forall j :: 0 <= j <= k ==> init[j] == order[j];
  }

  lemma PrefixFound(results: seq<Found>, order: seq<Id>)
    requires order != [] && AllFound(order, results)
    ensures AllFound(order[..|order| - 1], results) && order[|order| - 1] in FoundIds(results)
  {
    hide FoundIds;
    assert order[|order| - 1] in order;
  }

  predicate DistinctContents(items: seq<RecallResult>) {
    forall i, j :: 0 <= i < j < |items| ==> items[i].memory.content != items[j].memory.content
  }

  lemma StandsHas(
      log2: real -> real, results: seq<Found>, weights: Weights, now: nat, order: seq<Id>, k: nat, r: RecallResult)
    requires AllFound(order, results) && k < |order| && Stands(log2, results, weights, now, order, k, r)
    ensures order[k] in FoundIds(results) && r.memory.id == order[k] && r.memory.content == ContentOf(results, order[k])
    ensures r == ResultFor(log2, results, weights, now, order[k])
    ensures IsKept(results, order, k)
  {
    hide FoundIds, ContentOf, ResultFor;
    assert order[k] in order;
    ResultIs(log2, results, weights, now, order[k]);
  }

  lemma {:induction false} SurvivorsDiffer(
      log2: real -> real, results: seq<Found>, weights: Weights, now: nat, order: seq<Id>)
    requires AllFound(order, results)
    ensures DistinctContents(Survivors(log2, results, weights, now, order))
  {
    hide FoundIds, AllFound, StandsSomewhere, Survivors, ContentOf, ResultFor, IsKept;
    if order == [] {
      assert DistinctContents([]);
      NoSurvivor(log2, results, weights, now);
    } else {
      var init, n := order[..|order| - 1], |order| - 1;
      SurvivorsStep(log2, results, weights, now, order);
      SurvivorsDiffer(log2, results, weights, now, init);
      var before := Survivors(log2, results, weights, now, init);
      if IsKept(results, order, n) {
        ResultIs(log2, results, weights, now, order[n]);
        forall i | 0 <= i < |before| ensures before[i].memory.content != ContentOf(results, order[n]) {
          assert before[i] in before;
          SurvivorsStand(log2, results, weights, now, init, before[i]);
          ContentSeen(log2, results, weights, now, order, before[i]);
        }
      }
    }
  }

  lemma NoSurvivor(log2: real -> real, results: seq<Found>, weights: Weights, now: nat)
    ensures AllFound([], results) && Survivors(log2, results, weights, now, []) == []
  {}

  lemma ContentSeen(
      log2: real -> real, results: seq<Found>, weights: Weights, now: nat, order: seq<Id>, r: RecallResult)
    requires order != [] && AllFound(order, results) && IsKept(results, order, |order| - 1)
    requires AllFound(order[..|order| - 1], results)
    requires StandsSomewhere(log2, results, weights, now, order[..|order| - 1], r)
    requires order[|order| - 1] in FoundIds(results)
    ensures r.memory.content != ContentOf(results, order[|order| - 1])
  {
    hide FoundIds, AllFound, Stands, ContentOf, ResultFor;
    var init := order[..|order| - 1];
    var k :| 0 <= k < |init| && Stands(log2, results, weights, now, init, k, r);
    StandsHas(log2, results, weights, now, init, k, r);
    assert init[k] == order[k];
  }

  /** The first memory in iteration order with the content of the i-th. */
  lemma {:induction false} FirstOfContent(results: seq<Found>, order: seq<Id>, i: nat) returns (k: nat)
    requires AllFound(order, results) && i < |order|
    ensures k <= i && IsKept(results, order, k) && ContentOf(results, order[k]) == ContentOf(results, order[i])
  {
    hide FoundIds, ContentOf;
    k := i;
    if !IsKept(results, order, i) {
      var j :| 0 <= j < i && ContentOf(results, order[j]) == ContentOf(results, order[i]);
      k := FirstOfContent(results, order, j);
    }
  }

  lemma {:induction false} AtMostOnce(items: seq<RecallResult>, r: RecallResult)
    requires DistinctContents(items)
    ensures multiset(items)[r] <= 1
  {
    if items != [] {
      var init, last := items[..|items| - 1], items[|items| - 1];
      assert items == init + [last];
      AtMostOnce(init, r);
      if r == last { assert r !in init; }
    }
  }

  lemma TwiceInSequence<T>(items: seq<T>, i: nat, j: nat)
    requires i < j < |items|
    ensures items[i] == items[j] ==> multiset(items)[items[i]] >= 2
  {
    assert items == items[..j] + items[j..];
    assert items[i] in items[..j] && items[j] in items[j..];
  }

  lemma PermutationDiffers(a: seq<RecallResult>, b: seq<RecallResult>)
    requires multiset(a) == multiset(b) && DistinctContents(a)
    ensures DistinctContents(b)
  {
    forall i, j | 0 <= i < j < |b| ensures b[i].memory.content != b[j].memory.content {
      assert b[i] in multiset(b) && b[j] in multiset(b);
      var k :| 0 <= k < |a| && a[k] == b[i];
      var l :| 0 <= l < |a| && a[l] == b[j];
      AtMostOnce(a, b[i]);
      TwiceInSequence(b, i, j);
    }
  }

  /** For any iteration order: at most topK results in descending order of score, each with the
      first memory, the highest relevance and all the details found for its id; ids and contents
      are distinct. For every memory found there is one with its content that is in the ranking or
      was cut off a full one in which nothing scores less. */
  lemma RankingIsSound(
      log2: real -> real, results: seq<Found>, weights: Weights, now: nat, topK: nat, order: seq<Id>)
    requires IsOrder(order, FoundIds(results))
    ensures AllFound(order, results)
    ensures var ranked := Ranked(log2, results, weights, now, topK, order);
      && |ranked| <= topK && Descending(ranked)
      && (forall r :: r in ranked ==> r.memory.id in FoundIds(results)
                                      && r == ResultFor(log2, results, weights, now, r.memory.id))
      && (forall i, j :: 0 <= i < j < |ranked| ==>
            ranked[i].memory.id != ranked[j].memory.id && ranked[i].memory.content != ranked[j].memory.content)
      && (forall id :: id in FoundIds(results) ==> exists r: RecallResult ::
            && r.memory.id in FoundIds(results) && r == ResultFor(log2, results, weights, now, r.memory.id)
            && r.memory.content == ContentOf(results, id)
            && (r in ranked || (|ranked| == topK && forall q :: q in ranked ==> q.score >= r.score)))
  {
    hide FoundIds, ContentOf, ResultFor, Survivors, SortedByScore, Stands;
    var survivors := Survivors(log2, results, weights, now, order);
    var sorted := SortedByScore(survivors);
    var ranked := Ranked(log2, results, weights, now, topK, order);
    SortedByScoreIsSorted(survivors);
    SameMembers(survivors, sorted);
    SurvivorsDiffer(log2, results, weights, now, order);
    PermutationDiffers(survivors, sorted);
    forall r | r in survivors
      ensures r.memory.id in FoundIds(results) && r == ResultFor(log2, results, weights, now, r.memory.id)
    {
      SurvivorsStand(log2, results, weights, now, order, r);
      var k :| 0 <= k < |order| && Stands(log2, results, weights, now, order, k, r);
      StandsHas(log2, results, weights, now, order, k, r);
    }
    CutKeepsBest(sorted, topK);
    forall i, j | 0 <= i < j < |ranked|
      ensures ranked[i].memory.id != ranked[j].memory.id && ranked[i].memory.content != ranked[j].memory.content
    {
      assert ranked[i] in sorted && ranked[j] in sorted;
    }
    forall id | id in FoundIds(results)
      ensures exists r: RecallResult ::
        && r.memory.id in FoundIds(results) && r == ResultFor(log2, results, weights, now, r.memory.id)
        && r.memory.content == ContentOf(results, id)
        && (r in ranked || (|ranked| == topK && forall q :: q in ranked ==> q.score >= r.score))
    {
      var r := Representative(log2, results, weights, now, order, id);
      assert r in sorted;
    }
  }

  lemma SameMembers<T>(a: seq<T>, b: seq<T>)
    requires multiset(a) == multiset(b)
    ensures forall x :: x in a <==> x in b
  {
    assert forall x :: x in a <==> x in multiset(a);
    assert forall x :: x in b <==> x in multiset(b);
  }

  lemma CutKeepsBest(sorted: seq<RecallResult>, topK: nat)
    requires Descending(sorted)
    ensures var ranked := Take(sorted, topK);
      && |ranked| <= topK && Descending(ranked) && (forall r :: r in ranked ==> r in sorted)
      && (forall r :: r in sorted && r !in ranked ==> |ranked| == topK && forall q :: q in ranked ==>
          q.score >= r.score)
  {
    var ranked := Take(sorted, topK);
    forall r | r in sorted && r !in ranked ensures |ranked| == topK && forall q :: q in ranked ==> q.score >= r.score {
      var j :| 0 <= j < |sorted| && sorted[j] == r;
      assert forall i :: 0 <= i < |ranked| ==> ranked[i] == sorted[i];
    }
  }

  lemma Representative(
      log2: real -> real, results: seq<Found>, weights: Weights, now: nat, order: seq<Id>, id: Id)
    returns (r: RecallResult)
    requires AllFound(order, results) && id in order && id in FoundIds(results)
    ensures r in Survivors(log2, results, weights, now, order)
    ensures r.memory.content == ContentOf(results, id)
  {
    hide FoundIds, ContentOf, ResultFor, Survivors, IsKept;
    var i :| 0 <= i < |order| && order[i] == id;
    var k := FirstOfContent(results, order, i);
    r := ResultFor(log2, results, weights, now, order[k]);
    assert Stands(log2, results, weights, now, order, k, r);
    StandsHas(log2, results, weights, now, order, k, r);
    SurvivorsStand(log2, results, weights, now, order, r);
  }

  /** Which memory stands for a content is decided by the iteration order alone: one that comes
      after another of the same content is dropped, however relevant. */
  lemma LaterOfSameContentIsDropped(
      log2: real -> real, results: seq<Found>, weights: Weights, now: nat, topK: nat, order: seq<Id>, i: nat, j: nat)
    requires IsOrder(order, FoundIds(results)) && AllFound(order, results) && i < j < |order|
    requires ContentOf(results, order[i]) == ContentOf(results, order[j])
    ensures forall r :: r in Ranked(log2, results, weights, now, topK, order) ==> r.memory.id != order[j]
  {
    hide FoundIds, ContentOf, ResultFor, Survivors, SortedByScore, Stands, IsKept;
    var survivors := Survivors(log2, results, weights, now, order);
    SortedByScoreIsSorted(survivors);
    SameMembers(survivors, SortedByScore(survivors));
    forall r | r in survivors ensures r.memory.id != order[j] {
      SurvivorsStand(log2, results, weights, now, order, r);
      var k :| 0 <= k < |order| && Stands(log2, results, weights, now, order, k, r);
      StandsHas(log2, results, weights, now, order, k, r);
      SeenBefore(results, order, i, j);
      assert k != j;
    }
  }

  lemma SeenBefore(results: seq<Found>, order: seq<Id>, i: nat, j: nat)
    requires AllFound(order, results) && i < j < |order|
    requires ContentOf(results, order[i]) == ContentOf(results, order[j])
    ensures !IsKept(results, order, j)
  {
    hide ContentOf, FoundIds;
  }

  // ---------------------------------------------------------------------------------------
  //  When the most relevant of equal contents is kept
  // ---------------------------------------------------------------------------------------

  /** In this iteration order, the memory kept for the content of `id` is at least as relevant. */
  ghost predicate KeepsAtLeast(results: seq<Found>, order: seq<Id>, id: Id)
    requires id in FoundIds(results) && AllFound(order, results)
  {
    forall k :: 0 <= k < |order| && IsKept(results, order, k) && order[k] in FoundIds(results)
                && ContentOf(results, order[k]) == ContentOf(results, id) ==>
      MergedOf(results, order[k]).relevance >= MergedOf(results, id).relevance
  }

  /** Whatever the iteration order, the memory kept for a content is at least as relevant as a given
      one of that content, exactly if every memory found with that content is. */
  lemma MostRelevantIsKeptIff(results: seq<Found>, id: Id)
    requires id in FoundIds(results)
    ensures (forall order :: IsOrder(order, FoundIds(results)) && AllFound(order, results) ==>
        KeepsAtLeast(results, order, id))
       <==> forall other :: other in FoundIds(results) && ContentOf(results, other) == ContentOf(results, id) ==>
              MergedOf(results, other).relevance >= MergedOf(results, id).relevance
  {
    hide FoundIds, ContentOf, MergedOf;
    if !(forall other :: other in FoundIds(results) && ContentOf(results, other) == ContentOf(results, id) ==>
           MergedOf(results, other).relevance >= MergedOf(results, id).relevance)
    {
      var other :| other in FoundIds(results) && ContentOf(results, other) == ContentOf(results, id)
        && MergedOf(results, other).relevance < MergedOf(results, id).relevance;
      var order := StartingWith(FoundIds(results), other);
      assert AllFound(order, results);
      assert IsKept(results, order, 0) && order[0] == other;
      assert !KeepsAtLeast(results, order, id);
    }
  }

  lemma StartingWith(ids: set<Id>, first: Id) returns (order: seq<Id>)
    requires first in ids
    ensures IsOrder(order, ids) && order[0] == first
    decreases |ids|, 0
  {
    var rest := SomeOrder(ids - {first});
    order := [first] + rest;
    forall j | 0 <= j < |rest| ensures rest[j] != first {
      assert rest[j] in rest;
    }
  }

  lemma {:induction false} SomeOrder(ids: set<Id>) returns (order: seq<Id>)
    ensures IsOrder(order, ids)
    decreases |ids|, 1
  {
    if ids == {} {
      order := [];
    } else {
      var first :| first in ids;
      order := StartingWith(ids, first);
    }
  }

  /** Two memories with one content, the second found with no relevance at all: if the map yields it
      first, the first is not in the ranking. */
  lemma MoreRelevantIsDropped(
      log2: real -> real, weights: Weights, now: nat, topK: nat, a: Memory, b: Memory, detail: Detail)
    requires a.id != b.id && a.content == b.content
    ensures var results, order := [Found(a, 1.0, detail), Found(b, 0.0, detail)], [b.id, a.id];
      && IsOrder(order, FoundIds(results)) && AllFound(order, results)
      && MergedOf(results, a.id).relevance == 1.0 && MergedOf(results, b.id).relevance == 0.0
      && forall r :: r in Ranked(log2, results, weights, now, topK, order) ==> r.memory.id != a.id
  {
    hide Ranked, FoundIds, MergedOf;
    var results, order := [Found(a, 1.0, detail), Found(b, 0.0, detail)], [b.id, a.id];
    TwoFound(a, b, detail);
    LaterOfSameContentIsDropped(log2, results, weights, now, topK, order, 0, 1);
  }

  lemma TwoFound(a: Memory, b: Memory, detail: Detail)
    requires a.id != b.id
    ensures var results := [Found(a, 1.0, detail), Found(b, 0.0, detail)];
      && FoundIds(results) == {a.id, b.id}
      && MergedOf(results, a.id) == Merged(a, 1.0, [detail]) && MergedOf(results, b.id) == Merged(b, 0.0, [detail])
  {
    hide Of, Merge;
    var f, g := Found(a, 1.0, detail), Found(b, 0.0, detail);
    var none: seq<Found> := [];
    assert Of(none, a.id) == [] && Of(none, b.id) == [] by { NoGroup(a.id); NoGroup(b.id); }
    assert [f, g] == [f] + [g] && none + [f] == [f] && none + [g] == [g];
    assert f in [f, g] && g in [f, g];
    FoundOneMore(none, f);
    FoundOneMore([f], g);
    MergeFirst(f);
    MergeFirst(g);
  }

  lemma NoGroup(id: Id)
    ensures Of([], id) == []
  {}
}
