/** The decay sweep of decay.rs: a scan over all records in batches, resumed from a persisted
    cursor. Every batch is one atomic step that reads the store anew; other writers may change
    the store before each of them. */
module Decay {
  import opened Sequences
  import opened Results
  import opened ByteOrder
  import opened Memories

  // ---------------------------------------------------------------------------------------
  //  State
  // ---------------------------------------------------------------------------------------

  /** A stored value, which `from_bytes` may fail to decode. */
  datatype Stored = Decodes(memory: Memory) | Corrupt

  type Records = map<Bytes, Stored>

  /** The cursor is empty when the next sweep starts over. */
  datatype State = State(records: Records, candidates: map<Bytes, real>, cursor: Bytes)

  datatype Config = Config(batchSize: nat, maxBatches: nat, threshold: real, epsilon: real)

  /** What happens around batch number i: what others have made of the records and of the list of
      candidates before it, and what the score of a memory is at its time. */
  datatype World = World(
    writes: (nat, Records) -> Records,
    lists: (nat, map<Bytes, real>) -> map<Bytes, real>,
    score: (nat, Memory) -> real)

  /** The configuration of each batch. The source reads it at the beginning of a sweep and may be given
      another between two sweeps. */
  type Configs = nat -> Config

  function Always(config: Config): Configs {
    (i: nat) => config
  }

  // ---------------------------------------------------------------------------------------
  //  One batch
  // ---------------------------------------------------------------------------------------

  function Beyond(scan: seq<Bytes>, cursor: Bytes): (rest: seq<Bytes>)
    ensures forall k :: k in rest <==> k in scan && Less(cursor, k)
    ensures Ascending(scan) ==> Ascending(rest)
  {
    if scan == [] then []
    else
      var rest := Beyond(scan[1..], cursor);
      assert forall i :: 0 <= i < |rest| ==> rest[i] in rest;
      if Less(cursor, scan[0]) then [scan[0]] + rest else rest
  }

  function Pending(records: Records, cursor: Bytes): (entries: seq<Bytes>)
    ensures Ascending(entries)
    ensures forall k :: k in entries <==> k in records && (cursor == [] || Less(cursor, k))
  {
    var all := Sorted(records.Keys);
    if cursor == [] then all else Beyond(all, cursor)
  }

  function Abs(x: real): real {
    if x < 0.0 then -x else x
  }

  function Rescored(config: Config, memory: Memory, score: real): Memory {
    if Abs(score - memory.decayScore) > config.epsilon then memory.(decayScore := score) else memory
  }

  function Updates(config: Config, world: World, i: nat, records: Records, keys: seq<Bytes>): Records {
    map k | k in keys && k in records && records[k].Decodes? ::
      Decodes(Rescored(config, records[k].memory, world.score(i, records[k].memory)))
  }

  function NewCandidates(config: Config, world: World, i: nat, records: Records, keys: seq<Bytes>): map<Bytes, real> {
    map k | k in keys && k in records && records[k].Decodes? && world.score(i, records[k].memory) < config.threshold ::
      world.score(i, records[k].memory)
  }

  datatype Outcome = Outcome(state: State, processed: seq<Bytes>, ended: bool)

  /** Batch number i, with the changes of others before it. */
  function Batch(config: Config, world: World, state: State, i: nat): Outcome {
    var records, listed := world.writes(i, state.records), world.lists(i, state.candidates);
    var entries := Pending(records, state.cursor);
    if entries == [] then Outcome(State(records, listed, []), [], true)
    else
      var keys := Take(entries, config.batchSize);
      if keys == [] then Outcome(State(records, listed, state.cursor), [], true)
      else
        var after := State(
          records + Updates(config, world, i, records, keys),
          listed + NewCandidates(config, world, i, records, keys),
          keys[|keys| - 1]);
        if |keys| < config.batchSize then Outcome(after.(cursor := []), keys, true)
        else Outcome(after, keys, false)
  }

  // ---------------------------------------------------------------------------------------
  //  One sweep
  // ---------------------------------------------------------------------------------------

  /** A sweep of at most `left` batches, the first of them number i; `batches` is how many it ran. */
  datatype SweepResult = SweepResult(state: State, processed: seq<Bytes>, batches: nat, ended: bool)

  function Sweep(configs: Configs, world: World, state: State, i: nat, left: nat): SweepResult
    decreases left
  {
    if left == 0 then SweepResult(state, [], 0, false)
    else
      var first := Batch(configs(i), world, state, i);
      if first.ended then SweepResult(first.state, first.processed, 1, true)
      else
        var rest := Sweep(configs, world, first.state, i + 1, left - 1);
        SweepResult(rest.state, first.processed + rest.processed, 1 + rest.batches, rest.ended)
  }

  class Storage {
    var records: Records
    var candidates: map<Bytes, real>
    var cursor: Bytes

    function Value(): State
      reads this
    {
      State(records, candidates, cursor)
    }

    constructor (records: Records, candidates: map<Bytes, real>, cursor: Bytes)
      ensures Value() == State(records, candidates, cursor)
    {
      this.records, this.candidates, this.cursor := records, candidates, cursor;
    }

    method ScoreBatch(config: Config, world: World, i: nat, keys: seq<Bytes>)
      returns (updates: Records, found: map<Bytes, real>)
      requires forall k :: k in keys ==> k in records
      ensures updates == Updates(config, world, i, records, keys)
      ensures found == NewCandidates(config, world, i, records, keys)
    {
      updates, found := map[], map[];
      for n := 0 to |keys|
        invariant updates == Updates(config, world, i, records, keys[..n])
        invariant found == NewCandidates(config, world, i, records, keys[..n])
      {
        var key := keys[n];
        assert keys[..n + 1] == keys[..n] + [key];
        match records[key]
        case Corrupt =>
        case Decodes(memory) =>
          var score := world.score(i, memory);
          updates := updates[key := Decodes(Rescored(config, memory, score))];
          if score < config.threshold {
            found := found[key := score];
          }
      }
      assert keys[..|keys|] == keys;
    }

    /** One pass of the loop in run_decay_sweep. */
    method RunBatch(config: Config, world: World, i: nat) returns (ended: bool)
      modifies this
      ensures Value() == Batch(config, world, old(Value()), i).state
      ensures ended == Batch(config, world, old(Value()), i).ended
    {
      hide Updates, NewCandidates, Less, Pending, Ascending, Take;
      records, candidates := world.writes(i, records), world.lists(i, candidates);
      var entries := Pending(records, cursor);
      if entries == [] {
        cursor := [];
        return true;
      }
      var keys := Take(entries, config.batchSize);
      if keys == [] {
        return true;
      }
      forall k | k in keys ensures k in records {
        assert k in entries;
      }
      var updates, found := ScoreBatch(config, world, i, keys);
      records := records + updates;
      candidates := candidates + found;
      cursor := keys[|keys| - 1];
      ended := |keys| < config.batchSize;
      if ended {
        cursor := [];
      }
    }

    /** run_decay_sweep: with one configuration from beginning to end. */
    method RunDecaySweep(config: Config, world: World, first: nat)
      modifies this
      ensures Value() == Sweep(Always(config), world, old(Value()), first, config.maxBatches).state
    {
      hide Batch;
      var batch := 0;
      while batch < config.maxBatches
        invariant batch <= config.maxBatches
        invariant Sweep(Always(config), world, old(Value()), first, config.maxBatches).state
               == Sweep(Always(config), world, Value(), first + batch, config.maxBatches - batch).state
      {
        var ended := RunBatch(config, world, first + batch);
        batch := batch + 1;
        if ended {
          return;
        }
      }
    }
  }

  // ---------------------------------------------------------------------------------------
  //  What a batch does to the records it processes
  // ---------------------------------------------------------------------------------------

  /** Updates and candidates of a batch, key by key. */
  lemma UpdatesAt(config: Config, world: World, i: nat, records: Records, keys: seq<Bytes>, key: Bytes)
    requires config.epsilon >= 0.0 && key in records
    ensures key in Updates(config, world, i, records, keys) <==> key in keys && records[key].Decodes?
    ensures key in keys && records[key].Decodes? ==> RescoredTo(config, world.score(i, records[key].memory),
      records[key].memory, Updates(config, world, i, records, keys)[key])
    ensures key in keys && records[key].Decodes? && world.score(i, records[key].memory) < config.threshold ==>
      && key in NewCandidates(config, world, i, records, keys)
      && NewCandidates(config, world, i, records, keys)[key] == world.score(i, records[key].memory)
  {}

  predicate RescoredTo(config: Config, score: real, before: Memory, after: Stored) {
    && after.Decodes?
    && after.memory == before.(decayScore := after.memory.decayScore)
    && Abs(score - after.memory.decayScore) <= config.epsilon
  }

  /** A processed record ends within epsilon of its score with its other fields as they were, and
      is a candidate if its score is below the threshold; no other record changes. */
  lemma BatchScores(config: Config, world: World, state: State, i: nat, key: Bytes)
    requires config.epsilon >= 0.0
    ensures var records := world.writes(i, state.records);
      var out := Batch(config, world, state, i);
      && out.state.records.Keys == records.Keys
      && (key in out.processed ==> key in records)
      && (key in records && (key !in out.processed || records[key].Corrupt?) ==>
            out.state.records[key] == records[key])
      && (key in out.processed && records[key].Decodes? ==>
            var score := world.score(i, records[key].memory);
            && RescoredTo(config, score, records[key].memory, out.state.records[key])
            && (score < config.threshold ==> key in out.state.candidates && out.state.candidates[key] == score))
  {
    hide NewCandidates, Less, RescoredTo;
    var records := world.writes(i, state.records);
    var entries := Pending(records, state.cursor);
    var keys := Take(entries, config.batchSize);
    forall k | k in keys ensures k in records { assert k in entries; }
    if key in records {
      UpdatesAt(config, world, i, records, keys, key);
    }
  }

  /** The score that is stored afterwards is exactly the new one if that moved by more than epsilon,
      and exactly the old one otherwise. */
  lemma StoredScore(config: Config, world: World, state: State, i: nat, key: Bytes)
    requires var records := world.writes(i, state.records);
      key in Batch(config, world, state, i).processed && key in records && records[key].Decodes?
    ensures var out := Batch(config, world, state, i).state.records;
      && key in out && out[key].Decodes?
      && var (before, score) := (world.writes(i, state.records)[key].memory.decayScore,
                              world.score(i, world.writes(i, state.records)[key].memory));
      && (before - score > config.epsilon || score - before > config.epsilon ==> out[key].memory.decayScore == score)
      && (before - score <= config.epsilon && score - before <= config.epsilon ==> out[key].memory.decayScore == before)
  {
    hide NewCandidates, Less, Pending;
  }

  // ---------------------------------------------------------------------------------------
  //  A cycle
  // ---------------------------------------------------------------------------------------

  /** The state before batch `first + n`, when n batches have run since `state`. */
  function StateAt(configs: Configs, world: World, state: State, first: nat, n: nat): State {
    if n == 0 then state
    else Batch(configs(first + n - 1), world, StateAt(configs, world, state, first, n - 1), first + n - 1).state
  }

  function OutcomeAt(configs: Configs, world: World, state: State, first: nat, n: nat): Outcome {
    Batch(configs(first + n), world, StateAt(configs, world, state, first, n), first + n)
  }

  /** The records as batch n of the run reads them. */
  function ReadAt(configs: Configs, world: World, state: State, first: nat, n: nat): Records {
    world.writes(first + n, StateAt(configs, world, state, first, n).records)
  }

  function Processed(configs: Configs, world: World, state: State, first: nat, n: nat): seq<Bytes> {
    if n == 0 then []
    else Processed(configs, world, state, first, n - 1) + OutcomeAt(configs, world, state, first, n - 1).processed
  }

  predicate EndsAt(configs: Configs, world: World, state: State, first: nat, n: nat) {
    OutcomeAt(configs, world, state, first, n).ended
  }

  /** A sweep is a run of its batches, of which only the last can end the cycle. */
  lemma {:induction false} SweepIsRun(configs: Configs, world: World, state: State, first: nat, left: nat)
    ensures var sweep := Sweep(configs, world, state, first, left);
      && sweep.batches <= left
      && sweep.state == StateAt(configs, world, state, first, sweep.batches)
      && sweep.processed == Processed(configs, world, state, first, sweep.batches)
      && (forall n :: 0 <= n < sweep.batches - 1 ==> !EndsAt(configs, world, state, first, n))
      && (sweep.batches > 0 ==> (sweep.ended <==> EndsAt(configs, world, state, first, sweep.batches - 1)))
      && (!sweep.ended ==> sweep.batches == left)
    decreases left
  {
    hide Batch, EndsAt, StateAt, Processed;
    var sweep := Sweep(configs, world, state, first, left);
    NoBatches(configs, world, state, first);
    if left > 0 {
      var out := Batch(configs(first), world, state, first);
      FirstOutcome(configs, world, state, first);
      if !out.ended {
        SweepIsRun(configs, world, out.state, first + 1, left - 1);
        RunShifts(configs, world, state, first, Sweep(configs, world, out.state, first + 1, left - 1).batches);
        forall n: nat | 0 < n
          ensures EndsAt(configs, world, state, first, n) == EndsAt(configs, world, out.state, first + 1, n - 1)
        {
          EndShifts(configs, world, state, first, n - 1);
        }
      }
    }
  }

  lemma NoBatches(configs: Configs, world: World, state: State, first: nat)
    ensures StateAt(configs, world, state, first, 0) == state && Processed(configs, world, state, first, 0) == []
  {}

  lemma FirstOutcome(configs: Configs, world: World, state: State, first: nat)
    ensures var out := Batch(configs(first), world, state, first);
      && StateAt(configs, world, state, first, 1) == out.state
      && Processed(configs, world, state, first, 1) == out.processed
      && (EndsAt(configs, world, state, first, 0) <==> out.ended)
  {
    hide Batch;
    NoBatches(configs, world, state, first);
    assert OutcomeAt(configs, world, state, first, 0) == Batch(configs(first), world, state, first);
  }

  lemma EndShifts(configs: Configs, world: World, state: State, first: nat, n: nat)
    ensures EndsAt(configs, world, state, first, n + 1)
       <==> EndsAt(configs, world, Batch(configs(first), world, state, first).state, first + 1, n)
  {
    hide Batch;
    RunShifts(configs, world, state, first, n);
  }

  lemma {:induction false} RunShifts(configs: Configs, world: World, state: State, first: nat, n: nat)
    ensures var out := Batch(configs(first), world, state, first);
      && StateAt(configs, world, out.state, first + 1, n) == StateAt(configs, world, state, first, n + 1)
      && Processed(configs, world, state, first, n + 1)
         == out.processed + Processed(configs, world, out.state, first + 1, n)
  {
    hide Batch;
    if n > 0 {
      RunShifts(configs, world, state, first, n - 1);
    }
  }

  // ---------------------------------------------------------------------------------------
  //  Coverage
  // ---------------------------------------------------------------------------------------

  /** The stretch of key space that batch n of a run looks after: from its cursor to the next one,
      or to the end if it closes the cycle. */
  predicate Covers(configs: Configs, world: World, state: State, first: nat, n: nat, key: Bytes) {
    var from := StateAt(configs, world, state, first, n).cursor;
    var out := OutcomeAt(configs, world, state, first, n);
    && (from == [] || Less(from, key))
    && (out.ended || AtMost(key, out.state.cursor))
  }

  /** Keys are never empty; the empty cursor stands for the start. */
  predicate KeysAreNonempty(configs: Configs, world: World, state: State, first: nat, n: nat) {
    forall i :: 0 <= i < n ==> [] !in ReadAt(configs, world, state, first, i)
  }

  /** A batch takes the next keys in order and ends the cycle when fewer than a full batch are left. */
  lemma BatchTakes(config: Config, world: World, state: State, i: nat)
    requires config.batchSize >= 1
    ensures var entries := Pending(world.writes(i, state.records), state.cursor);
      var out := Batch(config, world, state, i);
      && out.processed == Take(entries, config.batchSize)
      && (out.ended <==> |entries| < config.batchSize)
      && out.state.cursor == if out.ended then [] else out.processed[config.batchSize - 1]
  {
    hide Updates, NewCandidates, Pending;
  }

  /** The first n keys of a scan are those up to the n-th. */
  lemma PrefixOfScan(scan: seq<Bytes>, n: nat, key: Bytes)
    requires Ascending(scan) && 1 <= n <= |scan|
    ensures key in scan[..n] <==> key in scan && AtMost(key, scan[n - 1])
  {
    hide Less;
    if key in scan && AtMost(key, scan[n - 1]) {
      var p :| 0 <= p < |scan| && scan[p] == key;
      if p >= n {
        LessAsymmetric(scan[n - 1], scan[p]);
      }
      assert scan[..n][p] == key;
    }
    if key in scan[..n] {
      var p :| 0 <= p < n && scan[..n][p] == key;
      assert scan[p] == key;
    }
  }

  /** A batch processes, in order, exactly the keys between its cursor and the one it leaves. */
  lemma BatchWindow(config: Config, world: World, state: State, i: nat, key: Bytes)
    requires config.batchSize >= 1 && [] !in world.writes(i, state.records)
    ensures var out := Batch(config, world, state, i);
      && Ascending(out.processed)
      && (key in out.processed <==>
            && key in world.writes(i, state.records)
            && (state.cursor == [] || Less(state.cursor, key))
            && (out.ended || AtMost(key, out.state.cursor)))
      && (out.ended <==> out.state.cursor == [])
  {
    hide Batch, Less, Pending;
    BatchTakes(config, world, state, i);
    var entries := Pending(world.writes(i, state.records), state.cursor);
    if |entries| >= config.batchSize {
      PrefixOfScan(entries, config.batchSize, key);
      assert entries[config.batchSize - 1] in entries;
    }
  }

  lemma AscendingAppend(a: seq<Bytes>, b: seq<Bytes>, middle: Bytes)
    requires Ascending(a) && Ascending(b)
    requires forall k :: k in a ==> AtMost(k, middle)
    requires forall k :: k in b ==> Less(middle, k)
    ensures Ascending(a + b)
  {
    hide Less;
    forall i, j | 0 <= i < j < |a + b| ensures Less((a + b)[i], (a + b)[j]) {
      if i < |a| <= j {
        assert a[i] in a && b[j - |a|] in b;
        if a[i] != middle { LessTransitive(a[i], middle, b[j - |a|]); }
      }
    }
  }

  /** Every batch takes at least one key. */
  predicate BatchesAreNonempty(configs: Configs, first: nat, n: nat) {
    forall i :: first <= i < first + n ==> configs(i).batchSize >= 1
  }

  /** While a cycle that began at the start has not ended, keys have come in order, up to the cursor. */
  lemma {:induction false} ProcessedInOrder(configs: Configs, world: World, state: State, first: nat, n: nat)
    requires BatchesAreNonempty(configs, first, n) && state.cursor == []
    requires KeysAreNonempty(configs, world, state, first, n)
    requires forall i :: 0 <= i < n - 1 ==> !EndsAt(configs, world, state, first, i)
    ensures var cursor := StateAt(configs, world, state, first, n).cursor;
      && Ascending(Processed(configs, world, state, first, n))
      && (n > 0 ==> (cursor == [] <==> EndsAt(configs, world, state, first, n - 1)))
      && (n > 0 && cursor != [] ==> forall key :: key in Processed(configs, world, state, first, n) ==>
          AtMost(key, cursor))
  {
    hide Batch, Less;
    if n > 0 {
      ProcessedInOrder(configs, world, state, first, n - 1);
      if n > 1 { assert !EndsAt(configs, world, state, first, n - 2); }
      var before := StateAt(configs, world, state, first, n - 1);
      var done := Processed(configs, world, state, first, n - 1);
      var out := OutcomeAt(configs, world, state, first, n - 1);
      assert [] !in ReadAt(configs, world, state, first, n - 1);
      forall key
        ensures key in out.processed ==> before.cursor == [] || Less(before.cursor, key)
        ensures key in out.processed && !out.ended ==> AtMost(key, out.state.cursor)
      {
        BatchWindow(configs(first + n - 1), world, before, first + n - 1, key);
      }
      BatchWindow(configs(first + n - 1), world, before, first + n - 1, []);
      if n == 1 {
        assert done + out.processed == out.processed;
      } else {
        AscendingAppend(done, out.processed, before.cursor);
        if !out.ended {
          CursorAdvances(configs(first + n - 1), world, before, first + n - 1);
          forall key | key in done ensures AtMost(key, out.state.cursor) {
            if key != before.cursor { LessTransitive(key, before.cursor, out.state.cursor); }
          }
        }
      }
    }
  }

  lemma CursorAdvances(config: Config, world: World, state: State, i: nat)
    requires config.batchSize >= 1 && [] !in world.writes(i, state.records)
    requires !Batch(config, world, state, i).ended && state.cursor != []
    ensures Less(state.cursor, Batch(config, world, state, i).state.cursor)
  {
    hide Batch, Less;
    BatchTakes(config, world, state, i);
    BatchWindow(config, world, state, i, Batch(config, world, state, i).state.cursor);
  }

  /** Some batch of the first n looks after the key, and the key is processed exactly if that
      batch finds it. */
  predicate CoveredOnce(configs: Configs, world: World, state: State, first: nat, n: nat, key: Bytes) {
    exists i :: 0 <= i < n && Covers(configs, world, state, first, i, key)
      && (key in Processed(configs, world, state, first, n) <==> key in ReadAt(configs, world, state, first, i))
  }

  lemma {:induction false} Coverage(configs: Configs, world: World, state: State, first: nat, n: nat, key: Bytes)
    requires BatchesAreNonempty(configs, first, n) && state.cursor == [] && n > 0
    requires KeysAreNonempty(configs, world, state, first, n)
    requires forall i :: 0 <= i < n - 1 ==> !EndsAt(configs, world, state, first, i)
    requires EndsAt(configs, world, state, first, n - 1) || AtMost(key, StateAt(configs, world, state, first, n).cursor)
    ensures CoveredOnce(configs, world, state, first, n, key)
  {
    hide Batch, Less;
    var before := StateAt(configs, world, state, first, n - 1);
    var out := OutcomeAt(configs, world, state, first, n - 1);
    assert StateAt(configs, world, state, first, n) == out.state;
    assert [] !in ReadAt(configs, world, state, first, n - 1);
    BatchWindow(configs(first + n - 1), world, before, first + n - 1, key);
    ProcessedInOrder(configs, world, state, first, n - 1);
    if n > 1 { assert !EndsAt(configs, world, state, first, n - 2); }
    LessTotal(before.cursor, key);
    if n > 1 && AtMost(key, before.cursor) {
      Coverage(configs, world, state, first, n - 1, key);
      var i :| 0 <= i < n - 1 && Covers(configs, world, state, first, i, key)
        && (key in Processed(configs, world, state, first, n - 1) <==> key in ReadAt(configs, world, state, first, i));
      NotBothWays(before.cursor, key);
      assert key !in out.processed;
      assert Covers(configs, world, state, first, i, key);
    } else {
      assert Covers(configs, world, state, first, n - 1, key);
      assert n > 1 ==> key !in Processed(configs, world, state, first, n - 1);
      assert key in out.processed <==> key in ReadAt(configs, world, state, first, n - 1);
    }
  }

  lemma NotBothWays(a: Bytes, b: Bytes)
    requires AtMost(b, a)
    ensures !Less(a, b)
  {
    if a == b { LessIrreflexive(a); } else { LessAsymmetric(b, a); }
  }

  /** Over a whole cycle, from the empty cursor to the batch that resets it, every key lies in the
      stretch of some batch and is processed exactly if that batch finds it. Keys are processed in
      strictly increasing order, so none twice, and a key that every batch finds is not missed. */
  lemma CycleCoversOnce(configs: Configs, world: World, state: State, first: nat, n: nat, key: Bytes)
    requires BatchesAreNonempty(configs, first, n) && state.cursor == [] && n > 0
    requires KeysAreNonempty(configs, world, state, first, n)
    requires forall i :: 0 <= i < n - 1 ==> !EndsAt(configs, world, state, first, i)
    requires EndsAt(configs, world, state, first, n - 1)
    ensures Ascending(Processed(configs, world, state, first, n))
    ensures CoveredOnce(configs, world, state, first, n, key)
    ensures (forall i :: 0 <= i < n ==> key in ReadAt(configs, world, state, first, i))
      ==> key in Processed(configs, world, state, first, n)
    ensures StateAt(configs, world, state, first, n).cursor == []
  {
    hide Batch, Less;
    ProcessedInOrder(configs, world, state, first, n);
    Coverage(configs, world, state, first, n, key);
  }

  // ---------------------------------------------------------------------------------------
  //  Candidates
  // ---------------------------------------------------------------------------------------

  /** Batch number i processes the record and finds its score below the threshold. */
  predicate FallsBelow(config: Config, world: World, state: State, i: nat, key: Bytes) {
    var records := world.writes(i, state.records);
    && key in Batch(config, world, state, i).processed
    && key in records && records[key].Decodes?
    && world.score(i, records[key].memory) < config.threshold
  }

  /** Nobody else puts a record on the list; an auto-forget takes them off. */
  ghost predicate OnlyClears(world: World) {
    forall i: nat, listed: map<Bytes, real> :: world.lists(i, listed).Keys <= listed.Keys
  }

  /** The record is taken off the list right before batch number i. */
  predicate IsCleared(world: World, state: State, i: nat, key: Bytes) {
    key in state.candidates && key !in world.lists(i, state.candidates)
  }

  lemma BatchCandidates(config: Config, world: World, state: State, i: nat, key: Bytes)
    requires OnlyClears(world)
    ensures key in Batch(config, world, state, i).state.candidates
       <==> || (key in state.candidates && !IsCleared(world, state, i, key))
            || FallsBelow(config, world, state, i, key)
  {
    hide Updates, Less, Pending, Ascending;
    assert world.lists(i, state.candidates).Keys <= state.candidates.Keys;
  }

  /** From batch m of the run on up to batch n the record is not taken off the list. */
  predicate StaysListed(configs: Configs, world: World, state: State, first: nat, m: nat, n: nat, key: Bytes) {
    forall j :: m <= j < n ==> !IsCleared(world, StateAt(configs, world, state, first, j), first + j, key)
  }

  /** A record is a candidate after n batches exactly if it was one before or fell below the
      threshold in any of them, and was not taken off since: a later score above the threshold does
      not take it off. */
  lemma {:induction false} CandidateIff(configs: Configs, world: World, state: State, first: nat, n: nat, key: Bytes)
    requires OnlyClears(world)
    ensures key in StateAt(configs, world, state, first, n).candidates
       <==> || (key in state.candidates && StaysListed(configs, world, state, first, 0, n, key))
            || exists m :: 0 <= m < n
                && FallsBelow(configs(first + m), world, StateAt(configs, world, state, first, m), first + m, key)
                && StaysListed(configs, world, state, first, m + 1, n, key)
  {
    hide Batch, FallsBelow, IsCleared, OnlyClears;
    if n > 0 {
      CandidateIff(configs, world, state, first, n - 1, key);
      BatchCandidates(configs(first + n - 1), world, StateAt(configs, world, state, first, n - 1), first + n - 1, key);
      forall m: nat | m <= n
        ensures StaysListed(configs, world, state, first, m, n, key)
            <==> (m == n
              || (StaysListed(configs, world, state, first, m, n - 1, key)
                  && !IsCleared(world, StateAt(configs, world, state, first, n - 1), first + n - 1, key)))
      {}
    }
  }

  /** A single record that scores below the threshold in one cycle and not in the next is listed
      after both, whatever else its stored score says. */
  lemma RecoveredStaysListed(config: Config, world: World, state: State, key: Bytes, m: Memory)
    requires config.batchSize >= 2 && config.epsilon >= 0.0 && key != []
    requires state == State(map[key := Decodes(m)], map[], [])
    requires forall i: nat, records :: world.writes(i, records) == records
    requires forall i: nat, listed :: world.lists(i, listed) == listed
    requires forall x :: world.score(0, x) < config.threshold
    requires forall x :: world.score(1, x) >= config.threshold
    ensures var after := StateAt(Always(config), world, state, 0, 2);
      && key in after.candidates
      && key in after.records && after.records[key].Decodes?
      && after.records[key].memory.decayScore >= config.threshold - config.epsilon
  {
    hide Batch, Less;
    var middle := StateAt(Always(config), world, state, 0, 1);
    assert StateAt(Always(config), world, state, 0, 0) == state;
    assert middle == Batch(config, world, state, 0).state;
    assert StateAt(Always(config), world, state, 0, 2) == Batch(config, world, middle, 1).state;
    SingleBatch(config, world, state, 0, key);
    SingleBatch(config, world, middle, 1, key);
    BatchScores(config, world, state, 0, key);
    BatchScores(config, world, middle, 1, key);
    BatchCandidates(config, world, middle, 1, key);
  }

  /** A batch that has room for the only record processes it and ends the cycle. */
  lemma SingleBatch(config: Config, world: World, state: State, i: nat, key: Bytes)
    requires config.batchSize >= 2 && key != [] && state.cursor == []
    requires state.records.Keys == {key} && world.writes(i, state.records) == state.records
    ensures Batch(config, world, state, i).processed == [key]
    ensures Batch(config, world, state, i).state.cursor == []
    ensures Batch(config, world, state, i).state.records.Keys == {key}
  {
    hide Batch, Less, Sorted;
    BatchTakes(config, world, state, i);
    BatchKeepsKeys(config, world, state, i);
    var all := Sorted({key});
    assert |all| == 1 && all[0] in all;
  }

  // ---------------------------------------------------------------------------------------
  //  How many sweeps a cycle takes
  // ---------------------------------------------------------------------------------------

  /** Other writers may rewrite records but neither add nor remove any. */
  ghost predicate KeepsKeys(world: World) {
    forall i: nat, records: Records :: world.writes(i, records).Keys == records.Keys
  }

  /** The cursor after the first p keys. */
  function CursorAt(keys: set<Bytes>, p: nat): Bytes
    requires p <= |keys|
  {
    if p == 0 then [] else Sorted(keys)[p - 1]
  }

  predicate AtPosition(state: State, keys: set<Bytes>, p: nat) {
    state.records.Keys == keys && [] !in keys && p <= |keys| && state.cursor == CursorAt(keys, p)
  }

  lemma {:induction false} BeyondPosition(scan: seq<Bytes>, p: nat)
    requires Ascending(scan) && 1 <= p <= |scan|
    ensures Beyond(scan, scan[p - 1]) == scan[p..]
  {
    hide Less;
    if p == 1 {
      LessIrreflexive(scan[0]);
      AllBeyond(scan[1..], scan[0]);
    } else {
      LessAsymmetric(scan[0], scan[p - 1]);
      BeyondPosition(scan[1..], p - 1);
    }
  }

  lemma {:induction false} AllBeyond(scan: seq<Bytes>, cursor: Bytes)
    requires forall i :: 0 <= i < |scan| ==> Less(cursor, scan[i])
    ensures Beyond(scan, cursor) == scan
  {
    hide Less;
    if scan != [] {
      AllBeyond(scan[1..], cursor);
    }
  }

  lemma BatchKeepsKeys(config: Config, world: World, state: State, i: nat)
    ensures Batch(config, world, state, i).state.records.Keys == world.writes(i, state.records).Keys
  {
    hide NewCandidates, Pending;
  }

  lemma PendingAtPosition(state: State, keys: set<Bytes>, p: nat)
    requires AtPosition(state, keys, p)
    ensures Pending(state.records, state.cursor) == Sorted(keys)[p..]
  {
    hide Less, Sorted;
    if p > 0 {
      assert Sorted(keys)[p - 1] in Sorted(keys);
      BeyondPosition(Sorted(keys), p);
    }
  }

  /** With a fixed set of keys a batch either moves on by a full batch or ends the cycle. */
  lemma BatchMoves(config: Config, world: World, state: State, i: nat, keys: set<Bytes>, p: nat)
    requires config.batchSize >= 1 && KeepsKeys(world) && AtPosition(state, keys, p)
    ensures var out := Batch(config, world, state, i);
      && (out.ended <==> p + config.batchSize > |keys|)
      && (out.ended ==> AtPosition(out.state, keys, 0))
      && (!out.ended ==> AtPosition(out.state, keys, p + config.batchSize))
  {
    hide Batch, Less, Sorted, Pending;
    var read := state.(records := world.writes(i, state.records));
    assert read.records.Keys == keys;
    PendingAtPosition(read, keys, p);
    BatchTakes(config, world, state, i);
    BatchKeepsKeys(config, world, state, i);
  }

  /** How many keys a number of full batches covers. */
  function Span(config: Config, batches: nat): nat
    decreases batches
  {
    if batches == 0 then 0 else Span(config, batches - 1) + config.batchSize
  }

  lemma {:induction false} SpanIsProduct(config: Config, batches: nat)
    ensures Span(config, batches) == batches * config.batchSize
  {
    if batches > 0 {
      SpanIsProduct(config, batches - 1);
      assert batches * config.batchSize == (batches - 1) * config.batchSize + config.batchSize;
    }
  }

  lemma {:induction false} SweepMoves(
      config: Config, world: World, state: State, i: nat, left: nat, keys: set<Bytes>, p: nat)
    requires config.batchSize >= 1 && KeepsKeys(world) && AtPosition(state, keys, p)
    ensures var sweep := Sweep(Always(config), world, state, i, left);
      && (sweep.ended <==> p + Span(config, left) > |keys|)
      && (sweep.ended ==> AtPosition(sweep.state, keys, 0))
      && (!sweep.ended ==> AtPosition(sweep.state, keys, p + Span(config, left)))
    decreases left
  {
    hide Batch, AtPosition, KeepsKeys;
    InRange(state, keys, p);
    if left > 0 {
      BatchMoves(config, world, state, i, keys, p);
      var out := Batch(config, world, state, i);
      if !out.ended {
        SweepMoves(config, world, out.state, i + 1, left - 1, keys, p + config.batchSize);
      }
    }
  }

  lemma InRange(state: State, keys: set<Bytes>, p: nat)
    requires AtPosition(state, keys, p)
    ensures p <= |keys|
  {}

  /** State and number of the next batch after s sweeps in a row. */
  function AfterSweeps(configs: Configs, world: World, state: State, first: nat, s: nat): (State, nat) {
    if s == 0 then (state, first)
    else
      var (before, i) := AfterSweeps(configs, world, state, first, s - 1);
      var sweep := Sweep(configs, world, before, i, configs(i).maxBatches);
      (sweep.state, i + sweep.batches)
  }

  /** Sweeps in a row are a run of batches, each of which begins where the one before it stopped. */
  lemma {:induction false} SweepsAreRun(configs: Configs, world: World, state: State, first: nat, s: nat)
    ensures var (after, i) := AfterSweeps(configs, world, state, first, s);
      && first <= i
      && after == StateAt(configs, world, state, first, i - first)
  {
    hide Batch, Sweep;
    if s > 0 {
      SweepsAreRun(configs, world, state, first, s - 1);
      var (before, i) := AfterSweeps(configs, world, state, first, s - 1);
      var left := configs(i).maxBatches;
      SweepIsRun(configs, world, before, i, left);
      RunContinues(configs, world, state, first, i - first, Sweep(configs, world, before, i, left).batches);
    }
  }

  /** A sweep only depends on the configuration of its own batches. */
  lemma {:induction false} SteadySweep(
      configs: Configs, config: Config, world: World, state: State, i: nat, left: nat)
    requires forall n :: i <= n < i + left ==> configs(n) == config
    ensures Sweep(configs, world, state, i, left) == Sweep(Always(config), world, state, i, left)
    decreases left
  {
    hide Batch;
    if left > 0 {
      SteadySweep(configs, config, world, Batch(config, world, state, i).state, i + 1, left - 1);
    }
  }

  lemma {:induction false} SweepsAreBounded(
      configs: Configs, world: World, state: State, first: nat, s: nat, most: nat)
    requires forall i :: configs(i).maxBatches <= most
    ensures AfterSweeps(configs, world, state, first, s).1 <= first + s * most
  {
    hide Sweep, EndsAt, StateAt, Processed;
    if s > 0 {
      var (before, i) := AfterSweeps(configs, world, state, first, s - 1);
      SweepsAreBounded(configs, world, state, first, s - 1, most);
      SweepIsRun(configs, world, before, i, configs(i).maxBatches);
      OneMoreTime(s, most);
    }
  }

  lemma OneMoreTime(s: nat, most: nat)
    requires s > 0
    ensures s * most == (s - 1) * most + most
  {}

  lemma {:induction false} RunContinues(configs: Configs, world: World, state: State, first: nat, n: nat, m: nat)
    ensures StateAt(configs, world, StateAt(configs, world, state, first, n), first + n, m)
         == StateAt(configs, world, state, first, n + m)
  {
    hide Batch;
    if m > 0 {
      RunContinues(configs, world, state, first, n, m - 1);
    }
  }

  predicate SweepEnds(configs: Configs, world: World, state: State, first: nat, s: nat) {
    var (before, i) := AfterSweeps(configs, world, state, first, s);
    Sweep(configs, world, before, i, configs(i).maxBatches).ended
  }

  /** How many keys a sweep takes at most. */
  function PerSweep(config: Config): (n: nat)
    ensures config.maxBatches >= 1 && config.batchSize >= 1 ==> n >= 1
  {
    if config.maxBatches >= 1 && config.batchSize >= 1 then ProductPositive(config.maxBatches, config.batchSize);
      config.maxBatches * config.batchSize
    else 0
  }

  /** How many keys a number of full sweeps covers. */
  function Reach(config: Config, sweeps: nat): nat
    decreases sweeps
  {
    if sweeps == 0 then 0 else Reach(config, sweeps - 1) + Span(config, config.maxBatches)
  }

  lemma {:induction false} ReachIsProduct(config: Config, sweeps: nat)
    requires config.maxBatches >= 1 && config.batchSize >= 1
    ensures Reach(config, sweeps) == sweeps * PerSweep(config)
  {
    SpanIsProduct(config, config.maxBatches);
    if sweeps > 0 {
      ReachIsProduct(config, sweeps - 1);
      var perSweep := PerSweep(config);
      assert sweeps * perSweep == (sweeps - 1) * perSweep + perSweep;
    }
  }

  lemma {:induction false} SweepsMove(config: Config, world: World, state: State, first: nat, s: nat, keys: set<Bytes>)
    requires config.batchSize >= 1 && KeepsKeys(world) && AtPosition(state, keys, 0)
    requires Reach(config, s) <= |keys|
    ensures AtPosition(AfterSweeps(Always(config), world, state, first, s).0, keys, Reach(config, s))
    ensures SweepEnds(Always(config), world, state, first, s) <==> Reach(config, s + 1) > |keys|
    decreases s
  {
    hide Sweep, AtPosition, KeepsKeys, Span;
    if s > 0 {
      SweepsMove(config, world, state, first, s - 1, keys);
      var (before, i) := AfterSweeps(Always(config), world, state, first, s - 1);
      SweepMoves(config, world, before, i, config.maxBatches, keys, Reach(config, s - 1));
    }
    var (before, i) := AfterSweeps(Always(config), world, state, first, s);
    SweepMoves(config, world, before, i, config.maxBatches, keys, Reach(config, s));
  }

  /** With a fixed set of n keys, the sweep that resets the cursor is number
      n / (batches per sweep * batch size), counting from zero. */
  lemma SweepsPerCycle(config: Config, world: World, state: State, first: nat, s: nat)
    requires config.batchSize >= 1 && config.maxBatches >= 1 && KeepsKeys(world)
    requires state.cursor == [] && [] !in state.records
    requires s <= |state.records.Keys| / PerSweep(config)
    ensures SweepEnds(Always(config), world, state, first, s) <==> s == |state.records.Keys| / PerSweep(config)
  {
    hide SweepEnds, KeepsKeys, PerSweep, Reach, Sorted;
    var keys := state.records.Keys;
    ReachInSweeps(config, |keys|, s);
    AtStart(state);
    SweepsMove(config, world, state, first, s, keys);
  }

  lemma AtStart(state: State)
    requires state.cursor == [] && [] !in state.records
    ensures AtPosition(state, state.records.Keys, 0)
  {
    hide Sorted;
  }

  lemma ReachInSweeps(config: Config, n: nat, s: nat)
    requires config.batchSize >= 1 && config.maxBatches >= 1
    requires s <= n / PerSweep(config)
    ensures Reach(config, s) <= n
    ensures Reach(config, s + 1) > n <==> s == n / PerSweep(config)
  {
    hide PerSweep, Reach;
    QuotientBound(n, PerSweep(config), s);
    ReachIsProduct(config, s);
    ReachIsProduct(config, s + 1);
  }

  lemma ProductPositive(a: nat, b: nat)
    requires a >= 1 && b >= 1
    ensures a * b >= 1
  {}

  lemma QuotientBound(n: nat, d: nat, s: nat)
    requires d >= 1 && s <= n / d
    ensures s * d <= n
    ensures (s + 1) * d > n <==> s == n / d
  {
    var q := n / d;
    assert n == q * d + n % d;
    assert s * d <= q * d;
    if s < q { assert (s + 1) * d <= q * d; }
    assert (q + 1) * d == q * d + d;
  }

  // ---------------------------------------------------------------------------------------
  //  The score
  // ---------------------------------------------------------------------------------------

  /** The two transcendental functions of compute_decay_score, `2^-x` and `log2`. */
  datatype Powers = Powers(halving: real -> real, log2: real -> real)

  ghost predicate AreLikePowers(powers: Powers) {
    && powers.halving(0.0) == 1.0
    && powers.log2(1.0) == 0.0
    && (forall x: real, y: real :: 0.0 <= x <= y ==> 0.0 <= powers.halving(y) <= powers.halving(x))
    && (forall x: real, y: real :: 1.0 <= x < y ==> powers.log2(x) < powers.log2(y))
  }

  function CapAccess(count: nat, cap: nat): nat {
    if count <= cap then count else cap
  }

  function Reinforcement(powers: Powers, accessCount: nat, cap: nat): real {
    var logCap := powers.log2(1.0 + cap as real);
    if logCap > 0.0 then 1.0 + powers.log2(1.0 + CapAccess(accessCount, cap) as real) / logCap else 1.0
  }

  function Scaled(importance: real, timeFactor: real, reinforcement: real): real {
    importance * timeFactor * reinforcement
  }

  /** compute_decay_score */
  function DecayScore(
      powers: Powers, importance: real, lastAccessedAt: nat, accessCount: nat, now: nat, halfLife: nat, cap: nat): real
  {
    if importance <= 0.0 || halfLife == 0 then 0.0
    else
      Scaled(importance, powers.halving(Age(now, lastAccessedAt) / halfLife as real),
          Reinforcement(powers, accessCount, cap))
  }

  lemma RatioBounds(x: real, y: real)
    requires 0.0 <= x <= y && y > 0.0
    ensures 0.0 <= x / y <= 1.0
  {}

  lemma RatioGrows(x: real, y: real, d: real)
    requires x <= y && d > 0.0
    ensures x / d <= y / d
    ensures x >= 0.0 ==> x / d >= 0.0
  {}

  lemma ReinforcementBounds(powers: Powers, a: nat, b: nat, cap: nat)
    requires AreLikePowers(powers) && a <= b
    ensures 1.0 <= Reinforcement(powers, a, cap) <= Reinforcement(powers, b, cap) <= 2.0
  {
    var logCap := powers.log2(1.0 + cap as real);
    if logCap > 0.0 {
      var x, y := powers.log2(1.0 + CapAccess(a, cap) as real), powers.log2(1.0 + CapAccess(b, cap) as real);
      assert 0.0 <= x <= y <= logCap;
      RatioBounds(x, logCap);
      RatioBounds(y, logCap);
      RatioGrows(x, y, logCap);
    }
  }

  lemma ProductGrows(a: real, x: real, y: real, r: real, s: real)
    requires a >= 0.0 && 0.0 <= y <= x && 0.0 <= r <= s
    ensures a * y * r <= a * x * s
  {
    assert a * y <= a * x;
    assert a * y * r <= a * x * r;
    assert a * x * r <= a * x * s;
  }

  lemma ScoreBounds(importance: real, young: real, aged: real, r: real, s: real)
    requires importance > 0.0 && 0.0 <= aged <= young <= 1.0 && 1.0 <= r <= s <= 2.0
    ensures 0.0 <= Scaled(importance, aged, r) <= Scaled(importance, young, s)
    ensures Scaled(importance, aged, r) <= 2.0 * importance
    ensures importance <= Scaled(importance, 1.0, r)
  {
    ProductGrows(importance, young, aged, r, s);
    ProductGrows(importance, 1.0, aged, r, 2.0);
    ProductGrows(importance, 1.0, 1.0, 1.0, r);
    assert importance * aged >= 0.0;
    assert importance * aged * r >= 0.0;
  }

  function Age(now: nat, lastAccessedAt: nat): real {
    if now >= lastAccessedAt then (now - lastAccessedAt) as real else 0.0
  }

  lemma AgeFactors(powers: Powers, early: nat, late: nat, lastAccessedAt: nat, halfLife: nat)
    requires AreLikePowers(powers) && early <= late && halfLife > 0
    ensures 0.0 <= powers.halving(Age(late, lastAccessedAt) / halfLife as real)
                <= powers.halving(Age(early, lastAccessedAt) / halfLife as real) <= 1.0
    ensures powers.halving(Age(lastAccessedAt, lastAccessedAt) / halfLife as real) == 1.0
  {
    RatioGrows(Age(early, lastAccessedAt), Age(late, lastAccessedAt), halfLife as real);
    RatioGrows(0.0, Age(early, lastAccessedAt), halfLife as real);
  }

  /** A score only falls as time passes without access, only rises with the number of accesses,
      stays between zero and twice a positive importance, and starts at the importance or above
      however often the memory was accessed. */
  lemma ScoreIsMonotone(
      powers: Powers, importance: real, lastAccessedAt: nat, a: nat, b: nat, early: nat, late: nat, halfLife: nat,
      cap: nat)
    requires AreLikePowers(powers) && a <= b && early <= late
    ensures DecayScore(powers, importance, lastAccessedAt, a, late, halfLife, cap)
         <= DecayScore(powers, importance, lastAccessedAt, b, early, halfLife, cap)
    ensures 0.0 <= DecayScore(powers, importance, lastAccessedAt, a, late, halfLife, cap)
    ensures importance > 0.0 && halfLife > 0 ==>
      && DecayScore(powers, importance, lastAccessedAt, a, late, halfLife, cap) <= 2.0 * importance
      && DecayScore(powers, importance, lastAccessedAt, a, lastAccessedAt, halfLife, cap) >= importance
  {
    hide Reinforcement, AreLikePowers, Age, Scaled;
    if importance > 0.0 && halfLife > 0 {
      AgeFactors(powers, early, late, lastAccessedAt, halfLife);
      ReinforcementBounds(powers, a, b, cap);
      ScoreBounds(importance,
        powers.halving(Age(early, lastAccessedAt) / halfLife as real),
        powers.halving(Age(late, lastAccessedAt) / halfLife as real),
        Reinforcement(powers, a, cap), Reinforcement(powers, b, cap));
    }
  }

  /** `2^-x` halves with every step of one. */
  ghost predicate Halves(powers: Powers) {
    forall x: real :: x >= 0.0 ==> powers.halving(x + 1.0) == powers.halving(x) / 2.0
  }

  lemma OneMorePeriod(x: real, d: real)
    requires d > 0.0
    ensures (x + d) / d == x / d + 1.0
    ensures x >= 0.0 ==> x / d >= 0.0
  {
    var q := x / d;
    assert q * d == x;
    assert (q + 1.0) * d == x + d;
    SameQuotient((x + d) / d, q + 1.0, d);
  }

  lemma SameQuotient(a: real, b: real, d: real)
    requires d > 0.0 && a * d == b * d
    ensures a == b
  {
    assert (a - b) * d == 0.0;
    ProductIsNotZero(a - b, d);
  }

  lemma ProductIsNotZero(x: real, d: real)
    requires d > 0.0
    ensures x != 0.0 ==> x * d != 0.0
  {
    if x > 0.0 { assert x * d > 0.0; }
    if x < 0.0 { assert -x * d > 0.0; }
  }

  lemma HalfScaled(importance: real, timeFactor: real, reinforcement: real)
    ensures Scaled(importance, timeFactor / 2.0, reinforcement) == Scaled(importance, timeFactor, reinforcement) / 2.0
  {
    assert importance * (timeFactor / 2.0) == importance * timeFactor / 2.0;
  }

  /** A score halves with every half life that passes without access. */
  lemma ScoreHalves(
      powers: Powers, importance: real, lastAccessedAt: nat, accessCount: nat, now: nat, halfLife: nat, cap: nat)
    requires Halves(powers) && halfLife > 0 && now >= lastAccessedAt
    ensures DecayScore(powers, importance, lastAccessedAt, accessCount, now + halfLife, halfLife, cap)
         == DecayScore(powers, importance, lastAccessedAt, accessCount, now, halfLife, cap) / 2.0
  {
    var age, period := (now - lastAccessedAt) as real, halfLife as real;
    OneMorePeriod(age, period);
    assert Age(now + halfLife, lastAccessedAt) == age + period && Age(now, lastAccessedAt) == age;
    hide Scaled, Reinforcement, Age;
    HalfScaled(importance, powers.halving(age / period), Reinforcement(powers, accessCount, cap));
  }

  lemma ScaledParts(importance: real, timeFactor: real, ratio: real, logCap: real, logCount: real)
    requires logCap > 0.0 && ratio == logCount / logCap
    ensures (Scaled(importance, timeFactor, 1.0 + ratio) - Scaled(importance, timeFactor, 1.0)) * logCap
         == Scaled(importance, timeFactor, 1.0) * logCount
  {
    var base := importance * timeFactor;
    assert ratio * logCap == logCount;
    assert base * (1.0 + ratio) - base * 1.0 == base * ratio;
    assert base * ratio * logCap == base * (ratio * logCap);
  }

  lemma Unreinforced(powers: Powers, cap: nat)
    requires AreLikePowers(powers)
    ensures Reinforcement(powers, 0, cap) == 1.0
    ensures cap > 0 ==> powers.log2(1.0 + cap as real) > 0.0
    ensures cap > 0 ==> forall count: nat ::
      Reinforcement(powers, count, cap)
      == 1.0 + powers.log2(1.0 + CapAccess(count, cap) as real) / powers.log2(1.0 + cap as real)
    ensures forall count: nat :: cap == 0 ==> Reinforcement(powers, count, cap) == 1.0
  {
    if cap > 0 { assert powers.log2(1.0) < powers.log2(1.0 + cap as real); }
  }

  /** Accesses add to the score of a memory without any in the proportion of their logarithm to that of
      the cap, so that from the cap on it is doubled; without a cap they count nothing. */
  lemma AccessesReinforce(
      powers: Powers, importance: real, lastAccessedAt: nat, accessCount: nat, now: nat, halfLife: nat, cap: nat)
    requires AreLikePowers(powers)
    ensures var unused := DecayScore(powers, importance, lastAccessedAt, 0, now, halfLife, cap);
      var used := DecayScore(powers, importance, lastAccessedAt, accessCount, now, halfLife, cap);
      && (cap == 0 ==> used == unused)
      && (cap > 0 ==>
            (used - unused) * powers.log2(1.0 + cap as real)
            == unused * powers.log2(1.0 + (if accessCount < cap then accessCount else cap) as real))
      && (accessCount >= cap > 0 ==> used == 2.0 * unused)
  {
    Unreinforced(powers, cap);
    hide Scaled, Reinforcement, AreLikePowers;
    if importance > 0.0 && halfLife > 0 && cap > 0 {
      var timeFactor := powers.halving(Age(now, lastAccessedAt) / halfLife as real);
      var logCap, logCount := powers.log2(1.0 + cap as real), powers.log2(1.0 + CapAccess(accessCount, cap) as real);
      ScaledParts(importance, timeFactor, logCount / logCap, logCap, logCount);
      if accessCount >= cap {
        assert logCount / logCap == 1.0;
        DoubleScaled(importance, timeFactor);
      }
    }
  }

  lemma DoubleScaled(importance: real, timeFactor: real)
    ensures Scaled(importance, timeFactor, 2.0) == 2.0 * Scaled(importance, timeFactor, 1.0)
  {}

  /** A memory that was just accessed, or will be, scores its importance if that is positive and it was
      never accessed before; without importance or half life every score is zero. */
  lemma ScoreBegins(powers: Powers, importance: real, lastAccessedAt: nat, now: nat, halfLife: nat, cap: nat)
    requires AreLikePowers(powers)
    ensures importance > 0.0 && halfLife > 0 && now <= lastAccessedAt ==>
      DecayScore(powers, importance, lastAccessedAt, 0, now, halfLife, cap) == importance
    ensures importance <= 0.0 || halfLife == 0 ==>
      forall count: nat :: DecayScore(powers, importance, lastAccessedAt, count, now, halfLife, cap) == 0.0
  {
    Unreinforced(powers, cap);
    hide Reinforcement;
    if importance > 0.0 && halfLife > 0 && now <= lastAccessedAt {
      assert Age(now, lastAccessedAt) / halfLife as real == 0.0;
    }
  }
}
