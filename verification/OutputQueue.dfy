/** The output buffer of subscribe.rs: a bounded queue between the subscription worker and its
    consumer that drops its oldest item to make room. */
module OutputQueue {
  import opened Results

  datatype Queue<T> = Queue(items: seq<T>, dropped: nat)

  function Pushed<T>(q: Queue<T>, capacity: nat, item: T): Queue<T> {
    if |q.items| >= capacity
    then Queue((if q.items == [] then [] else q.items[1..]) + [item], q.dropped + 1)
    else Queue(q.items + [item], q.dropped)
  }

  function Front<T>(q: Queue<T>): Option<T> {
    if q.items == [] then None else Some(q.items[0])
  }

  function Popped<T>(q: Queue<T>): Queue<T> {
    if q.items == [] then q else q.(items := q.items[1..])
  }

  // ---------------------------------------------------------------------------------------
  //  Runs
  // ---------------------------------------------------------------------------------------

  datatype Op<T> = Push(item: T) | Recv

  function After<T>(capacity: nat, run: seq<Op<T>>): Queue<T> {
    if run == [] then Queue([], 0)
    else
      var before := After(capacity, run[..|run| - 1]);
      match run[|run| - 1]
      case Push(item) => Pushed(before, capacity, item)
      case Recv => Popped(before)
  }

  /** Everything pushed in a run. */
  function History<T>(run: seq<Op<T>>): seq<T> {
    if run == [] then []
    else if run[|run| - 1].Push? then History(run[..|run| - 1]) + [run[|run| - 1].item]
    else History(run[..|run| - 1])
  }

  /** Everything received in a run. */
  function Deliveries<T>(capacity: nat, run: seq<Op<T>>): seq<T> {
    if run == [] then []
    else
      var before := Deliveries(capacity, run[..|run| - 1]);
      match Front(After(capacity, run[..|run| - 1]))
      case Some(item) => if run[|run| - 1].Recv? then before + [item] else before
      case None => before
  }

  lemma AfterOneMore<T>(capacity: nat, run: seq<Op<T>>, op: Op<T>)
    ensures After(capacity, run + [op])
         == match op
            case Push(item) => Pushed(After(capacity, run), capacity, item)
            case Recv => Popped(After(capacity, run))
  {
    hide Pushed, Popped;
    assert (run + [op])[..|run|] == run;
  }

  function Pushes<T>(items: seq<T>): seq<Op<T>> {
    seq(|items|, i requires 0 <= i < |items| => Push(items[i]))
  }

  // ---------------------------------------------------------------------------------------
  //  The buffer
  // ---------------------------------------------------------------------------------------

  /** `run` is the history of what was done with the buffer. */
  class OutputBuffer<T> {
    var items: seq<T>
    const capacity: nat
    var dropCount: nat
    ghost var run: seq<Op<T>>

    ghost function Value(): Queue<T>
      reads this
    {
      Queue(items, dropCount)
    }

    ghost predicate Valid()
      reads this
    {
      Value() == After(capacity, run)
    }

    constructor (capacity: nat)
      ensures Valid() && this.capacity == capacity && run == []
    {
      this.items, this.capacity, this.dropCount, this.run := [], capacity, 0, [];
    }

    /** push */
    method Append(item: T)
      requires Valid()
      modifies this
      ensures Valid() && run == old(run) + [Push(item)]
    {
      hide After;
      AfterOneMore(capacity, run, Push(item));
      if |items| >= capacity {
        if items != [] {
          items := items[1..];
        }
        dropCount := dropCount + 1;
      }
      items := items + [item];
      run := run + [Push(item)];
    }

    /** try_recv */
    method TryRecv() returns (item: Option<T>)
      requires Valid()
      modifies this
      ensures Valid() && run == old(run) + [Recv]
      ensures item == Front(After(capacity, old(run)))
    {
      hide After;
      AfterOneMore<T>(capacity, run, Recv);
      run := run + [Recv];
      if items == [] {
        return None;
      }
      item := Some(items[0]);
      items := items[1..];
    }

    /** recv_timeout: while it waits on an empty queue, the producer may push the arrivals. */
    method RecvTimeout(arrivals: seq<T>) returns (item: Option<T>)
      requires Valid()
      modifies this
      ensures Valid() && run == (if old(items) == [] then old(run) + Pushes(arrivals) else old(run)) + [Recv]
      ensures item == Front(After(capacity, run[..|run| - 1]))
    {
      hide After;
      if items == [] {
        for i := 0 to |arrivals|
          invariant Valid() && run == old(run) + Pushes(arrivals[..i])
        {
          assert arrivals[..i + 1] == arrivals[..i] + [arrivals[i]];
          Append(arrivals[i]);
        }
        assert arrivals[..|arrivals|] == arrivals;
      }
      item := TryRecv();
    }
  }

  // ---------------------------------------------------------------------------------------
  //  Conservation and order
  // ---------------------------------------------------------------------------------------

  /** `part` is what stands at ascending positions of `whole`, all of them before `end`. */
  predicate StandsAt<T(==)>(part: seq<T>, whole: seq<T>, positions: seq<nat>, end: nat) {
    && |positions| == |part|
    && (forall i :: 0 <= i < |part| ==> positions[i] < end && positions[i] < |whole| && part[i] == whole[positions[i]])
    && (forall i, j :: 0 <= i < j < |part| ==> positions[i] < positions[j])
  }

  predicate Accounts<T(==)>(capacity: nat, q: Queue<T>, history: seq<T>, received: seq<T>, positions: seq<nat>) {
    && |q.items| <= capacity && |q.items| <= |history|
    && q.items == history[|history| - |q.items|..]
    && StandsAt(received, history, positions, |history| - |q.items|)
    && |history| == |received| + q.dropped + |q.items|
  }

  lemma PushAccounts<T>(capacity: nat, q: Queue<T>, history: seq<T>, received: seq<T>, positions: seq<nat>, item: T)
    requires capacity >= 1 && Accounts(capacity, q, history, received, positions)
    ensures Accounts(capacity, Pushed(q, capacity, item), history + [item], received, positions)
  {
    var n, after := |history| - |q.items|, history + [item];
    if |q.items| >= capacity {
      assert q.items[1..] == history[n + 1..];
      assert after[n + 1..] == history[n + 1..] + [item];
    } else {
      assert after[n..] == history[n..] + [item];
    }
    assert StandsAt(received, after, positions, n);
  }

  lemma PopAccounts<T>(capacity: nat, q: Queue<T>, history: seq<T>, received: seq<T>, positions: seq<nat>)
    requires Accounts(capacity, q, history, received, positions) && q.items != []
    ensures Accounts(capacity, Popped(q), history, received + [q.items[0]], positions + [|history| - |q.items|])
  {
    var n := |history| - |q.items|;
    assert q.items[0] == history[n];
    assert q.items[1..] == history[n + 1..];
    assert StandsAt(received + [q.items[0]], history, positions + [n], n + 1);
  }

  /** The queue is always the end of the history of pushes, no longer than its capacity; what was
      received is a subsequence, in order, of what came before that end; and every push was
      received, was dropped or is still in the queue. */
  lemma {:induction false} QueueIsEndOfHistory<T>(capacity: nat, run: seq<Op<T>>) returns (positions: seq<nat>)
    requires capacity >= 1
    ensures Accounts(capacity, After(capacity, run), History(run), Deliveries(capacity, run), positions)
  {
    hide Accounts;
    if run == [] {
      positions := [];
      assert Accounts<T>(capacity, Queue([], 0), [], [], []) by { NothingAccounts<T>(capacity); }
    } else {
      var init := run[..|run| - 1];
      positions := QueueIsEndOfHistory(capacity, init);
      var q, history, received := After(capacity, init), History(init), Deliveries(capacity, init);
      match run[|run| - 1]
      case Push(item) => PushAccounts(capacity, q, history, received, positions, item);
      case Recv =>
        if q.items != [] {
          PopAccounts(capacity, q, history, received, positions);
          positions := positions + [|history| - |q.items|];
        }
    }
  }

  lemma NothingAccounts<T>(capacity: nat)
    ensures Accounts<T>(capacity, Queue([], 0), [], [], [])
  {}
}
