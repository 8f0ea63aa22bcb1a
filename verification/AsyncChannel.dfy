/** The queue between the inotify reader and the server, with its single slot for a waker. */
module AsyncChannel {
  import opened Wire

  type Consumer = nat

  /**
   The queue and the waker, and as history: what was delivered, and which consumers were told to
   wait and have not been woken, or served, since.
   */
  datatype Channel<T> = Channel(
    queue: seq<T>, waker: Option<Consumer>, delivered: seq<T>, waiting: set<Consumer>)

  datatype Op<T> = Push(item: T) | Poll(consumer: Consumer)

  function Created<T>(): Channel<T> {
    Channel([], None, [], {})
  }

  function Waked(waker: Option<Consumer>): set<Consumer> {
    if waker.Some? then {waker.value} else {}
  }

  function Step<T>(c: Channel<T>, op: Op<T>): Channel<T> {
    match op
    case Push(item) =>
      Channel(c.queue + [item], None, c.delivered, c.waiting - Waked(c.waker))
    case Poll(consumer) =>
      if c.queue != [] then
        Channel(c.queue[1..], c.waker, c.delivered + [c.queue[0]], c.waiting - {consumer})
      else
        c.(waker := Some(consumer), waiting := c.waiting + {consumer})
  }

  datatype PollResult<T> = Ready(item: T) | Pending

  /** The shared queue as it is kept; `channel` records its history. */
  class SharedQueue<T> {
    var queue: seq<T>
    var waker: Option<Consumer>
    ghost var channel: Channel<T>

    ghost predicate Valid()
      reads this
    {
      channel.queue == queue && channel.waker == waker
    }

    constructor ()
      ensures Valid() && channel == Created()
    {
      queue, waker := [], None;
      channel := Created();
    }

    /** Appends an item and wakes the consumer that registered last, if any. */
    method Push(item: T) returns (woken: Option<Consumer>)
      requires Valid()
      modifies this
      ensures Valid() && channel == Step(old(channel), Op.Push(item))
      ensures woken == old(waker)
    {
      queue := queue + [item];
      woken := waker;
      waker := None;
      channel := Step(channel, Op.Push(item));
    }

    method PopNowait() returns (r: Option<T>)
      modifies this`queue
      ensures r == if old(queue) == [] then None else Some(old(queue)[0])
      ensures queue == if old(queue) == [] then [] else old(queue)[1..]
    {
      if queue == [] {
        r := None;
      } else {
        r := Some(queue[0]);
        queue := queue[1..];
      }
    }

    method RegisterWaker(consumer: Consumer)
      modifies this`waker
      ensures waker == Some(consumer)
    {
      waker := Some(consumer);
    }

    method Poll(consumer: Consumer) returns (r: PollResult<T>)
      requires Valid()
      modifies this
      ensures Valid() && channel == Step(old(channel), Op.Poll(consumer))
      ensures r == if old(queue) == [] then Pending else Ready(old(queue)[0])
    {
      ghost var before := channel;
      var item := PopNowait();
      if item.Some? {
        r := Ready(item.value);
      } else {
        RegisterWaker(consumer);
        r := Pending;
      }
      channel := Step(before, Op.Poll(consumer));
    }
  }

  // ---------------------------------------------------------------------------------------
  // Whole runs

  function Run<T>(ops: seq<Op<T>>): Channel<T> {
    if ops == [] then Created() else Step(Run(ops[..|ops| - 1]), ops[|ops| - 1])
  }

  /** The items that the operations push, in order. */
  function Items<T>(ops: seq<Op<T>>): seq<T> {
    if ops == [] then []
    else Items(ops[..|ops| - 1]) + if ops[|ops| - 1].Push? then [ops[|ops| - 1].item] else []
  }

  /** How many polls find something: one that comes when fewer items were taken than pushed takes one. */
  function Taken<T>(ops: seq<Op<T>>): nat {
    if ops == [] then 0
    else
      var before := ops[..|ops| - 1];
      if ops[|ops| - 1].Poll? && Taken(before) < |Items(before)| then Taken(before) + 1 else Taken(before)
  }

  /** The i-th operation is a poll by this consumer that finds nothing. */
  ghost predicate InVain<T>(ops: seq<Op<T>>, i: nat, consumer: Consumer) {
    i < |ops| && ops[i] == Op.Poll(consumer) && Taken(ops[..i]) == |Items(ops[..i])|
  }

  lemma {:induction false} TakenBounded<T>(ops: seq<Op<T>>)
    ensures Taken(ops) <= |Items(ops)|
  {
    if ops != [] {
      TakenBounded(ops[..|ops| - 1]);
    }
  }

  /** In every run, what was delivered is what was pushed, in that order, as far as it was taken; the rest is queued. */
  lemma {:induction false} Fifo<T>(ops: seq<Op<T>>)
    ensures Taken(ops) <= |Items(ops)|
    ensures Run(ops).delivered == Items(ops)[..Taken(ops)]
    ensures Run(ops).queue == Items(ops)[Taken(ops)..]
  {
    TakenBounded(ops);
    if ops != [] {
      var before, c := ops[..|ops| - 1], Run(ops[..|ops| - 1]);
      Fifo(before);
      var items, n := Items(before), Taken(before);
      if ops[|ops| - 1].Push? {
        assert Items(ops)[n..] == items[n..] + [ops[|ops| - 1].item];
      } else {
        assert Items(ops) == items;
        if n < |items| {
          assert items[..n + 1] == items[..n] + [items[n]];
        }
      }
    }
  }

  /** A poll answers with the next item that was not taken yet, if any, whoever polls. */
  lemma {:induction false} PollAnswers<T>(ops: seq<Op<T>>, consumer: Consumer)
    ensures Run(ops).queue == [] <==> Taken(ops) == |Items(ops)|
    ensures Taken(ops) < |Items(ops)| ==> Run(ops).queue[0] == Items(ops)[Taken(ops)]
    ensures Taken(ops) < |Items(ops)| ==> Taken(ops + [Op.Poll(consumer)]) == Taken(ops) + 1
  {
    Fifo(ops);
    assert (ops + [Op.Poll(consumer)])[..|ops|] == ops;
  }

  /** A waker is registered exactly if the last operation was a poll in vain, and it is that poll's. */
  lemma {:induction false} WakerExactly<T>(ops: seq<Op<T>>, consumer: Consumer)
    ensures Run(ops).waker == Some(consumer) <==> ops != [] && InVain(ops, |ops| - 1, consumer)
    ensures Run(ops).waker.Some? ==> Run(ops).queue == []
  {
    if ops != [] {
      var before := ops[..|ops| - 1];
      Fifo(before);
      if Run(before).waker.Some? {
        WakerExactly(before, Run(before).waker.value);
      }
      WakerExactly(before, consumer);
    }
  }

  /** The i-th operation is the consumer's last poll. */
  ghost predicate LastPoll<T>(ops: seq<Op<T>>, i: nat, consumer: Consumer) {
    && i < |ops|
    && ops[i] == Op.Poll(consumer)
    && forall j :: i < j < |ops| ==> ops[j] != Op.Poll(consumer)
  }

  /** The consumer's last poll was in vain, and no push came right after it. */
  ghost predicate Forgotten<T>(ops: seq<Op<T>>, i: nat, consumer: Consumer) {
    LastPoll(ops, i, consumer) && InVain(ops, i, consumer) && (i + 1 == |ops| || ops[i + 1].Poll?)
  }

  lemma {:induction false} ForgottenBefore<T>(ops: seq<Op<T>>, i: nat, consumer: Consumer)
    requires i + 1 < |ops|
    ensures var before := ops[..|ops| - 1];
            Forgotten(ops, i, consumer) <==>
            && Forgotten(before, i, consumer)
            && ops[|ops| - 1] != Op.Poll(consumer)
            && (i + 2 == |ops| ==> ops[|ops| - 1].Poll?)
  {
    var before := ops[..|ops| - 1];
    assert before[..i] == ops[..i];
    assert forall j :: 0 <= j < |before| ==> before[j] == ops[j];
  }

  /** A consumer waits, and has not been woken, exactly if its last poll was forgotten in that way. */
  lemma {:induction false} WaitsExactly<T>(ops: seq<Op<T>>, consumer: Consumer)
    ensures consumer in Run(ops).waiting <==> exists i :: Forgotten(ops, i, consumer)
  {
    if ops != [] {
      var n, before := |ops| - 1, ops[..|ops| - 1];
      WaitsExactly(before, consumer);
      WakerExactly(before, consumer);
      Fifo(before);
      forall i: nat | i < n ensures Forgotten(ops, i, consumer) <==>
                                    Forgotten(before, i, consumer) && ops[n] != Op.Poll(consumer) && (i + 1 == n ==> ops[n].Poll?)
      {
        ForgottenBefore(ops, i, consumer);
      }
      assert Forgotten(ops, n, consumer) <==> InVain(ops, n, consumer);
      WaitsStep(ops, consumer);
    }
  }

  /** The two sides of that move together. */
  lemma {:induction false} WaitsStep<T>(ops: seq<Op<T>>, consumer: Consumer)
    requires ops != []
    requires var before, n := ops[..|ops| - 1], |ops| - 1;
             && (consumer in Run(before).waiting <==> exists i :: Forgotten(before, i, consumer))
             && (Run(before).waker == Some(consumer) <==> before != [] && InVain(before, n - 1, consumer))
             && (Run(before).queue == [] <==> Taken(before) == |Items(before)|)
             && (forall i: nat :: i < n ==>
                   (Forgotten(ops, i, consumer) <==>
                    Forgotten(before, i, consumer) && ops[n] != Op.Poll(consumer) && (i + 1 == n ==> ops[n].Poll?)))
             && (Forgotten(ops, n, consumer) <==> InVain(ops, n, consumer))
    ensures consumer in Run(ops).waiting <==> exists i :: Forgotten(ops, i, consumer)
  {
    var before, n := ops[..|ops| - 1], |ops| - 1;
    if consumer in Run(ops).waiting {
      if ops[n] == Op.Poll(consumer) {
        assert Forgotten(ops, n, consumer);
      } else {
        var i :| Forgotten(before, i, consumer);
        assert Forgotten(ops, i, consumer);
      }
    } else if i: nat :| Forgotten(ops, i, consumer) {
      assert i < n ==> Forgotten(before, i, consumer);
    }
  }

  /** Carries out the operations on a queue: what the polls bring is what was pushed, in that order. */
  method CarryOut<T>(ops: seq<Op<T>>) returns (brought: seq<T>)
    ensures brought == Items(ops)[..Min(Taken(ops), |Items(ops)|)]
  {
    var queue := new SharedQueue<T>();
    brought := [];
    for i := 0 to |ops|
      invariant queue.Valid() && queue.channel == Run(ops[..i]) && brought == Run(ops[..i]).delivered
    {
      assert ops[..i + 1][..i] == ops[..i];
      match ops[i]
      case Push(item) =>
        var woken := queue.Push(item);
      case Poll(consumer) =>
        var r := queue.Poll(consumer);
        if r.Ready? {
          brought := brought + [r.item];
        }
    }
    assert ops[..|ops|] == ops;
    Fifo(ops);
  }

  predicate PolledBy<T>(ops: seq<Op<T>>, consumers: set<Consumer>) {
    forall i :: 0 <= i < |ops| && ops[i].Poll? ==> ops[i].consumer in consumers
  }

  /** Nobody is left waiting while there is something in the queue. */
  ghost predicate NoLostWakeup<T(!new)>(consumers: set<Consumer>) {
    forall ops: seq<Op<T>> :: PolledBy(ops, consumers) && Run(ops).queue != [] ==> Run(ops).waiting == {}
  }

  /** With one consumer, it waits exactly if its waker is registered. */
  lemma {:induction false} OneConsumerWaits<T>(ops: seq<Op<T>>, consumer: Consumer)
    requires PolledBy(ops, {consumer})
    ensures Run(ops).waiting == Waked(Run(ops).waker) <= {consumer}
  {
    if ops != [] {
      OneConsumerWaits(ops[..|ops| - 1], consumer);
      WakerExactly(ops[..|ops| - 1], consumer);
    }
  }

  /** Two consumers overwrite each other's waker, and the first is not woken. */
  lemma {:induction false} FirstConsumerForgotten<T>(item: T, a: Consumer, b: Consumer) returns (ops: seq<Op<T>>)
    requires a != b
    ensures PolledBy(ops, {a, b})
    ensures Run(ops).queue == [item] && a in Run(ops).waiting
  {
    var first: seq<Op<T>>, second: seq<Op<T>> := [Op.Poll(a)], [Op.Poll(a), Op.Poll(b)];
    ops := [Op.Poll(a), Op.Poll(b), Op.Push(item)];
    assert first[..0] == [] && Run(first).waiting == {a} && Run(first).queue == [];
    assert second[..1] == first && Run(second).waiting == {a, b} && Run(second).waker == Some(b);
    assert ops[..2] == second;
  }

  /** No wakeup is lost exactly if there is at most one consumer. */
  lemma {:induction false} NoLostWakeupExactly<T(!new)>(item: T, consumers: set<Consumer>)
    ensures NoLostWakeup<T>(consumers) <==> forall a, b :: a in consumers && b in consumers ==> a == b
  {
    if forall a, b :: a in consumers && b in consumers ==> a == b {
      forall ops: seq<Op<T>> | PolledBy(ops, consumers) && Run(ops).queue != [] ensures Run(ops).waiting == {} {
        var consumer := if consumers == {} then 0 else var a :| a in consumers; a;
        OneConsumerWaits(ops, consumer);
        WakerExactly(ops, consumer);
      }
    } else {
      var a, b :| a in consumers && b in consumers && a != b;
      var ops := FirstConsumerForgotten(item, a, b);
      assert PolledBy(ops, consumers);
    }
  }
}
