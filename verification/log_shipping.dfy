/** The code of the two threads of c7n/log.py over its live state. CloudWatchLogHandler, its
    queue and its Transport refer to each other; their fields are gathered in one class.
    Each method is one step of LogSpec, or a run of them. */
module LogShipping {
  import opened LogProof
  import opened LogSpec
  import opened Sequences

  class Pipeline {
    const group: string
    // CloudWatchLogHandler
    var shutdown: bool
    var lastSeen: real
    var buf: seq<Message>
    // the queue
    var queue: seq<Item>
    var unfinished: int
    // Transport, and where its thread is (NotStarted: there is none yet)
    var transport: Transport
    var buffers: map<string, seq<Event>>
    var sequences: map<string, string>
    var failed: bool
    // the service
    var puts: seq<Put>
    // where the logging thread is, and the history of accepted records
    ghost var caller: Caller
    ghost var emitted: seq<Message>

    ghost function View(): State
      reads this
    {
      State(caller, shutdown, lastSeen, buf, queue, unfinished, transport, buffers, sequences, failed, puts, emitted)
    }

    constructor (group: string, now: real)
      ensures Init(View()) && this.group == group
    {
      this.group := group;
      shutdown, lastSeen, buf := true, now, [];
      queue, unfinished := [], 0;
      buffers, sequences, failed, puts := map[], map[], false, [];
      caller, transport, emitted := Logging, NotStarted, [];
    }

    method Enqueue(item: Item)
      modifies this`queue, this`unfinished
      ensures View() == LogSpec.Enqueue(old(View()), item)
    {
      queue := queue + [item];
      unfinished := unfinished + 1;
    }

    method FlushBuffers(force: bool)
      modifies this`queue, this`unfinished, this`buf
      ensures View() == LogSpec.FlushBuffers(old(View()), force)
    {
      if !force && |buf| < BATCH_MIN_BUFFER {
        return;
      }
      Enqueue(Batch(buf));
      buf := [];
    }

    /** emit; with a transport error it raises instead, and nothing changes. */
    method Emit(message: Message) returns (raised: bool)
      requires caller == Logging
      modifies this
      ensures raised == old(failed)
      ensures raised ==> View() == old(View())
      ensures !raised ==> View() == Apply(group, old(View()), Action.Emit(message))
    {
      if failed {
        return true;
      }
      if transport == NotStarted {
        shutdown := false;
        transport := Waiting;
      }
      buf := buf + [message];
      emitted := emitted + [message];
      FlushBuffers(message.created - lastSeen >= BATCH_INTERVAL);
      lastSeen := message.created;
      return false;
    }

    /** flush, up to the join. */
    method Flush()
      requires caller == Logging
      modifies this
      ensures old(shutdown) ==> View() == old(View())
      ensures !old(shutdown) ==>
        Run(group, old(View()), [FlushPut, FlushMark], View()) && caller == FlushJoin
    {
      if shutdown {
        return;
      }
      FlushBuffers(true);
      caller := Flushing;
      ghost var mid := View();
      Enqueue(FlushMarker);
      caller := FlushJoin;
      OneStep(group, mid, FlushMark);
      TwoSteps(group, old(View()), FlushPut, FlushMark);
    }

    /** close, up to the join. */
    method Close()
      requires caller == Logging
      modifies this
      ensures old(shutdown) ==> View() == old(View())
      ensures !old(shutdown) ==> View() == Apply(group, old(View()), Action.Close)
    {
      if shutdown {
        return;
      }
      shutdown := true;
      Enqueue(ShutdownMarker);
      caller := CloseJoin;
    }

    /** itertools.groupby: the run of equal keys that starts at i. */
    method NextGroup(datum: seq<Message>, i: nat) returns (j: nat, values: seq<Event>)
      requires i < |datum|
      ensures i < j <= |datum| && values == Events(datum[i..j])
      ensures forall n | i <= n < j :: Key(group, datum[n].stream) == Key(group, datum[i].stream)
    {
      j, values := i + 1, [ToEvent(datum[i])];
      assert datum[i..i + 1] == [datum[i]] && Events(datum[i..i + 1][1..]) == [];
      while j < |datum| && Key(group, datum[j].stream) == Key(group, datum[i].stream)
        invariant i < j <= |datum| && values == Events(datum[i..j])
        invariant forall n | i <= n < j :: Key(group, datum[n].stream) == Key(group, datum[i].stream)
      {
        values := values + [ToEvent(datum[j])];
        EventsSnoc(datum[i..j], datum[j]);
        SliceSnoc(datum, i, j);
        j := j + 1;
      }
    }

    /** The batch branch of loop: each run of equal keys extends that key's list. */
    method Absorb(datum: seq<Message>)
      requires transport == InHand(Batch(datum))
      modifies this`buffers, this`transport
      ensures View() == Apply(group, old(View()), Action.Absorb)
    {
      var i := 0;
      assert datum[0..] == datum;
      while i < |datum|
        invariant 0 <= i <= |datum|
        invariant AbsorbAll(buffers, group, datum[i..]) == AbsorbAll(old(buffers), group, datum)
      {
        var k := Key(group, datum[i].stream);
        var j, values := NextGroup(datum, i);
        AbsorbRunAt(buffers, group, datum, i, j, k);
        buffers := buffers[k := (if k in buffers then buffers[k] else []) + values];
        i := j;
      }
      transport := Acking;
    }

    /** One answer of the service; after `retries` bad tokens it is not a bad token. */
    method Attempt(known: bool, retries: nat) returns (r: Response)
      ensures known ==> !r.CreateFailed?
      ensures retries == 0 ==> !r.BadToken?
    {
      if * {
        r := PutFailed;
      } else if * {
        var token: string :| true;
        r := if retries == 0 then Accepted(token) else BadToken(token);
      } else if * {
        r := if known then PutFailed else CreateFailed;
      } else {
        var token: string :| true;
        r := Accepted(token);
      }
    }

    /** send_group, one attempt. */
    method SendOnce(k: string, messages: seq<Event>, r: Response)
      requires transport.Sending? && transport.todo != [] && transport.todo[0] == k
      requires k in buffers && buffers[k] == messages
      requires r.CreateFailed? ==> Split(k).1 !in sequences
      modifies this`sequences, this`failed, this`puts, this`transport
      ensures View() == Apply(group, old(View()), SendKey(r))
    {
      var (_, stream) := Split(k);
      var done := transport.(todo := transport.todo[1..]);
      if stream !in sequences {
        if r.CreateFailed? {
          failed := true;
          puts, transport := puts + [Put(k, messages, [], false)], done;
          return;
        }
        sequences := sequences[stream := ""];
      }
      var events := Sort(messages, TimeOf());
      match r
      case BadToken(token) =>
        sequences := sequences[stream := token];
      case PutFailed =>
        failed := true;
        puts, transport := puts + [Put(k, messages, events, false)], done;
      case Accepted(token) =>
        puts, transport := puts + [Put(k, messages, events, true)], done;
        sequences := sequences[stream := token];
      case CreateFailed =>
        assert false;
    }

    /** What the transport thread has done since `start`. */
    ghost predicate Did(start: State, actions: seq<Action>)
      reads this
    {
      Run(group, start, actions, View()) && ByTransport(actions)
    }

    /** send_group, retrying itself on a bad token. */
    method SendGroup(k: string, messages: seq<Event>, retries: nat) returns (ghost actions: seq<Action>)
      requires transport.Sending? && transport.todo != [] && transport.todo[0] == k
      requires k in buffers && buffers[k] == messages
      modifies this`sequences, this`failed, this`puts, this`transport
      ensures Did(old(View()), actions)
      ensures transport == old(transport).(todo := old(transport).todo[1..])
      decreases retries
    {
      ghost var before := View();
      var r := Attempt(Split(k).1 in sequences, retries);
      SendOnce(k, messages, r);
      if r.BadToken? {
        var more := SendGroup(k, messages, retries - 1);
        StepThen(group, before, SendKey(r), more, View());
        actions := [SendKey(r)] + more;
      } else {
        OneStep(group, before, SendKey(r));
        actions := [SendKey(r)];
      }
    }

    /** send, over the buffers in the order the dict yields its keys. */
    method Send(keys: seq<string>, retries: nat) returns (ghost actions: seq<Action>)
      requires transport.Sending? && transport.todo == keys && Enumerates(keys, buffers)
      modifies this`sequences, this`failed, this`puts, this`transport, this`buffers
      ensures Did(old(View()), actions)
      ensures transport == (if old(transport).marker then Acking else Waiting) && buffers == map[]
    {
      ghost var start := View();
      actions := [];
      for i := 0 to |keys|
        invariant transport == Sending(keys[i..], old(transport).marker) && buffers == old(buffers)
        invariant Did(start, actions)
      {
        assert keys[i] in keys;
        actions := SendNext(start, actions, keys, i, retries);
      }
      actions := ForgetBuffers(start, actions);
    }

    /** The end of send: the buffers are let go. */
    method ForgetBuffers(ghost start: State, ghost actions: seq<Action>) returns (ghost more: seq<Action>)
      requires transport.Sending? && transport.todo == [] && Did(start, actions)
      modifies this`transport, this`buffers
      ensures transport == (if old(transport).marker then Acking else Waiting) && buffers == map[]
      ensures Did(start, more)
    {
      ghost var end := View();
      buffers := map[];
      transport := if transport.marker then Acking else Waiting;
      OneStep(group, end, EndSend);
      RunAppend(group, start, actions, end, [EndSend], View());
      more := actions + [EndSend];
    }

    method SendNext(ghost start: State, ghost actions: seq<Action>, keys: seq<string>, i: nat, retries: nat)
      returns (ghost more: seq<Action>)
      requires i < |keys| && keys[i] in buffers
      requires transport.Sending? && transport.todo == keys[i..] && Did(start, actions)
      modifies this`sequences, this`failed, this`puts, this`transport
      ensures transport == old(transport).(todo := keys[i + 1..]) && Did(start, more)
    {
      ghost var mid := View();
      var own := SendGroup(keys[i], buffers[keys[i]], retries);
      RunAppend(group, start, actions, mid, own, View());
      more := actions + own;
    }

    /** queue.task_done */
    method TaskDone()
      requires transport.Acking? || transport == InHand(ShutdownMarker)
      modifies this`unfinished, this`transport
      ensures View() == Apply(group, old(View()), if old(transport).Acking? then Ack else Stop)
    {
      unfinished := unfinished - 1;
      transport := if transport.Acking? then Waiting else Finished;
    }

    /** One turn of Transport.loop: a timeout, or an item taken, handled and marked done. */
    method Turn(keys: seq<string>, retries: nat) returns (ghost actions: seq<Action>)
      requires transport.Waiting? && Enumerates(keys, buffers)
      modifies this
      ensures Did(old(View()), actions)
      ensures transport.Waiting? || transport.Finished?
      ensures queue == (if old(queue) == [] then [] else old(queue[1..]))
    {
      if queue == [] {
        actions := TimedOut(keys, retries);
        return;
      }
      ghost var start := View();
      var datum := queue[0];
      queue := queue[1..];
      transport := InHand(datum);
      ghost var got := View();
      var more := Handle(datum, keys, retries);
      StepThen(group, start, Get, more, View());
      actions := [Get] + more;
    }

    method TimedOut(keys: seq<string>, retries: nat) returns (ghost actions: seq<Action>)
      requires transport.Waiting? && queue == [] && Enumerates(keys, buffers)
      modifies this
      ensures Did(old(View()), actions)
      ensures transport.Waiting? && queue == []
    {
      ghost var start := View();
      transport := Sending(keys, false);
      var more := Send(keys, retries);
      StepThen(group, start, Timeout(keys), more, View());
      actions := [Timeout(keys)] + more;
    }

    method Handle(datum: Item, keys: seq<string>, retries: nat) returns (ghost actions: seq<Action>)
      requires transport == InHand(datum) && Enumerates(keys, buffers)
      modifies this
      ensures Did(old(View()), actions)
      ensures transport.Waiting? || transport.Finished?
      ensures queue == old(queue)
    {
      ghost var start := View();
      match datum
      case FlushMarker =>
        transport := Sending(keys, true);
        var more := Send(keys, retries);
        StepThen(group, start, StartSend(keys), more, View());
        ghost var sent := View();
        TaskDone();
        OneStep(group, sent, Ack);
        actions := [StartSend(keys)] + more;
        RunAppend(group, start, actions, sent, [Ack], View());
        actions := actions + [Ack];
      case ShutdownMarker =>
        TaskDone();
        OneStep(group, start, Stop);
        actions := [Stop];
      case Batch(messages) =>
        Absorb(messages);
        TaskDone();
        TwoSteps(group, start, Action.Absorb, Ack);
        actions := [Action.Absorb, Ack];
    }
  }

  function Events(ms: seq<Message>): seq<Event> {
    if ms == [] then [] else [ToEvent(ms[0])] + Events(ms[1..])
  }

  lemma SliceSnoc<T>(s: seq<T>, i: nat, j: nat)
    requires i <= j < |s|
    ensures s[i..j + 1] == s[i..j] + [s[j]]
  {
  }

  lemma {:induction false} EventsSnoc(ms: seq<Message>, m: Message)
    ensures Events(ms + [m]) == Events(ms) + [ToEvent(m)]
  {
    if ms == [] {
      assert ([] + [m])[1..] == [];
    } else {
      assert (ms + [m])[1..] == ms[1..] + [m];
      EventsSnoc(ms[1..], m);
    }
  }

  /** Extending a key's list by a run of its messages is adding them one by one. */
  lemma {:induction false} AbsorbRun(buffers: map<string, seq<Event>>, group: string, run: seq<Message>,
                                     rest: seq<Message>, k: string)
    requires run != [] && forall n | 0 <= n < |run| :: Key(group, run[n].stream) == k
    ensures AbsorbAll(buffers, group, run + rest) ==
            AbsorbAll(buffers[k := BufferedOn(buffers, k) + Events(run)], group, rest)
    decreases |run|
  {
    var more := AddTo(buffers, k, ToEvent(run[0]));
    assert (run + rest)[0] == run[0] && (run + rest)[1..] == run[1..] + rest;
    assert AbsorbAll(buffers, group, run + rest) == AbsorbAll(more, group, run[1..] + rest);
    if |run| == 1 {
      assert run[1..] + rest == rest && run[1..] == [];
      assert Events(run) == [ToEvent(run[0])] + Events(run[1..]) == [ToEvent(run[0])];
      assert more == buffers[k := BufferedOn(buffers, k) + Events(run)];
    } else {
      AbsorbRun(more, group, run[1..], rest, k);
      assert BufferedOn(more, k) == BufferedOn(buffers, k) + [ToEvent(run[0])];
      assert BufferedOn(more, k) + Events(run[1..]) == BufferedOn(buffers, k) + Events(run);
      assert more[k := BufferedOn(buffers, k) + Events(run)] == buffers[k := BufferedOn(buffers, k) + Events(run)];
    }
  }

  lemma AbsorbRunAt(buffers: map<string, seq<Event>>, group: string, datum: seq<Message>, i: nat, j: nat, k: string)
    requires i < j <= |datum| && forall n | i <= n < j :: Key(group, datum[n].stream) == k
    ensures AbsorbAll(buffers, group, datum[i..]) ==
            AbsorbAll(buffers[k := (if k in buffers then buffers[k] else []) + Events(datum[i..j])], group, datum[j..])
  {
    assert forall n | 0 <= n < j - i :: datum[i..j][n] == datum[i + n];
    AbsorbRun(buffers, group, datum[i..j], datum[j..], k);
    assert datum[i..] == datum[i..j] + datum[j..];
  }

  lemma OneStep(group: string, s: State, a: Action)
    requires Enabled(s, a)
    ensures Run(group, s, [a], Apply(group, s, a))
  {
    var actions := [a];
    assert actions[0] == a && actions[1..] == [];
    assert Run(group, Apply(group, s, a), actions[1..], Apply(group, s, a));
  }

  lemma TwoSteps(group: string, s: State, a: Action, b: Action)
    requires Enabled(s, a) && Enabled(Apply(group, s, a), b)
    ensures Run(group, s, [a, b], Apply(group, Apply(group, s, a), b))
  {
    var actions := [a, b];
    assert actions[0] == a && actions[1..] == [b];
    OneStep(group, Apply(group, s, a), b);
  }
}
