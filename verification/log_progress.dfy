/** The joins of flush and close return (c7n/log.py): a waiting thread cannot be kept waiting
    by anything but bad sequence tokens. */
module LogProgress {
  import opened LogProof
  import opened LogSpec

  // ----- How much the transport has left to do

  function Texts(item: Item): nat {
    if item.Batch? then |item.messages| else 0
  }

  function QueueFuel(queue: seq<Item>): nat {
    if queue == [] then 0 else 4 + Texts(queue[0]) + QueueFuel(queue[1..])
  }

  /** A bound on the steps that empty the queue, each message being a key to send at worst. */
  function Fuel(s: State): nat {
    QueueFuel(s.queue) +
    match s.transport
    case NotStarted => 0
    case Waiting => |s.buffers|
    case InHand(item) => 3 + Texts(item) + |s.buffers|
    case Sending(todo, _) => 2 + |todo|
    case Acking => 1 + |s.buffers|
    case Finished => 0
  }

  predicate IsBadToken(a: Action) {
    a.SendKey? && a.response.BadToken?
  }

  function BadTokens(actions: seq<Action>): nat {
    if actions == [] then 0 else (if IsBadToken(actions[0]) then 1 else 0) + BadTokens(actions[1..])
  }

  lemma {:induction false} AbsorbAddsFew(buffers: map<string, seq<Event>>, group: string, ms: seq<Message>)
    ensures |AbsorbAll(buffers, group, ms)| <= |buffers| + |ms|
    decreases |ms|
  {
    if ms != [] {
      var next := AddTo(buffers, Key(group, ms[0].stream), ToEvent(ms[0]));
      assert next.Keys == buffers.Keys + {Key(group, ms[0].stream)};
      assert |next| == |next.Keys| && |buffers| == |buffers.Keys|;
      AbsorbAddsFew(next, group, ms[1..]);
    }
  }

  lemma {:induction false} EnumerationIsShort(keys: seq<string>, names: set<string>)
    requires forall i, j | 0 <= i < j < |keys| :: keys[i] != keys[j]
    requires forall k | k in keys :: k in names
    ensures |keys| <= |names|
  {
    if keys != [] {
      var k, rest := keys[0], keys[1..];
      assert k in names;
      forall x | x in rest
        ensures x in names - {k}
      {
        assert x in keys;
      }
      EnumerationIsShort(rest, names - {k});
    }
  }

  /** While something is unfinished, every step of the transport but a bad token burns fuel. */
  lemma StepBurns(group: string, s: State, a: Action)
    requires Inv(group, s) && Enabled(s, a) && !OfCaller(a) && s.unfinished > 0
    ensures Fuel(Apply(group, s, a)) + (if IsBadToken(a) then 0 else 1) <= Fuel(s)
  {
    match a
    case Absorb => AbsorbAddsFew(s.buffers, group, s.transport.item.messages);
    case StartSend(keys) =>
      EnumerationIsShort(keys, s.buffers.Keys);
      assert |s.buffers| == |s.buffers.Keys|;
    case SendKey(r) => SendBurns(s, r);
    case _ =>
  }

  lemma SendBurns(s: State, r: Response)
    requires Enabled(s, SendKey(r))
    ensures Fuel(SendKeyStep(s, r)) + (if r.BadToken? then 0 else 1) == Fuel(s)
  {}

  /** Such a step keeps the thread waiting, with less left to do. */
  lemma StillJoining(group: string, s: State, a: Action)
    requires Inv(group, s) && Joining(s) && Enabled(s, a) && !OfCaller(a) && s.unfinished > 0
    ensures Inv(group, Apply(group, s, a)) && Joining(Apply(group, s, a))
    ensures Fuel(Apply(group, s, a)) + (if IsBadToken(a) then 0 else 1) <= Fuel(s)
  {
    StepInv(group, s, a);
    StepBurns(group, s, a);
  }

  /** While something is unfinished, the transport has a step to take, whatever the service says. */
  lemma TransportCanMove(group: string, s: State) returns (a: Action)
    requires Inv(group, s) && Joining(s) && s.unfinished > 0
    ensures Enabled(s, a) && !OfCaller(a) && !IsBadToken(a)
  {
    match s.transport
    case Waiting => a := Get;
    case InHand(item) =>
      match item {
        case Batch(_) => a := Absorb;
        case FlushMarker =>
          var keys := SomeOrder(s.buffers);
          a := StartSend(keys);
        case ShutdownMarker => a := Stop;
      }
    case Sending(todo, _) => a := if todo == [] then EndSend else SendKey(PutFailed);
    case Acking => a := Ack;
    case _ =>
      assert false;
  }

  lemma SomeOrder(buffers: map<string, seq<Event>>) returns (keys: seq<string>)
    ensures Enumerates(keys, buffers)
  {
    keys := [];
    var left := buffers.Keys;
    while left != {}
      invariant left <= buffers.Keys
      invariant forall i, j | 0 <= i < j < |keys| :: keys[i] != keys[j]
      invariant forall k :: k in keys <==> k in buffers.Keys - left
    {
      var k :| k in left;
      assert k !in keys;
      keys := keys + [k];
      left := left - {k};
    }
  }

  // ----- Waiting in a join

  ghost predicate Joining(s: State) {
    s.caller.FlushJoin? || s.caller.CloseJoin?
  }

  /** The join is over, and with close the transport thread too. */
  ghost predicate JoinOver(s: State) {
    s.unfinished == 0 && (Enabled(s, FlushReturn) || Enabled(s, CloseReturn))
  }

  lemma DoneIsOver(group: string, s: State)
    requires Inv(group, s) && Joining(s) && s.unfinished == 0
    ensures JoinOver(s)
  {}

  /** At some point of the run the join is over. */
  ghost predicate ReturnsDuring(group: string, s: State, actions: seq<Action>)
    decreases |actions|
  {
    JoinOver(s) ||
    (actions != [] && Enabled(s, actions[0]) && ReturnsDuring(group, Apply(group, s, actions[0]), actions[1..]))
  }

  /** Every run of the transport that is long enough, not counting bad tokens, ends the join,
      whatever the service answers and whatever order the keys are sent in. */
  lemma {:induction false} EveryRunReturns(group: string, s: State, actions: seq<Action>, t: State)
    requires Inv(group, s) && Joining(s) && Run(group, s, actions, t) && ByTransport(actions)
    requires |actions| >= Fuel(s) + BadTokens(actions)
    ensures ReturnsDuring(group, s, actions)
    decreases |actions|
  {
    if s.unfinished == 0 {
      DoneIsOver(group, s);
    } else if actions == [] {
      var a := TransportCanMove(group, s);
      StepBurns(group, s, a);
    } else {
      var a := actions[0];
      assert a in actions && forall b | b in actions[1..] :: b in actions;
      StillJoining(group, s, a);
      EveryRunReturns(group, Apply(group, s, a), actions[1..], t);
    }
  }

  /** And there is such a run from every state of a waiting join: the transport is never stuck. */
  lemma {:induction false} JoinCanReturn(group: string, s: State) returns (actions: seq<Action>, t: State)
    requires Inv(group, s) && Joining(s)
    ensures ByTransport(actions) && Run(group, s, actions, t)
    ensures t.caller == s.caller && JoinOver(t)
    decreases Fuel(s)
  {
    if s.unfinished == 0 {
      DoneIsOver(group, s);
      actions, t := [], s;
    } else {
      var a := TransportCanMove(group, s);
      StillJoining(group, s, a);
      var rest, u := JoinCanReturn(group, Apply(group, s, a));
      StepThen(group, s, a, rest, u);
      actions, t := [a] + rest, u;
    }
  }
}
