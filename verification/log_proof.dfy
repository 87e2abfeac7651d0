/** What every run of the log shipping pipeline keeps. */
module LogProof {
  import opened LogSpec
  import opened Sequences

  // ----- Accounting lemmas

  lemma {:induction false} OnKeyAppend(a: seq<Message>, b: seq<Message>, group: string, key: string)
    ensures OnKey(a + b, group, key) == OnKey(a, group, key) + OnKey(b, group, key)
  {
    if a == [] {
      assert a + b == b;
    } else {
      assert (a + b)[1..] == a[1..] + b;
      OnKeyAppend(a[1..], b, group, key);
    }
  }

  lemma {:induction false} QueuedAppend(a: seq<Item>, b: seq<Item>, group: string, key: string)
    ensures QueuedOn(a + b, group, key) == QueuedOn(a, group, key) + QueuedOn(b, group, key)
  {
    if a == [] {
      assert a + b == b;
    } else {
      assert (a + b)[1..] == a[1..] + b;
      QueuedAppend(a[1..], b, group, key);
    }
  }

  lemma QueuedOne(queue: seq<Item>, item: Item, group: string, key: string)
    ensures QueuedOn(queue + [item], group, key) == QueuedOn(queue, group, key) + ItemOn(item, group, key)
  {
    QueuedAppend(queue, [item], group, key);
    var one := [item];
    assert one[1..] == [];
    assert QueuedOn(one[1..], group, key) == [];
  }

  lemma AddedOn(buffers: map<string, seq<Event>>, group: string, m: Message, key: string)
    ensures BufferedOn(AddTo(buffers, Key(group, m.stream), ToEvent(m)), key) ==
            BufferedOn(buffers, key) + if Key(group, m.stream) == key then [ToEvent(m)] else []
  {}

  lemma Regrouped(a: seq<Event>, b: seq<Event>, c: seq<Event>)
    ensures (a + b) + c == a + (b + c)
  {}

  /** Grouping a batch appends, for every key, exactly its messages in their order. */
  lemma {:induction false} AbsorbOn(buffers: map<string, seq<Event>>, group: string, ms: seq<Message>, key: string)
    ensures BufferedOn(AbsorbAll(buffers, group, ms), key) == BufferedOn(buffers, key) + OnKey(ms, group, key)
    decreases |ms|
  {
    if ms != [] {
      var m := ms[0];
      var one := if Key(group, m.stream) == key then [ToEvent(m)] else [];
      AddedOn(buffers, group, m, key);
      AbsorbOn(AddTo(buffers, Key(group, m.stream), ToEvent(m)), group, ms[1..], key);
      Regrouped(BufferedOn(buffers, key), one, OnKey(ms[1..], group, key));
    }
  }

  lemma PutOne(puts: seq<Put>, p: Put, key: string)
    ensures PutOn(puts + [p], key) == PutOn(puts, key) + if p.key == key then p.events else []
  {
    assert (puts + [p])[..|puts|] == puts;
  }

  // ----- Invariants

  /** unfinished = queued + in hand */
  ghost predicate Counted(s: State) {
    var inHand := s.transport.InHand? || s.transport.Acking? || (s.transport.Sending? && s.transport.marker);
    s.unfinished == |s.queue| + if inHand then 1 else 0
  }

  ghost predicate TodoIsBuffered(s: State) {
    s.transport.Sending? ==>
      && (forall i, j | 0 <= i < j < |s.transport.todo| :: s.transport.todo[i] != s.transport.todo[j])
      && (forall k | k in s.transport.todo :: k in s.buffers)
  }

  /** Nothing lost, duplicated, reordered or moved to another key. */
  ghost predicate Balanced(group: string, s: State, key: string) {
    PutOn(s.puts, key) + NotYetPut(s, group, key) == OnKey(s.emitted, group, key)
  }

  /** The error is set exactly when some put was given up. */
  ghost predicate Honest(s: State) {
    s.failed <==> exists p | p in s.puts :: !p.taken
  }

  ghost predicate IsKey(group: string, k: string) {
    group + "=" <= k
  }

  ghost predicate KeysOfGroup(group: string, s: State) {
    && (forall k | k in s.buffers :: IsKey(group, k))
    && (forall p | p in s.puts :: IsKey(group, p.key))
  }

  /** No message is anywhere but in the queue. */
  ghost predicate BuffersDone(s: State) {
    s.buffers == map[] && !(s.transport.InHand? && s.transport.item.Batch?)
  }

  /** The flush marker is the last thing queued, is being worked on, or has been. */
  ghost predicate MarkerAhead(s: State) {
    if s.queue != [] then s.queue[|s.queue| - 1] == FlushMarker
    else s.transport == InHand(FlushMarker) || (s.transport.Sending? && s.transport.marker) || BuffersDone(s)
  }

  /** The shutdown marker is the last thing queued, is in hand, or has ended the transport. */
  ghost predicate LastIsShutdown(s: State) {
    if s.transport.Finished? then s.queue == []
    else if s.queue == [] then s.transport == InHand(ShutdownMarker)
    else
      && s.queue[|s.queue| - 1] == ShutdownMarker && ShutdownMarker !in s.queue[..|s.queue| - 1]
      && s.transport != InHand(ShutdownMarker)
  }

  ghost predicate Phases(s: State) {
    && (s.transport.NotStarted? ==> s.shutdown && s.caller.Logging?)
    && (s.transport.NotStarted? ==> s.queue == [] && s.buffers == map[] && s.buf == [])
    && (s.caller.Flushing? || s.caller.FlushJoin? ==> s.buf == [])
    && (s.caller.FlushJoin? ==> MarkerAhead(s))
    && (s.shutdown ==> s.transport.NotStarted? || s.caller.CloseJoin? || s.caller.Closed?)
    && (s.caller.Logging? || s.caller.Flushing? || s.caller.FlushJoin? ==>
          ShutdownMarker !in s.queue && s.transport != InHand(ShutdownMarker) && !s.transport.Finished?)
    && (s.caller.CloseJoin? ==> LastIsShutdown(s))
    && (s.caller.Closed? ==> s.transport.Finished? && s.queue == [])
  }

  ghost predicate Inv(group: string, s: State) {
    && Counted(s) && TodoIsBuffered(s) && Honest(s) && Phases(s) && KeysOfGroup(group, s)
    && forall key :: Balanced(group, s, key)
  }

  lemma InitInv(group: string, s: State)
    requires Init(s)
    ensures Inv(group, s)
  {
  }

  // ----- Every step keeps the balance

  lemma Joined(p: seq<Event>, a: seq<Event>, b: seq<Event>, c: seq<Event>, d: seq<Event>, e: seq<Event>)
    ensures p + (a + (b + (c + (d + e)))) == p + (a + (b + (c + d))) + e
    ensures p + (a + (b + ((c + (d + e)) + []))) == p + (a + (b + (c + d))) + e
    ensures p + (a + (b + ((c + d) + []))) == p + (a + (b + (c + d)))
    ensures p + ((a + b) + ([] + (c + d))) == p + (a + (b + (c + d)))
    ensures (p + a) + ([] + (b + (c + d))) == p + (a + (b + (c + d)))
    ensures p + (a + ([] + ((b + c) + d))) == p + (a + (b + (c + d)))
  {
  }

  /** The five places an event of this key can be in. */
  ghost function Places(group: string, s: State, key: string): (seq<Event>, seq<Event>, seq<Event>, seq<Event>,
                        seq<Event>) {
    (PutOn(s.puts, key), PendingOn(s, key), InHandOn(s.transport, group, key),
     QueuedOn(s.queue, group, key), OnKey(s.buf, group, key))
  }

  lemma EmitBalanced(group: string, s: State, m: Message, key: string)
    requires Enabled(s, Emit(m)) && Balanced(group, s, key) && Phases(s)
    ensures Balanced(group, EmitStep(s, m), key)
  {
    var t := EmitStep(s, m);
    var e := OnKey([m], group, key);
    var (p, a, b, c, d) := Places(group, s, key);
    OnKeyAppend(s.emitted, [m], group, key);
    OnKeyAppend(s.buf, [m], group, key);
    Joined(p, a, b, c, d, e);
    assert t.emitted == s.emitted + [m] && t.puts == s.puts;
    assert PendingOn(t, key) == a && InHandOn(t.transport, group, key) == b;
    if t.queue == s.queue {
      assert t.buf == s.buf + [m];
      assert Places(group, t, key) == (p, a, b, c, d + e);
    } else {
      QueuedOne(s.queue, Batch(s.buf + [m]), group, key);
      assert Places(group, t, key) == (p, a, b, c + (d + e), []);
    }
  }

  lemma FlushBalanced(group: string, s: State, key: string)
    requires Balanced(group, s, key)
    ensures Balanced(group, FlushBuffers(s, true).(caller := Flushing), key)
  {
    var t := FlushBuffers(s, true).(caller := Flushing);
    var (p, a, b, c, d) := Places(group, s, key);
    QueuedOne(s.queue, Batch(s.buf), group, key);
    Joined(p, a, b, c, d, []);
    assert PendingOn(t, key) == a;
    assert Places(group, t, key) == (p, a, b, c + d, []);
  }

  /** Queueing a marker. */
  lemma MarkBalanced(group: string, s: State, item: Item, caller: Caller, shutdown: bool, key: string)
    requires Balanced(group, s, key) && !item.Batch?
    ensures Balanced(group, Enqueue(s, item).(caller := caller, shutdown := shutdown), key)
  {
    var t := Enqueue(s, item).(caller := caller, shutdown := shutdown);
    QueuedOne(s.queue, item, group, key);
    assert PendingOn(t, key) == PendingOn(s, key);
    assert QueuedOn(s.queue, group, key) + [] == QueuedOn(s.queue, group, key);
    assert Places(group, t, key) == Places(group, s, key);
  }

  lemma GetBalanced(group: string, s: State, key: string)
    requires s.transport == Waiting && s.queue != [] && Balanced(group, s, key)
    ensures Balanced(group, s.(transport := InHand(s.queue[0]), queue := s.queue[1..]), key)
  {
    var t := s.(transport := InHand(s.queue[0]), queue := s.queue[1..]);
    var (p, a, b, c, d) := Places(group, s, key);
    var x, rest := ItemOn(s.queue[0], group, key), QueuedOn(s.queue[1..], group, key);
    Joined(p, a, x, rest, d, []);
    assert PendingOn(t, key) == a;
    assert Places(group, t, key) == (p, a, x, rest, d);
    assert b == [] && c == x + rest;
  }

  lemma AbsorbBalanced(group: string, s: State, key: string)
    requires s.transport.InHand? && s.transport.item.Batch? && Balanced(group, s, key)
    ensures var more := AbsorbAll(s.buffers, group, s.transport.item.messages);
            Balanced(group, s.(transport := Acking, buffers := more), key)
  {
    var t := s.(transport := Acking, buffers := AbsorbAll(s.buffers, group, s.transport.item.messages));
    var (p, a, b, c, d) := Places(group, s, key);
    AbsorbOn(s.buffers, group, s.transport.item.messages, key);
    Joined(p, a, b, c, d, []);
    assert PendingOn(t, key) == a + b;
    assert Places(group, t, key) == (p, a + b, [], c, d);
  }

  lemma StartBalanced(group: string, s: State, keys: seq<string>, marker: bool, key: string)
    requires s.transport == Waiting || s.transport == InHand(FlushMarker)
    requires Enumerates(keys, s.buffers) && Balanced(group, s, key)
    ensures Balanced(group, s.(transport := Sending(keys, marker)), key)
  {
    var t := s.(transport := Sending(keys, marker));
    assert key in keys <==> key in s.buffers;
    assert PendingOn(t, key) == PendingOn(s, key);
    assert Places(group, t, key) == Places(group, s, key);
  }

  /** The key at the front is through with its put. */
  lemma PutBalanced(group: string, s: State, t: State, put: Put, key: string)
    requires Balanced(group, s, key) && TodoIsBuffered(s)
    requires s.transport.Sending? && s.transport.todo != [] && put.key == s.transport.todo[0]
    requires put.key in s.buffers && put.events == s.buffers[put.key] && t.puts == s.puts + [put]
    requires t.transport == s.transport.(todo := s.transport.todo[1..])
    requires t.buffers == s.buffers && t.queue == s.queue && t.buf == s.buf && t.emitted == s.emitted
    ensures Balanced(group, t, key)
  {
    var (p, a, b, c, d) := Places(group, s, key);
    Joined(p, a, b, c, d, []);
    PutOne(s.puts, put, key);
    if key == put.key {
      assert key !in t.transport.todo;
      assert Places(group, t, key) == (p + a, [], b, c, d);
    } else {
      assert s.transport.todo == [put.key] + t.transport.todo;
      assert key in s.transport.todo <==> key in t.transport.todo;
      assert p + [] == p;
      assert Places(group, t, key) == (p, a, b, c, d);
    }
  }

  lemma SendBalanced(group: string, s: State, r: Response, key: string)
    requires Enabled(s, SendKey(r)) && Balanced(group, s, key) && TodoIsBuffered(s)
    ensures Balanced(group, SendKeyStep(s, r), key)
  {
    var t := SendKeyStep(s, r);
    if r.BadToken? {
      OtherBalanced(group, s, t, key);
    } else {
      PutBalanced(group, s, t, t.puts[|s.puts|], key);
    }
  }

  lemma EndBalanced(group: string, s: State, key: string)
    requires s.transport.Sending? && s.transport.todo == [] && Balanced(group, s, key)
    ensures Balanced(group, s.(transport := if s.transport.marker then Acking else Waiting, buffers := map[]), key)
  {
    var t := s.(transport := if s.transport.marker then Acking else Waiting, buffers := map[]);
    assert PendingOn(t, key) == [] == PendingOn(s, key);
    assert Places(group, t, key) == Places(group, s, key);
  }

  /** Steps that move no message. */
  lemma OtherBalanced(group: string, s: State, t: State, key: string)
    requires Balanced(group, s, key)
    requires t.puts == s.puts && t.queue == s.queue && t.buf == s.buf
    requires t.emitted == s.emitted && t.buffers == s.buffers
    requires PendingOn(t, key) == PendingOn(s, key)
    requires InHandOn(t.transport, group, key) == InHandOn(s.transport, group, key)
    ensures Balanced(group, t, key)
  {
    assert Places(group, t, key) == Places(group, s, key);
  }

  lemma StepBalanced(group: string, s: State, a: Action, key: string)
    requires Enabled(s, a) && Inv(group, s)
    ensures Balanced(group, Apply(group, s, a), key)
  {
    assert Balanced(group, s, key);
    match a
    case Emit(m) => EmitBalanced(group, s, m, key);
    case FlushPut => FlushBalanced(group, s, key);
    case FlushMark => MarkBalanced(group, s, FlushMarker, FlushJoin, s.shutdown, key);
    case FlushReturn => OtherBalanced(group, s, s.(caller := Logging), key);
    case Close => MarkBalanced(group, s, ShutdownMarker, CloseJoin, true, key);
    case CloseReturn => OtherBalanced(group, s, s.(caller := Closed), key);
    case Get => GetBalanced(group, s, key);
    case Timeout(keys) => StartBalanced(group, s, keys, false, key);
    case Absorb => AbsorbBalanced(group, s, key);
    case StartSend(keys) => StartBalanced(group, s, keys, true, key);
    case SendKey(r) => SendBalanced(group, s, r, key);
    case EndSend => EndBalanced(group, s, key);
    case Ack => OtherBalanced(group, s, s.(transport := Waiting, unfinished := s.unfinished - 1), key);
    case Stop => OtherBalanced(group, s, s.(transport := Finished, unfinished := s.unfinished - 1), key);
  }

  // ----- Every step keeps the rest

  predicate OfCaller(a: Action) {
    a.Emit? || a.FlushPut? || a.FlushMark? || a.FlushReturn? || a.Close? || a.CloseReturn?
  }

  lemma CallerCounted(group: string, s: State, a: Action)
    requires Enabled(s, a) && Inv(group, s) && OfCaller(a)
    ensures Counted(Apply(group, s, a)) && TodoIsBuffered(Apply(group, s, a))
  {
  }

  lemma TransportCounted(group: string, s: State, a: Action)
    requires Enabled(s, a) && Inv(group, s) && !OfCaller(a) && !a.SendKey?
    ensures Counted(Apply(group, s, a)) && TodoIsBuffered(Apply(group, s, a))
  {
  }

  lemma SendCounted(s: State, r: Response)
    requires Enabled(s, SendKey(r)) && Counted(s) && TodoIsBuffered(s)
    ensures Counted(SendKeyStep(s, r)) && TodoIsBuffered(SendKeyStep(s, r))
  {
    var todo := s.transport.todo;
    assert forall i | 0 <= i < |todo| - 1 :: todo[1..][i] == todo[i + 1];
  }

  lemma StepHonest(group: string, s: State, a: Action)
    requires Enabled(s, a) && Inv(group, s)
    ensures Honest(Apply(group, s, a))
  {
    var t := Apply(group, s, a);
    if s.failed {
      var p :| p in s.puts && !p.taken;
      assert p in t.puts;
    } else if t.failed {
      assert t.puts[|t.puts| - 1] in t.puts;
    }
  }

  lemma CallerPhases(group: string, s: State, a: Action)
    requires Enabled(s, a) && Inv(group, s) && OfCaller(a)
    ensures Phases(Apply(group, s, a))
  {
  }

  lemma TransportPhases(group: string, s: State, a: Action)
    requires Enabled(s, a) && Counted(s) && Phases(s) && !OfCaller(a) && !a.SendKey? && !a.Get?
    ensures Phases(Apply(group, s, a))
  {
  }

  lemma SendPhases(s: State, r: Response)
    requires Enabled(s, SendKey(r)) && Phases(s)
    ensures Phases(SendKeyStep(s, r))
  {
  }

  lemma GetPhases(group: string, s: State)
    requires Enabled(s, Get) && Phases(s)
    ensures Phases(Apply(group, s, Get))
  {
    var t := Apply(group, s, Get);
    assert s.queue == [s.queue[0]] + t.queue;
    if t.queue != [] {
      assert t.queue[|t.queue| - 1] == s.queue[|s.queue| - 1];
      assert s.queue[..|s.queue| - 1] == [s.queue[0]] + t.queue[..|t.queue| - 1];
    }
  }

  lemma {:induction false} AbsorbKeys(buffers: map<string, seq<Event>>, group: string, ms: seq<Message>)
    requires forall k | k in buffers :: IsKey(group, k)
    ensures forall k | k in AbsorbAll(buffers, group, ms) :: IsKey(group, k)
    decreases |ms|
  {
    if ms != [] {
      AbsorbKeys(AddTo(buffers, Key(group, ms[0].stream), ToEvent(ms[0])), group, ms[1..]);
    }
  }

  lemma StepKeys(group: string, s: State, a: Action)
    requires Enabled(s, a) && KeysOfGroup(group, s)
    ensures KeysOfGroup(group, Apply(group, s, a))
  {
    if a.Absorb? {
      AbsorbKeys(s.buffers, group, s.transport.item.messages);
    }
  }

  lemma StepInv(group: string, s: State, a: Action)
    requires Enabled(s, a) && Inv(group, s)
    ensures Inv(group, Apply(group, s, a))
  {
    if OfCaller(a) {
      CallerCounted(group, s, a);
      CallerPhases(group, s, a);
    } else if a.SendKey? {
      SendCounted(s, a.response);
      SendPhases(s, a.response);
    } else {
      TransportCounted(group, s, a);
      if a.Get? {
        GetPhases(group, s);
      } else {
        TransportPhases(group, s, a);
      }
    }
    StepHonest(group, s, a);
    StepKeys(group, s, a);
    forall key
      ensures Balanced(group, Apply(group, s, a), key)
    {
      StepBalanced(group, s, a, key);
    }
  }

  lemma {:induction false} RunInv(group: string, s: State, actions: seq<Action>, t: State)
    requires Inv(group, s) && Run(group, s, actions, t)
    ensures Inv(group, t)
    decreases |actions|
  {
    if actions != [] {
      StepInv(group, s, actions[0]);
      RunInv(group, Apply(group, s, actions[0]), actions[1..], t);
    }
  }

  // ----- Delivery, by group and stream

  /** What the service took under this group and stream, in order of the puts. */
  ghost function SentTo(puts: seq<Put>, group: string, stream: string): seq<Event> {
    if puts == [] then []
    else
      var last := puts[|puts| - 1];
      SentTo(puts[..|puts| - 1], group, stream)
      + (if last.taken && Split(last.key) == (group, stream) then last.events else [])
  }

  ghost function OnStream(ms: seq<Message>, stream: string): seq<Event> {
    if ms == [] then []
    else (if ms[0].stream == stream then [ToEvent(ms[0])] else []) + OnStream(ms[1..], stream)
  }

  /** What a stream should get reports the messages logged to it, one by one. */
  lemma {:induction false} StreamReports(ms: seq<Message>, stream: string)
    ensures ReportsAll(OnStream(ms, stream), Logged(ms, stream))
  {
    if ms != [] {
      StreamReports(ms[1..], stream);
      EventReports(ms[0]);
      var own := (m: Message) => m.stream == stream;
      assert ms == [ms[0]] + ms[1..];
      SelectAppend([ms[0]], ms[1..], own);
      SelectUniform([ms[0]], own);
    }
  }

  lemma {:induction false} StreamIsKey(ms: seq<Message>, group: string, stream: string)
    ensures OnKey(ms, group, Key(group, stream)) == OnStream(ms, stream)
  {
    if ms != [] {
      StreamIsKey(ms[1..], group, stream);
      if Key(group, ms[0].stream) == Key(group, stream) {
        KeyIsInjective(group, ms[0].stream, stream);
      }
    }
  }

  lemma {:induction false} SplitRejoins(k: string)
    requires '=' in k
    ensures k == Key(Split(k).0, Split(k).1)
  {
    if k[0] != '=' {
      assert k == [k[0]] + k[1..];
      SplitRejoins(k[1..]);
    } else {
      assert k == [] + "=" + k[1..];
    }
  }

  /** Where the records of a stream go: its key, split again. */
  function Destination(group: string, stream: string): (string, string) {
    Split(Key(group, stream))
  }

  lemma {:induction false} SentIsPut(puts: seq<Put>, group: string, stream: string)
    requires forall p | p in puts :: p.taken && IsKey(group, p.key)
    ensures SentTo(puts, Destination(group, stream).0, Destination(group, stream).1) == PutOn(puts, Key(group, stream))
  {
    if puts != [] {
      var last := puts[|puts| - 1];
      assert last in puts && forall p | p in puts[..|puts| - 1] :: p in puts;
      SentIsPut(puts[..|puts| - 1], group, stream);
      assert last.key[|group|] == '=' && Key(group, stream)[|group|] == '=';
      SplitRejoins(last.key);
      SplitRejoins(Key(group, stream));
    }
  }

  /** In every reachable state without a transport error, and for every group name, what was
      logged to a stream has arrived at its destination, up to what is still on its way: nothing
      is lost, repeated, reordered or moved elsewhere. */
  lemma RecordsArrive(group: string, s: State, actions: seq<Action>, t: State, stream: string)
    requires Init(s) && Run(group, s, actions, t) && !t.failed
    ensures SentTo(t.puts, Destination(group, stream).0, Destination(group, stream).1)
              + NotYetPut(t, group, Key(group, stream)) == OnStream(t.emitted, stream)
    ensures ReportsAll(OnStream(t.emitted, stream), Logged(t.emitted, stream))
  {
    StreamReports(t.emitted, stream);
    InitInv(group, s);
    RunInv(group, s, actions, t);
    SentIsPut(t.puts, group, stream);
    StreamIsKey(t.emitted, group, stream);
    assert Balanced(group, t, Key(group, stream));
  }

  /** Without a separator in the group name, the destination is the group and stream themselves. */
  lemma Conservation(group: string, s: State, actions: seq<Action>, t: State, stream: string)
    requires Init(s) && Run(group, s, actions, t) && !t.failed && '=' !in group
    ensures SentTo(t.puts, group, stream) + NotYetPut(t, group, Key(group, stream)) == OnStream(t.emitted, stream)
    ensures ReportsAll(SentTo(t.puts, group, stream) + NotYetPut(t, group, Key(group, stream)),
                       Logged(t.emitted, stream))
  {
    RecordsArrive(group, s, actions, t, stream);
    KeyRoundTrip(group, stream);
  }

  lemma {:induction false} NothingSplitsTo(puts: seq<Put>, group: string, stream: string)
    requires '=' in group
    ensures SentTo(puts, group, stream) == []
  {
    if puts != [] {
      NothingSplitsTo(puts[..|puts| - 1], group, stream);
      SplitGroupIsPlain(puts[|puts| - 1].key);
    }
  }

  lemma {:induction false} SplitIsFirst(group: string, stream: string)
    requires '=' in group
    ensures Split(Key(group, stream)) == (Split(group).0, Split(group).1 + "=" + stream)
  {
    var k := Key(group, stream);
    if group[0] != '=' {
      assert k[1..] == Key(group[1..], stream);
      SplitIsFirst(group[1..], stream);
    } else {
      assert k[1..] == group[1..] + "=" + stream;
    }
  }

  /** With a separator in the group name, a run's records arrive under the part before the first
      separator, in a stream named after the rest, and never under the group. */
  lemma SeparatorInGroupMisroutes(group: string, s: State, actions: seq<Action>, t: State, stream: string)
    requires Init(s) && Run(group, s, actions, t) && !t.failed && '=' in group
    ensures SentTo(t.puts, group, stream) == []
    ensures SentTo(t.puts, Split(group).0, Split(group).1 + "=" + stream)
              + NotYetPut(t, group, Key(group, stream)) == OnStream(t.emitted, stream)
    ensures ReportsAll(OnStream(t.emitted, stream), Logged(t.emitted, stream))
  {
    NothingSplitsTo(t.puts, group, stream);
    SplitIsFirst(group, stream);
    RecordsArrive(group, s, actions, t, stream);
  }

  /** When the join inside flush can return, no message is left behind. */
  lemma FlushLeavesNothing(group: string, s: State, key: string)
    requires Inv(group, s) && Enabled(s, FlushReturn)
    ensures NotYetPut(s, group, key) == []
  {
    assert s.queue == [] && BuffersDone(s);
  }

  /** When flush returns with no error, every record emitted before is in exactly one
      successful put of its stream, in order. */
  lemma FlushDelivers(group: string, s: State, actions: seq<Action>, t: State, stream: string)
    requires Init(s) && Run(group, s, actions, t) && '=' !in group
    requires Enabled(t, FlushReturn) && !t.failed
    ensures SentTo(t.puts, group, stream) == OnStream(t.emitted, stream)
    ensures ReportsAll(SentTo(t.puts, group, stream), Logged(t.emitted, stream))
  {
    StreamReports(t.emitted, stream);
    Conservation(group, s, actions, t, stream);
    InitInv(group, s);
    RunInv(group, s, actions, t);
    FlushLeavesNothing(group, t, Key(group, stream));
  }

  // ----- Order within the stream

  /** The events of the successful calls themselves, in the order they were sent. */
  ghost function ArrivedAt(puts: seq<Put>, group: string, stream: string): seq<Event> {
    if puts == [] then []
    else
      var last := puts[|puts| - 1];
      ArrivedAt(puts[..|puts| - 1], group, stream)
      + (if last.taken && Split(last.key) == (group, stream) then last.sent else [])
  }

  ghost predicate SentInPutOrder(puts: seq<Put>) {
    forall p | p in puts :: p.taken ==> p.sent == PutOrder(p.events)
  }

  lemma StepSorts(group: string, s: State, a: Action)
    requires Enabled(s, a) && SentInPutOrder(s.puts)
    ensures SentInPutOrder(Apply(group, s, a).puts)
  {
    if a.SendKey? {
      SendSorts(s, a.response);
    } else {
      assert Apply(group, s, a).puts == s.puts;
    }
  }

  lemma SendSorts(s: State, r: Response)
    requires Enabled(s, SendKey(r)) && SentInPutOrder(s.puts)
    ensures SentInPutOrder(SendKeyStep(s, r).puts)
  {
    var t := SendKeyStep(s, r);
    if !r.BadToken? {
      assert t.puts == s.puts + [t.puts[|s.puts|]];
    }
  }

  lemma {:induction false} RunSorts(group: string, s: State, actions: seq<Action>, t: State)
    requires Run(group, s, actions, t) && SentInPutOrder(s.puts)
    ensures SentInPutOrder(t.puts)
    decreases |actions|
  {
    if actions != [] {
      StepSorts(group, s, actions[0]);
      RunSorts(group, Apply(group, s, actions[0]), actions[1..], t);
    }
  }

  /** a holds what b does, and what either has of one moment comes in the same order. */
  ghost predicate SameMoments(a: seq<Event>, b: seq<Event>, moment: int) {
    && multiset(a) == multiset(b)
    && Select(a, HasKey(TimeOf(), moment)) == Select(b, HasKey(TimeOf(), moment))
  }

  lemma SameMomentsAppend(a: seq<Event>, b: seq<Event>, c: seq<Event>, d: seq<Event>, moment: int)
    requires SameMoments(a, b, moment) && SameMoments(c, d, moment)
    ensures SameMoments(a + c, b + d, moment)
  {
    SelectAppend(a, c, HasKey(TimeOf(), moment));
    SelectAppend(b, d, HasKey(TimeOf(), moment));
  }

  lemma {:induction false} ArrivedByMoment(puts: seq<Put>, group: string, stream: string, moment: int)
    requires SentInPutOrder(puts)
    ensures SameMoments(ArrivedAt(puts, group, stream), SentTo(puts, group, stream), moment)
  {
    if puts != [] {
      var front, last := puts[..|puts| - 1], puts[|puts| - 1];
      assert last in puts && forall p | p in front :: p in puts;
      ArrivedByMoment(front, group, stream, moment);
      var own := last.taken && Split(last.key) == (group, stream);
      PutKeepsMoments(last.events, moment);
      SameMomentsAppend(ArrivedAt(front, group, stream), SentTo(front, group, stream),
                        if own then last.sent else [], if own then last.events else [], moment);
    }
  }

  /** After a flush without an error the service has been sent exactly the records logged to
      the stream, and those of one moment in the order they were logged. */
  lemma FlushKeepsMoments(group: string, s: State, actions: seq<Action>, t: State, stream: string, moment: int)
    requires Init(s) && Run(group, s, actions, t) && '=' !in group
    requires Enabled(t, FlushReturn) && !t.failed
    ensures SameMoments(ArrivedAt(t.puts, group, stream), OnStream(t.emitted, stream), moment)
    ensures ReportsAll(OnStream(t.emitted, stream), Logged(t.emitted, stream))
  {
    FlushDelivers(group, s, actions, t, stream);
    RunSorts(group, s, actions, t);
    ArrivedByMoment(t.puts, group, stream, moment);
  }

  // ----- Longer runs

  lemma {:induction false} RunAppend(group: string, s: State, a: seq<Action>, m: State, b: seq<Action>, t: State)
    requires Run(group, s, a, m) && Run(group, m, b, t)
    ensures Run(group, s, a + b, t)
    decreases |a|
  {
    if a == [] {
      assert a + b == b;
    } else {
      assert (a + b)[0] == a[0] && (a + b)[1..] == a[1..] + b;
      RunAppend(group, Apply(group, s, a[0]), a[1..], m, b, t);
    }
  }

  /** A put is never taken back. */
  lemma StepPuts(group: string, s: State, a: Action, key: string)
    requires Enabled(s, a)
    ensures |PutOn(s.puts, key)| <= |PutOn(Apply(group, s, a).puts, key)|
    ensures !a.Emit? ==> Apply(group, s, a).emitted == s.emitted
  {
    var t := Apply(group, s, a);
    if t.puts != s.puts {
      assert t.puts == s.puts + [t.puts[|t.puts| - 1]];
      PutOne(s.puts, t.puts[|t.puts| - 1], key);
    }
  }

  lemma {:induction false} QuietRun(group: string, s: State, actions: seq<Action>, t: State, key: string)
    requires Inv(group, s) && Run(group, s, actions, t)
    requires forall a | a in actions :: !a.Emit?
    requires NotYetPut(s, group, key) == []
    ensures NotYetPut(t, group, key) == []
    decreases |actions|
  {
    if actions != [] {
      var m := Apply(group, s, actions[0]);
      StepInv(group, s, actions[0]);
      StepPuts(group, s, actions[0], key);
      assert Balanced(group, s, key) && Balanced(group, m, key);
      QuietRun(group, m, actions[1..], t, key);
    }
  }

  lemma NothingLeftAfter(group: string, s: State, before: seq<Action>, m: State, after: seq<Action>, t: State,
                         stream: string)
    requires Init(s) && Run(group, s, before, m) && Enabled(m, FlushReturn) && Run(group, m, after, t)
    requires forall a | a in after :: !a.Emit?
    requires '=' !in group && !t.failed
    ensures SentTo(t.puts, group, stream) == OnStream(t.emitted, stream)
  {
    InitInv(group, s);
    RunInv(group, s, before, m);
    FlushLeavesNothing(group, m, Key(group, stream));
    QuietRun(group, m, after, t, Key(group, stream));
    RunAppend(group, s, before, m, after, t);
    Conservation(group, s, before + after, t, stream);
  }

  /** Flush then close, with nothing logged in between, loses nothing: this is how a policy
      run leaves its log. */
  lemma FlushThenCloseDelivers(group: string, s: State, before: seq<Action>, m: State, after: seq<Action>, t: State,
                               stream: string)
    requires Init(s) && Run(group, s, before, m) && Enabled(m, FlushReturn) && Run(group, m, after, t)
    requires forall a | a in after :: !a.Emit?
    requires '=' !in group && !t.failed
    ensures SentTo(t.puts, group, stream) == OnStream(t.emitted, stream)
    ensures ReportsAll(SentTo(t.puts, group, stream), Logged(t.emitted, stream))
  {
    NothingLeftAfter(group, s, before, m, after, t, stream);
    StreamReports(t.emitted, stream);
  }

  // ----- When records are queued, and the tokens of puts

  /** A record is queued with those buffered before it when it is the tenth, or comes forty
      seconds or more after the last one; otherwise it waits in the buffer. */
  lemma EmitQueues(group: string, s: State, m: Message)
    requires Enabled(s, Emit(m))
    ensures var t := Apply(group, s, Emit(m));
            var due := |s.buf| + 1 >= 10 || m.created - s.lastSeen >= 40.0;
            && t.queue == (if due then s.queue + [Batch(s.buf + [m])] else s.queue)
            && t.buf == (if due then [] else s.buf + [m])
            && t.lastSeen == m.created && t.emitted == s.emitted + [m]
            && t.unfinished == s.unfinished + (if due then 1 else 0)
  {}

  /** After an answer that names a token, that is the token of the stream the key belongs to;
      the other streams keep theirs. */
  lemma TokensFollow(group: string, s: State, r: Response, stream: string, other: string)
    requires Enabled(s, SendKey(r)) && (r.Accepted? || r.BadToken?)
    requires '=' !in group && s.transport.todo[0] == Key(group, stream)
    ensures var t := Apply(group, s, SendKey(r));
            && stream in t.sequences && t.sequences[stream] == r.next
            && (other != stream ==>
                  (other in t.sequences <==> other in s.sequences)
                  && (other in s.sequences ==> t.sequences[other] == s.sequences[other]))
  {
    KeyRoundTrip(group, stream);
  }

  // ----- Runs of the transport alone

  ghost predicate ByTransport(actions: seq<Action>) {
    forall a | a in actions :: !OfCaller(a)
  }

  /** One step in front of a run. */
  lemma StepThen(group: string, s: State, a: Action, rest: seq<Action>, t: State)
    requires Enabled(s, a) && !OfCaller(a) && ByTransport(rest)
    requires Run(group, Apply(group, s, a), rest, t)
    ensures Run(group, s, [a] + rest, t) && ByTransport([a] + rest)
  {
    var actions := [a] + rest;
    assert actions[0] == a && actions[1..] == rest;
  }
}
