/** The log shipping pipeline (c7n/log.py) as a transition system of two threads: the
    logging thread, which buffers and queues, and the transport thread, which groups by
    stream and puts to the service. Every interleaving of their steps is a run. */
module LogSpec {
  import opened Sequences

  // ----- Messages, keys, events

  /** A formatted record; `created` is in seconds. */
  datatype Message = Message(created: real, text: string, stream: string)

  datatype Event = Event(timestamp: int, text: string)

  /** A number cut off at its decimal point, towards zero. */
  function Truncated(x: real): int {
    if x >= 0.0 then x.Floor else -((-x).Floor)
  }

  function ToEvent(m: Message): Event {
    Event(Truncated(m.created * 1000.0), m.text)
  }

  /** The event has the message's text, and its time in whole milliseconds. */
  ghost predicate Reports(e: Event, m: Message) {
    && e.text == m.text
    && (if m.created >= 0.0 then e.timestamp as real <= 1000.0 * m.created < e.timestamp as real + 1.0
        else e.timestamp as real - 1.0 < 1000.0 * m.created <= e.timestamp as real)
  }

  /** One event for each message, in order. */
  ghost predicate ReportsAll(events: seq<Event>, ms: seq<Message>) {
    |events| == |ms| && forall i | 0 <= i < |ms| :: Reports(events[i], ms[i])
  }

  lemma EventReports(m: Message)
    ensures Reports(ToEvent(m), m)
  {
    var x := m.created * 1000.0;
    if m.created >= 0.0 {
      assert x >= 0.0;
    } else {
      assert x < 0.0;
    }
  }

  /** The messages logged to a stream. */
  function Logged(ms: seq<Message>, stream: string): seq<Message> {
    Select(ms, (m: Message) => m.stream == stream)
  }

  /** The buffer key of a stream. */
  function Key(group: string, stream: string): string {
    group + "=" + stream
  }

  /** A key taken apart at its first separator. */
  function Split(k: string): (string, string) {
    if k == [] then ([], [])
    else if k[0] == '=' then ([], k[1..])
    else var (g, s) := Split(k[1..]); ([k[0]] + g, s)
  }

  lemma {:induction false} SplitAtSeparator(group: string, stream: string)
    requires '=' !in group
    ensures Split(Key(group, stream)) == (group, stream)
  {
    if group == [] {
      assert Key(group, stream) == "=" + stream;
    } else {
      assert Key(group, stream)[1..] == Key(group[1..], stream);
      SplitAtSeparator(group[1..], stream);
      assert [group[0]] + group[1..] == group;
    }
  }

  lemma {:induction false} SplitGroupIsPlain(k: string)
    ensures '=' !in Split(k).0
  {
    if k != [] && k[0] != '=' {
      SplitGroupIsPlain(k[1..]);
    }
  }

  /** A message comes back under its own group and stream exactly when the group has no '='. */
  lemma KeyRoundTrip(group: string, stream: string)
    ensures Split(Key(group, stream)) == (group, stream) <==> '=' !in group
  {
    if '=' !in group {
      SplitAtSeparator(group, stream);
    }
    SplitGroupIsPlain(Key(group, stream));
  }

  lemma KeyIsInjective(group: string, a: string, b: string)
    requires Key(group, a) == Key(group, b)
    ensures a == b
  {
    var n := |group| + 1;
    assert Key(group, a)[n..] == a && Key(group, b)[n..] == b;
  }

  // ----- The order of one put

  function TimeOf(): Event -> int {
    (e: Event) => e.timestamp
  }

  /** What one put sends, for the events as they were buffered. */
  function PutOrder(events: seq<Event>): seq<Event> {
    Sort(events, TimeOf())
  }

  /** A put sends the buffered messages in time order, and those of one moment in the order
      they were buffered. */
  lemma PutKeepsMoments(events: seq<Event>, moment: int)
    ensures InOrder(PutOrder(events), TimeOf()) && multiset(PutOrder(events)) == multiset(events)
    ensures Select(PutOrder(events), HasKey(TimeOf(), moment)) == Select(events, HasKey(TimeOf(), moment))
  {
    SortInOrder(events, TimeOf());
    SortIsStable(events, TimeOf(), moment);
  }

  // ----- The pipeline

  datatype Item = Batch(messages: seq<Message>) | FlushMarker | ShutdownMarker

  /** One completed send_group: the events as buffered, those in the last call made, and
      whether the service took them. */
  datatype Put = Put(key: string, events: seq<Event>, sent: seq<Event>, taken: bool)

  /** What the service answers to one attempt. */
  datatype Response =
    | CreateFailed           // create_log_stream failed for good
    | Accepted(next: string)
    | BadToken(next: string) // InvalidSequenceToken or DataAlreadyAccepted, naming the token to use
    | PutFailed

  /** Where the logging thread is. */
  datatype Caller = Logging | Flushing | FlushJoin | CloseJoin | Closed

  /** Where the transport thread is; `InHand` items have been taken off the queue and not
      yet marked done. */
  datatype Transport =
    | NotStarted
    | Waiting
    | InHand(item: Item)
    | Sending(todo: seq<string>, marker: bool)
    | Acking
    | Finished

  datatype State = State(
    caller: Caller, shutdown: bool, lastSeen: real, buf: seq<Message>,
    queue: seq<Item>, unfinished: int,
    transport: Transport, buffers: map<string, seq<Event>>, sequences: map<string, string>, failed: bool,
    puts: seq<Put>, emitted: seq<Message>)

  const BATCH_INTERVAL := 40.0
  const BATCH_MIN_BUFFER := 10

  datatype Action =
    // logging thread
    | Emit(message: Message)
    | FlushPut
    | FlushMark
    | FlushReturn
    | Close
    | CloseReturn
    // transport thread
    | Get
    | Timeout(keys: seq<string>)
    | Absorb
    | StartSend(keys: seq<string>)
    | SendKey(response: Response)
    | EndSend
    | Ack
    | Stop

  /** A handler that has been built and has not logged yet. */
  ghost predicate Init(s: State) {
    && s.caller == Logging && s.shutdown && s.buf == [] && s.queue == [] && s.unfinished == 0
    && s.transport == NotStarted && s.buffers == map[] && s.sequences == map[] && !s.failed
    && s.puts == [] && s.emitted == []
  }

  /** queue.put */
  function Enqueue(s: State, item: Item): State {
    s.(queue := s.queue + [item], unfinished := s.unfinished + 1)
  }

  function FlushBuffers(s: State, force: bool): State {
    if !force && |s.buf| < BATCH_MIN_BUFFER then s
    else Enqueue(s, Batch(s.buf)).(buf := [])
  }

  /** emit of a record that is accepted: no transport error so far. */
  function EmitStep(s: State, m: Message): State {
    var started := if s.transport == NotStarted then s.(shutdown := false, transport := Waiting) else s;
    var buffered := started.(buf := started.buf + [m], emitted := started.emitted + [m]);
    FlushBuffers(buffered, m.created - s.lastSeen >= BATCH_INTERVAL).(lastSeen := m.created)
  }

  /** Group one drained batch into the per-key buffers. */
  function AddTo(buffers: map<string, seq<Event>>, key: string, e: Event): map<string, seq<Event>> {
    buffers[key := (if key in buffers then buffers[key] else []) + [e]]
  }

  function AbsorbAll(buffers: map<string, seq<Event>>, group: string, ms: seq<Message>): map<string, seq<Event>>
    decreases |ms|
  {
    if ms == [] then buffers
    else AbsorbAll(AddTo(buffers, Key(group, ms[0].stream), ToEvent(ms[0])), group, ms[1..])
  }

  /** Some order of the keys of the buffers, each once. */
  ghost predicate Enumerates(keys: seq<string>, buffers: map<string, seq<Event>>) {
    && (forall i, j | 0 <= i < j < |keys| :: keys[i] != keys[j])
    && (forall k :: k in keys <==> k in buffers)
  }

  ghost predicate Enabled(s: State, a: Action) {
    match a
    case Emit(_) => s.caller == Logging && !s.failed
    case FlushPut => s.caller == Logging && !s.shutdown
    case FlushMark => s.caller == Flushing
    case FlushReturn => s.caller == FlushJoin && s.unfinished == 0
    case Close => s.caller == Logging && !s.shutdown
    case CloseReturn => s.caller == CloseJoin && s.unfinished == 0 && s.transport == Finished
    case Get => s.transport == Waiting && s.queue != []
    case Timeout(keys) => s.transport == Waiting && s.queue == [] && Enumerates(keys, s.buffers)
    case Absorb => s.transport.InHand? && s.transport.item.Batch?
    case StartSend(keys) => s.transport == InHand(FlushMarker) && Enumerates(keys, s.buffers)
    case SendKey(r) =>
      && s.transport.Sending? && s.transport.todo != [] && s.transport.todo[0] in s.buffers
      && (r.CreateFailed? ==> Split(s.transport.todo[0]).1 !in s.sequences)
    case EndSend => s.transport.Sending? && s.transport.todo == []
    case Ack => s.transport == Acking
    case Stop => s.transport == InHand(ShutdownMarker)
  }

  /** send_group for the next key, one attempt. A missing token is the empty string. */
  function SendKeyStep(s: State, r: Response): State
    requires s.transport.Sending? && s.transport.todo != [] && s.transport.todo[0] in s.buffers
  {
    var k := s.transport.todo[0];
    var stream := Split(k).1;
    var created := if stream in s.sequences then s.sequences else s.sequences[stream := ""];
    var next := s.transport.(todo := s.transport.todo[1..]);
    var events := PutOrder(s.buffers[k]);
    match r
    case CreateFailed => s.(transport := next, failed := true, puts := s.puts + [Put(k, s.buffers[k], [], false)])
    case Accepted(token) =>
      var put := Put(k, s.buffers[k], events, true);
      s.(transport := next, sequences := created[stream := token], puts := s.puts + [put])
    case BadToken(token) => s.(sequences := created[stream := token])
    case PutFailed =>
      var put := Put(k, s.buffers[k], events, false);
      s.(transport := next, sequences := created, failed := true, puts := s.puts + [put])
  }

  function Apply(group: string, s: State, a: Action): State
    requires Enabled(s, a)
  {
    match a
    case Emit(m) => EmitStep(s, m)
    case FlushPut => FlushBuffers(s, true).(caller := Flushing)
    case FlushMark => Enqueue(s, FlushMarker).(caller := FlushJoin)
    case FlushReturn => s.(caller := Logging)
    case Close => Enqueue(s, ShutdownMarker).(shutdown := true, caller := CloseJoin)
    case CloseReturn => s.(caller := Closed)
    case Get => s.(transport := InHand(s.queue[0]), queue := s.queue[1..])
    case Timeout(keys) => s.(transport := Sending(keys, false))
    case Absorb => s.(transport := Acking, buffers := AbsorbAll(s.buffers, group, s.transport.item.messages))
    case StartSend(keys) => s.(transport := Sending(keys, true))
    case SendKey(r) => SendKeyStep(s, r)
    case EndSend => s.(transport := if s.transport.marker then Acking else Waiting, buffers := map[])
    case Ack => s.(transport := Waiting, unfinished := s.unfinished - 1)
    case Stop => s.(transport := Finished, unfinished := s.unfinished - 1)
  }

  ghost predicate Run(group: string, s: State, actions: seq<Action>, t: State)
    decreases |actions|
  {
    if actions == [] then s == t
    else Enabled(s, actions[0]) && Run(group, Apply(group, s, actions[0]), actions[1..], t)
  }

  // ----- Accounting, key by key

  ghost function OnKey(ms: seq<Message>, group: string, key: string): seq<Event> {
    if ms == [] then []
    else (if Key(group, ms[0].stream) == key then [ToEvent(ms[0])] else []) + OnKey(ms[1..], group, key)
  }

  ghost function QueuedOn(queue: seq<Item>, group: string, key: string): seq<Event> {
    if queue == [] then [] else ItemOn(queue[0], group, key) + QueuedOn(queue[1..], group, key)
  }

  ghost function ItemOn(item: Item, group: string, key: string): seq<Event> {
    if item.Batch? then OnKey(item.messages, group, key) else []
  }

  ghost function PutOn(puts: seq<Put>, key: string): seq<Event> {
    if puts == [] then []
    else
      var last := puts[|puts| - 1];
      PutOn(puts[..|puts| - 1], key) + (if last.key == key then last.events else [])
  }

  ghost function BufferedOn(buffers: map<string, seq<Event>>, key: string): seq<Event> {
    if key in buffers then buffers[key] else []
  }

  /** What the transport still has to put; while it sends, the keys already done are spent. */
  ghost function PendingOn(s: State, key: string): seq<Event> {
    if s.transport.Sending? && key !in s.transport.todo then [] else BufferedOn(s.buffers, key)
  }

  ghost function InHandOn(t: Transport, group: string, key: string): seq<Event> {
    if t.InHand? then ItemOn(t.item, group, key) else []
  }

  ghost function NotYetPut(s: State, group: string, key: string): seq<Event> {
    PendingOn(s, key) + (InHandOn(s.transport, group, key) + (QueuedOn(s.queue, group, key) + OnKey(s.buf, group, key)))
  }
}
