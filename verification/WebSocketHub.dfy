/**
 * The WebSocket hub (internal/appservice/websocket.go): registering, unregistering,
 * any number of concurrent broadcasts and the writers that drain the queues, as
 * interleaved steps. Register and Unregister hold the write lock and so exclude
 * running broadcasts; broadcasts hold the read lock and interleave with each other.
 */
module WebSocketHub {
  type Client = nat
  type Broadcaster = nat

  const SEND_BUFFER := 64

  /** A queued message: the broadcast of `from` with this number. */
  datatype Message = Message(from: Broadcaster, number: nat, data: string)

  datatype Chan = Chan(queue: seq<Message>, closed: bool)

  /** A broadcast holding the read lock, and the clients its loop has not reached. */
  datatype Delivery = Delivery(number: nat, data: string, remaining: set<Client>)

  /** The messages each broadcaster has broadcast so far. */
  type Sent = map<Broadcaster, seq<string>>

  /**
   * Besides the hub's clients and their channels: what each writer has received, what was broadcast,
   * the broadcasts under way, what had been broadcast when a client joined and when it left, and
   * whether a channel operation panicked.
   */
  datatype State = State(clients: set<Client>, chans: map<Client, Chan>, received: map<Client, seq<Message>>,
      sent: Sent,
                         active: map<Broadcaster, Delivery>, joined: map<Client, Sent>, left: map<Client, Sent>,
                             panicked: bool)

  const INIT := State({}, map[], map[], map[], map[], map[], map[], false)

  datatype Op =
    | Register(client: Client)
    | Unregister(client: Client)
    | Begin(source: Broadcaster, data: string)
    | Send(source: Broadcaster, client: Client)
    | End(source: Broadcaster)
    | Receive(client: Client)

  function SentBy(sent: Sent, b: Broadcaster): seq<string> {
    if b in sent then sent[b] else []
  }

  function ReceivedBy(s: State, c: Client): seq<Message> {
    if c in s.received then s.received[c] else []
  }

  // ---------------------------------------------------------------- steps

  predicate Enabled(s: State, op: Op) {
    match op
    case Register(c) => s.active == map[] && c !in s.chans
    case Unregister(c) => s.active == map[] && c in s.chans
    case Begin(b, data) => b !in s.active
    case Send(b, c) => b in s.active && c in s.active[b].remaining && c in s.chans
    case End(b) => b in s.active && s.active[b].remaining == {}
    case Receive(c) => c in s.chans && s.chans[c].queue != []
  }

  /** The select in Broadcast: queue the message if there is room, else drop it. */
  function Offered(ch: Chan, m: Message): Chan {
    if |ch.queue| < SEND_BUFFER then ch.(queue := ch.queue + [m]) else ch
  }

  function AfterRegister(s: State, c: Client): State {
    s.(clients := s.clients + {c}, chans := s.chans[c := Chan([], false)], joined := s.joined[c := s.sent])
  }

  /** Remove the client and close its channel; a second call finds nothing to do. */
  function AfterUnregister(s: State, c: Client): State
    requires c in s.chans
  {
    if c in s.clients
    then s.(clients := s.clients - {c}, chans := s.chans[c := s.chans[c].(closed := true)],
            left := s.left[c := s.sent], panicked := s.panicked || s.chans[c].closed)
    else s
  }

  function AfterBegin(s: State, b: Broadcaster, data: string): State {
    var before := SentBy(s.sent, b);
    s.(sent := s.sent[b := before + [data]], active := s.active[b := Delivery(|before|, data, s.clients)])
  }

  function AfterSend(s: State, b: Broadcaster, c: Client): State
    requires b in s.active && c in s.chans
  {
    var a := s.active[b];
    s.(chans := s.chans[c := Offered(s.chans[c], Message(b, a.number, a.data))],
       active := s.active[b := a.(remaining := a.remaining - {c})],
       panicked := s.panicked || s.chans[c].closed)
  }

  function AfterReceive(s: State, c: Client): State
    requires c in s.chans && s.chans[c].queue != []
  {
    var ch := s.chans[c];
    s.(chans := s.chans[c := ch.(queue := ch.queue[1..])],
        received := s.received[c := ReceivedBy(s, c) + [ch.queue[0]]])
  }

  function AfterEnd(s: State, b: Broadcaster): State {
    s.(active := s.active - {b})
  }

  function Next(s: State, op: Op): State
    requires Enabled(s, op)
  {
    match op
    case Register(c) => AfterRegister(s, c)
    case Unregister(c) => AfterUnregister(s, c)
    case Begin(b, data) => AfterBegin(s, b, data)
    case Send(b, c) => AfterSend(s, b, c)
    case End(b) => AfterEnd(s, b)
    case Receive(c) => AfterReceive(s, c)
  }

  ghost predicate Run(states: seq<State>, ops: seq<Op>) {
    && |states| == |ops| + 1 && states[0] == INIT
    && forall i :: 0 <= i < |ops| ==> Enabled(states[i], ops[i]) && states[i + 1] == Next(states[i], ops[i])
  }

  // ---------------------------------------------------------------- what every step keeps

  /** What went into a client's channel: what its writer received, then what is queued. */
  function Log(s: State, c: Client): seq<Message>
    requires c in s.chans
  {
    ReceivedBy(s, c) + s.chans[c].queue
  }

  /** What had been broadcast up to now, or up to the moment the client left. */
  function Until(s: State, c: Client): Sent {
    if c in s.left then s.left[c] else s.sent
  }

  predicate SentWhileRegistered(s: State, c: Client, m: Message)
    requires c in s.joined
  {
    && |SentBy(s.joined[c], m.from)| <= m.number < |SentBy(Until(s, c), m.from)|
    && m.number < |SentBy(s.sent, m.from)| && m.data == SentBy(s.sent, m.from)[m.number]
  }

  /** Messages of the same broadcaster are logged in the order they were broadcast. */
  ghost predicate InOrder(log: seq<Message>) {
    forall i, j :: 0 <= i < j < |log| && log[i].from == log[j].from ==> log[i].number < log[j].number
  }

  ghost predicate ChannelInv(s: State, c: Client)
    requires c in s.chans
  {
    && c in s.joined && |s.chans[c].queue| <= SEND_BUFFER
    && (s.chans[c].closed <==> c !in s.clients) && (c in s.left <==> c !in s.clients)
    && InOrder(Log(s, c))
    && (forall i :: 0 <= i < |Log(s, c)| ==> SentWhileRegistered(s, c, Log(s, c)[i]))
    && Older(s.joined[c], s.sent) && Older(Until(s, c), s.sent)
  }

  ghost predicate Older(before: Sent, after: Sent) {
    forall b :: SentBy(before, b) <= SentBy(after, b)
  }

  /** A broadcast under way is its broadcaster's latest, and is new to the clients it has not reached. */
  ghost predicate ActiveInv(s: State, b: Broadcaster)
    requires b in s.active
  {
    var a := s.active[b];
    && a.number + 1 == |SentBy(s.sent, b)| && a.data == SentBy(s.sent, b)[a.number]
    && a.remaining <= s.clients
    && forall c :: c in a.remaining && c in s.chans ==> NewTo(s, b, c)
  }

  ghost predicate NewTo(s: State, b: Broadcaster, c: Client)
    requires b in s.active && c in s.chans
  {
    && c in s.joined && |SentBy(s.joined[c], b)| <= s.active[b].number
    && forall i :: 0 <= i < |Log(s, c)| && Log(s, c)[i].from == b ==> Log(s, c)[i].number < s.active[b].number
  }

  ghost predicate Inv(s: State) {
    && s.clients <= s.chans.Keys && s.received.Keys <= s.chans.Keys && s.left.Keys <= s.chans.Keys && !s.panicked
    && (forall c :: c in s.chans ==> ChannelInv(s, c))
    && (forall b :: b in s.active ==> ActiveInv(s, b))
  }

  /** A step that leaves a client's log and registration alone keeps what is known of its channel. */
  ghost predicate ClientKept(s: State, s': State, c: Client)
    requires c in s.chans
  {
    && c in s'.chans && Log(s', c) == Log(s, c) && |s'.chans[c].queue| <= SEND_BUFFER
         && s'.chans[c].closed == s.chans[c].closed
    && (c in s.joined ==> c in s'.joined && s'.joined[c] == s.joined[c])
    && (c in s'.left <==> c in s.left) && (c in s.left ==> s'.left[c] == s.left[c])
         && (c in s'.clients <==> c in s.clients)
  }

  lemma KeptChannelInv(s: State, s': State, c: Client)
    requires c in s.chans && ChannelInv(s, c) && ClientKept(s, s', c) && Older(s.sent, s'.sent)
    ensures ChannelInv(s', c)
  {
    forall b ensures SentBy(s'.joined[c], b) <= SentBy(s'.sent, b) && SentBy(Until(s', c), b) <= SentBy(s'.sent, b) {
      assert SentBy(s.joined[c], b) <= SentBy(s.sent, b) <= SentBy(s'.sent, b);
      assert SentBy(Until(s, c), b) <= SentBy(s.sent, b);
    }
    forall i | 0 <= i < |Log(s', c)| ensures SentWhileRegistered(s', c, Log(s', c)[i]) {
      var m := Log(s, c)[i];
      assert SentWhileRegistered(s, c, m) && SentBy(s.sent, m.from) <= SentBy(s'.sent, m.from);
    }
  }

  /** A step that changes no log and no other broadcast keeps what is known of a broadcast. */
  lemma KeptActiveInv(s: State, s': State, b: Broadcaster)
    requires b in s.active && b in s'.active && s'.active[b] == s.active[b] && ActiveInv(s, b)
    requires SentBy(s'.sent, b) == SentBy(s.sent, b) && s.clients <= s'.clients && s.clients <= s.chans.Keys
    requires forall c :: c in s.clients ==> ClientKept(s, s', c)
    ensures ActiveInv(s', b)
  {
    forall c | c in s'.active[b].remaining ensures c in s.chans && NewTo(s', b, c) {
      assert NewTo(s, b, c) && ClientKept(s, s', c);
    }
  }

  lemma RegisterKeepsInv(s: State, c: Client)
    requires Inv(s) && Enabled(s, Register(c))
    ensures Inv(AfterRegister(s, c))
  {
    var s' := AfterRegister(s, c);
    forall d | d in s'.chans ensures ChannelInv(s', d) {
      if d != c { KeptChannelInv(s, s', d); }
    }
  }

  /** The client that leaves: its log was sent while it was registered. */
  lemma LeaverChannelInv(s: State, c: Client)
    requires Inv(s) && c in s.clients
    ensures ChannelInv(AfterUnregister(s, c), c)
  {
    var s' := AfterUnregister(s, c);
    assert ChannelInv(s, c) && Log(s', c) == Log(s, c);
    forall i | 0 <= i < |Log(s', c)| ensures SentWhileRegistered(s', c, Log(s', c)[i]) {
      assert SentWhileRegistered(s, c, Log(s, c)[i]);
    }
  }

  lemma UnregisterKeepsInv(s: State, c: Client)
    requires Inv(s) && Enabled(s, Unregister(c))
    ensures Inv(AfterUnregister(s, c))
  {
    var s' := AfterUnregister(s, c);
    assert ChannelInv(s, c);
    if c in s.clients {
      forall d | d in s'.chans ensures ChannelInv(s', d) {
        if d == c { LeaverChannelInv(s, c); } else { KeptChannelInv(s, s', d); }
      }
    }
  }

  lemma BeginKeepsChannel(s: State, b: Broadcaster, data: string, c: Client)
    requires Inv(s) && Enabled(s, Begin(b, data)) && c in s.chans
    ensures ClientKept(s, AfterBegin(s, b, data), c) && ChannelInv(AfterBegin(s, b, data), c)
  {
    assert ChannelInv(s, c) && Log(AfterBegin(s, b, data), c) == Log(s, c);
    KeptChannelInv(s, AfterBegin(s, b, data), c);
  }

  lemma BeginKeepsActive(s: State, b: Broadcaster, data: string, a: Broadcaster)
    requires Inv(s) && Enabled(s, Begin(b, data)) && a in s.active && a != b
    ensures ActiveInv(AfterBegin(s, b, data), a)
  {
    forall c | c in s.clients { BeginKeepsChannel(s, b, data, c); }
    KeptActiveInv(s, AfterBegin(s, b, data), a);
  }

  lemma BeginKeepsInv(s: State, b: Broadcaster, data: string)
    requires Inv(s) && Enabled(s, Begin(b, data))
    ensures Inv(AfterBegin(s, b, data))
  {
    forall c | c in s.chans { BeginKeepsChannel(s, b, data, c); }
    BeginActiveInv(s, b, data);
    forall a | a in s.active && a != b { BeginKeepsActive(s, b, data, a); }
  }

  /** A new broadcast is new to every client. */
  lemma BeginActiveInv(s: State, b: Broadcaster, data: string)
    requires Inv(s) && Enabled(s, Begin(b, data))
    ensures ActiveInv(AfterBegin(s, b, data), b)
  {
    var s' := AfterBegin(s, b, data);
    forall c | c in s.chans ensures NewTo(s', b, c) {
      assert ChannelInv(s, c) && Log(s', c) == Log(s, c) && SentBy(s.joined[c], b) <= SentBy(s.sent, b);
      forall i | 0 <= i < |Log(s, c)| && Log(s, c)[i].from == b ensures Log(s, c)[i].number < |SentBy(s.sent, b)| {
        assert SentWhileRegistered(s, c, Log(s, c)[i]);
      }
    }
  }

  /** A step that adds nothing to any log and starts no broadcast. */
  lemma QuietStepKeepsInv(s: State, s': State)
    requires Inv(s) && s'.clients == s.clients && s'.chans.Keys == s.chans.Keys && s'.received.Keys <= s.chans.Keys
    requires s'.sent == s.sent && s'.joined == s.joined && s'.left == s.left && s'.panicked == s.panicked
    requires forall b :: b in s'.active ==> b in s.active && s'.active[b] == s.active[b]
    requires forall c :: c in s.chans ==> ClientKept(s, s', c)
    ensures Inv(s')
  {
    forall c | c in s'.chans ensures ChannelInv(s', c) {
      assert ClientKept(s, s', c);
      KeptChannelInv(s, s', c);
    }
    forall b | b in s'.active ensures ActiveInv(s', b) { KeptActiveInv(s, s', b); }
  }

  lemma EndKeepsInv(s: State, b: Broadcaster)
    requires Inv(s) && Enabled(s, End(b))
    ensures Inv(AfterEnd(s, b))
  {
    var s' := AfterEnd(s, b);
    forall c | c in s.chans ensures ClientKept(s, s', c) {
      assert ChannelInv(s, c) && Log(s', c) == Log(s, c);
    }
    QuietStepKeepsInv(s, s');
  }

  /** Receiving moves a message from the queue to the writer; the log stays. */
  lemma ReceiveKeepsLog(s: State, c: Client)
    requires Enabled(s, Receive(c))
    ensures Log(AfterReceive(s, c), c) == Log(s, c)
  {
    var q := s.chans[c].queue;
    assert q == [q[0]] + q[1..];
    assert ReceivedBy(s, c) + ([q[0]] + q[1..]) == (ReceivedBy(s, c) + [q[0]]) + q[1..];
  }

  lemma ReceiveKeepsClient(s: State, c: Client, d: Client)
    requires Inv(s) && Enabled(s, Receive(c)) && d in s.chans
    ensures ClientKept(s, AfterReceive(s, c), d)
  {
    assert ChannelInv(s, d);
    if d == c { ReceiveKeepsLog(s, c); }
  }

  lemma ReceiveKeepsInv(s: State, c: Client)
    requires Inv(s) && Enabled(s, Receive(c))
    ensures Inv(AfterReceive(s, c))
  {
    forall d | d in s.chans { ReceiveKeepsClient(s, c, d); }
    QuietStepKeepsInv(s, AfterReceive(s, c));
  }

  lemma SendLog(s: State, b: Broadcaster, c: Client)
    requires Enabled(s, Send(b, c))
    ensures Log(AfterSend(s, b, c), c)
         == if |s.chans[c].queue| >= 64 then Log(s, c)
            else Log(s, c) + [Message(b, s.active[b].number, s.active[b].data)]
  {
  }

  /** The client a Send reaches: its log grows by the broadcast's message, or stays. */
  lemma SendChannelInv(s: State, b: Broadcaster, c: Client)
    requires Inv(s) && Enabled(s, Send(b, c))
    ensures ChannelInv(AfterSend(s, b, c), c)
  {
    assert ChannelInv(s, c) && ActiveInv(s, b) && NewTo(s, b, c);
    SendLog(s, b, c);
    if |s.chans[c].queue| < SEND_BUFFER {
      SendLogged(s, AfterSend(s, b, c), c, Message(b, s.active[b].number, s.active[b].data));
    } else {
      KeptChannelInv(s, AfterSend(s, b, c), c);
    }
  }

  lemma SendLogged(s: State, s': State, c: Client, m: Message)
    requires c in s.chans && ChannelInv(s, c) && c in s.clients && c in s'.chans && Log(s', c) == Log(s, c) + [m]
    requires |s'.chans[c].queue| <= SEND_BUFFER && s'.chans[c].closed == s.chans[c].closed
    requires s'.clients == s.clients && s'.joined == s.joined && s'.left == s.left && s'.sent == s.sent
    requires SentWhileRegistered(s, c, m)
    requires forall i :: 0 <= i < |Log(s, c)| && Log(s, c)[i].from == m.from ==> Log(s, c)[i].number < m.number
    ensures ChannelInv(s', c)
  {
    forall i | 0 <= i < |Log(s', c)| ensures SentWhileRegistered(s', c, Log(s', c)[i]) {
      assert i < |Log(s, c)| ==> SentWhileRegistered(s, c, Log(s, c)[i]);
    }
  }

  /** A Send adds at most its own message to the log of its own client. */
  lemma SendLogs(s: State, b: Broadcaster, c: Client, d: Client)
    requires b in s.active && c in s.chans && d in s.chans
    ensures var m := Message(b, s.active[b].number, s.active[b].data);
      Log(AfterSend(s, b, c), d) == Log(s, d) || (d == c && Log(AfterSend(s, b, c), d) == Log(s, d) + [m])
  {
  }

  lemma SendNewTo(s: State, b: Broadcaster, c: Client, a: Broadcaster, d: Client)
    requires b in s.active && c in s.chans && a in s.active && d in s.chans && NewTo(s, a, d) && (a != b || d != c)
    ensures NewTo(AfterSend(s, b, c), a, d)
  {
    SendLogs(s, b, c, d);
  }

  lemma SendActiveInv(s: State, b: Broadcaster, c: Client, a: Broadcaster)
    requires Inv(s) && Enabled(s, Send(b, c)) && a in s.active
    ensures ActiveInv(AfterSend(s, b, c), a)
  {
    var s' := AfterSend(s, b, c);
    assert ActiveInv(s, a);
    forall d | d in s'.active[a].remaining && d in s'.chans ensures NewTo(s', a, d) {
      SendNewTo(s, b, c, a, d);
    }
  }

  lemma SendKeepsInv(s: State, b: Broadcaster, c: Client)
    requires Inv(s) && Enabled(s, Send(b, c))
    ensures Inv(AfterSend(s, b, c))
  {
    var s' := AfterSend(s, b, c);
    assert ActiveInv(s, b) && ChannelInv(s, c);
    forall d | d in s'.chans ensures ChannelInv(s', d) {
      if d == c { SendChannelInv(s, b, c); } else { KeptChannelInv(s, s', d); }
    }
    forall a | a in s'.active ensures ActiveInv(s', a) { SendActiveInv(s, b, c, a); }
  }

  lemma StepKeepsInv(s: State, op: Op)
    requires Inv(s) && Enabled(s, op)
    ensures Inv(Next(s, op))
  {
    match op
    case Register(c) => RegisterKeepsInv(s, c);
    case Unregister(c) => UnregisterKeepsInv(s, c);
    case Begin(b, data) => BeginKeepsInv(s, b, data);
    case Send(b, c) => SendKeepsInv(s, b, c);
    case End(b) => EndKeepsInv(s, b);
    case Receive(c) => ReceiveKeepsInv(s, c);
  }

  lemma {:induction false} RunKeepsInv(states: seq<State>, ops: seq<Op>, n: nat)
    requires Run(states, ops) && n < |states|
    ensures Inv(states[n])
  {
    if n > 0 {
      RunKeepsInv(states, ops, n - 1);
      StepKeepsInv(states[n - 1], ops[n - 1]);
    }
  }

  // ---------------------------------------------------------------- what every run guarantees

  /** The numbers of the messages of one broadcaster. */
  function NumbersFrom(log: seq<Message>, b: Broadcaster): seq<nat> {
    if log == [] then []
    else NumbersFrom(log[..|log| - 1], b) + if log[|log| - 1].from == b then [log[|log| - 1].number] else []
  }

  function DataFrom(log: seq<Message>, b: Broadcaster): seq<string> {
    if log == [] then []
    else DataFrom(log[..|log| - 1], b) + if log[|log| - 1].from == b then [log[|log| - 1].data] else []
  }

  /** `xs` is the subsequence of `all` at the given increasing positions, all of them in [lo, hi). */
  ghost predicate SubsequenceAt<T>(xs: seq<T>, all: seq<T>, at: seq<nat>, lo: nat, hi: nat) {
    && |at| == |xs| && hi <= |all|
    && (forall i, j :: 0 <= i < j < |at| ==> at[i] < at[j])
    && (forall i :: 0 <= i < |at| ==> lo <= at[i] < hi && xs[i] == all[at[i]])
  }

  lemma SubsequenceGrows<T>(xs: seq<T>, all: seq<T>, at: seq<nat>, lo: nat, hi: nat, n: nat)
    requires SubsequenceAt(xs, all, at, lo, hi) && lo <= n < hi && forall k :: 0 <= k < |at| ==> at[k] < n
    ensures SubsequenceAt(xs + [all[n]], all, at + [n], lo, hi)
  {
  }

  ghost predicate AllNumbered(log: seq<Message>, b: Broadcaster, numbers: seq<nat>) {
    forall k :: 0 <= k < |numbers| ==> NumberedIn(log, b, numbers[k])
  }

  /** A number of a message before the last one. */
  lemma EarlierNumber(log: seq<Message>, b: Broadcaster, number: nat)
    requires log != [] && InOrder(log) && NumberedIn(log[..|log| - 1], b, number)
    ensures NumberedIn(log, b, number) && (log[|log| - 1].from == b ==> number < log[|log| - 1].number)
  {
    var i :| 0 <= i < |log| - 1 && log[..|log| - 1][i].from == b && log[..|log| - 1][i].number == number;
    assert log[i] == log[..|log| - 1][i];
  }

  /** The numbers of a log with one message more are those of before, all smaller, and perhaps its own. */
  lemma NumbersGrow(log: seq<Message>, b: Broadcaster, numbers: seq<nat>)
    requires log != [] && InOrder(log) && AllNumbered(log[..|log| - 1], b, numbers)
    ensures AllNumbered(log, b, numbers)
    ensures var last := log[|log| - 1];
      last.from == b ==> AllNumbered(log, b, numbers + [last.number])
                         && forall k :: 0 <= k < |numbers| ==> numbers[k] < last.number
  {
    forall k | 0 <= k < |numbers|
      ensures NumberedIn(log, b, numbers[k]) && (log[|log| - 1].from == b ==> numbers[k] < log[|log| - 1].number)
    {
      EarlierNumber(log, b, numbers[k]);
    }
    LastIsNumbered(log);
  }

  lemma LastIsNumbered(log: seq<Message>)
    requires log != []
    ensures var last := log[|log| - 1]; NumberedIn(log, last.from, last.number)
  {
    var i := |log| - 1;
    assert log[i].from == log[|log| - 1].from;
  }

  lemma {:induction false} LoggedSubsequence(s: State, c: Client, log: seq<Message>, b: Broadcaster)
    requires c in s.joined && InOrder(log) && forall i :: 0 <= i < |log| ==> SentWhileRegistered(s, c, log[i])
    requires SentBy(Until(s, c), b) <= SentBy(s.sent, b)
    ensures SubsequenceAt(DataFrom(log, b), SentBy(s.sent, b), NumbersFrom(log, b), |SentBy(s.joined[c], b)|,
              |SentBy(Until(s, c), b)|)
    ensures AllNumbered(log, b, NumbersFrom(log, b))
  {
    if log != [] {
      var before, last := log[..|log| - 1], log[|log| - 1];
      forall i | 0 <= i < |before| ensures SentWhileRegistered(s, c, before[i]) { assert before[i] == log[i]; }
      LoggedSubsequence(s, c, before, b);
      NumbersGrow(log, b, NumbersFrom(before, b));
      if last.from == b {
        assert SentWhileRegistered(s, c, log[|log| - 1]);
        SubsequenceGrows(DataFrom(before, b), SentBy(s.sent, b), NumbersFrom(before, b), |SentBy(s.joined[c], b)|,
                         |SentBy(Until(s, c), b)|, last.number);
      }
    }
  }

  ghost predicate NumberedIn(log: seq<Message>, b: Broadcaster, number: nat) {
    exists i :: 0 <= i < |log| && log[i].from == b && log[i].number == number
  }

  /**
   * In every interleaving no channel operation panics (no send on a closed channel, no second close), no queue
   * exceeds its buffer, and what a client has received of a broadcaster is, in order, a subsequence of the
   * messages which that broadcaster broadcast while the client was registered.
   */
  lemma HubIsSafe(states: seq<State>, ops: seq<Op>, n: nat, c: Client, b: Broadcaster)
    requires Run(states, ops) && n < |states| && c in states[n].chans
    ensures !states[n].panicked && |states[n].chans[c].queue| <= 64 && c in states[n].joined
    ensures var s := states[n]; var got := ReceivedBy(s, c);
      SubsequenceAt(DataFrom(got, b), SentBy(s.sent, b), NumbersFrom(got, b), |SentBy(s.joined[c], b)|,
          |SentBy(Until(s, c), b)|)
  {
    RunKeepsInv(states, ops, n);
    var s := states[n];
    assert ChannelInv(s, c);
    var got := ReceivedBy(s, c);
    forall i | 0 <= i < |got| ensures got[i] == Log(s, c)[i] && SentWhileRegistered(s, c, got[i]) {
      assert SentWhileRegistered(s, c, Log(s, c)[i]);
    }
    LoggedSubsequence(s, c, got, b);
  }

  // ---------------------------------------------------------------- nothing is lost but what finds no room

  /** 1 while a broadcast of `b` is under way that has not reached the client. */
  function Pending(s: State, c: Client, b: Broadcaster): nat {
    if b in s.active && c in s.active[b].remaining then 1 else 0
  }

  /** `data` are the messages from `lo` to `hi`, but for `lost` of them. */
  predicate Matches(data: seq<string>, all: seq<string>, lo: int, hi: int, lost: nat) {
    0 <= lo <= hi <= |all| && |data| + lost == hi - lo && (lost == 0 ==> data == all[lo..hi])
  }

  /** Of the messages of `b` while the client was registered, `lost` are missing from its log, and no others. */
  ghost predicate Accounted(s: State, c: Client, b: Broadcaster, lost: nat)
    requires c in s.chans
  {
    && c in s.joined
    && Matches(DataFrom(Log(s, c), b), SentBy(s.sent, b), |SentBy(s.joined[c], b)|,
               |SentBy(Until(s, c), b)| - Pending(s, c, b), lost)
  }

  lemma MatchesLonger(data: seq<string>, all: seq<string>, lo: int, hi: int, lost: nat, x: string)
    requires Matches(data, all, lo, hi, lost)
    ensures Matches(data, all + [x], lo, hi, lost)
  {
  }

  lemma MatchesOneMore(data: seq<string>, all: seq<string>, lo: int, hi: int, lost: nat)
    requires Matches(data, all, lo, hi, lost) && hi < |all|
    ensures Matches(data + [all[hi]], all, lo, hi + 1, lost) && Matches(data, all, lo, hi + 1, lost + 1)
  {
  }

  lemma DataFromSnoc(log: seq<Message>, m: Message, b: Broadcaster)
    ensures DataFrom(log + [m], b) == DataFrom(log, b) + if m.from == b then [m.data] else []
  {
    assert (log + [m])[..|log|] == log;
  }

  /** The messages of `b` and the bounds are the same. */
  ghost predicate SameAccount(s: State, s': State, c: Client, b: Broadcaster)
    requires c in s.chans && c in s'.chans && c in s.joined
  {
    && DataFrom(Log(s', c), b) == DataFrom(Log(s, c), b) && SentBy(s.sent, b) == SentBy(s'.sent, b)
    && c in s'.joined && s'.joined[c] == s.joined[c]
    && SentBy(Until(s', c), b) == SentBy(Until(s, c), b) && Pending(s', c, b) == Pending(s, c, b)
  }

  lemma RegisterAccount(s: State, d: Client, c: Client, b: Broadcaster)
    requires Enabled(s, Register(d)) && c in s.chans && c in s.joined
    ensures SameAccount(s, AfterRegister(s, d), c, b)
  {
    assert Log(AfterRegister(s, d), c) == Log(s, c);
  }

  lemma NewAccount(s: State, c: Client, b: Broadcaster)
    requires Inv(s) && Enabled(s, Register(c))
    ensures Accounted(AfterRegister(s, c), c, b, 0)
  {
    var s' := AfterRegister(s, c);
    assert c !in s.received && c !in s.left;
    assert Log(s', c) == [] && Until(s', c) == s'.joined[c] == s.sent && Pending(s', c, b) == 0;
  }

  lemma UnregisterAccount(s: State, d: Client, c: Client, b: Broadcaster)
    requires Enabled(s, Unregister(d)) && c in s.chans && c in s.joined && (c in s.left <==> c !in s.clients)
    ensures SameAccount(s, AfterUnregister(s, d), c, b)
  {
    assert Log(AfterUnregister(s, d), c) == Log(s, c);
  }

  lemma OtherBeginAccount(s: State, a: Broadcaster, data: string, c: Client, b: Broadcaster)
    requires Enabled(s, Begin(a, data)) && c in s.chans && c in s.joined && a != b
    ensures SameAccount(s, AfterBegin(s, a, data), c, b)
  {
    assert Log(AfterBegin(s, a, data), c) == Log(s, c);
  }

  lemma BeginBounds(s: State, b: Broadcaster, data: string, c: Client)
    requires Enabled(s, Begin(b, data)) && (c in s.left <==> c !in s.clients)
    ensures var s' := AfterBegin(s, b, data);
      && SentBy(s'.sent, b) == SentBy(s.sent, b) + [data] && s'.joined == s.joined
      && |SentBy(Until(s', c), b)| - Pending(s', c, b) == |SentBy(Until(s, c), b)| - Pending(s, c, b)
  {
  }

  lemma AccountedBy(s: State, c: Client, b: Broadcaster, data: seq<string>, all: seq<string>, lo: nat, hi: int,
      lost: nat)
    requires c in s.chans && c in s.joined && DataFrom(Log(s, c), b) == data && SentBy(s.sent, b) == all
    requires |SentBy(s.joined[c], b)| == lo && |SentBy(Until(s, c), b)| - Pending(s, c, b) == hi
    requires Matches(data, all, lo, hi, lost)
    ensures Accounted(s, c, b, lost)
  {
  }

  lemma BeginLog(s: State, b: Broadcaster, data: string, c: Client)
    requires c in s.chans
    ensures Log(AfterBegin(s, b, data), c) == Log(s, c)
  {
  }

  /** A broadcast that starts is pending for the clients there are. */
  lemma BeginAccounted(s: State, b: Broadcaster, data: string, c: Client, lost: nat)
    requires Enabled(s, Begin(b, data)) && c in s.chans && Accounted(s, c, b, lost)
             && (c in s.left <==> c !in s.clients)
    ensures Accounted(AfterBegin(s, b, data), c, b, lost)
  {
    var got, all := DataFrom(Log(s, c), b), SentBy(s.sent, b);
    var lo, hi := |SentBy(s.joined[c], b)|, |SentBy(Until(s, c), b)| - Pending(s, c, b);
    MatchesLonger(got, all, lo, hi, lost, data);
    BeginLog(s, b, data, c);
    BeginBounds(s, b, data, c);
    AccountedBy(AfterBegin(s, b, data), c, b, got, all + [data], lo, hi, lost);
  }

  /** Before the Send the message is the one that is pending. */
  lemma PendingIsLast(s: State, b: Broadcaster, c: Client, lost: nat)
    requires Enabled(s, Send(b, c)) && Accounted(s, c, b, lost) && c !in s.left
    ensures Matches(DataFrom(Log(s, c), b), SentBy(s.sent, b), |SentBy(s.joined[c], b)|, |SentBy(s.sent, b)| - 1, lost)
  {
    SendBounds(s, b, c);
  }

  /** It reaches the client. */
  lemma SendReaches(s: State, b: Broadcaster, c: Client, lost: nat, m: Message, got: seq<string>, lo: nat)
    requires Enabled(s, Send(b, c)) && c !in s.left && c in s.joined && |s.chans[c].queue| < 64
    requires got == DataFrom(Log(s, c), b) && lo == |SentBy(s.joined[c], b)|
    requires Matches(got, SentBy(s.sent, b), lo, |SentBy(s.sent, b)| - 1, lost)
    requires m == Message(b, s.active[b].number, s.active[b].data)
    requires m.number + 1 == |SentBy(s.sent, b)| && m.data == SentBy(s.sent, b)[m.number]
    ensures Accounted(AfterSend(s, b, c), c, b, lost)
  {
    MatchesOneMore(got, SentBy(s.sent, b), lo, m.number, lost);
    SendLog(s, b, c);
    DataFromSnoc(Log(s, c), m, b);
    SendBounds(s, b, c);
    AccountedBy(AfterSend(s, b, c), c, b, got + [m.data], SentBy(s.sent, b), lo, m.number + 1, lost);
  }

  /** It finds no room. */
  lemma SendMisses(s: State, b: Broadcaster, c: Client, lost: nat, got: seq<string>, lo: nat)
    requires Enabled(s, Send(b, c)) && c !in s.left && c in s.joined && |s.chans[c].queue| >= 64
    requires got == DataFrom(Log(s, c), b) && lo == |SentBy(s.joined[c], b)|
    requires Matches(got, SentBy(s.sent, b), lo, |SentBy(s.sent, b)| - 1, lost)
    ensures Accounted(AfterSend(s, b, c), c, b, lost + 1)
  {
    MatchesOneMore(got, SentBy(s.sent, b), lo, |SentBy(s.sent, b)| - 1, lost);
    SendLog(s, b, c);
    SendBounds(s, b, c);
    AccountedBy(AfterSend(s, b, c), c, b, got, SentBy(s.sent, b), lo, |SentBy(s.sent, b)|, lost + 1);
  }

  lemma SendBounds(s: State, b: Broadcaster, c: Client)
    requires Enabled(s, Send(b, c)) && c !in s.left
    ensures var s' := AfterSend(s, b, c);
      && s'.sent == s.sent && s'.joined == s.joined && Until(s, c) == Until(s', c) == s.sent
      && Pending(s, c, b) == 1 && Pending(s', c, b) == 0
  {
  }

  lemma OtherSendAccount(s: State, a: Broadcaster, d: Client, c: Client, b: Broadcaster)
    requires Enabled(s, Send(a, d)) && c in s.chans && c in s.joined && (a != b || d != c)
    ensures SameAccount(s, AfterSend(s, a, d), c, b)
  {
    SendLogs(s, a, d, c);
    DataFromSnoc(Log(s, c), Message(a, s.active[a].number, s.active[a].data), b);
    if d != c { assert Log(AfterSend(s, a, d), c) == Log(s, c); }
  }

  lemma EndAccount(s: State, a: Broadcaster, c: Client, b: Broadcaster)
    requires Enabled(s, End(a)) && c in s.chans && c in s.joined
    ensures SameAccount(s, AfterEnd(s, a), c, b)
  {
    assert Log(AfterEnd(s, a), c) == Log(s, c);
  }

  lemma ReceiveAccount(s: State, d: Client, c: Client, b: Broadcaster)
    requires Enabled(s, Receive(d)) && c in s.chans && c in s.joined
    ensures SameAccount(s, AfterReceive(s, d), c, b)
  {
    if d == c { ReceiveKeepsLog(s, c); } else { assert Log(AfterReceive(s, d), c) == Log(s, c); }
  }

  /** Every step but the start of a broadcast of `b` and its delivery to `c`. */
  lemma OtherStepAccount(s: State, op: Op, c: Client, b: Broadcaster)
    requires Enabled(s, op) && c in s.chans && c in s.joined && (c in s.left <==> c !in s.clients)
    requires op != Send(b, c) && !(op.Begin? && op.source == b)
    ensures c in Next(s, op).chans && SameAccount(s, Next(s, op), c, b)
  {
    match op
    case Register(d) => RegisterAccount(s, d, c, b);
    case Unregister(d) => UnregisterAccount(s, d, c, b);
    case Begin(a, data) => OtherBeginAccount(s, a, data, c, b);
    case Send(a, d) => OtherSendAccount(s, a, d, c, b);
    case End(a) => EndAccount(s, a, c, b);
    case Receive(d) => ReceiveAccount(s, d, c, b);
  }

  lemma OtherStepAccounted(s: State, op: Op, c: Client, b: Broadcaster, lost: nat)
    requires Enabled(s, op) && c in s.chans && c in s.joined && (c in s.left <==> c !in s.clients)
    requires op != Send(b, c) && !(op.Begin? && op.source == b) && Accounted(s, c, b, lost)
    ensures c in Next(s, op).chans && Accounted(Next(s, op), c, b, lost)
  {
    OtherStepAccount(s, op, c, b);
  }

  lemma ClientFacts(s: State, c: Client)
    requires Inv(s) && c in s.chans
    ensures c in s.joined && (c in s.left <==> c !in s.clients)
  {
    assert ChannelInv(s, c);
  }

  lemma SendFacts(s: State, b: Broadcaster, c: Client)
    requires Inv(s) && Enabled(s, Send(b, c))
    ensures c in s.clients && s.active[b].number + 1 == |SentBy(s.sent, b)|
    ensures s.active[b].data == SentBy(s.sent, b)[s.active[b].number]
  {
    assert ActiveInv(s, b);
  }

  /** One if the step offers the client a message of `b` while 64 messages are waiting. */
  function DroppedAt(s: State, op: Op, c: Client, b: Broadcaster): nat {
    if op == Send(b, c) && c in s.chans && |s.chans[c].queue| >= 64 then 1 else 0
  }

  /** How many of the first `n` steps do. */
  function Dropped(states: seq<State>, ops: seq<Op>, n: nat, c: Client, b: Broadcaster): nat
    requires n <= |ops| < |states|
  {
    if n == 0 then 0 else Dropped(states, ops, n - 1, c, b) + DroppedAt(states[n - 1], ops[n - 1], c, b)
  }

  lemma StepAccounted(s: State, op: Op, c: Client, b: Broadcaster, lost: nat)
    requires Inv(s) && Enabled(s, op) && c in s.chans && Accounted(s, c, b, lost)
    ensures c in Next(s, op).chans && Accounted(Next(s, op), c, b, lost + DroppedAt(s, op, c, b))
  {
    ClientFacts(s, c);
    if op == Send(b, c) {
      SendFacts(s, b, c);
      PendingIsLast(s, b, c, lost);
      var got, lo := DataFrom(Log(s, c), b), |SentBy(s.joined[c], b)|;
      if |s.chans[c].queue| < 64 {
        SendReaches(s, b, c, lost, Message(b, s.active[b].number, s.active[b].data), got, lo);
      } else {
        SendMisses(s, b, c, lost, got, lo);
      }
    } else if op.Begin? && op.source == b {
      BeginAccounted(s, b, op.data, c, lost);
    } else {
      OtherStepAccounted(s, op, c, b, lost);
    }
  }

  lemma NoneDroppedAt(s: State, op: Op, c: Client, b: Broadcaster)
    requires Enabled(s, op) && c !in s.chans
    ensures DroppedAt(s, op, c, b) == 0 && (c in Next(s, op).chans ==> op == Register(c))
  {
  }

  lemma {:induction false} NoneDroppedBefore(states: seq<State>, ops: seq<Op>, n: nat, c: Client, b: Broadcaster)
    requires Run(states, ops) && n < |states| && c !in states[n].chans
    ensures Dropped(states, ops, n, c, b) == 0
  {
    if n > 0 {
      OneStep(states, ops, n - 1);
      if c in states[n - 1].chans { ChannelsStay(states[n - 1], ops[n - 1], c); }
      NoneDroppedAt(states[n - 1], ops[n - 1], c, b);
      NoneDroppedBefore(states, ops, n - 1, c, b);
    }
  }

  lemma ChannelsStay(s: State, op: Op, c: Client)
    requires Enabled(s, op) && c in s.chans
    ensures c in Next(s, op).chans
  {
  }

  lemma OneStep(states: seq<State>, ops: seq<Op>, n: nat)
    requires Run(states, ops) && n < |ops|
    ensures Enabled(states[n], ops[n]) && states[n + 1] == Next(states[n], ops[n])
  {
  }

  /**
   * In every interleaving, what a client has received of a broadcaster and what is queued for it are as many as
   * the messages of that broadcaster while the client was registered, less those that found no room and one
   * still under way; and if each found room they are exactly those messages, in order.
   */
  lemma {:induction false} NothingElseIsLost(states: seq<State>, ops: seq<Op>, n: nat, c: Client, b: Broadcaster)
    requires Run(states, ops) && n < |states| && c in states[n].chans
    ensures Accounted(states[n], c, b, Dropped(states, ops, n, c, b))
  {
    if n > 0 {
      OneStep(states, ops, n - 1);
      RunKeepsInv(states, ops, n - 1);
      if c in states[n - 1].chans {
        NothingElseIsLost(states, ops, n - 1, c, b);
        StepAccounted(states[n - 1], ops[n - 1], c, b, Dropped(states, ops, n - 1, c, b));
      } else {
        NoneDroppedBefore(states, ops, n - 1, c, b);
        NoneDroppedAt(states[n - 1], ops[n - 1], c, b);
        NewAccount(states[n - 1], c, b);
      }
    }
  }

  /** The broadcasts of `b` that the steps begin, in order. */
  function Begun(ops: seq<Op>, b: Broadcaster): seq<string> {
    if ops == [] then []
    else
      var last := ops[|ops| - 1];
      Begun(ops[..|ops| - 1], b) + if last.Begin? && last.source == b then [last.data] else []
  }

  lemma {:induction false} SentAreBegun(states: seq<State>, ops: seq<Op>, n: nat, b: Broadcaster)
    requires Run(states, ops) && n < |states|
    ensures SentBy(states[n].sent, b) == Begun(ops[..n], b)
  {
    if n > 0 {
      OneStep(states, ops, n - 1);
      SentAreBegun(states, ops, n - 1, b);
      assert ops[..n][..n - 1] == ops[..n - 1];
    }
  }

  /** From the step that registers it, unless one unregisters it. */
  lemma {:induction false} StillRegistered(states: seq<State>, ops: seq<Op>, i: nat, n: nat, c: Client)
    requires Run(states, ops) && i < n < |states| && ops[i] == Register(c)
    requires forall j :: i < j < n ==> ops[j] != Unregister(c)
    ensures c in states[n].chans && c in states[n].clients && c !in states[n].left
    ensures c in states[n].joined && states[n].joined[c] == states[i].sent
    decreases n
  {
    OneStep(states, ops, n - 1);
    if n == i + 1 {
      RunKeepsInv(states, ops, i);
      assert c !in states[i].left;
    } else {
      StillRegistered(states, ops, i, n - 1, c);
      OtherStepKeepsClient(states[n - 1], ops[n - 1], c);
    }
  }

  lemma OtherStepKeepsClient(s: State, op: Op, c: Client)
    requires Enabled(s, op) && op != Unregister(c) && c in s.chans && c in s.clients && c !in s.left && c in s.joined
    ensures var s' := Next(s, op);
      c in s'.chans && c in s'.clients && c !in s'.left && c in s'.joined && s'.joined[c] == s.joined[c]
  {
  }

  /**
   * A client that is still registered, and for which every message of `b` found room, has received or has
   * waiting exactly the broadcasts of `b` begun since it registered, but for one that has not reached it yet.
   */
  lemma RegisteredGetsAll(states: seq<State>, ops: seq<Op>, i: nat, n: nat, c: Client, b: Broadcaster)
    requires Run(states, ops) && i < n < |states| && ops[i] == Register(c)
    requires forall j :: i < j < n ==> ops[j] != Unregister(c)
    requires forall j :: i < j < n && ops[j] == Send(b, c) && c in states[j].chans ==> |states[j].chans[c].queue| < 64
    ensures c in states[n].chans
    ensures var all := Begun(ops[..n], b);
      var late := if b in states[n].active && c in states[n].active[b].remaining then 1 else 0;
      && |Begun(ops[..i], b)| <= |all| - late
      && DataFrom(ReceivedBy(states[n], c) + states[n].chans[c].queue, b) == all[|Begun(ops[..i], b)|..|all| - late]
  {
    StillRegistered(states, ops, i, n, c);
    NothingElseIsLost(states, ops, n, c, b);
    NoneDroppedSince(states, ops, i, n, c, b);
    SentAreBegun(states, ops, i, b);
    SentAreBegun(states, ops, n, b);
  }

  lemma {:induction false} NoneDroppedSince(states: seq<State>, ops: seq<Op>, i: nat, n: nat, c: Client, b: Broadcaster)
    requires Run(states, ops) && i < n < |states| && ops[i] == Register(c)
    requires forall j :: i < j < n && ops[j] == Send(b, c) && c in states[j].chans ==> |states[j].chans[c].queue| < 64
    ensures Dropped(states, ops, n, c, b) == 0
    decreases n
  {
    OneStep(states, ops, i);
    if n == i + 1 {
      NoneDroppedBefore(states, ops, i, c, b);
    } else {
      NoneDroppedSince(states, ops, i, n - 1, c, b);
    }
  }

  // ---------------------------------------------------------------- the hub

  /** The hub's own part of a state. */
  predicate IsState(s: State, clients: set<Client>, chans: map<Client, Chan>) {
    s.clients == clients && s.chans == chans
  }

  class WSHub {
    var clients: set<Client>
    var chans: map<Client, Chan>

    constructor ()
      ensures clients == {} && chans == map[]
    {
      clients, chans := {}, map[];
    }

    method Register(c: Client)
      requires c !in chans
      modifies this
      ensures clients == old(clients) + {c} && chans == old(chans)[c := Chan([], false)]
      ensures forall s: State :: IsState(s, old(clients), old(chans)) ==> IsState(AfterRegister(s, c), clients, chans)
    {
      clients := clients + {c};
      chans := chans[c := Chan([], false)];
    }

    method Unregister(c: Client)
      requires clients <= chans.Keys
      modifies this
      ensures clients == old(clients) - {c}
      ensures chans == if c in old(clients) then old(chans)[c := old(chans)[c].(closed := true)] else old(chans)
      ensures forall s: State :: IsState(s, old(clients), old(chans)) && c in s.chans ==>
                IsState(AfterUnregister(s, c), clients, chans)
    {
      if c in clients {
        clients := clients - {c};
        chans := chans[c := chans[c].(closed := true)];
      }
    }

    method Broadcast(m: Message)
      requires clients <= chans.Keys
      modifies this`chans
      ensures chans == Delivered(old(chans), clients, m)
      ensures chans.Keys == old(chans).Keys
      ensures forall c :: c in chans && c in clients && |old(chans)[c].queue| < 64 ==>
                chans[c] == Chan(old(chans)[c].queue + [m], old(chans)[c].closed)
      ensures forall c :: c in chans && (c !in clients || |old(chans)[c].queue| >= 64) ==> chans[c] == old(chans)[c]
    {
      var remaining := clients;
      while remaining != {}
        invariant remaining <= clients && chans == Delivered(old(chans), clients - remaining, m)
        decreases remaining
      {
        var c :| c in remaining;
        remaining := remaining - {c};
        if |chans[c].queue| < SEND_BUFFER {
          chans := chans[c := chans[c].(queue := chans[c].queue + [m])];
        }
      }
      assert clients - {} == clients;
    }
  }

  /** Every client of the set is offered the message. */
  function Delivered(chans: map<Client, Chan>, clients: set<Client>, m: Message): map<Client, Chan> {
    map c | c in chans :: if c in clients then Offered(chans[c], m) else chans[c]
  }

  /** The Send steps of one broadcast to the listed clients. */
  function AfterSends(s: State, b: Broadcaster, order: seq<Client>): State
    requires b in s.active && forall c :: c in order ==> c in s.chans
    decreases |order|
  {
    if order == [] then s else AfterSends(AfterSend(s, b, order[0]), b, order[1..])
  }

  /**
   * Uninterrupted, the steps of a broadcast do to the channels what the method does, in whatever order the
   * clients are reached.
   */
  lemma {:induction false} SendsDeliver(s: State, b: Broadcaster, order: seq<Client>)
    requires b in s.active && forall c :: c in order ==> c in s.chans
    requires forall i, j :: 0 <= i < j < |order| ==> order[i] != order[j]
    ensures AfterSends(s, b, order).chans
         == Delivered(s.chans, (set c | c in order), Message(b, s.active[b].number, s.active[b].data))
    decreases |order|
  {
    if order != [] {
      var t := AfterSend(s, b, order[0]);
      SendsDeliver(t, b, order[1..]);
      assert order[0] !in order[1..];
      assert (set c | c in order) == {order[0]} + (set c | c in order[1..]) by {
        assert order == [order[0]] + order[1..];
      }
    }
  }
}
