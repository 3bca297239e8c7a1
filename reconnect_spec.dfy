/** The bookkeeping of the streaming client as values: what each operation of the live
    implementation does to the connected flag, the reconnect counter, the single-flight flag,
    the posted work and the callbacks that fire. Transport outcomes come from an oracle:
    `handshakeOk(k)` says whether the k-th handshake attempt succeeds. */
module ReconnectSpec {

  /** The client's configuration record and its defaults. */
  datatype Config = Config(maxReconnectAttempts: int, reconnectIntervalMs: int,
                           connectionTimeoutMs: int, autoReconnect: bool)

  function DefaultConfig(): (c: Config)
    ensures c.maxReconnectAttempts == 5 && c.reconnectIntervalMs == 5000
    ensures c.connectionTimeoutMs == 10000 && c.autoReconnect
  {
    Config(5, 5000, 10000, true)
  }

  /** Which operation reported an error through the error callback. */
  datatype ErrorSource = HandshakeFailed | ReadFailed | WriteFailed | CloseFailed

  /** A callback invocation: connect, error, disconnect or message. */
  datatype Event = Connected | Error(source: ErrorSource) | Disconnected | Message(payload: string)

  /** Work posted to the I/O context: a write of one message, or a close. */
  datatype Task = WriteTask(message: string) | CloseTask

  /** The client's state. `readPending` says an asynchronous read is armed; `handshakes`
      counts handshake attempts so far and indexes the oracle; `written` lists the messages
      the transport accepted; `events` is the log of callbacks fired. */
  datatype Client = Client(
    config: Config,
    uri: string,
    connected: bool,
    attempts: int,
    scheduled: bool,
    readPending: bool,
    handshakes: nat,
    posted: seq<Task>,
    written: seq<string>,
    events: seq<Event>)

  /** A freshly constructed client. */
  function Initial(config: Config): Client
  {
    Client(config, "", false, 0, false, false, 0, [], [], [])
  }

  /** Lower once a reconnect is in flight, so that the mutual recursion below ends. */
  function Rank(s: Client): nat
  {
    if s.scheduled then 0 else 1
  }

  /** `doConnect`: one handshake attempt. Success marks the client connected, fires the
      connect callback and arms a read; failure clears the flag, fires the error callback and,
      with auto-reconnect on, asks for a reconnect. */
  function DoConnect(s: Client, handshakeOk: nat -> bool): Client
    decreases Rank(s), 1
  {
    var tried := s.(handshakes := s.handshakes + 1);
    if handshakeOk(s.handshakes) then
      tried.(connected := true, events := s.events + [Connected], readPending := true)
    else
      var failed := tried.(connected := false, events := s.events + [Error(HandshakeFailed)]);
      if s.config.autoReconnect then ScheduleReconnect(failed, handshakeOk) else failed
  }

  /** `scheduleReconnect`: ignored while a reconnect is in flight; otherwise counts one more
      attempt, makes it only while the count is within the configured maximum, and clears the
      flag again. */
  function ScheduleReconnect(s: Client, handshakeOk: nat -> bool): Client
    decreases Rank(s), 0
  {
    if s.scheduled then s
    else
      var counted := s.(scheduled := true, attempts := s.attempts + 1);
      var tried :=
        if counted.attempts <= counted.config.maxReconnectAttempts then DoConnect(counted, handshakeOk)
        else counted;
      tried.(scheduled := false)
  }

  /** `connect`: remembers the URI and makes the first handshake attempt. */
  function Connect(s: Client, uri: string, handshakeOk: nat -> bool): Client
  {
    DoConnect(s.(uri := uri), handshakeOk)
  }

  /** `send`: posts a write while connected; otherwise the message is dropped. */
  function Send(s: Client, message: string): Client
  {
    if s.connected then s.(posted := s.posted + [WriteTask(message)]) else s
  }

  /** `close`: posts a close. */
  function Close(s: Client): Client
  {
    s.(posted := s.posted + [CloseTask])
  }

  /** `doSend`: the write either reaches the transport or fires the error callback. */
  function DoSend(s: Client, message: string, ok: bool): Client
  {
    if ok then s.(written := s.written + [message]) else s.(events := s.events + [Error(WriteFailed)])
  }

  /** `doClose`: a completed close clears the flag and fires the disconnect callback; a failed
      one fires the error callback only. */
  function DoClose(s: Client, ok: bool): Client
  {
    if ok then s.(connected := false, events := s.events + [Disconnected])
    else s.(events := s.events + [Error(CloseFailed)])
  }

  /** The I/O context running the oldest posted task, with the transport outcome `ok`. */
  function RunTask(s: Client, ok: bool): Client
    requires s.posted != []
  {
    var rest := s.(posted := s.posted[1..]);
    match s.posted[0]
    case WriteTask(m) => DoSend(rest, m, ok)
    case CloseTask => DoClose(rest, ok)
  }

  /** The completion handler of the armed read: an error clears the flag, fires the error
      callback and, with auto-reconnect on, asks for a reconnect; a message is handed to the
      message callback and a new read is armed. */
  function ReadCompleted(s: Client, ok: bool, payload: string, handshakeOk: nat -> bool): Client
  {
    var done := s.(readPending := false);
    if !ok then
      var failed := done.(connected := false, events := s.events + [Error(ReadFailed)]);
      if s.config.autoReconnect then ScheduleReconnect(failed, handshakeOk) else failed
    else
      done.(events := s.events + [Message(payload)], readPending := true)
  }

  /** `resetReconnectAttempts`: defined, but no operation calls it. */
  function ResetReconnectAttempts(s: Client): Client
  {
    s.(attempts := 0)
  }

  /** Everything that can happen to a client after its one `connect`: the public calls other
      than `connect`, and the I/O context completing a posted task or the armed read with a
      given outcome. A later `connect`, legal once `run` or `stop` has joined the I/O thread,
      is not among them; `ConnectKeepsAccount` covers it on its own. */
  datatype Op =
    | SendOp(message: string)
    | CloseOp
    | RunTaskOp(ok: bool)
    | ReadOp(ok: bool, payload: string)

  /** One operation. A task completion with nothing posted, or a read completion with no read
      armed, cannot happen and changes nothing. */
  function Step(s: Client, op: Op, handshakeOk: nat -> bool): Client
  {
    match op
    case SendOp(m) => Send(s, m)
    case CloseOp => Close(s)
    case RunTaskOp(ok) => if s.posted != [] then RunTask(s, ok) else s
    case ReadOp(ok, payload) => if s.readPending then ReadCompleted(s, ok, payload, handshakeOk) else s
  }

  /** The life of a client connected once: constructed, connected, then the operations in
      order. */
  function Lifetime(config: Config, uri: string, ops: seq<Op>, handshakeOk: nat -> bool): Client
  {
    Run(Connect(Initial(config), uri, handshakeOk), ops, handshakeOk)
  }

  /** The operations applied in order. */
  function Run(s: Client, ops: seq<Op>, handshakeOk: nat -> bool): Client
  {
    if ops == [] then s else Step(Run(s, ops[..|ops| - 1], handshakeOk), ops[|ops| - 1], handshakeOk)
  }

  // ---------------------------------------------------------------------------------------
  // Lemmas

  /** A new client is disconnected, has made no attempt, and has no reconnect in flight. */
  lemma InitialState(config: Config)
    ensures var s := Initial(config);
      !s.connected && s.attempts == 0 && !s.scheduled && s.config == config && s.events == []
  {
  }

  /** Sending while disconnected changes nothing; while connected it only posts the write. */
  lemma SendOnlyWhileConnected(s: Client, message: string)
    ensures !s.connected ==> Send(s, message) == s
    ensures s.connected ==>
      Send(s, message).posted == s.posted + [WriteTask(message)]
      && Send(s, message).(posted := s.posted) == s
  {
  }

  /** The flag a reconnect sets is always cleared again before control returns: neither
      operation changes its value. */
  lemma FlagRestored(s: Client, handshakeOk: nat -> bool)
    ensures DoConnect(s, handshakeOk).scheduled == s.scheduled
    ensures ScheduleReconnect(s, handshakeOk).scheduled == s.scheduled
  {
  }

  /** Single flight: while a reconnect is in flight, another request does nothing at all. */
  lemma SingleFlight(s: Client, handshakeOk: nat -> bool)
    requires s.scheduled
    ensures ScheduleReconnect(s, handshakeOk) == s
  {
  }

  /** A connection attempt made while a reconnect is in flight: on success the client is
      connected with a read armed; on failure only the error callback fires, because the
      nested reconnect request is ignored. */
  lemma NestedConnect(s: Client, handshakeOk: nat -> bool)
    requires s.scheduled
    ensures var r := DoConnect(s, handshakeOk);
      r.handshakes == s.handshakes + 1 && r.attempts == s.attempts && r.scheduled && r.config == s.config
      && (handshakeOk(s.handshakes) ==>
            r.connected && r.readPending && r.events == s.events + [Connected])
      && (!handshakeOk(s.handshakes) ==>
            !r.connected && r.readPending == s.readPending
            && r.events == s.events + [Error(HandshakeFailed)])
  {
  }

  /** An admitted reconnect counts exactly one attempt, makes exactly one handshake attempt
      when the count is within the maximum and none beyond it, and clears the flag. */
  lemma AdmittedReconnect(s: Client, handshakeOk: nat -> bool)
    requires !s.scheduled
    ensures var r := ScheduleReconnect(s, handshakeOk);
      r.attempts == s.attempts + 1 && !r.scheduled && r.config == s.config
      && r.handshakes == s.handshakes + (if s.attempts + 1 <= s.config.maxReconnectAttempts then 1 else 0)
    ensures s.attempts + 1 > s.config.maxReconnectAttempts ==>
      ScheduleReconnect(s, handshakeOk) == s.(attempts := s.attempts + 1)
    ensures var r := ScheduleReconnect(s, handshakeOk);
      s.attempts + 1 <= s.config.maxReconnectAttempts ==>
        (handshakeOk(s.handshakes) ==> r.connected && r.events == s.events + [Connected])
        && (!handshakeOk(s.handshakes) ==> !r.connected && r.events == s.events + [Error(HandshakeFailed)])
  {
    var counted := s.(scheduled := true, attempts := s.attempts + 1);
    if counted.attempts <= counted.config.maxReconnectAttempts {
      NestedConnect(counted, handshakeOk);
    }
  }

  /** The outcome of a connection attempt with no reconnect in flight. Success: connected,
      connect callback, read armed, nothing else touched. Failure: the error callback fires
      first, not connected unless the reconnect it triggers succeeds, and a reconnect is
      requested exactly when auto-reconnect is on. */
  lemma ConnectOutcome(s: Client, handshakeOk: nat -> bool)
    requires !s.scheduled
    ensures var r := DoConnect(s, handshakeOk);
      handshakeOk(s.handshakes) ==>
        r == s.(connected := true, readPending := true, handshakes := s.handshakes + 1,
                events := s.events + [Connected])
    ensures var r := DoConnect(s, handshakeOk);
      !handshakeOk(s.handshakes) ==>
        |r.events| > |s.events| && r.events[..|s.events| + 1] == s.events + [Error(HandshakeFailed)]
        && (r.attempts == s.attempts + 1 <==> s.config.autoReconnect)
        && (r.connected ==> s.config.autoReconnect)
    ensures var r := DoConnect(s, handshakeOk);
      !handshakeOk(s.handshakes) && !s.config.autoReconnect ==>
        r == s.(connected := false, handshakes := s.handshakes + 1,
                events := s.events + [Error(HandshakeFailed)])
  {
    if !handshakeOk(s.handshakes) && s.config.autoReconnect {
      var failed := s.(handshakes := s.handshakes + 1, connected := false,
                       events := s.events + [Error(HandshakeFailed)]);
      AdmittedReconnect(failed, handshakeOk);
      var r := DoConnect(s, handshakeOk);
      assert r == ScheduleReconnect(failed, handshakeOk);
      assert r.events[..|s.events| + 1] == failed.events by {
        if failed.attempts + 1 <= failed.config.maxReconnectAttempts {
          assert r.events == failed.events + [r.events[|r.events| - 1]];
        } else {
          assert r.events == failed.events;
        }
      }
    }
  }

  /** No retry chain: one connection attempt with no reconnect in flight leads to at most one
      reconnect attempt, so at most two handshakes, and leaves no reconnect in flight. */
  lemma NoRetryChain(s: Client, handshakeOk: nat -> bool)
    requires !s.scheduled
    ensures var r := DoConnect(s, handshakeOk);
      s.handshakes + 1 <= r.handshakes <= s.handshakes + 2
      && s.attempts <= r.attempts <= s.attempts + 1 && !r.scheduled
  {
    if !handshakeOk(s.handshakes) && s.config.autoReconnect {
      AdmittedReconnect(s.(handshakes := s.handshakes + 1, connected := false,
                           events := s.events + [Error(HandshakeFailed)]), handshakeOk);
    }
  }

  /** The read completion handler. A message goes to the message callback and a new read is
      armed, nothing else changes. An error clears the flag and fires the error callback; with
      auto-reconnect off nothing more happens, with it on exactly one reconnect is counted. */
  lemma ReadHandler(s: Client, ok: bool, payload: string, handshakeOk: nat -> bool)
    requires s.readPending && !s.scheduled
    ensures ok ==> ReadCompleted(s, ok, payload, handshakeOk) == s.(events := s.events + [Message(payload)])
    ensures var r := ReadCompleted(s, ok, payload, handshakeOk);
      !ok ==>
        |r.events| > |s.events| && r.events[|s.events|] == Error(ReadFailed)
        && (r.attempts == s.attempts + 1 <==> s.config.autoReconnect) && !r.scheduled
        && (!s.config.autoReconnect ==>
              r == s.(readPending := false, connected := false, events := s.events + [Error(ReadFailed)]))
  {
    if !ok && s.config.autoReconnect {
      var failed := s.(readPending := false, connected := false, events := s.events + [Error(ReadFailed)]);
      AdmittedReconnect(failed, handshakeOk);
      var r := ReadCompleted(s, ok, payload, handshakeOk);
      assert r == ScheduleReconnect(failed, handshakeOk);
      assert r.events[|s.events|] == Error(ReadFailed) by {
        if failed.attempts + 1 <= failed.config.maxReconnectAttempts {
          assert r.events == failed.events + [r.events[|r.events| - 1]];
        } else {
          assert r.events == failed.events;
        }
      }
    }
  }

  /** A write that reaches the transport records the message and changes nothing else; a
      failed one fires only the error callback. Neither disconnects nor reconnects. */
  lemma WriteOutcome(s: Client, message: string, ok: bool)
    ensures ok ==> DoSend(s, message, ok) == s.(written := s.written + [message])
    ensures !ok ==> DoSend(s, message, ok) == s.(events := s.events + [Error(WriteFailed)])
    ensures DoSend(s, message, ok).connected == s.connected
    ensures DoSend(s, message, ok).attempts == s.attempts && DoSend(s, message, ok).handshakes == s.handshakes
  {
  }

  /** A completed close clears the flag and fires the disconnect callback and never schedules
      a reconnect; a failed close fires only the error callback. */
  lemma CloseOutcome(s: Client, ok: bool)
    ensures ok ==> DoClose(s, ok) == s.(connected := false, events := s.events + [Disconnected])
    ensures !ok ==> DoClose(s, ok) == s.(events := s.events + [Error(CloseFailed)])
    ensures DoClose(s, ok).attempts == s.attempts && DoClose(s, ok).handshakes == s.handshakes
  {
  }

  /** The attempt counter never decreases, whatever operation runs: nothing calls the reset. */
  lemma {:induction false} StepNeverLowersAttempts(s: Client, op: Op, handshakeOk: nat -> bool)
    requires !s.scheduled
    ensures s.attempts <= Step(s, op, handshakeOk).attempts
    ensures !Step(s, op, handshakeOk).scheduled
  {
    match op
    case ReadOp(ok, payload) =>
      if s.readPending {
        ReadHandler(s, ok, payload, handshakeOk);
      }
    case _ =>
  }

  /** Over any run of operations from a state with no reconnect in flight, the attempt counter
      never decreases and no reconnect is left in flight. */
  lemma {:induction false} RunNeverLowersAttempts(s: Client, ops: seq<Op>, handshakeOk: nat -> bool)
    requires !s.scheduled
    ensures s.attempts <= Run(s, ops, handshakeOk).attempts
    ensures !Run(s, ops, handshakeOk).scheduled
    decreases |ops|
  {
    if ops != [] {
      RunNeverLowersAttempts(s, ops[..|ops| - 1], handshakeOk);
      StepNeverLowersAttempts(Run(s, ops[..|ops| - 1], handshakeOk), ops[|ops| - 1], handshakeOk);
    }
  }

  /** Once the counter has reached the maximum, a reconnect request never attempts a
      handshake again. */
  lemma ExhaustedReconnectIsInert(s: Client, handshakeOk: nat -> bool)
    requires s.attempts >= s.config.maxReconnectAttempts
    ensures ScheduleReconnect(s, handshakeOk).handshakes == s.handshakes
    ensures ScheduleReconnect(s, handshakeOk).attempts >= s.attempts
  {
  }

  /** Once the counter has reached the maximum, no operation short of a new `connect` ever
      attempts a handshake again. */
  lemma {:induction false} ExhaustedRunMakesNoHandshake(s: Client, ops: seq<Op>, handshakeOk: nat -> bool)
    requires !s.scheduled && s.attempts >= s.config.maxReconnectAttempts
    ensures Run(s, ops, handshakeOk).handshakes == s.handshakes
    ensures Run(s, ops, handshakeOk).config == s.config
    ensures Run(s, ops, handshakeOk).attempts >= s.attempts
    decreases |ops|
  {
    if ops != [] {
      var init := ops[..|ops| - 1];
      ExhaustedRunMakesNoHandshake(s, init, handshakeOk);
      var mid := Run(s, init, handshakeOk);
      RunNeverLowersAttempts(s, init, handshakeOk);
      var op := ops[|ops| - 1];
      if op.ReadOp? && mid.readPending && !op.ok && mid.config.autoReconnect {
        var failed := mid.(readPending := false, connected := false, events := mid.events + [Error(ReadFailed)]);
        ExhaustedReconnectIsInert(failed, handshakeOk);
      }
    }
  }

  /** Each reconnect request admitted from a non-negative count adds exactly the handshakes
      that `Reconnects` assigns to the step of the count. */
  lemma ReconnectAccount(s: Client, handshakeOk: nat -> bool)
    requires !s.scheduled && s.attempts >= 0
    ensures var r := ScheduleReconnect(s, handshakeOk);
      r.handshakes + Reconnects(s.attempts, s.config.maxReconnectAttempts)
      == s.handshakes + Reconnects(r.attempts, s.config.maxReconnectAttempts)
      && r.attempts == s.attempts + 1 && r.config == s.config && !r.scheduled
  {
    AdmittedReconnect(s, handshakeOk);
  }

  /** Every operation after the connect keeps the handshake count in step with the number of
      admitted reconnects. */
  lemma {:induction false} StepKeepsAccount(s: Client, op: Op, handshakeOk: nat -> bool)
    requires !s.scheduled && s.attempts >= 0
    ensures var r := Step(s, op, handshakeOk);
      r.handshakes + Reconnects(s.attempts, s.config.maxReconnectAttempts)
      == s.handshakes + Reconnects(r.attempts, s.config.maxReconnectAttempts)
      && r.config == s.config && !r.scheduled && r.attempts >= s.attempts
  {
    match op
    case ReadOp(ok, payload) =>
      if s.readPending && !ok && s.config.autoReconnect {
        ReconnectAccount(s.(readPending := false, connected := false,
                            events := s.events + [Error(ReadFailed)]), handshakeOk);
      }
    case _ =>
  }

  /** A `connect` from any state with no reconnect in flight makes its own handshake and
      otherwise keeps the handshake count in step with the admitted reconnects: since the
      counter is never reset, reconnect handshakes stay within the maximum however many times
      the client connects. */
  lemma ConnectKeepsAccount(s: Client, uri: string, handshakeOk: nat -> bool)
    requires !s.scheduled && s.attempts >= 0
    ensures var r := Connect(s, uri, handshakeOk);
      r.handshakes + Reconnects(s.attempts, s.config.maxReconnectAttempts)
      == s.handshakes + 1 + Reconnects(r.attempts, s.config.maxReconnectAttempts)
      && r.config == s.config && !r.scheduled && r.attempts >= s.attempts
  {
    var t := s.(uri := uri);
    ConnectOutcome(t, handshakeOk);
    if !handshakeOk(t.handshakes) && t.config.autoReconnect {
      var failed := t.(handshakes := t.handshakes + 1).(connected := false,
                       events := t.events + [Error(HandshakeFailed)]);
      assert Connect(s, uri, handshakeOk) == ScheduleReconnect(failed, handshakeOk);
      ReconnectAccount(failed, handshakeOk);
    }
  }

  lemma {:induction false} RunKeepsAccount(s: Client, ops: seq<Op>, handshakeOk: nat -> bool)
    requires !s.scheduled && s.attempts >= 0
    ensures var r := Run(s, ops, handshakeOk);
      r.handshakes + Reconnects(s.attempts, s.config.maxReconnectAttempts)
      == s.handshakes + Reconnects(r.attempts, s.config.maxReconnectAttempts)
      && r.config == s.config && !r.scheduled && r.attempts >= s.attempts
    decreases |ops|
  {
    if ops != [] {
      var init := ops[..|ops| - 1];
      RunKeepsAccount(s, init, handshakeOk);
      StepKeepsAccount(Run(s, init, handshakeOk), ops[|ops| - 1], handshakeOk);
    }
  }

  /** Over the life of a client connected once, every handshake is either the one `connect` makes or one
      admitted reconnect, so reconnect handshakes never exceed the configured maximum; and the
      attempt counter never goes below zero. */
  lemma ReconnectsAreBounded(config: Config, uri: string, ops: seq<Op>, handshakeOk: nat -> bool)
    ensures var r := Lifetime(config, uri, ops, handshakeOk);
      r.handshakes == 1 + Reconnects(r.attempts, config.maxReconnectAttempts)
      && r.handshakes <= 1 + (if config.maxReconnectAttempts > 0 then config.maxReconnectAttempts else 0)
      && r.attempts >= 0 && !r.scheduled
  {
    var s := Initial(config).(uri := uri);
    var c := Connect(Initial(config), uri, handshakeOk);
    ConnectOutcome(s, handshakeOk);
    if !handshakeOk(0) && config.autoReconnect {
      var failed := s.(handshakes := 1).(connected := false, events := s.events + [Error(HandshakeFailed)]);
      assert c == ScheduleReconnect(failed, handshakeOk);
      ReconnectAccount(failed, handshakeOk);
    }
    assert c.handshakes == 1 + Reconnects(c.attempts, config.maxReconnectAttempts);
    RunKeepsAccount(c, ops, handshakeOk);
  }

  /** Connecting to a server whose every handshake fails, with auto-reconnect on: one attempt
      is counted, one reconnect handshake is made if the maximum allows any, each handshake
      fires one error callback, and the client ends disconnected with no read armed. */
  lemma DeadServer(config: Config, uri: string)
    requires config.autoReconnect
    ensures var r := Connect(Initial(config), uri, NeverOk);
      r.attempts == 1 && !r.connected && !r.readPending && !r.scheduled
      && r.handshakes == 1 + Reconnects(1, config.maxReconnectAttempts)
      && r.events == seq(r.handshakes, _ => Error(HandshakeFailed))
  {
    var s := Initial(config).(uri := uri);
    var failed := s.(handshakes := 1).(connected := false, events := s.events + [Error(HandshakeFailed)]);
    assert !NeverOk(0) && !NeverOk(1);
    AdmittedReconnect(failed, NeverOk);
    var r := Connect(Initial(config), uri, NeverOk);
    assert r == ScheduleReconnect(failed, NeverOk);
    if 1 <= config.maxReconnectAttempts {
      NestedConnect(failed.(scheduled := true, attempts := 1), NeverOk);
      assert r.events == [Error(HandshakeFailed), Error(HandshakeFailed)];
      assert r.handshakes == 2;
    } else {
      assert r.events == [Error(HandshakeFailed)];
      assert r.handshakes == 1;
    }
  }

  /** A disconnected client with no read armed makes no further handshake and does not
      become connected again, whatever operations other than a new `connect` follow: the
      live code gives up after the reconnect that one failure admits. */
  lemma {:induction false} DisconnectedStaysDown(s: Client, ops: seq<Op>, handshakeOk: nat -> bool)
    requires !s.connected && !s.readPending
    ensures var r := Run(s, ops, handshakeOk);
      r.handshakes == s.handshakes && !r.connected && !r.readPending && r.attempts == s.attempts
    decreases |ops|
  {
    if ops != [] {
      DisconnectedStaysDown(s, ops[..|ops| - 1], handshakeOk);
    }
  }

  /** Every counted attempt, and the armed read if there is one, was preceded by a handshake
      attempt of its own: a read is armed only by a successful handshake or by re-arming, and
      a read error (which needs an armed read) is what counts an attempt after the connect. */
  predicate AttemptsCovered(s: Client)
  {
    s.attempts + (if s.readPending then 1 else 0) <= s.handshakes
  }

  /** An admitted reconnect from a state with no read armed and a handshake to spare keeps
      every attempt covered. */
  lemma ReconnectKeepsCovered(s: Client, handshakeOk: nat -> bool)
    requires !s.scheduled && !s.readPending && s.attempts + 1 <= s.handshakes
    ensures AttemptsCovered(ScheduleReconnect(s, handshakeOk))
    ensures !ScheduleReconnect(s, handshakeOk).scheduled
  {
    AdmittedReconnect(s, handshakeOk);
    var counted := s.(scheduled := true, attempts := s.attempts + 1);
    if counted.attempts <= counted.config.maxReconnectAttempts {
      NestedConnect(counted, handshakeOk);
    }
  }

  /** Every operation after the connect keeps every attempt covered. */
  lemma {:induction false} StepKeepsCovered(s: Client, op: Op, handshakeOk: nat -> bool)
    requires !s.scheduled && AttemptsCovered(s)
    ensures AttemptsCovered(Step(s, op, handshakeOk)) && !Step(s, op, handshakeOk).scheduled
  {
    match op
    case ReadOp(ok, payload) =>
      if s.readPending && !ok && s.config.autoReconnect {
        ReconnectKeepsCovered(s.(readPending := false, connected := false,
                                 events := s.events + [Error(ReadFailed)]), handshakeOk);
      }
    case _ =>
  }

  lemma {:induction false} RunKeepsCovered(s: Client, ops: seq<Op>, handshakeOk: nat -> bool)
    requires !s.scheduled && AttemptsCovered(s)
    ensures AttemptsCovered(Run(s, ops, handshakeOk)) && !Run(s, ops, handshakeOk).scheduled
    decreases |ops|
  {
    if ops != [] {
      var init := ops[..|ops| - 1];
      RunKeepsCovered(s, init, handshakeOk);
      StepKeepsCovered(Run(s, init, handshakeOk), ops[|ops| - 1], handshakeOk);
    }
  }

  /** The attempt counter stays small over the life of a client connected once: it never exceeds the number
      of handshakes, so never exceeds one more than the configured maximum (six with the
      defaults), however many reads fail. */
  lemma AttemptsAreBounded(config: Config, uri: string, ops: seq<Op>, handshakeOk: nat -> bool)
    ensures var r := Lifetime(config, uri, ops, handshakeOk);
      r.attempts <= r.handshakes
      && r.attempts <= 1 + (if config.maxReconnectAttempts > 0 then config.maxReconnectAttempts else 0)
  {
    var s := Initial(config).(uri := uri);
    var c := Connect(Initial(config), uri, handshakeOk);
    ConnectOutcome(s, handshakeOk);
    if !handshakeOk(0) && config.autoReconnect {
      var failed := s.(handshakes := 1).(connected := false, events := s.events + [Error(HandshakeFailed)]);
      assert c == ScheduleReconnect(failed, handshakeOk);
      ReconnectKeepsCovered(failed, handshakeOk);
    }
    assert AttemptsCovered(c) && !c.scheduled;
    RunKeepsCovered(c, ops, handshakeOk);
    ReconnectsAreBounded(config, uri, ops, handshakeOk);
  }

  /** A server that refuses every handshake. */
  const NeverOk: nat -> bool := _ => false

  /** How many of the first `n` attempt counts are within `max`. */
  function Reconnects(n: int, max: int): nat
  {
    if max <= 0 || n <= 0 then 0 else if n <= max then n else max
  }
}
