/** The streaming client as an object whose methods update its fields, each proved to move
    the fields exactly as the matching function of `ReconnectSpec` moves the state. */
module WebSocket {
  import opened ReconnectSpec

  class WebSocketClient {
    const config: Config
    /** Whether the k-th handshake attempt succeeds: the transport, as an oracle. */
    const handshakeSucceeds: nat -> bool
    /** Whether `connect` has started the I/O thread; it is never joined in this model. */
    var ioThreadStarted: bool
    var currentUri: string
    var isConnected: bool
    var reconnectAttempts: int
    var reconnectScheduled: bool
    var readPending: bool
    var handshakes: nat
    var posted: seq<Task>
    var written: seq<string>
    var events: seq<Event>

    /** The fields as a `ReconnectSpec.Client` value. */
    function Model(): Client
      reads this
    {
      Client(config, currentUri, isConnected, reconnectAttempts, reconnectScheduled,
             readPending, handshakes, posted, written, events)
    }

    /** `isConnected`: the connected flag. */
    function IsConnected(): bool
      reads this
    {
      isConnected
    }

    constructor (config: Config, handshakeSucceeds: nat -> bool)
      ensures Model() == Initial(config)
      ensures this.handshakeSucceeds == handshakeSucceeds && !ioThreadStarted
    {
      this.config := config;
      this.handshakeSucceeds := handshakeSucceeds;
      ioThreadStarted := false;
      currentUri := "";
      isConnected := false;
      reconnectAttempts := 0;
      reconnectScheduled := false;
      readPending := false;
      handshakes := 0;
      posted := [];
      written := [];
      events := [];
    }

    /** `connect`: remembers the URI, starts the I/O thread and makes one handshake attempt.
        Starting a second thread over a running one would end the process, so it is called
        once. */
    method Connect(uri: string)
      requires !ioThreadStarted
      modifies this
      ensures Model() == ReconnectSpec.Connect(old(Model()), uri, handshakeSucceeds)
      ensures ioThreadStarted
    {
      currentUri := uri;
      ioThreadStarted := true;
      DoConnect(uri);
    }

    /** `doConnect`: one handshake attempt against the oracle. */
    method DoConnect(uri: string)
      modifies this
      ensures Model() == ReconnectSpec.DoConnect(old(Model()), handshakeSucceeds)
      ensures ioThreadStarted == old(ioThreadStarted)
      decreases if reconnectScheduled then 0 else 1, 1
    {
      var ok := handshakeSucceeds(handshakes);
      handshakes := handshakes + 1;
      if ok {
        isConnected := true;
        events := events + [Connected];
        ReadMessage();
      } else {
        isConnected := false;
        events := events + [Error(HandshakeFailed)];
        if config.autoReconnect {
          ScheduleReconnect();
        }
      }
    }

    /** `scheduleReconnect`: the flag is exchanged for true; only the caller that saw it
        false counts an attempt, reconnects within the maximum, and clears the flag. */
    method ScheduleReconnect()
      modifies this
      ensures Model() == ReconnectSpec.ScheduleReconnect(old(Model()), handshakeSucceeds)
      ensures ioThreadStarted == old(ioThreadStarted)
      decreases if reconnectScheduled then 0 else 1, 0
    {
      var wasScheduled := reconnectScheduled;
      reconnectScheduled := true;
      if !wasScheduled {
        reconnectAttempts := reconnectAttempts + 1;
        if reconnectAttempts <= config.maxReconnectAttempts {
          DoConnect(currentUri);
        }
        reconnectScheduled := false;
      }
    }

    /** `readMessage`: arms an asynchronous read. */
    method ReadMessage()
      modifies this
      ensures Model() == old(Model()).(readPending := true)
      ensures ioThreadStarted == old(ioThreadStarted)
    {
      readPending := true;
    }

    /** The completion handler of the armed read, with the transport's outcome. */
    method OnReadComplete(ok: bool, payload: string)
      requires readPending
      modifies this
      ensures Model() == ReadCompleted(old(Model()), ok, payload, handshakeSucceeds)
      ensures ioThreadStarted == old(ioThreadStarted)
    {
      readPending := false;
      if !ok {
        isConnected := false;
        events := events + [Error(ReadFailed)];
        if config.autoReconnect {
          ScheduleReconnect();
        }
      } else {
        events := events + [Message(payload)];
        ReadMessage();
      }
    }

    /** `send`: posts a write while connected, drops the message otherwise. */
    method Send(message: string)
      modifies this
      ensures Model() == ReconnectSpec.Send(old(Model()), message)
      ensures ioThreadStarted == old(ioThreadStarted)
    {
      if isConnected {
        posted := posted + [WriteTask(message)];
      }
    }

    /** `close`: posts a close. */
    method Close()
      modifies this
      ensures Model() == ReconnectSpec.Close(old(Model()))
      ensures ioThreadStarted == old(ioThreadStarted)
    {
      posted := posted + [CloseTask];
    }

    /** `doSend`: a synchronous write with the transport's outcome. */
    method DoSend(message: string, ok: bool)
      modifies this
      ensures Model() == ReconnectSpec.DoSend(old(Model()), message, ok)
      ensures ioThreadStarted == old(ioThreadStarted)
    {
      if ok {
        written := written + [message];
      } else {
        events := events + [Error(WriteFailed)];
      }
    }

    /** `doClose`: a close handshake with the transport's outcome. */
    method DoClose(ok: bool)
      modifies this
      ensures Model() == ReconnectSpec.DoClose(old(Model()), ok)
      ensures ioThreadStarted == old(ioThreadStarted)
    {
      if ok {
        isConnected := false;
        events := events + [Disconnected];
      } else {
        events := events + [Error(CloseFailed)];
      }
    }

    /** The I/O context running the oldest posted task. */
    method RunNextTask(ok: bool)
      requires posted != []
      modifies this
      ensures Model() == RunTask(old(Model()), ok)
      ensures ioThreadStarted == old(ioThreadStarted)
    {
      var task := posted[0];
      posted := posted[1..];
      match task
      case WriteTask(m) => DoSend(m, ok);
      case CloseTask => DoClose(ok);
    }

    /** `resetReconnectAttempts`. */
    method ResetReconnectAttempts()
      modifies this
      ensures Model() == ReconnectSpec.ResetReconnectAttempts(old(Model()))
      ensures ioThreadStarted == old(ioThreadStarted)
    {
      reconnectAttempts := 0;
    }
  }
}
