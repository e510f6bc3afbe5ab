/** The TCP control port: every client has its own input buffer, commands are handed over line by
    line, and a reply goes to the client whose command is being handled. The bytes a read
    returns, the end of a stream, what a handler replies and whether a send succeeds are inputs. */
module ControlPort {
  import opened LineFramer

  datatype Reply = Reply(text: Text, delivered: bool)

  /** What the outside sees: commands handed over, and bytes sent. */
  datatype Event = Handled(fd: int, command: Text) | Sent(fd: int, data: Text)

  type Log = seq<Event>

  /** The replies to a command; the number tells two equal commands apart. */
  type Handler = (nat, Text) -> seq<Reply>

  function Handling(log: Log): int {
    if log == [] then -1
    else if log[|log| - 1].Handled? then log[|log| - 1].fd
    else Handling(log[..|log| - 1])
  }

  /** Every send went to the client of the command handed over last before it. */
  predicate Attributed(log: Log) {
    log == []
    || (Attributed(log[..|log| - 1])
        && (log[|log| - 1].Sent? ==> log[|log| - 1].fd == Handling(log[..|log| - 1])))
  }

  /** The commands of one client since a position in the log. */
  function HandledFor(log: Log, fd: int, from: nat): seq<Text> {
    if |log| <= from then []
    else
      var last := log[|log| - 1];
      HandledFor(log[..|log| - 1], fd, from) + (if last.Handled? && last.fd == fd then [last.command] else [])
  }

  predicate AllDelivered(rs: seq<Reply>) { forall i :: 0 <= i < |rs| ==> rs[i].delivered }

  /** No send of a reply fails, whatever the command. */
  ghost predicate NeverFails(handler: Handler) { forall k: nat, c: Text :: AllDelivered(handler(k, c)) }

  /** What of a handler's replies reaches the client: those before the first failed send. */
  function Sends(fd: int, rs: seq<Reply>): Log {
    if rs == [] then []
    else Sends(fd, rs[..|rs| - 1]) + (if AllDelivered(rs) then [Sent(fd, rs[|rs| - 1].text + [NEWLINE])] else [])
  }

  lemma OneMoreEvent(log: Log, e: Event, fd: int, from: nat)
    requires from <= |log|
    ensures HandledFor(log + [e], fd, from)
            == HandledFor(log, fd, from) + (if e.Handled? && e.fd == fd then [e.command] else [])
    ensures Handling(log + [e]) == (if e.Handled? then e.fd else Handling(log))
    ensures Attributed(log + [e]) <==> Attributed(log) && (e.Sent? ==> e.fd == Handling(log))
  {
  }

  lemma {:induction false} SendsAreNoCommands(log: Log, client: int, rs: seq<Reply>, fd: int, from: nat)
    requires from <= |log|
    ensures HandledFor(log + Sends(client, rs), fd, from) == HandledFor(log, fd, from)
    ensures Handling(log + Sends(client, rs)) == Handling(log)
    ensures Handling(log) == client && Attributed(log) ==> Attributed(log + Sends(client, rs))
    decreases |rs|
  {
    if rs == [] {
      assert log + [] == log;
    } else {
      var init := rs[..|rs| - 1];
      SendsAreNoCommands(log, client, init, fd, from);
      if AllDelivered(rs) {
        var e := Sent(client, rs[|rs| - 1].text + [NEWLINE]);
        OneMoreEvent(log + Sends(client, init), e, fd, from);
        assert log + Sends(client, rs) == (log + Sends(client, init)) + [e];
      } else {
        assert Sends(client, rs) == Sends(client, init);
      }
    }
  }

  /** The log after one command and its replies. */
  function After(log: Log, fd: int, command: Text, handler: Handler): Log {
    log + [Handled(fd, command)] + Sends(fd, handler(|log|, command))
  }

  lemma AfterCommand(log: Log, client: int, command: Text, handler: Handler, fd: int, from: nat)
    requires from <= |log| && Attributed(log)
    ensures var log' := After(log, client, command, handler);
            && Attributed(log') && |log| < |log'|
            && HandledFor(log', fd, from) == HandledFor(log, fd, from) + (if client == fd then [command] else [])
  {
    var e := Handled(client, command);
    OneMoreEvent(log, e, fd, from);
    SendsAreNoCommands(log + [e], client, handler(|log|, command), fd, from);
  }

  /** The log after one line: blank lines are skipped. */
  function AfterLine(log: Log, fd: int, line: Text, handler: Handler): Log {
    if Trim(line) == [] then log else After(log, fd, Trim(line), handler)
  }

  /** A connection: where in the log it began, and all bytes read from it. */
  datatype Stream = Stream(start: nat, received: Text)

  /** What was handed over for a client, and what its buffer will still give, are together the
      commands of everything it sent. */
  predicate Followed(log: Log, fd: int, stream: Stream, buffer: Text) {
    && stream.start <= |log|
    && HandledFor(log, fd, stream.start) + Commands(buffer) == Commands(stream.received)
    && Rest(buffer) == Rest(stream.received)
  }

  predicate Idle(log: Log, fd: int, stream: Stream, buffer: Text) {
    fd >= 0 && Followed(log, fd, stream, buffer) && NEWLINE !in buffer
  }

  /** The last command handed over was not the last one the client had sent. */
  predicate CutShort(log: Log, fd: int, before: seq<Text>, stream: Stream) {
    && stream.start <= |log|
    && before < HandledFor(log, fd, stream.start) <= Commands(stream.received)
  }

  lemma HandOver(log: Log, fd: int, start: nat, line: Text, handler: Handler, more: seq<Text>, all: seq<Text>)
    requires start <= |log| && Attributed(log)
    requires HandledFor(log, fd, start) + (CommandOf(line) + more) == all
    ensures var log' := AfterLine(log, fd, line, handler);
            && Attributed(log') && |log| <= |log'|
            && HandledFor(log', fd, start) == HandledFor(log, fd, start) + CommandOf(line)
            && HandledFor(log', fd, start) + more == all
  {
    Associate(HandledFor(log, fd, start), CommandOf(line), more);
    if Trim(line) != [] {
      AfterCommand(log, fd, Trim(line), handler, fd, start);
    }
  }

  lemma IsPrefix<T>(d: seq<T>, a: seq<T>, b: seq<T>, c: seq<T>)
    requires d <= a
    ensures d <= a + b <= (a + b) + c
    ensures b != [] ==> d < a + b
  {
  }

  /** One line taken off the front of a client's buffer and handed over leaves it followed. */
  lemma AfterOneLine(log: Log, fd: int, stream: Stream, line: Text, tail: Text, handler: Handler, done: seq<Text>)
    requires Followed(log, fd, stream, line + [NEWLINE] + tail) && Attributed(log) && NEWLINE !in line
    requires done <= HandledFor(log, fd, stream.start)
    ensures var log' := AfterLine(log, fd, line, handler);
            && Attributed(log')
            && Followed(log', fd, stream, tail)
            && done <= HandledFor(log', fd, stream.start)
            && (Trim(line) != [] ==> CutShort(log', fd, done, stream))
  {
    CommandsAfterLine(line, tail);
    HandOver(log, fd, stream.start, line, handler, Commands(tail), Commands(stream.received));
    IsPrefix(done, HandledFor(log, fd, stream.start), CommandOf(line), Commands(tail));
  }

  lemma OthersStayIdle(log: Log, client: int, line: Text, handler: Handler, fd: int, stream: Stream, buffer: Text)
    requires Idle(log, fd, stream, buffer) && client != fd && Attributed(log)
    ensures Idle(AfterLine(log, client, line, handler), fd, stream, buffer)
  {
    if Trim(line) != [] {
      AfterCommand(log, client, Trim(line), handler, fd, stream.start);
      assert HandledFor(log, fd, stream.start) + [] == HandledFor(log, fd, stream.start);
    }
  }

  type Buffers = map<int, Text>

  predicate AllIdle(log: Log, clients: Buffers, streams: map<int, Stream>, but: int) {
    && Attributed(log)
    && forall g :: g in clients && g != but ==> g in streams && Idle(log, g, streams[g], clients[g])
  }

  lemma AllStayIdle(log: Log, fd: int, line: Text, handler: Handler, clients: Buffers, clients': Buffers,
                    streams: map<int, Stream>)
    requires AllIdle(log, clients, streams, fd) && Attributed(AfterLine(log, fd, line, handler))
    requires clients' - {fd} == clients - {fd}
    ensures AllIdle(AfterLine(log, fd, line, handler), clients', streams, fd)
  {
    forall g | g in clients' && g != fd
      ensures g in streams && Idle(AfterLine(log, fd, line, handler), g, streams[g], clients'[g])
    {
      assert g in clients' - {fd} && clients'[g] == (clients' - {fd})[g];
      assert g in clients - {fd} && clients[g] == (clients - {fd})[g];
      OthersStayIdle(log, fd, line, handler, g, streams[g], clients[g]);
    }
  }

  lemma AllButOne(log: Log, clients: Buffers, streams: map<int, Stream>, clients': Buffers, streams': map<int, Stream>,
                  fd: int)
    requires AllIdle(log, clients, streams, -1) && -1 !in clients
    requires clients' - {fd} == clients - {fd} && streams' - {fd} == streams - {fd}
    ensures AllIdle(log, clients', streams', fd)
  {
    forall g | g in clients' && g != fd
      ensures g in streams' && Idle(log, g, streams'[g], clients'[g])
    {
      assert g in clients' - {fd} && clients'[g] == (clients' - {fd})[g];
      assert g in clients - {fd} && clients[g] == (clients - {fd})[g];
      assert g in streams - {fd} && streams[g] == (streams - {fd})[g];
      assert g in streams' - {fd} && streams'[g] == (streams' - {fd})[g];
    }
  }

  /** While the lines of one client are processed; done is what it had had handled before. */
  predicate Processing(log: Log, clients: Buffers, streams: map<int, Stream>, fd: int, done: seq<Text>) {
    && fd >= 0 && fd in streams && AllIdle(log, clients, streams, fd)
    && (fd in clients ==> Followed(log, fd, streams[fd], clients[fd])
                          && done <= HandledFor(log, fd, streams[fd].start))
    && (fd !in clients ==> CutShort(log, fd, done, streams[fd]))
  }

  predicate LineGone(clients: Buffers, fd: int, tail: Text, closed: bool, clients': Buffers) {
    && clients' - {fd} == clients - {fd}
    && (closed <==> fd !in clients')
    && (fd in clients' ==> clients'[fd] == tail)
  }

  lemma LineProcessed(log: Log, clients: Buffers, streams: map<int, Stream>, fd: int, done: seq<Text>,
                      line: Text, tail: Text, handler: Handler, closed: bool, clients': Buffers)
    requires Processing(log, clients, streams, fd, done) && fd in clients
    requires clients[fd] == line + [NEWLINE] + tail && NEWLINE !in line
    requires LineGone(clients, fd, tail, closed, clients') && (closed ==> Trim(line) != [])
    ensures Processing(AfterLine(log, fd, line, handler), clients', streams, fd, done)
  {
    AfterOneLine(log, fd, streams[fd], line, tail, handler, done);
    AllStayIdle(log, fd, line, handler, clients, clients', streams);
  }

  lemma NothingLeft(log: Log, clients: Buffers, streams: map<int, Stream>, fd: int, done: seq<Text>)
    requires Processing(log, clients, streams, fd, done)
    requires fd in clients ==> NEWLINE !in clients[fd]
    ensures -1 !in clients && AllIdle(log, clients, streams, -1)
  {
  }

  /** The end of a stream: the whole buffer is one command, and the client is gone. */
  lemma RestHandedOver(log: Log, clients: Buffers, streams: map<int, Stream>, fd: int, handler: Handler)
    requires fd >= 0 && fd in clients && fd in streams && streams[fd].start <= |log|
    requires AllIdle(log, clients, streams, fd)
    ensures var log' := AfterLine(log, fd, clients[fd], handler);
      && -1 !in clients - {fd} && AllIdle(log', clients - {fd}, streams, -1)
      && HandledFor(log', fd, streams[fd].start) == HandledFor(log, fd, streams[fd].start) + CommandOf(clients[fd])
  {
    var input, done := clients[fd], HandledFor(log, fd, streams[fd].start);
    HandOver(log, fd, streams[fd].start, input, handler, [], done + (CommandOf(input) + []));
    AllStayIdle(log, fd, input, handler, clients, clients - {fd}, streams);
    NobodyLeft(AfterLine(log, fd, input, handler), clients - {fd}, streams, fd);
  }

  lemma NobodyLeft(log: Log, clients: Buffers, streams: map<int, Stream>, fd: int)
    requires AllIdle(log, clients, streams, fd) && fd >= 0 && fd !in clients
    ensures -1 !in clients && AllIdle(log, clients, streams, -1)
  {
  }

  /** Bytes read later continue from what is buffered. */
  lemma MoreReceived(log: Log, fd: int, stream: Stream, buffer: Text, data: Text)
    requires Idle(log, fd, stream, buffer)
    ensures Followed(log, fd, Stream(stream.start, stream.received + data), buffer + data)
  {
    NoCommandsYet(buffer);
    CutAnywhere(stream.received, data);
    assert HandledFor(log, fd, stream.start) + [] == HandledFor(log, fd, stream.start);
  }

  lemma HandledWhenIdle(log: Log, fd: int, stream: Stream, buffer: Text)
    requires Idle(log, fd, stream, buffer)
    ensures HandledFor(log, fd, stream.start) == Commands(stream.received)
    ensures buffer == Rest(stream.received)
  {
  }

  function Extended(stream: Stream, arrivals: seq<Text>): Stream {
    Stream(stream.start, stream.received + Concat(arrivals))
  }

  class NetworkInterface {
    var clients: map<int, Text>
    var currentClient: int
    var log: Log
    ghost var streams: map<int, Stream>

    /** Between two activations. */
    ghost predicate Valid()
      reads this
    {
      currentClient == -1 && -1 !in clients && AllIdle(log, clients, streams, -1)
    }

    constructor ()
      ensures Valid() && clients == map[] && log == []
    {
      clients, currentClient, log, streams := map[], -1, [], map[];
    }

    /** A connection was accepted; the descriptor of an open one is never given again. */
    method Accept(fd: int)
      requires Valid() && fd >= 0 && fd !in clients
      modifies this`clients, this`streams
      ensures Valid()
      ensures clients == old(clients)[fd := []]
      ensures streams == old(streams)[fd := Stream(|log|, [])]
    {
      clients := clients[fd := []];
      streams := streams[fd := Stream(|log|, [])];
      NoCommandsYet([]);
    }

    /** The client is forgotten; nothing happens if it already was. */
    method CloseClient(fd: int)
      modifies this`clients
      ensures clients == old(clients) - {fd}
    {
      if fd !in clients {
        return;
      }
      clients := clients - {fd};
    }

    /** A reply goes to the client being handled, or to nobody. */
    method SendResponse(text: Text, delivered: bool)
      modifies this`clients, this`log
      ensures var open := currentClient >= 0 && currentClient in old(clients);
              && log == old(log) + (if open && delivered then [Sent(currentClient, text + [NEWLINE])] else [])
              && clients == (if open && !delivered then old(clients) - {currentClient} else old(clients))
    {
      var fd := currentClient;
      if fd < 0 || fd !in clients {
        return;
      }
      if !delivered {
        CloseClient(fd);
      } else {
        log := log + [Sent(fd, text + [NEWLINE])];
      }
    }

    /** Hands one command over: its replies are sent until one fails, which closes the client. */
    method Dispatch(fd: int, command: Text, handler: Handler)
      requires fd >= 0 && fd in clients && currentClient == -1
      modifies this`clients, this`currentClient, this`log
      ensures currentClient == -1
      ensures log == After(old(log), fd, command, handler)
      ensures clients == if AllDelivered(handler(|old(log)|, command)) then old(clients) else old(clients) - {fd}
    {
      var rs := handler(|log|, command);
      currentClient := fd;
      log := log + [Handled(fd, command)];
      ghost var base := log;
      for i := 0 to |rs|
        invariant currentClient == fd && log == base + Sends(fd, rs[..i])
        invariant clients == if AllDelivered(rs[..i]) then old(clients) else old(clients) - {fd}
      {
        assert rs[..i + 1][..i] == rs[..i];
        SendResponse(rs[i].text, rs[i].delivered);
        assert AllDelivered(rs[..i + 1]) <==> AllDelivered(rs[..i]) && rs[i].delivered;
      }
      assert rs[..|rs|] == rs;
      currentClient := -1;
    }

    /** Takes one complete line out of the buffer and hands it over if it is not blank. */
    method TakeLine(fd: int, n: nat, handler: Handler) returns (ghost closed: bool)
      requires currentClient == -1 && fd >= 0 && fd in clients
      requires n == FirstNewline(clients[fd]) < |clients[fd]|
      modifies this`clients, this`currentClient, this`log
      ensures currentClient == -1 && log == AfterLine(old(log), fd, old(clients)[fd][..n], handler)
      ensures LineGone(old(clients), fd, old(clients)[fd][n + 1..], closed, clients)
      ensures closed ==> Trim(old(clients)[fd][..n]) != [] && !NeverFails(handler)
    {
      var input := clients[fd];
      var command := Trim(input[..n]);
      clients := clients[fd := input[n + 1..]];
      closed := false;
      if command != [] {
        closed := !AllDelivered(handler(|log|, command));
        Dispatch(fd, command, handler);
      }
    }

    /** One pass of the loop; false when no complete line is left. */
    method ProcessLine(fd: int, handler: Handler, ghost done: seq<Text>) returns (more: bool)
      requires currentClient == -1 && fd in clients && Processing(log, clients, streams, fd, done)
      modifies this`clients, this`currentClient, this`log
      ensures currentClient == -1 && Processing(log, clients, streams, fd, done)
      ensures clients - {fd} == old(clients) - {fd}
      ensures more ==> fd in clients ==> |clients[fd]| < |old(clients)[fd]|
      ensures !more ==> fd in clients && NEWLINE !in clients[fd]
      ensures NeverFails(handler) ==> fd in clients
    {
      var input := clients[fd];
      var n := FirstNewline(input);
      if n == |input| {
        assert input[..n] == input;
        return false;
      }
      ghost var before, held := log, clients;
      ghost var closed := TakeLine(fd, n, handler);
      assert input == input[..n] + [NEWLINE] + input[n + 1..];
      LineProcessed(before, held, streams, fd, done, input[..n], input[n + 1..], handler, closed, clients);
      return true;
    }

    /** Hands over the complete lines until there is none left or the handler closed the client. */
    method ProcessLines(fd: int, handler: Handler, ghost done: seq<Text>)
      requires currentClient == -1 && fd in clients && Processing(log, clients, streams, fd, done)
      modifies this`clients, this`currentClient, this`log
      ensures Valid() && Processing(log, clients, streams, fd, done) && clients - {fd} == old(clients) - {fd}
      ensures NeverFails(handler) ==> fd in clients
    {
      var more := true;
      while more && fd in clients
        invariant currentClient == -1 && Processing(log, clients, streams, fd, done)
        invariant clients - {fd} == old(clients) - {fd}
        invariant !more && fd in clients ==> NEWLINE !in clients[fd]
        invariant NeverFails(handler) ==> fd in clients
        decreases more, if fd in clients then |clients[fd]| + 1 else 0
      {
        more := ProcessLine(fd, handler, done);
      }
      NothingLeft(log, clients, streams, fd, done);
    }

    /** The bytes of one activation are appended to the client's buffer. */
    method Append(fd: int, arrivals: seq<Text>)
      requires fd in clients
      modifies this`clients
      ensures clients == old(clients)[fd := old(clients)[fd] + Concat(arrivals)]
    {
      ghost var buffer := clients[fd];
      assert buffer + [] == buffer && clients[fd := buffer] == clients;
      for i := 0 to |arrivals|
        invariant clients == old(clients)[fd := buffer + Concat(arrivals[..i])]
      {
        assert arrivals[..i + 1][..i] == arrivals[..i];
        assert (buffer + Concat(arrivals[..i])) + arrivals[i] == buffer + Concat(arrivals[..i + 1]);
        clients := clients[fd := clients[fd] + arrivals[i]];
      }
      assert arrivals[..|arrivals|] == arrivals;
    }

    /** At the end of a stream: what is buffered is one command, and the client is closed. */
    method HandOverTheRest(fd: int, handler: Handler)
      requires currentClient == -1 && fd in clients && fd >= 0
      requires AllIdle(log, clients, streams, fd) && fd in streams && streams[fd].start <= |log|
      modifies this`clients, this`currentClient, this`log
      ensures Valid() && clients == old(clients) - {fd}
      ensures log == AfterLine(old(log), fd, old(clients)[fd], handler)
      ensures HandledFor(log, fd, streams[fd].start)
              == HandledFor(old(log), fd, streams[fd].start) + CommandOf(old(clients)[fd])
    {
      RestHandedOver(log, clients, streams, fd, handler);
      HandOverBuffer(fd, handler);
    }

    method HandOverBuffer(fd: int, handler: Handler)
      requires currentClient == -1 && fd in clients && fd >= 0
      modifies this`clients, this`currentClient, this`log
      ensures currentClient == -1 && clients == old(clients) - {fd}
      ensures log == AfterLine(old(log), fd, old(clients)[fd], handler)
    {
      var rest := Trim(clients[fd]);
      clients := clients[fd := []];
      if rest != [] {
        Dispatch(fd, rest, handler);
      }
      CloseClient(fd);
    }

    /** One activation: the reads that returned bytes, then the end of the stream (or a read
        error), or nothing more to read now. */
    method HandleClientData(fd: int, arrivals: seq<Text>, ended: bool, handler: Handler)
      requires Valid()
      modifies this
      ensures Valid() && clients - {fd} == old(clients) - {fd} && streams - {fd} == old(streams) - {fd}
      ensures fd !in old(clients) ==> clients == old(clients) && log == old(log)
      ensures fd in old(clients) ==> fd in streams && streams[fd] == Extended(old(streams)[fd], arrivals)
      ensures fd in old(clients) && !ended && NeverFails(handler) ==> fd in clients
      ensures fd in clients && fd in old(clients) ==>
                !ended && HandledFor(log, fd, streams[fd].start) == Commands(streams[fd].received)
      ensures fd in old(clients) && ended ==>
                fd !in clients
                && HandledFor(log, fd, streams[fd].start)
                   == Commands(old(streams)[fd].received)
                      + CommandOf(Rest(old(streams)[fd].received) + Concat(arrivals))
      ensures fd in old(clients) && !ended && fd !in clients ==>
                CutShort(log, fd, Commands(old(streams)[fd].received), streams[fd])
    {
      if fd !in clients {
        return;
      }
      ghost var stream := streams[fd];
      HandledWhenIdle(log, fd, stream, clients[fd]);
      ghost var before := clients;
      Append(fd, arrivals);
      streams := streams[fd := Extended(stream, arrivals)];
      MoreReceived(log, fd, stream, before[fd], Concat(arrivals));
      AllButOne(log, before, old(streams), clients, streams, fd);
      if ended {
        HandOverTheRest(fd, handler);
        return;
      }
      ProcessLines(fd, handler, HandledFor(log, fd, stream.start));
      if fd in clients {
        HandledWhenIdle(log, fd, streams[fd], clients[fd]);
      }
    }
  }
}
