/** The instrument driver: class `OSA` of OSA.py, whose socket handling,
    `send_command`, `__query__` and `get_single_trace` command sequence are
    repeated verbatim by class `AQ6370D` of OSACode_ForFiO.py. The network is
    a mock: the socket field holds an option of a socket state, the lines the
    driver writes are appended to `sent`, and what the peer replies is a
    script of deliveries fixed when the socket is opened. */
module Driver {
  import opened Wrappers
  import opened Wire
  import opened Payload

  /** How one `open_socket` call turns out: creating the socket object
      raises, or it is created and `connect` then raises or succeeds. */
  datatype Link = CreateFails | ConnectFails | Connects

  /** One socket object: whether it connected, whether it has been closed,
      and what the peer will still deliver to it. */
  datatype Conn = Conn(connected: bool, closed: bool, pending: seq<Delivery>)

  /** A socket that can send and receive; on any other socket object `send`
      and `recv` raise. */
  predicate Live(socket: Option<Conn>)
  {
    socket.Some? && socket.value.connected && !socket.value.closed
  }

  /** `self.socket` after `open_socket`. The new socket object is stored
      before `connect` is tried, so a failed connect still leaves one (dead);
      only a failure to create it keeps the previous value. */
  function Opened(socket: Option<Conn>, link: Link, replies: seq<Delivery>): (r: Option<Conn>)
    ensures link != CreateFails ==> r.Some? && !r.value.closed && r.value.pending == replies
    ensures Live(r) <==> link == Connects || (link == CreateFails && Live(socket))
    ensures link == CreateFails ==> r == socket
    ensures link != CreateFails ==> r.value.connected == (link == Connects)
  {
    match link
    case CreateFails => socket
    case ConnectFails => Some(Conn(false, false, replies))
    case Connects => Some(Conn(true, false, replies))
  }

  /** `self.socket` after `close_socket`: closed if there is one. */
  function Closed(socket: Option<Conn>): (r: Option<Conn>)
    ensures r.Some? <==> socket.Some?
    ensures !Live(r)
  {
    if socket.Some? then Some(socket.value.(closed := true)) else None
  }

  /** What `__query__` returns, once its command is sent: `None` without a
      working socket or when a read fails with anything but a timeout (the
      bytes gathered so far are discarded), otherwise the decoded bytes of
      every chunk before the first empty read or timeout. */
  function QueryResult(socket: Option<Conn>): (r: Option<string>)
    ensures r.Some? ==> Live(socket)
    ensures Live(socket) ==> (r.None? <==> EndsInError(socket.value.pending))
    ensures r.Some? ==> r.value == Decode(StreamBytes(socket.value.pending))
  {
    if !Live(socket) then None
    else
      var reception := Receive(socket.value.pending);
      ReceiveReadsToTerminator(socket.value.pending);
      if reception.failed then None else Some(Decode(reception.data))
  }

  /** The socket after `__query__`: a working one has consumed every
      delivery up to and including the one that ended the response, and no
      more. */
  function AfterQuery(socket: Option<Conn>): (r: Option<Conn>)
    ensures Live(socket) ==> r == Some(socket.value.(pending := AfterTerminator(socket.value.pending)))
    ensures !Live(socket) ==> r == socket
  {
    if !Live(socket) then socket
    else
      ReceiveReadsToTerminator(socket.value.pending);
      Some(socket.value.(pending := Receive(socket.value.pending).rest))
  }

  /** The lines actually written for `commands` on a socket that is or is not working. */
  function Transmitted(live: bool, commands: seq<string>): (lines: seq<string>)
    ensures live ==> |lines| == |commands| && forall i :: 0 <= i < |lines| ==> lines[i] == Framed(commands[i])
    ensures !live ==> lines == []
  {
    if !live || commands == [] then [] else [Framed(commands[0])] + Transmitted(live, commands[1..])
  }

  const OpenCommand: string := "open \"anonymous\""
  const QueryCommand: string := ":TRACE:Y? TRA"

  function StartCommand(wavelength: string): string
  {
    ":sens:wav:start " + wavelength + "nm"
  }

  function StopCommand(wavelength: string): string
  {
    ":sens:wav:stop " + wavelength + "nm"
  }

  function SpanCommand(span: string): string
  {
    ":sens:wav:span " + span + "nm"
  }

  function ResolutionCommand(resolution: string): string
  {
    ":sens:band:resolution " + resolution + "nm"
  }

  /** `:init:smode N` for a sweep-mode number N between 1 and 3. */
  function SweepModeCommand(code: nat): string
    requires 1 <= code <= 3
  {
    ":init:smode " + [('0' as int + code) as char]
  }

  /** The configuration `get_single_trace` sends after `open "anonymous"`. */
  function SetupCommands(start: string, stop: string): seq<string>
  {
    ["*RST", "CFORM1", StartCommand(start), StopCommand(stop), ":sens:sens HIGH2",
     ":sens:sens:speed 2x", ":sens:sweep:points:auto on", ":init:smode 1", "*CLS", ":init"]
  }

  /** Every command one `get_single_trace` sends, in order. */
  function TraceCommands(start: string, stop: string): (commands: seq<string>)
    ensures |commands| == 12 && commands[0] == OpenCommand && commands[11] == QueryCommand
  {
    [OpenCommand] + SetupCommands(start, stop) + [QueryCommand]
  }

  /** The sweep is set up as a single sweep, the mode `SINGLE` names. */
  lemma TraceSelectsSingleSweep(start: string, stop: string)
    ensures SweepModeCode("SINGLE") == Some(1)
    ensures TraceCommands(start, stop)[8] == SweepModeCommand(SweepModeCode("SINGLE").value)
  {
  }

  /** The `sweep_modes` table: the number the instrument expects for each name. */
  function SweepModeCode(mode: string): (code: Option<nat>)
    ensures code.Some? <==> mode in {"SINGLE", "REPEAT", "AUTO"}
    ensures code.Some? ==> 1 <= code.value <= 3
  {
    if mode == "SINGLE" then Some(1)
    else if mode == "REPEAT" then Some(2)
    else if mode == "AUTO" then Some(3)
    else None
  }

  /** The name the table gives a sweep-mode number. */
  function SweepModeName(code: nat): (mode: Option<string>)
  {
    if code == 1 then Some("SINGLE")
    else if code == 2 then Some("REPEAT")
    else if code == 3 then Some("AUTO")
    else None
  }

  /** Every name in the table has its own number: looking the number up
      again gives the name back, and only the numbers 1 to 3 name a mode. */
  lemma SweepModeRoundTrip(mode: string, code: nat)
    ensures SweepModeCode(mode).Some? ==> SweepModeName(SweepModeCode(mode).value) == Some(mode)
    ensures SweepModeName(code).Some? <==> 1 <= code <= 3
    ensures SweepModeName(code).Some? ==> SweepModeCode(SweepModeName(code).value) == Some(code)
  {
  }

  /** What `set_sweep_mode` raises. */
  datatype SweepModeFault = MissingAttribute | InvalidSweepMode

  /** The part of `get_single_trace` after the query, its exceptions
      swallowed into `None`: printing `trace_data[:40]` raises on `None`; an
      empty reply or one without the sentinel leaves `wavelengths` unbound,
      so the `return` raises; a segment `float()` rejects raises. Otherwise
      the samples come with an axis of exactly as many points. */
  function SingleTrace(response: Option<string>, start: string, stop: string): (r: Option<Trace>)
    ensures r.Some? <==> ParseResponse(response).Ok?
    ensures r.Some? ==> r.value.samples == ParseResponse(response).value
    ensures r.Some? ==> r.value.axis == Axis(start, stop, |r.value.samples|)
  {
    match ParseResponse(response)
    case Ok(samples) => Some(Trace(Axis(start, stop, |samples|), samples))
    case Err(_) => None
  }

  /** The three ways `get_single_trace` returns `None`. */
  lemma SingleTraceFailures(response: Option<string>, start: string, stop: string)
    ensures SingleTrace(response, start, stop).None? <==>
      response == None || response == Some("")
      || !Contains(response.value)
      || !AllFloat(Tokens(AfterSentinel(response.value)))
  {
  }

  class Osa {
    const address: string
    const port: int
    var socket: Option<Conn>
    /** Every line written to a socket, in order. */
    var sent: seq<string>
    /** How many times a socket object has been closed. */
    var closes: nat

    constructor (address: string, port: int)
      ensures this.address == address && this.port == port
      ensures socket == None && sent == [] && closes == 0
    {
      this.address := address;
      this.port := port;
      socket := None;
      sent := [];
      closes := 0;
    }

    method OpenSocket(link: Link, replies: seq<Delivery>)
      modifies this
      ensures socket == Opened(old(socket), link, replies)
      ensures sent == old(sent) && closes == old(closes)
    {
      match link
      case CreateFails =>
      case ConnectFails => socket := Some(Conn(false, false, replies));
      case Connects => socket := Some(Conn(true, false, replies));
    }

    method CloseSocket()
      modifies this
      ensures socket == Closed(old(socket))
      ensures closes == old(closes) + (if old(socket).Some? then 1 else 0)
      ensures sent == old(sent)
    {
      if socket.Some? {
        socket := Some(socket.value.(closed := true));
        closes := closes + 1;
      }
    }

    /** Writes `command` and CRLF once on a working socket. Without a socket,
        or when the write raises because the socket never connected or is
        closed, nothing is written and nothing is raised. */
    method SendCommand(command: string)
      modifies this
      ensures sent == old(sent) + Transmitted(Live(old(socket)), [command])
      ensures socket == old(socket) && closes == old(closes)
    {
      if Live(socket) {
        sent := sent + [Framed(command)];
      }
    }

    /** One `recv(size)`. */
    method Recv(size: nat) returns (result: ReadResult)
      requires size > 0
      modifies this
      ensures Live(old(socket)) ==> result == Read(old(socket).value.pending, size).0
      ensures Live(old(socket)) ==> socket == Some(old(socket).value.(pending := Read(old(socket).value.pending, size).1))
      ensures !Live(old(socket)) ==> result == Failed && socket == old(socket)
      ensures sent == old(sent) && closes == old(closes)
    {
      if !Live(socket) {
        result := Failed;
      } else {
        var (r, rest) := Read(socket.value.pending, size);
        result := r;
        socket := Some(socket.value.(pending := rest));
      }
    }

    /** `__query__`: send the command, then read chunk by chunk until an
        empty read or a timeout; any other failure discards what was read. */
    method Query(command: string) returns (text: Option<string>)
      modifies this
      ensures sent == old(sent) + Transmitted(Live(old(socket)), [command])
      ensures text == QueryResult(old(socket))
      ensures socket == AfterQuery(old(socket))
      ensures closes == old(closes)
    {
      SendCommand(command);
      if socket.None? {
        text := None;
        return;
      }
      ghost var start := socket;
      var received: seq<Byte> := [];
      while true
        invariant socket.Some? && socket.value == start.value.(pending := socket.value.pending)
        invariant !Live(start) ==> socket == start
        invariant Live(start) ==>
          Receive(start.value.pending) == Reception(received + Receive(socket.value.pending).data,
                                                    Receive(socket.value.pending).rest,
                                                    Receive(socket.value.pending).failed)
        invariant sent == old(sent) + Transmitted(Live(old(socket)), [command])
        invariant closes == old(closes)
        decreases Weight(socket.value.pending)
      {
        ghost var before := socket.value.pending;
        var result := Recv(MaxChunk);
        match result
        case Bytes(chunk) =>
          if chunk == [] {
            assert Receive(before) == Reception([], socket.value.pending, false);
            assert received + [] == received;
            text := Some(Decode(received));
            return;
          }
          ghost var prior := received;
          received := received + chunk;
          assert prior + (chunk + Receive(socket.value.pending).data) == received + Receive(socket.value.pending).data;
        case TimedOut =>
          assert Live(start) ==> Receive(before) == Reception([], socket.value.pending, false);
          assert received + [] == received;
          text := Some(Decode(received));
          return;
        case Failed =>
          assert Live(start) ==> Receive(before).failed;
          text := None;
          return;
      }
    }

    /** `initialize_connection`: open the socket, then log in anonymously. */
    method InitializeConnection(link: Link, replies: seq<Delivery>)
      modifies this
      ensures socket == Opened(old(socket), link, replies)
      ensures sent == old(sent) + Transmitted(Live(socket), [OpenCommand])
      ensures closes == old(closes)
    {
      OpenSocket(link, replies);
      SendCommand(OpenCommand);
    }

    method SetStartWavelength(wavelength: string)
      modifies this
      ensures sent == old(sent) + Transmitted(Live(socket), [StartCommand(wavelength)])
      ensures socket == old(socket) && closes == old(closes)
    {
      SendCommand(StartCommand(wavelength));
    }

    method SetStopWavelength(wavelength: string)
      modifies this
      ensures sent == old(sent) + Transmitted(Live(socket), [StopCommand(wavelength)])
      ensures socket == old(socket) && closes == old(closes)
    {
      SendCommand(StopCommand(wavelength));
    }

    method SetWavelengthRange(start: string, stop: string)
      modifies this
      ensures sent == old(sent) + Transmitted(Live(socket), [StartCommand(start), StopCommand(stop)])
      ensures socket == old(socket) && closes == old(closes)
    {
      SendCommand(StartCommand(start));
      SendCommand(StopCommand(stop));
    }

    method SetWavelengthSpan(span: string)
      modifies this
      ensures sent == old(sent) + Transmitted(Live(socket), [SpanCommand(span)])
      ensures socket == old(socket) && closes == old(closes)
    {
      SendCommand(SpanCommand(span));
    }

    method SetResolution(resolution: string)
      modifies this
      ensures sent == old(sent) + Transmitted(Live(socket), [ResolutionCommand(resolution)])
      ensures socket == old(socket) && closes == old(closes)
    {
      SendCommand(ResolutionCommand(resolution));
    }

    /** `set_sweep_mode` as written: a known name reaches `self.command`,
        which the class does not define, so it raises `AttributeError`; an
        unknown name raises the invalid-mode exception. It never sends. */
    method SetSweepModeAsWritten(mode: string) returns (fault: SweepModeFault)
      ensures SweepModeCode(mode).Some? ==> fault == MissingAttribute
      ensures SweepModeCode(mode).None? ==> fault == InvalidSweepMode
    {
      if SweepModeCode(mode).Some? {
        fault := MissingAttribute;
      } else {
        fault := InvalidSweepMode;
      }
    }

    /** `set_sweep_mode` with `send_command` in place of `self.command`: a
        known name sends `:init:smode` with its number; an unknown name
        raises and sends nothing. */
    method SetSweepMode(mode: string) returns (fault: Option<SweepModeFault>)
      modifies this
      ensures fault.None? <==> SweepModeCode(mode).Some?
      ensures fault.Some? ==> fault.value == InvalidSweepMode && sent == old(sent)
      ensures fault.None? ==> sent == old(sent) + Transmitted(Live(socket), [SweepModeCommand(SweepModeCode(mode).value)])
      ensures socket == old(socket) && closes == old(closes)
    {
      var code := SweepModeCode(mode);
      if code.None? {
        fault := Some(InvalidSweepMode);
      } else {
        SendCommand(SweepModeCommand(code.value));
        fault := None;
      }
    }

    /** The configuration and sweep start shared by both `get_single_trace`
        variants, sent after `open "anonymous"`. */
    method SendSetup(start: string, stop: string)
      modifies this
      ensures sent == old(sent) + Transmitted(Live(socket), SetupCommands(start, stop))
      ensures socket == old(socket) && closes == old(closes)
    {
      SendCommand("*RST");
      SendCommand("CFORM1");
      SendCommand(StartCommand(start));
      SendCommand(StopCommand(stop));
      SendCommand(":sens:sens HIGH2");
      SendCommand(":sens:sens:speed 2x");
      SendCommand(":sens:sweep:points:auto on");
      SendCommand(":init:smode 1");
      SendCommand("*CLS");
      SendCommand(":init");
      if Live(socket) {
        var framed := [Framed("*RST"), Framed("CFORM1"), Framed(StartCommand(start)), Framed(StopCommand(stop)),
                       Framed(":sens:sens HIGH2"), Framed(":sens:sens:speed 2x"), Framed(":sens:sweep:points:auto on"),
                       Framed(":init:smode 1"), Framed("*CLS"), Framed(":init")];
        assert sent == old(sent) + framed;
        assert Transmitted(true, SetupCommands(start, stop)) == framed;
      }
    }

    /** OSA.get_single_trace: connect, send the twelve commands, read the
        reply, parse it, and close the socket on every path. */
    method GetSingleTrace(start: string, stop: string, link: Link, replies: seq<Delivery>)
      returns (trace: Option<Trace>)
      modifies this
      ensures sent == old(sent) + Transmitted(Live(Opened(old(socket), link, replies)), TraceCommands(start, stop))
      ensures trace == SingleTrace(QueryResult(Opened(old(socket), link, replies)), start, stop)
      ensures socket == Closed(AfterQuery(Opened(old(socket), link, replies)))
      ensures closes == old(closes) + (if Opened(old(socket), link, replies).Some? then 1 else 0)
    {
      var response := SweepAndQuery(start, stop, link, replies);
      trace := SingleTrace(response, start, stop);
      CloseSocket();
    }

    /** AQ6370D.get_single_trace: the same commands, but the reply is
        returned as raw text, unchanged, or `None` when the query gave
        nothing; the socket is closed on every path. */
    method GetRawTrace(start: string, stop: string, link: Link, replies: seq<Delivery>)
      returns (text: Option<string>)
      modifies this
      ensures sent == old(sent) + Transmitted(Live(Opened(old(socket), link, replies)), TraceCommands(start, stop))
      ensures text == QueryResult(Opened(old(socket), link, replies))
      ensures socket == Closed(AfterQuery(Opened(old(socket), link, replies)))
      ensures closes == old(closes) + (if Opened(old(socket), link, replies).Some? then 1 else 0)
    {
      text := SweepAndQuery(start, stop, link, replies);
      CloseSocket();
    }

    /** The body of both `get_single_trace` variants up to the query. */
    method SweepAndQuery(start: string, stop: string, link: Link, replies: seq<Delivery>)
      returns (response: Option<string>)
      modifies this
      ensures sent == old(sent) + Transmitted(Live(Opened(old(socket), link, replies)), TraceCommands(start, stop))
      ensures response == QueryResult(Opened(old(socket), link, replies))
      ensures socket == AfterQuery(Opened(old(socket), link, replies))
      ensures closes == old(closes)
    {
      ghost var live := Live(Opened(old(socket), link, replies));
      InitializeConnection(link, replies);
      ghost var afterLogin := sent;
      SendSetup(start, stop);
      ghost var afterSetup := sent;
      response := Query(QueryCommand);
      TraceTransmitted(live, old(sent), afterLogin, afterSetup, sent, start, stop);
    }
  }

  /** Lines written by the login, then the setup, then the query, are the
      lines of one `get_single_trace`. */
  lemma TraceTransmitted(live: bool, s0: seq<string>, s1: seq<string>, s2: seq<string>, s3: seq<string>,
                         start: string, stop: string)
    requires s1 == s0 + Transmitted(live, [OpenCommand])
    requires s2 == s1 + Transmitted(live, SetupCommands(start, stop))
    requires s3 == s2 + Transmitted(live, [QueryCommand])
    ensures s3 == s0 + Transmitted(live, TraceCommands(start, stop))
  {
    TransmittedAppend(live, [OpenCommand], SetupCommands(start, stop), [QueryCommand]);
  }

  lemma {:induction false} TransmittedAppend(live: bool, a: seq<string>, b: seq<string>, c: seq<string>)
    ensures Transmitted(live, a + b + c) == Transmitted(live, a) + Transmitted(live, b) + Transmitted(live, c)
  {
    if live {
      var lhs, rhs := Transmitted(live, a + b + c), Transmitted(live, a) + Transmitted(live, b) + Transmitted(live, c);
      assert |lhs| == |rhs|;
      forall i | 0 <= i < |lhs| ensures lhs[i] == rhs[i] {
        if i < |a| {
        } else if i < |a| + |b| {
          assert rhs[i] == Transmitted(live, b)[i - |a|];
        } else {
          assert rhs[i] == Transmitted(live, c)[i - |a| - |b|];
        }
      }
    }
  }
}
