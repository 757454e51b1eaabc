/** The byte stream between the driver and the instrument: how a command is
    framed, what the (scripted) peer delivers, what one `recv(4096)` returns,
    and how `__query__` reassembles a whole response from those reads. */
module Wire {

  type Byte = b: int | 0 <= b < 0x100

  /** Line terminator appended to every command before it is sent. */
  const Crlf: string := "\r\n"

  /** Buffer size passed to every `recv`. */
  const MaxChunk: nat := 4096

  /** The text put on the wire for one command. */
  function Framed(command: string): (line: string)
    ensures |line| == |command| + |Crlf|
    ensures line[..|command|] == command && line[|command|..] == Crlf
  {
    command + Crlf
  }

  /** What the peer does when the driver next reads: deliver some bytes, end
      the stream, stay silent past the read timeout, or make the read fail
      with an error other than a timeout. A script that has run out stands
      for a peer that stays silent. */
  datatype Delivery = Chunk(bytes: seq<Byte>) | Eof | Timeout | Error

  /** What one `recv` call gives back: bytes (empty when the stream ended),
      a timeout, or any other exception. */
  datatype ReadResult = Bytes(data: seq<Byte>) | TimedOut | Failed

  /** Size of a script, for termination: every delivery counts one, plus its bytes. */
  function Weight(script: seq<Delivery>): nat
  {
    if script == [] then 0
    else (match script[0] case Chunk(b) => |b| + 1 case _ => 1) + Weight(script[1..])
  }

  /** One `recv(size)` on a connected socket: at most `size` bytes of the next
      delivery (the rest of a longer delivery stays queued), and what is left
      of the script. */
  function Read(script: seq<Delivery>, size: nat): (r: (ReadResult, seq<Delivery>))
    requires size > 0
    ensures r.0.Bytes? ==> |r.0.data| <= size
    ensures script == [] ==> r == (TimedOut, [])
    ensures script != [] ==> Weight(r.1) < Weight(script)
    ensures script != [] && script[0].Chunk? && |script[0].bytes| <= size ==>
              r == (Bytes(script[0].bytes), script[1..])
    ensures script != [] && script[0].Chunk? && |script[0].bytes| > size ==>
              r == (Bytes(script[0].bytes[..size]), [Chunk(script[0].bytes[size..])] + script[1..])
    ensures script != [] && script[0].Eof? ==> r == (Bytes([]), script[1..])
    ensures script != [] && script[0].Timeout? ==> r == (TimedOut, script[1..])
    ensures script != [] && script[0].Error? ==> r == (Failed, script[1..])
  {
    if script == [] then (TimedOut, [])
    else
      match script[0]
      case Chunk(b) =>
        if |b| <= size then (Bytes(b), script[1..])
        else
          assert Weight(script) == |b| + 1 + Weight(script[1..]);
          (Bytes(b[..size]), [Chunk(b[size..])] + script[1..])
      case Eof => (Bytes([]), script[1..])
      case Timeout => (TimedOut, script[1..])
      case Error => (Failed, script[1..])
  }

  /** The outcome of the receive loop: the bytes gathered, the deliveries not
      yet read, and whether a non-timeout error ended it. */
  datatype Reception = Reception(data: seq<Byte>, rest: seq<Delivery>, failed: bool)

  /** The receive loop of `__query__`: read `MaxChunk` bytes at a time and
      append them, until a read returns nothing, times out, or fails. */
  function Receive(script: seq<Delivery>): (r: Reception)
    ensures |r.rest| <= |script| + 1
    decreases Weight(script)
  {
    var (res, after) := Read(script, MaxChunk);
    match res
    case Bytes(b) =>
      if b == [] then Reception([], after, false)
      else
        var more := Receive(after);
        Reception(b + more.data, more.rest, more.failed)
    case TimedOut => Reception([], after, false)
    case Failed => Reception([], after, true)
  }

  /** True when a delivery ends a response: anything but a non-empty chunk. */
  predicate Terminates(d: Delivery)
  {
    !(d.Chunk? && d.bytes != [])
  }

  /** The bytes of all deliveries that come before the first terminating one,
      in order. */
  function StreamBytes(script: seq<Delivery>): seq<Byte>
  {
    if script == [] || Terminates(script[0]) then [] else script[0].bytes + StreamBytes(script[1..])
  }

  /** The deliveries after the first terminating one. */
  function AfterTerminator(script: seq<Delivery>): seq<Delivery>
  {
    if script == [] then []
    else if Terminates(script[0]) then script[1..]
    else AfterTerminator(script[1..])
  }

  /** True when the first terminating delivery is an error. */
  predicate EndsInError(script: seq<Delivery>)
  {
    script != [] && (if Terminates(script[0]) then script[0].Error? else EndsInError(script[1..]))
  }

  /** Reassembly does not depend on how the peer's bytes were cut into
      deliveries nor on the 4096-byte read size: the response is the
      in-order concatenation of every chunk before the first empty read,
      timeout or error, and nothing after that terminator is read. */
  lemma {:induction false} ReceiveReadsToTerminator(script: seq<Delivery>)
    ensures Receive(script) == Reception(StreamBytes(script), AfterTerminator(script), EndsInError(script))
    decreases Weight(script)
  {
    if script != [] && !Terminates(script[0]) {
      var b := script[0].bytes;
      var (res, after) := Read(script, MaxChunk);
      ReceiveReadsToTerminator(after);
      if |b| > MaxChunk {
        var tail := b[MaxChunk..];
        assert after == [Chunk(tail)] + script[1..];
        assert after[1..] == script[1..];
        assert !Terminates(after[0]);
        assert StreamBytes(after) == tail + StreamBytes(script[1..]);
        assert b[..MaxChunk] + tail == b;
      }
    }
  }

  /** Best-effort text decoding of the received bytes. Bytes below 0x80 are
      characters of their own; any other byte is dropped. */
  function Decode(bytes: seq<Byte>): (text: string)
    ensures |text| <= |bytes|
    ensures forall i :: 0 <= i < |text| ==> text[i] as int < 0x80
  {
    if bytes == [] then ""
    else (if bytes[0] < 0x80 then [bytes[0] as char] else []) + Decode(bytes[1..])
  }

  /** On ASCII input decoding loses nothing: character for byte. */
  lemma {:induction false} DecodeAscii(bytes: seq<Byte>)
    requires forall i :: 0 <= i < |bytes| ==> bytes[i] < 0x80
    ensures |Decode(bytes)| == |bytes|
    ensures forall i :: 0 <= i < |bytes| ==> Decode(bytes)[i] as int == bytes[i]
  {
    if bytes != [] {
      DecodeAscii(bytes[1..]);
    }
  }
}
