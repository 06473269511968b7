/** The native-messaging host framing: each message crosses the standard
    streams as a 4-byte unsigned length, then that many bytes of UTF-8 JSON.
    The length is written in the host's native byte order; this model fixes
    it to little-endian. JSON serialisation is a parameter: a codec whose
    `encode` may refuse a value and whose `decode` may refuse bytes. */
module Framing {
  import opened Common

  /** One more than the largest length `struct.pack('=I', …)` accepts. */
  const LengthLimit: nat := 0x1_0000_0000

  // ---------------------------------------------------------------------
  // The length header
  // ---------------------------------------------------------------------

  /** `struct.pack('=I', n)` on a little-endian host: the four base-256
      digits of `n`, least significant first. */
  function EncodeLength(n: nat): (h: seq<byte>)
    requires n < LengthLimit
    ensures |h| == 4
    ensures h[0] as int + 256 * h[1] as int + 65536 * h[2] as int + 16777216 * h[3] as int == n
  {
    var q1, q2, q3 := n / 256, n / 65536, n / 16777216;
    assert n == 256 * q1 + n % 256;
    assert q1 / 256 == q2 && q1 == 256 * q2 + q1 % 256;
    assert q2 / 256 == q3 && q2 == 256 * q3 + q2 % 256;
    [n % 256, q1 % 256, q2 % 256, q3]
  }

  /** `struct.unpack('=I', h)[0]` on a little-endian host. */
  function DecodeLength(h: seq<byte>): (n: nat)
    requires |h| == 4
    ensures n < LengthLimit
  {
    h[0] as int + 256 * h[1] as int + 65536 * h[2] as int + 16777216 * h[3] as int
  }

  /** Unpacking a packed length gives the length back. */
  lemma DecodeEncodeLength(n: nat)
    requires n < LengthLimit
    ensures DecodeLength(EncodeLength(n)) == n
  {
  }

  /** Packing an unpacked header gives the header back: every 4-byte header
      is the packing of exactly one length. */
  lemma EncodeDecodeLength(h: seq<byte>)
    requires |h| == 4
    ensures EncodeLength(DecodeLength(h)) == h
  {
    var n := DecodeLength(h);
    var h0, h1, h2, h3 := h[0] as int, h[1] as int, h[2] as int, h[3] as int;
    var q1 := h1 + 256 * h2 + 65536 * h3;
    var q2 := h2 + 256 * h3;
    assert n == 256 * q1 + h0;
    assert n % 256 == h0 && n / 256 == q1;
    assert q1 == 256 * q2 + h1;
    assert q1 % 256 == h1 && q1 / 256 == q2;
    assert n / 65536 == q2 by {
      assert n == 65536 * q2 + (256 * h1 + h0);
    }
    assert q2 % 256 == h2 && q2 / 256 == h3;
    assert n / 16777216 == h3 by {
      assert n == 16777216 * h3 + (65536 * h2 + 256 * h1 + h0);
    }
  }

  // ---------------------------------------------------------------------
  // Frames and the JSON codec
  // ---------------------------------------------------------------------

  /** The bytes `send_message` writes for one payload: the packed length,
      then the payload. */
  function Frame(payload: seq<byte>): (f: seq<byte>)
    requires |payload| < LengthLimit
    ensures |f| == 4 + |payload|
    ensures DecodeLength(f[..4]) == |payload| && f[4..] == payload
  {
    DecodeEncodeLength(|payload|);
    assert (EncodeLength(|payload|) + payload)[..4] == EncodeLength(|payload|);
    EncodeLength(|payload|) + payload
  }

  /** `json.dumps(m).encode('utf-8')` and `json.loads(b.decode('utf-8'))`,
      each answering None where Python raises. */
  datatype Codec<!M> = Codec(encode: M -> Option<seq<byte>>, decode: seq<byte> -> Option<M>)

  /** What JSON promises of the codec: the text of a value is never empty,
      and reading it gives the value back. */
  ghost predicate Lawful<M(!new)>(c: Codec<M>) {
    forall m :: c.encode(m).Some? ==>
      |c.encode(m).value| > 0 && c.decode(c.encode(m).value) == Some(m)
  }

  // ---------------------------------------------------------------------
  // read_message as a function of the input stream and the read position
  // ---------------------------------------------------------------------

  /** How one call of `read_message` ends. Every outcome but `Received` is
      returned to the caller as None; they differ only in what is logged. */
  datatype ReadResult<M> =
    | Received(msg: M)
    | EndOfStream                          // fewer than 4 header bytes
    | ZeroLength                           // the header announces 0 bytes
    | Truncated(expected: nat, got: nat)   // fewer payload bytes than announced
    | BadPayload                           // not UTF-8 JSON
  {
    function Message(): Option<M> {
      if Received? then Some(msg) else None
    }
  }

  /** The outcome of one read and the read position after it. */
  datatype ReadStep<M> = ReadStep(result: ReadResult<M>, next: nat)

  /** One `read_message` on `input` from position `pos`. Each `read(k)`
      consumes up to `k` bytes, so a short header or a short payload leaves
      the position at the end of the input. */
  function ReadFrame<M>(c: Codec<M>, input: seq<byte>, pos: nat): (s: ReadStep<M>)
    requires pos <= |input|
    ensures pos <= s.next <= |input|
  {
    var available := |input| - pos;
    if available < 4 then ReadStep(EndOfStream, |input|)
    else
      var n := DecodeLength(input[pos..pos + 4]);
      if n == 0 then ReadStep(ZeroLength, pos + 4)
      else if available - 4 < n then ReadStep(Truncated(n, available - 4), |input|)
      else match c.decode(input[pos + 4..pos + 4 + n])
        case Some(m) => ReadStep(Received(m), pos + 4 + n)
        case None => ReadStep(BadPayload, pos + 4 + n)
  }

  /** Fewer than four bytes left: no message, and the stream is used up. */
  lemma ShortHeaderGivesNothing<M>(c: Codec<M>, input: seq<byte>, pos: nat)
    requires pos <= |input| && |input| - pos < 4
    ensures ReadFrame(c, input, pos) == ReadStep(EndOfStream, |input|)
    ensures ReadFrame(c, input, pos).result.Message() == None
  {
  }

  /** A header announcing zero bytes: no message, and only the header is read. */
  lemma ZeroLengthGivesNothing<M>(c: Codec<M>, before: seq<byte>, after: seq<byte>)
    ensures var input := before + [0, 0, 0, 0] + after;
      ReadFrame(c, input, |before|) == ReadStep(ZeroLength, |before| + 4)
  {
    var input := before + [0, 0, 0, 0] + after;
    assert input[|before|..|before| + 4] == [0, 0, 0, 0];
  }

  /** A header announcing more bytes than remain: no message, and the rest
      of the stream is used up. */
  lemma TruncatedGivesNothing<M>(c: Codec<M>, before: seq<byte>, n: nat, rest: seq<byte>)
    requires 0 < n < LengthLimit && |rest| < n
    ensures var input := before + EncodeLength(n) + rest;
      ReadFrame(c, input, |before|) == ReadStep(Truncated(n, |rest|), |input|)
  {
    var input := before + EncodeLength(n) + rest;
    assert input[|before|..|before| + 4] == EncodeLength(n);
    DecodeEncodeLength(n);
  }

  /** Where a frame's header and payload sit inside a stream. */
  lemma FrameAt(before: seq<byte>, payload: seq<byte>, after: seq<byte>)
    requires |payload| < LengthLimit
    ensures var input := before + Frame(payload) + after;
      input[|before|..|before| + 4] == Frame(payload)[..4] &&
      input[|before| + 4..|before| + 4 + |payload|] == payload
  {
    var f := Frame(payload);
    var input := before + f + after;
    forall i | 0 <= i < |payload|
      ensures input[|before| + 4 + i] == payload[i]
    {
      assert input[|before| + 4 + i] == f[4 + i];
      assert f[4..][i] == f[4 + i];
    }
  }

  /** A complete frame whose payload does not decode: no message, and the
      whole frame is consumed, so the next read starts at the next frame. */
  lemma BadPayloadGivesNothing<M>(c: Codec<M>, before: seq<byte>, payload: seq<byte>, after: seq<byte>)
    requires 0 < |payload| < LengthLimit && c.decode(payload).None?
    ensures var input := before + Frame(payload) + after;
      ReadFrame(c, input, |before|) == ReadStep(BadPayload, |before| + 4 + |payload|)
  {
    var input := before + Frame(payload) + after;
    FrameAt(before, payload, after);
  }

  /** Round trip: reading back the frame `send_message(m)` writes gives `m`
      and consumes exactly the 4 + len bytes of the frame, whatever comes
      before or after it in the stream. */
  lemma ReadFrameRoundTrip<M(!new)>(c: Codec<M>, m: M, before: seq<byte>, after: seq<byte>)
    requires Lawful(c)
    requires c.encode(m).Some? && |c.encode(m).value| < LengthLimit
    ensures var payload := c.encode(m).value;
      var input := before + Frame(payload) + after;
      ReadFrame(c, input, |before|) == ReadStep(Received(m), |before| + 4 + |payload|)
  {
    var payload := c.encode(m).value;
    var input := before + Frame(payload) + after;
    FrameAt(before, payload, after);
  }

  // ---------------------------------------------------------------------
  // The daemon's end of the channel
  // ---------------------------------------------------------------------

  /** Why `send_message` re-raises: the value is not serialisable, or its
      payload is too long for the 32-bit length header. */
  datatype SendError = NotSerializable | TooLong(length: nat)

  datatype SendOutcome = Sent | Raised(error: SendError)

  /** The daemon's standard streams: all the bytes the extension will
      write to stdin, how many of them have been read, and everything
      written to stdout so far. */
  class NativeChannel<M> {
    const codec: Codec<M>
    const input: seq<byte>
    var pos: nat
    var output: seq<byte>

    ghost predicate Valid()
      reads this
    {
      pos <= |input|
    }

    constructor (codec: Codec<M>, input: seq<byte>)
      ensures Valid()
      ensures this.codec == codec && this.input == input
      ensures pos == 0 && output == []
    {
      this.codec := codec;
      this.input := input;
      pos := 0;
      output := [];
    }

    /** `sys.stdin.buffer.read(n)`: up to `n` bytes, fewer at end of stream. */
    method Read(n: nat) returns (chunk: seq<byte>)
      requires Valid()
      modifies this`pos
      ensures Valid()
      ensures pos == if old(pos) + n <= |input| then old(pos) + n else |input|
      ensures chunk == input[old(pos)..pos]
    {
      var end := if pos + n <= |input| then pos + n else |input|;
      chunk := input[pos..end];
      pos := end;
    }

    /** `read_message`: the header, then the payload, then JSON decoding,
      each failure answering None. It never raises. */
    method ReadMessage() returns (msg: Option<M>)
      requires Valid()
      modifies this`pos
      ensures Valid()
      ensures var step := ReadFrame(codec, input, old(pos));
        msg == step.result.Message() && pos == step.next
    {
      var header := Read(4);
      if |header| != 4 {
        return None;
      }
      var length := DecodeLength(header);
      if length == 0 {
        return None;
      }
      var body := Read(length);
      if |body| != length {
        return None;
      }
      msg := codec.decode(body);
    }

    /** `send_message`: serialise, pack the length, write the header and the
      payload. When serialising or packing fails nothing is written and the
      failure is raised to the caller. */
    method SendMessage(m: M) returns (r: SendOutcome)
      modifies this`output
      ensures codec.encode(m).None? ==> r == Raised(NotSerializable) && output == old(output)
      ensures codec.encode(m).Some? && |codec.encode(m).value| >= LengthLimit ==>
        r == Raised(TooLong(|codec.encode(m).value|)) && output == old(output)
      ensures codec.encode(m).Some? && |codec.encode(m).value| < LengthLimit ==>
        r == Sent && output == old(output) + Frame(codec.encode(m).value)
    {
      var encoded := codec.encode(m);
      if encoded.None? {
        return Raised(NotSerializable);
      }
      var content := encoded.value;
      if |content| >= LengthLimit {
        return Raised(TooLong(|content|));
      }
      var header := EncodeLength(|content|);
      output := output + header;
      output := output + content;
      r := Sent;
    }
  }

  /** Two messages sent by one end are read back, in order, by the other
      end of the stream. */
  method Loopback<M(!new)>(c: Codec<M>, first: M, second: M) returns (got1: Option<M>, got2: Option<M>)
    requires Lawful(c)
    requires c.encode(first).Some? && |c.encode(first).value| < LengthLimit
    requires c.encode(second).Some? && |c.encode(second).value| < LengthLimit
    ensures got1 == Some(first) && got2 == Some(second)
  {
    var sender := new NativeChannel(c, []);
    var r1 := sender.SendMessage(first);
    var r2 := sender.SendMessage(second);
    var f1, f2 := Frame(c.encode(first).value), Frame(c.encode(second).value);
    assert sender.output == f1 + f2;
    var receiver := new NativeChannel(c, sender.output);
    ReadFrameRoundTrip(c, first, [], f2);
    assert [] + f1 + f2 == f1 + f2;
    got1 := receiver.ReadMessage();
    ReadFrameRoundTrip(c, second, f1, []);
    assert f1 + f2 + [] == f1 + f2;
    got2 := receiver.ReadMessage();
  }

  /** A header announcing 10 bytes followed by only 3 is no message. */
  lemma TruncatedScenario<M>(c: Codec<M>)
    ensures ReadFrame(c, [10, 0, 0, 0, 1, 2, 3], 0).result.Message() == None
  {
    TruncatedGivesNothing(c, [], 10, [1, 2, 3]);
    assert [] + EncodeLength(10) + [1, 2, 3] == [10, 0, 0, 0, 1, 2, 3];
  }
}
