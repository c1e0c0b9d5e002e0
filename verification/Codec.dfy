/** Message framing: escaping, streaming encoder, joining, splitting and decoding. */
module Codec {
  import opened MachineInts

  type Bytes = seq<u8>

  /** Marks the start of a message. */
  const HEADER: u8 := 174

  /** Follows a HEADER byte that belongs to a payload. */
  const ESCAPE: u8 := 255

  /** Discriminants of the message types. */
  type MessageType = t: u8 | t < 24

  datatype Message = Message(typ: MessageType, payload: Bytes)

  datatype Error = EmptyBuffer | InvalidHeader | Incomplete | EndsWithHeader | InvalidType | BadDeflate | NotFound

  datatype Result<+T> = Ok(value: T) | Err(error: Error)

  // ----- escaping -----

  function Escape(b: Bytes): Bytes {
    if b == [] then []
    else (if b[0] == HEADER then [HEADER, ESCAPE] else [b[0]]) + Escape(b[1..])
  }

  /** Position of the first HEADER byte, or the length if there is none. */
  function HeaderPos(b: Bytes): (i: nat)
    ensures i <= |b|
    ensures forall k | 0 <= k < i :: b[k] != HEADER
    ensures i < |b| ==> b[i] == HEADER
  {
    if b == [] || b[0] == HEADER then 0 else 1 + HeaderPos(b[1..])
  }

  lemma {:induction false} EscapeConcat(a: Bytes, b: Bytes)
    ensures Escape(a + b) == Escape(a) + Escape(b)
  {
    if a == [] {
      assert a + b == b;
    } else {
      assert (a + b)[0] == a[0] && (a + b)[1..] == a[1..] + b;
      EscapeConcat(a[1..], b);
    }
  }

  /** `Escaper::write`: appends the escaped bytes to the underlying writer. */
  method EscapeInto(w: Bytes, src: Bytes) returns (w': Bytes, written: nat)
    ensures w' == w + Escape(src) && written == |src|
  {
    w', written := w, |src|;
    var buf := src;
    while buf != []
      invariant w' + Escape(buf) == w + Escape(src)
      decreases |buf|
    {
      var i := HeaderPos(buf);
      EscapeUpTo(buf, i);
      w' := w' + buf[..i];
      if i == |buf| {
        return;
      }
      w' := w' + [HEADER, ESCAPE];
      buf := buf[i + 1..];
    }
  }

  lemma {:induction false} EscapeUpTo(b: Bytes, i: nat)
    requires i <= |b| && (forall k | 0 <= k < i :: b[k] != HEADER) && (i < |b| ==> b[i] == HEADER)
    ensures Escape(b) == b[..i] + if i < |b| then [HEADER, ESCAPE] + Escape(b[i + 1..]) else []
  {
    if i != 0 {
      EscapeUpTo(b[1..], i - 1);
      assert b[..i] == [b[0]] + b[1..][..i - 1];
      if i < |b| {
        assert b[1..][i..] == b[i + 1..];
      }
    }
  }

  // ----- encoding -----

  /** One message as written: its header, then its payload escaped. */
  function Frame(m: Message): Bytes {
    [HEADER, m.typ] + Escape(m.payload)
  }

  function Stream(ms: seq<Message>): Bytes {
    if ms == [] then [] else Frame(ms[0]) + Stream(ms[1..])
  }

  lemma {:induction false} StreamConcat(a: seq<Message>, b: seq<Message>)
    ensures Stream(a + b) == Stream(a) + Stream(b)
  {
    if a == [] {
      assert a + b == b;
    } else {
      assert (a + b)[1..] == a[1..] + b;
      StreamConcat(a[1..], b);
    }
  }

  lemma StreamMore(ms: seq<Message>, m: Message)
    ensures Stream(ms + [m]) == Stream(ms) + [HEADER, m.typ] + Escape(m.payload)
  {
    StreamConcat(ms, [m]);
    assert Stream([m]) == Frame(m) + Stream([]);
    assert Stream(ms) + Frame(m) == Stream(ms) + [HEADER, m.typ] + Escape(m.payload);
  }

  /** The compressor as a pair of functions. Decompression hands its output over in chunks. */
  datatype Deflate = Deflate(compress: Bytes -> Bytes, decompress: Bytes -> Result<seq<Bytes>>)

  function Flatten(chunks: seq<Bytes>): Bytes {
    if chunks == [] then [] else chunks[0] + Flatten(chunks[1..])
  }

  ghost predicate Inverse(z: Deflate) {
    forall b :: z.decompress(z.compress(b)).Ok? && Flatten(z.decompress(z.compress(b)).value) == b
  }

  /** Escaping piece by piece is escaping the whole. */
  method EscapePieces(w: Bytes, pieces: seq<Bytes>) returns (w': Bytes)
    ensures w' == w + Escape(Flatten(pieces))
  {
    w' := w;
    for k := 0 to |pieces|
      invariant w' + Escape(Flatten(pieces[k..])) == w + Escape(Flatten(pieces))
    {
      assert pieces[k..][1..] == pieces[k + 1..];
      EscapeConcat(pieces[k], Flatten(pieces[k + 1..]));
      var n: nat;
      w', n := EscapeInto(w', pieces[k]);
    }
  }

  /** Streaming encoder; `raw` is what has been written to the compressor. */
  class Encoder {
    var raw: Bytes
    ghost var messages: seq<Message>

    ghost predicate Valid()
      reads this
    {
      raw == Stream(messages)
    }

    constructor ()
      ensures Valid() && messages == []
    {
      raw, messages := [], [];
    }

    /** The payload arrives in pieces, as the serializer produces them. */
    method WriteMessage(typ: MessageType, pieces: seq<Bytes>)
      requires Valid()
      modifies this
      ensures Valid() && messages == old(messages) + [Message(typ, Flatten(pieces))]
    {
      raw := raw + [HEADER, typ];
      raw := EscapePieces(raw, pieces);
      messages := messages + [Message(typ, Flatten(pieces))];
      StreamMore(old(messages), Message(typ, Flatten(pieces)));
    }

    /** A leading zero byte marks a single compressed stream. */
    method Finish(z: Deflate) returns (out: Bytes)
      requires Valid()
      ensures out == Encoded(z, messages)
    {
      out := [0] + z.compress(raw);
    }
  }

  function Encoded(z: Deflate, ms: seq<Message>): Bytes {
    [0] + z.compress(Stream(ms))
  }

  /** Little-endian bytes of a length cast to a signed 32-bit number. */
  function LenBytes(n: nat): (b: Bytes)
    ensures |b| == 4
  {
    var m := n % 0x1_0000_0000;
    [m % 0x100, m / 0x100 % 0x100, m / 0x100 / 0x100 % 0x100, m / 0x100 / 0x100 / 0x100]
  }

  /** The number read back, cast to a 64-bit length: negative numbers become huge. */
  function ReadLen(b: Bytes): nat
    requires |b| == 4
  {
    var m := FromLittleEndian(b[0], b[1], b[2], b[3]);
    if m < 0x8000_0000 then m else m + 0x1_0000_0000_0000_0000 - 0x1_0000_0000
  }

  function FromLittleEndian(b0: int, b1: int, b2: int, b3: int): int {
    b0 + 0x100 * b1 + 0x1_0000 * b2 + 0x100_0000 * b3
  }

  /** Exact: the length of a buffer survives its frame iff it fits a positive signed 32-bit number.
      No buffer is longer than a signed 64-bit number can say. */
  lemma LenRoundTrip(n: nat)
    requires n < 0x8000_0000_0000_0000
    ensures ReadLen(LenBytes(n)) == n <==> n < 0x8000_0000
  {
    var m := n % 0x1_0000_0000;
    var q1 := m / 0x100;
    var q2 := q1 / 0x100;
    var q3 := q2 / 0x100;
    assert m == m % 0x100 + 0x100 * q1 && q1 == q1 % 0x100 + 0x100 * q2 && q2 == q2 % 0x100 + 0x100 * q3;
    assert FromLittleEndian(m % 0x100, q1 % 0x100, q2 % 0x100, q3) == m;
  }

  /** `Encoder::join` */
  function Join(parts: seq<Bytes>): Bytes {
    [1] + Framed(parts)
  }

  function Framed(parts: seq<Bytes>): Bytes {
    if parts == [] then [] else LenBytes(|parts[0]|) + parts[0] + Framed(parts[1..])
  }

  method JoinParts(parts: seq<Bytes>) returns (w: Bytes)
    ensures w == Join(parts)
  {
    w := [1];
    for k := 0 to |parts|
      invariant w + Framed(parts[k..]) == Join(parts)
    {
      assert parts[k..][1..] == parts[k + 1..];
      w := w + LenBytes(|parts[k]|);
      w := w + parts[k];
    }
  }

  // ----- splitting -----

  /** Payloads laid end to end, with the offset and type of each message found so far. */
  datatype Split = Split(buf: Bytes, starts: seq<nat>, types: seq<MessageType>)

  const NOTHING := Split([], [], [])

  /** Splitting and unescaping, byte by byte. */
  function Scan(s: Split, b: Bytes): Result<Split>
    decreases |b|
  {
    if b == [] then Ok(s)
    else if b[0] != HEADER then Scan(s.(buf := s.buf + [b[0]]), b[1..])
    else if |b| == 1 then Err(EndsWithHeader)
    else if b[1] == ESCAPE then Scan(s.(buf := s.buf + [HEADER]), b[2..])
    else if b[1] < 24 then Scan(Split(s.buf, s.starts + [|s.buf|], s.types + [b[1]]), b[2..])
    else Err(InvalidType)
  }

  lemma {:induction false} ScanPlain(s: Split, a: Bytes, b: Bytes)
    requires forall k | 0 <= k < |a| :: a[k] != HEADER
    ensures Scan(s, a + b) == Scan(s.(buf := s.buf + a), b)
    decreases |a|
  {
    if a == [] {
      assert a + b == b && s.buf + a == s.buf;
    } else {
      assert (a + b)[1..] == a[1..] + b;
      assert s.buf + [a[0]] + a[1..] == s.buf + a;
      ScanPlain(s.(buf := s.buf + [a[0]]), a[1..], b);
    }
  }

  class MessageSplitter {
    var buf: Bytes
    var starts: seq<nat>
    var types: seq<MessageType>

    function View(): Split
      reads this
    {
      Split(buf, starts, types)
    }

    constructor ()
      ensures View() == NOTHING
    {
      buf, starts, types := [], [], [];
    }

    /** `MessageSplitter::write`: copies whole runs of bytes up to the next header. */
    method Write(src: Bytes) returns (written: Result<nat>)
      modifies this
      ensures written.Ok? <==> Scan(old(View()), src).Ok?
      ensures written == Ok(|src|) ==> Scan(old(View()), src) == Ok(View())
      ensures written.Err? ==> Scan(old(View()), src) == Err(written.error)
      ensures written.Ok? ==> written.value == |src|
    {
      var rest := src;
      while rest != []
        invariant Scan(View(), rest) == Scan(old(View()), src)
        decreases |rest|
      {
        var i := HeaderPos(rest);
        ScanPlain(View(), rest[..i], rest[i..]);
        assert rest == rest[..i] + rest[i..];
        if i == |rest| {
          buf := buf + rest[..i];
          assert rest[i..] == [];
          return Ok(|src|);
        }
        if i == |rest| - 1 {
          return Err(EndsWithHeader);
        }
        var next := rest[i + 1];
        assert rest[i..][2..] == rest[i + 2..];
        if next != ESCAPE {
          if next >= 24 {
            return Err(InvalidType);
          }
          starts := starts + [|buf| + i];
          types := types + [next];
          buf := buf + rest[..i];
        } else {
          assert buf + rest[..i + 1] == buf + rest[..i] + [HEADER];
          buf := buf + rest[..i + 1];
        }
        rest := rest[i + 2..];
      }
      written := Ok(|src|);
    }
  }

  // ----- what has been split already does not matter -----

  /** `t` split after `s`: offsets are shifted past what is there. */
  function After(s: Split, t: Split): Split {
    Split(s.buf + t.buf, s.starts + Shifted(t.starts, |s.buf|), s.types + t.types)
  }

  function Shifted(starts: seq<nat>, base: nat): (r: seq<nat>)
    ensures |r| == |starts|
  {
    seq(|starts|, k requires 0 <= k < |starts| => starts[k] + base)
  }

  lemma AfterNothing(s: Split)
    ensures After(s, NOTHING) == s && After(NOTHING, s) == s
  {
    assert Shifted(s.starts, 0) == s.starts;
  }

  lemma AfterAssociates(s: Split, t: Split, u: Split)
    ensures After(s, After(t, u)) == After(After(s, t), u)
  {
    assert Shifted(t.starts + Shifted(u.starts, |t.buf|), |s.buf|)
        == Shifted(t.starts, |s.buf|) + Shifted(u.starts, |s.buf + t.buf|);
  }

  function AfterResult(s: Split, r: Result<Split>): Result<Split> {
    if r.Ok? then Ok(After(s, r.value)) else r
  }

  lemma {:induction false} ScanAfter(s: Split, t: Split, b: Bytes)
    ensures Scan(After(s, t), b) == AfterResult(s, Scan(t, b))
    decreases |b|
  {
    if b != [] {
      var st := After(s, t);
      if b[0] != HEADER {
        OneByteAfter(s, t, b[0]);
        ScanAfter(s, t.(buf := t.buf + [b[0]]), b[1..]);
      } else if |b| > 1 && b[1] == ESCAPE {
        OneByteAfter(s, t, HEADER);
        ScanAfter(s, t.(buf := t.buf + [HEADER]), b[2..]);
      } else if |b| > 1 && b[1] < 24 {
        assert Shifted(t.starts + [|t.buf|], |s.buf|) == Shifted(t.starts, |s.buf|) + [|st.buf|];
        var t' := Split(t.buf, t.starts + [|t.buf|], t.types + [b[1]]);
        assert After(s, t') == Split(st.buf, st.starts + [|st.buf|], st.types + [b[1]]);
        ScanAfter(s, t', b[2..]);
      }
    }
  }

  lemma OneByteAfter(s: Split, t: Split, x: u8)
    ensures After(s, t.(buf := t.buf + [x])) == After(s, t).(buf := After(s, t).buf + [x])
  {
    assert s.buf + (t.buf + [x]) == s.buf + t.buf + [x];
  }

  // ----- chunks -----

  function ScanChunks(s: Split, chunks: seq<Bytes>): Result<Split>
    decreases |chunks|
  {
    if chunks == [] then Ok(s)
    else
      match Scan(s, chunks[0])
      case Ok(t) => ScanChunks(t, chunks[1..])
      case Err(e) => Err(e)
  }

  predicate EndsOnHeader(chunk: Bytes) {
    chunk != [] && chunk[|chunk| - 1] == HEADER
  }

  /** A cut anywhere but right after a header byte goes unnoticed; there it is an error. */
  lemma {:induction false} ScanCut(s: Split, a: Bytes, b: Bytes)
    ensures EndsOnHeader(a) ==> Scan(s, a).Err?
    ensures Scan(s, a).Ok? ==> Scan(s, a + b) == Scan(Scan(s, a).value, b)
    ensures Scan(s, a + b).Ok? && !EndsOnHeader(a) ==> Scan(s, a).Ok?
    decreases |a|
  {
    if a == [] {
      assert a + b == b;
    } else if a[0] != HEADER {
      assert (a + b)[1..] == a[1..] + b;
      ScanCut(s.(buf := s.buf + [a[0]]), a[1..], b);
    } else if |a| > 1 {
      assert (a + b)[2..] == a[2..] + b;
      if a[1] == ESCAPE {
        ScanCut(s.(buf := s.buf + [HEADER]), a[2..], b);
      } else if a[1] < 24 {
        ScanCut(Split(s.buf, s.starts + [|s.buf|], s.types + [a[1]]), a[2..], b);
      }
    }
  }

  /** Exact: splitting a stream chunk by chunk gives what splitting it whole gives iff no chunk ends
      on a header byte. */
  lemma {:induction false} ChunkedExact(s: Split, chunks: seq<Bytes>)
    requires Scan(s, Flatten(chunks)).Ok?
    ensures (forall c | c in chunks :: !EndsOnHeader(c)) <==> ScanChunks(s, chunks).Ok?
    ensures ScanChunks(s, chunks).Ok? ==> ScanChunks(s, chunks) == Scan(s, Flatten(chunks))
    decreases |chunks|
  {
    if chunks != [] {
      var a, b := chunks[0], Flatten(chunks[1..]);
      ScanCut(s, a, b);
      assert forall c :: c in chunks <==> c == a || c in chunks[1..];
      if !EndsOnHeader(a) {
        ChunkedExact(Scan(s, a).value, chunks[1..]);
      }
    }
  }

  // ----- round trip of a stream -----

  lemma {:induction false} ScanEscaped(s: Split, payload: Bytes, rest: Bytes)
    ensures Scan(s, Escape(payload) + rest) == Scan(s.(buf := s.buf + payload), rest)
    decreases |payload|
  {
    hide Scan;
    if payload == [] {
      assert Escape(payload) + rest == rest && s.buf + payload == s.buf;
    } else {
      var x := payload[0];
      var tail := Escape(payload[1..]) + rest;
      ScanEscapedByte(s, x, tail);
      assert Escape(payload) + rest == (if x == HEADER then [HEADER, ESCAPE] else [x]) + tail;
      assert s.buf + [x] + payload[1..] == s.buf + payload;
      ScanEscaped(s.(buf := s.buf + [x]), payload[1..], rest);
    }
  }

  lemma ScanEscapedByte(s: Split, x: u8, tail: Bytes)
    ensures Scan(s, (if x == HEADER then [HEADER, ESCAPE] else [x]) + tail) == Scan(s.(buf := s.buf + [x]), tail)
  {
    var all := (if x == HEADER then [HEADER, ESCAPE] else [x]) + tail;
    if x == HEADER {
      assert all[2..] == tail;
    } else {
      assert all[1..] == tail;
    }
  }

  function One(m: Message): Split {
    Split(m.payload, [0], [m.typ])
  }

  /** The split form of a list of messages. */
  function Parts(ms: seq<Message>): Split {
    if ms == [] then NOTHING else After(One(ms[0]), Parts(ms[1..]))
  }

  lemma {:induction false} ScanStream(s: Split, ms: seq<Message>)
    ensures Scan(s, Stream(ms)) == Ok(After(s, Parts(ms)))
    decreases |ms|
  {
    if ms == [] {
      AfterNothing(s);
    } else {
      var m := ms[0];
      var b := Stream(ms);
      var s' := Split(s.buf, s.starts + [|s.buf|], s.types + [m.typ]);
      assert b[2..] == Escape(m.payload) + Stream(ms[1..]);
      assert Scan(s, b) == Scan(s', b[2..]);
      ScanEscaped(s', m.payload, Stream(ms[1..]));
      assert Shifted([0], |s.buf|) == [|s.buf|];
      assert After(s, One(m)) == s'.(buf := s.buf + m.payload);
      ScanStream(After(s, One(m)), ms[1..]);
      AfterAssociates(s, One(m), Parts(ms[1..]));
    }
  }

  lemma {:induction false} PartsConcat(a: seq<Message>, b: seq<Message>)
    ensures Parts(a + b) == After(Parts(a), Parts(b))
    decreases |a|
  {
    if a == [] {
      assert a + b == b;
      AfterNothing(Parts(b));
    } else {
      assert (a + b)[0] == a[0] && (a + b)[1..] == a[1..] + b;
      PartsConcat(a[1..], b);
      AfterAssociates(One(a[0]), Parts(a[1..]), Parts(b));
    }
  }

  // ----- reading -----

  /** Offsets in order, inside the buffer, one per type: no read slices out of range. */
  ghost predicate WellFormed(s: Split) {
    && |s.starts| == |s.types|
    && (forall k | 0 <= k < |s.starts| :: s.starts[k] <= |s.buf|)
    && (forall j, k | 0 <= j < k < |s.starts| :: s.starts[j] <= s.starts[k])
  }

  function EndOf(s: Split, k: nat): nat
    requires k < |s.starts|
  {
    if k + 1 < |s.starts| then s.starts[k + 1] else |s.buf|
  }

  /** `Decoder::read_next` before deserialization: the slice of the `k`th message. */
  function Payload(s: Split, k: nat): Bytes
    requires WellFormed(s) && k < |s.starts|
  {
    s.buf[s.starts[k]..EndOf(s, k)]
  }

  lemma {:induction false} ScanWellFormed(s: Split, b: Bytes)
    requires WellFormed(s)
    ensures Scan(s, b).Ok? ==> WellFormed(Scan(s, b).value)
    decreases |b|
  {
    if b != [] {
      if b[0] != HEADER {
        ScanWellFormed(s.(buf := s.buf + [b[0]]), b[1..]);
      } else if |b| > 1 && b[1] == ESCAPE {
        ScanWellFormed(s.(buf := s.buf + [HEADER]), b[2..]);
      } else if |b| > 1 && b[1] < 24 {
        ScanWellFormed(Split(s.buf, s.starts + [|s.buf|], s.types + [b[1]]), b[2..]);
      }
    }
  }

  lemma {:induction false} PartsWellFormed(ms: seq<Message>)
    ensures WellFormed(Parts(ms)) && |Parts(ms).starts| == |ms|
    ensures ms != [] ==> Parts(ms).starts[0] == 0
    decreases |ms|
  {
    if ms != [] {
      PartsWellFormed(ms[1..]);
    }
  }

  /** Reading the split form gives every message back, in order. */
  lemma {:induction false} PartsRead(ms: seq<Message>, k: nat)
    requires k < |ms|
    ensures WellFormed(Parts(ms)) && |Parts(ms).starts| == |ms|
    ensures Payload(Parts(ms), k) == ms[k].payload && Parts(ms).types[k] == ms[k].typ
    decreases |ms|
  {
    PartsWellFormed(ms);
    PartsWellFormed(ms[1..]);
    if k != 0 {
      PartsRead(ms[1..], k - 1);
    }
    ReadAfter(ms[0], Parts(ms[1..]), k);
  }

  lemma ReadAfter(m: Message, rest: Split, k: nat)
    requires WellFormed(rest) && WellFormed(After(One(m), rest)) && k <= |rest.starts|
    requires rest.starts != [] ==> rest.starts[0] == 0
    requires rest.starts == [] ==> rest.buf == []
    ensures var all := After(One(m), rest);
            && Payload(all, k) == (if k == 0 then m.payload else Payload(rest, k - 1))
            && all.types[k] == if k == 0 then m.typ else rest.types[k - 1]
  {
    var all := After(One(m), rest);
    var n := |m.payload|;
    assert all.starts == [0] + Shifted(rest.starts, n);
    assert all.buf == m.payload + rest.buf && all.types == [m.typ] + rest.types;
    if k == 0 {
      assert EndOf(all, 0) == n;
      assert all.buf[0..n] == m.payload;
    } else {
      var from, to := rest.starts[k - 1], EndOf(rest, k - 1);
      assert all.starts[k] == from + n && EndOf(all, k) == to + n;
      assert all.buf[from + n..to + n] == rest.buf[from..to];
    }
  }

  /** Decoder over a buffer that has been split; `off` counts the messages consumed. */
  class Decoder {
    const splitter: Split
    var off: nat

    constructor (splitter: Split)
      requires WellFormed(splitter)
      ensures this.splitter == splitter && off == 0
    {
      this.splitter := splitter;
      off := 0;
    }

    function PeekType(): Result<MessageType>
      requires WellFormed(splitter)
      reads this
    {
      if off < |splitter.types| then Ok(splitter.types[off]) else Err(NotFound)
    }

    /** Slice of the next message, which is then behind the decoder. */
    method ReadNext() returns (r: Result<Bytes>)
      requires WellFormed(splitter)
      modifies this
      ensures r == if old(off) < |splitter.starts| then Ok(Payload(splitter, old(off))) else Err(NotFound)
      ensures off == old(off) + if r.Ok? then 1 else 0
    {
      if off >= |splitter.starts| {
        return Err(NotFound);
      }
      var to := if off + 1 < |splitter.starts| then splitter.starts[off + 1] else |splitter.buf|;
      r := Ok(splitter.buf[splitter.starts[off]..to]);
      off := off + 1;
    }
  }

  // ----- decoding whole buffers -----

  /** `Decoder::fill_splitter` */
  function Decode(z: Deflate, s: Split, r: Bytes): Result<Split>
    decreases |r|, 0
  {
    if r == [] then Err(EmptyBuffer)
    else if r[0] == 0 then
      match z.decompress(r[1..])
      case Ok(chunks) => ScanChunks(s, chunks)
      case Err(e) => Err(e)
    else if r[0] == 1 then DecodeVector(z, s, r[1..])
    else Err(InvalidHeader)
  }

  function DecodeVector(z: Deflate, s: Split, r: Bytes): Result<Split>
    decreases |r|, 1
  {
    if r == [] then Ok(s)
    else if |r| < 4 || |r| - 4 < ReadLen(r[..4]) then Err(Incomplete)
    else
      var len := ReadLen(r[..4]);
      match Decode(z, s, r[4..4 + len])
      case Ok(t) => DecodeVector(z, t, r[4 + len..])
      case Err(e) => Err(e)
  }

  method FillSplitter(z: Deflate, dst: Split, src: Bytes) returns (out: Result<Split>)
    ensures out == Decode(z, dst, src)
    decreases |src|, 0
  {
    if |src| == 0 {
      return Err(EmptyBuffer);
    }
    if src[0] == 0 {
      var d := z.decompress(src[1..]);
      if d.Err? {
        return Err(d.error);
      }
      out := ScanChunks(dst, d.value);
    } else if src[0] == 1 {
      out := FillVector(z, dst, src[1..]);
    } else {
      return Err(InvalidHeader);
    }
  }

  /** The loop over the length-prefixed parts of a joined buffer. */
  method FillVector(z: Deflate, dst: Split, src: Bytes) returns (out: Result<Split>)
    ensures out == DecodeVector(z, dst, src)
    decreases |src|, 1
  {
    var r := src;
    out := Ok(dst);
    while |r| > 0
      invariant |r| <= |src|
      invariant out.Ok? && DecodeVector(z, out.value, r) == DecodeVector(z, dst, src)
      decreases |r|
    {
      if |r| < 4 || |r| - 4 < ReadLen(r[..4]) {
        return Err(Incomplete);
      }
      var len := ReadLen(r[..4]);
      out := FillSplitter(z, out.value, r[4..4 + len]);
      if out.Err? {
        return;
      }
      r := r[4 + len..];
    }
  }

  lemma {:induction false} ScanChunksAfter(s: Split, t: Split, chunks: seq<Bytes>)
    ensures ScanChunks(After(s, t), chunks) == AfterResult(s, ScanChunks(t, chunks))
    decreases |chunks|
  {
    if chunks != [] {
      ScanAfter(s, t, chunks[0]);
      if Scan(t, chunks[0]).Ok? {
        ScanChunksAfter(s, Scan(t, chunks[0]).value, chunks[1..]);
      }
    }
  }

  lemma {:induction false} DecodeAfter(z: Deflate, s: Split, t: Split, r: Bytes)
    ensures Decode(z, After(s, t), r) == AfterResult(s, Decode(z, t, r))
    decreases |r|, 0
  {
    if r != [] {
      if r[0] == 0 && z.decompress(r[1..]).Ok? {
        ScanChunksAfter(s, t, z.decompress(r[1..]).value);
      } else if r[0] == 1 {
        DecodeVectorAfter(z, s, t, r[1..]);
      }
    }
  }

  lemma {:induction false} DecodeVectorAfter(z: Deflate, s: Split, t: Split, r: Bytes)
    ensures DecodeVector(z, After(s, t), r) == AfterResult(s, DecodeVector(z, t, r))
    decreases |r|, 1
  {
    if |r| >= 4 && |r| - 4 >= ReadLen(r[..4]) {
      var len := ReadLen(r[..4]);
      DecodeAfter(z, s, t, r[4..4 + len]);
      if Decode(z, t, r[4..4 + len]).Ok? {
        DecodeVectorAfter(z, s, Decode(z, t, r[4..4 + len]).value, r[4 + len..]);
      }
    }
  }

  /** Whatever the bytes, a buffer that decodes can be read without slicing out of range. */
  lemma {:induction false} DecodeWellFormed(z: Deflate, s: Split, r: Bytes)
    requires WellFormed(s)
    ensures Decode(z, s, r).Ok? ==> WellFormed(Decode(z, s, r).value)
    decreases |r|, 0
  {
    if r != [] {
      if r[0] == 0 && z.decompress(r[1..]).Ok? {
        ScanChunksWellFormed(s, z.decompress(r[1..]).value);
      } else if r[0] == 1 {
        DecodeVectorWellFormed(z, s, r[1..]);
      }
    }
  }

  lemma {:induction false} ScanChunksWellFormed(s: Split, chunks: seq<Bytes>)
    requires WellFormed(s)
    ensures ScanChunks(s, chunks).Ok? ==> WellFormed(ScanChunks(s, chunks).value)
    decreases |chunks|
  {
    if chunks != [] {
      ScanWellFormed(s, chunks[0]);
      if Scan(s, chunks[0]).Ok? {
        ScanChunksWellFormed(Scan(s, chunks[0]).value, chunks[1..]);
      }
    }
  }

  lemma {:induction false} DecodeVectorWellFormed(z: Deflate, s: Split, r: Bytes)
    requires WellFormed(s)
    ensures DecodeVector(z, s, r).Ok? ==> WellFormed(DecodeVector(z, s, r).value)
    decreases |r|, 1
  {
    if |r| >= 4 && |r| - 4 >= ReadLen(r[..4]) {
      var len := ReadLen(r[..4]);
      DecodeWellFormed(z, s, r[4..4 + len]);
      if Decode(z, s, r[4..4 + len]).Ok? {
        DecodeVectorWellFormed(z, Decode(z, s, r[4..4 + len]).value, r[4 + len..]);
      }
    }
  }

  // ----- joined buffers -----

  /** The parts decoded one after the other, stopping at the first error. */
  function DecodeEach(z: Deflate, s: Split, parts: seq<Bytes>): Result<Split>
    decreases |parts|
  {
    if parts == [] then Ok(s)
    else
      match Decode(z, s, parts[0])
      case Ok(t) => DecodeEach(z, t, parts[1..])
      case Err(e) => Err(e)
  }

  /** Decoding a join is decoding its parts in order, whatever they hold. */
  lemma {:induction false} JoinDecodes(z: Deflate, s: Split, parts: seq<Bytes>)
    requires forall p | p in parts :: |p| < 0x8000_0000
    ensures Decode(z, s, Join(parts)) == DecodeEach(z, s, parts)
    ensures DecodeVector(z, s, Framed(parts)) == DecodeEach(z, s, parts)
    decreases |parts|
  {
    assert Join(parts)[1..] == Framed(parts);
    if parts != [] {
      var p := parts[0];
      var r := Framed(parts);
      assert p in parts;
      assert r[..4] == LenBytes(|p|);
      LenRoundTrip(|p|);
      assert r[4..4 + |p|] == p && r[4 + |p|..] == Framed(parts[1..]);
      if Decode(z, s, p).Ok? {
        JoinDecodes(z, Decode(z, s, p).value, parts[1..]);
      }
    }
  }

  /** Parts that decode on their own are appended: buffers, shifted offsets and types in order. */
  lemma {:induction false} JoinAppends(z: Deflate, s: Split, parts: seq<Bytes>)
    requires forall p | p in parts :: Decode(z, NOTHING, p).Ok?
    ensures DecodeEach(z, s, parts) == Ok(After(s, AppendAll(z, parts)))
    decreases |parts|
  {
    AfterNothing(s);
    if parts != [] {
      assert parts[0] in parts;
      DecodeAfter(z, s, NOTHING, parts[0]);
      var t := Decode(z, NOTHING, parts[0]).value;
      JoinAppends(z, After(s, t), parts[1..]);
      AfterAssociates(s, t, AppendAll(z, parts[1..]));
    }
  }

  function AppendAll(z: Deflate, parts: seq<Bytes>): Split
    requires forall p | p in parts :: Decode(z, NOTHING, p).Ok?
    decreases |parts|
  {
    if parts == [] then NOTHING
    else assert parts[0] in parts; After(Decode(z, NOTHING, parts[0]).value, AppendAll(z, parts[1..]))
  }

  // ----- round trip of arbitrarily nested bundles -----

  /** Messages encoded together, or bundles joined, to any depth. */
  datatype Bundle = Single(messages: seq<Message>) | Joined(bundles: seq<Bundle>)

  function Wire(z: Deflate, b: Bundle): Bytes {
    match b
    case Single(ms) => Encoded(z, ms)
    case Joined(bs) => Join(Wires(z, bs))
  }

  function Wires(z: Deflate, bs: seq<Bundle>): (r: seq<Bytes>)
    ensures |r| == |bs|
    ensures forall k | 0 <= k < |bs| :: r[k] == Wire(z, bs[k])
  {
    if bs == [] then [] else [Wire(z, bs[0])] + Wires(z, bs[1..])
  }

  function Contents(b: Bundle): seq<Message> {
    match b
    case Single(ms) => ms
    case Joined(bs) => ContentsAll(bs)
  }

  function ContentsAll(bs: seq<Bundle>): seq<Message> {
    if bs == [] then [] else Contents(bs[0]) + ContentsAll(bs[1..])
  }

  /** Lengths fit their frames, and decompression never cuts right after a header byte. */
  ghost predicate Transmits(z: Deflate, b: Bundle) {
    match b
    case Single(ms) =>
      var raw := z.decompress(z.compress(Stream(ms)));
      raw.Ok? && forall c | c in raw.value :: !EndsOnHeader(c)
    case Joined(bs) =>
      forall k | 0 <= k < |bs| :: |Wire(z, bs[k])| < 0x8000_0000 && Transmits(z, bs[k])
  }

  lemma SingleRoundTrip(z: Deflate, s: Split, ms: seq<Message>)
    requires Inverse(z) && Transmits(z, Single(ms))
    ensures Decode(z, s, Encoded(z, ms)) == Ok(After(s, Parts(ms)))
  {
    var chunks := z.decompress(z.compress(Stream(ms))).value;
    assert Encoded(z, ms)[1..] == z.compress(Stream(ms));
    ScanStream(s, ms);
    ChunkedExact(s, chunks);
  }

  /** Any bundle, however nested, decodes to exactly its messages, in order. */
  lemma {:induction false} BundleRoundTrip(z: Deflate, s: Split, b: Bundle)
    requires Inverse(z) && Transmits(z, b)
    ensures Decode(z, s, Wire(z, b)) == Ok(After(s, Parts(Contents(b))))
    decreases b, 0
  {
    match b
    case Single(ms) => SingleRoundTrip(z, s, ms);
    case Joined(bs) =>
      JoinDecodes(z, s, Wires(z, bs));
      BundlesRoundTrip(z, s, bs);
  }

  lemma {:induction false} BundlesRoundTrip(z: Deflate, s: Split, bs: seq<Bundle>)
    requires Inverse(z) && forall k | 0 <= k < |bs| :: Transmits(z, bs[k])
    ensures DecodeEach(z, s, Wires(z, bs)) == Ok(After(s, Parts(ContentsAll(bs))))
    decreases bs, 1
  {
    if bs == [] {
      AfterNothing(s);
    } else {
      BundleRoundTrip(z, s, bs[0]);
      var first, rest := Contents(bs[0]), ContentsAll(bs[1..]);
      assert Wires(z, bs)[1..] == Wires(z, bs[1..]);
      forall k | 0 <= k < |bs[1..]| ensures Transmits(z, bs[1..][k]) {
        assert bs[1..][k] == bs[k + 1];
      }
      BundlesRoundTrip(z, After(s, Parts(first)), bs[1..]);
      AfterAssociates(s, Parts(first), Parts(rest));
      PartsConcat(first, rest);
    }
  }
}
