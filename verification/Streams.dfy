/** Which bytes are streams of messages, and which joined buffers are whole: the inverse of encoding,
    for arbitrary input. */
module Streams {
  import opened MachineInts
  import opened Codec

  /** The bytes are what escaping and framing make of the rest of a message begun before, and of the
      messages after it. */
  predicate Spells(b: Bytes, begun: Bytes, ms: seq<Message>) {
    b == Escape(begun) + Stream(ms)
  }

  /** What has been split, with the rest of the message begun and those after it. */
  function Continued(s: Split, begun: Bytes, ms: seq<Message>): Split {
    After(s.(buf := s.buf + begun), Parts(ms))
  }

  lemma SpellsByte(x: u8, b: Bytes, begun: Bytes, ms: seq<Message>)
    requires Spells(b, begun, ms)
    ensures Spells((if x == HEADER then [HEADER, ESCAPE] else [x]) + b, [x] + begun, ms)
  {
    assert ([x] + begun)[1..] == begun;
  }

  lemma SpellsMessage(t: MessageType, b: Bytes, begun: Bytes, ms: seq<Message>)
    requires Spells(b, begun, ms)
    ensures Spells([HEADER, t] + b, [], [Message(t, begun)] + ms)
  {
    assert ([Message(t, begun)] + ms)[1..] == ms;
  }

  lemma {:induction false} ScanSpelled(s: Split, begun: Bytes, ms: seq<Message>)
    ensures Scan(s, Escape(begun) + Stream(ms)) == Ok(Continued(s, begun, ms))
  {
    ScanEscaped(s, begun, Stream(ms));
    ScanStream(s.(buf := s.buf + begun), ms);
  }

  /** Why bytes are refused: they end right after a header byte, or one is followed by no type. */
  predicate Broken(e: Error, tail: Bytes) {
    tail != [] && tail[0] == HEADER
    && match e
       case EndsWithHeader => |tail| == 1
       case InvalidType => |tail| > 1 && tail[1] != ESCAPE && tail[1] >= 24
       case _ => false
  }

  /** How far the bytes spell messages, and what is then left over. */
  ghost predicate SpellsUpTo(b: Bytes, tail: Bytes) {
    exists begun, ms, read :: Spells(read, begun, ms) && b == read + tail
  }

  lemma {:induction false} ScanReads(s: Split, b: Bytes)
    ensures Scan(s, b).Ok? ==> SpellsUpTo(b, [])
    ensures Scan(s, b).Err? ==> exists tail :: SpellsUpTo(b, tail) && Broken(Scan(s, b).error, tail)
    decreases |b|
  {
    if b == [] {
      assert Spells([], [], []) && b == [] + [];
    } else if b[0] != HEADER {
      ScanReads(s.(buf := s.buf + [b[0]]), b[1..]);
      assert b == [b[0]] + b[1..];
      forall tail | SpellsUpTo(b[1..], tail) ensures SpellsUpTo(b, tail) {
        ByteMore(b[0], b[1..], tail);
      }
    } else if |b| == 1 {
      NothingRead(b);
    } else if b[1] == ESCAPE {
      ScanReads(s.(buf := s.buf + [HEADER]), b[2..]);
      assert b == [HEADER, ESCAPE] + b[2..];
      forall tail | SpellsUpTo(b[2..], tail) ensures SpellsUpTo(b, tail) {
        ByteMore(HEADER, b[2..], tail);
      }
    } else if b[1] < 24 {
      ScanReads(Split(s.buf, s.starts + [|s.buf|], s.types + [b[1]]), b[2..]);
      assert b == [HEADER, b[1]] + b[2..];
      forall tail | SpellsUpTo(b[2..], tail) ensures SpellsUpTo(b, tail) {
        MessageMore(b[1], b[2..], tail);
      }
    } else {
      NothingRead(b);
    }
  }

  lemma NothingRead(b: Bytes)
    ensures SpellsUpTo(b, b)
  {
    assert Spells([], [], []) && b == [] + b;
  }

  lemma ByteMore(x: u8, b: Bytes, tail: Bytes)
    requires SpellsUpTo(b, tail)
    ensures SpellsUpTo((if x == HEADER then [HEADER, ESCAPE] else [x]) + b, tail)
  {
    var begun, ms, read :| Spells(read, begun, ms) && b == read + tail;
    SpellsByte(x, read, begun, ms);
    var h := if x == HEADER then [HEADER, ESCAPE] else [x];
    assert h + b == (h + read) + tail;
  }

  lemma MessageMore(t: MessageType, b: Bytes, tail: Bytes)
    requires SpellsUpTo(b, tail)
    ensures SpellsUpTo([HEADER, t] + b, tail)
  {
    var begun, ms, read :| Spells(read, begun, ms) && b == read + tail;
    SpellsMessage(t, read, begun, ms);
    assert [HEADER, t] + b == ([HEADER, t] + read) + tail;
  }

  /** Exact: bytes are split iff they are an encoding, and into what was encoded. */
  lemma ScanExact(s: Split, b: Bytes, t: Split)
    ensures Scan(s, b) == Ok(t) <==> exists begun, ms :: Spells(b, begun, ms) && t == Continued(s, begun, ms)
  {
    forall begun, ms | Spells(b, begun, ms) ensures Scan(s, b) == Ok(Continued(s, begun, ms)) {
      ScanSpelled(s, begun, ms);
    }
    ScanReads(s, b);
    if Scan(s, b).Ok? {
      var begun, ms, read :| Spells(read, begun, ms) && b == read + [];
      assert b == read;
    }
  }

  lemma ScanPrefix(s: Split, read: Bytes, tail: Bytes, begun: Bytes, ms: seq<Message>)
    requires Spells(read, begun, ms)
    ensures Scan(s, read + tail) == Scan(Continued(s, begun, ms), tail)
  {
    ScanSpelled(s, begun, ms);
    ScanCut(s, read, tail);
  }

  /** Exact: why bytes are refused. */
  lemma RefusedExact(s: Split, b: Bytes, e: Error)
    ensures Scan(s, b) == Err(e) <==> exists tail :: SpellsUpTo(b, tail) && Broken(e, tail)
  {
    ScanReads(s, b);
    forall tail | SpellsUpTo(b, tail) && Broken(e, tail) ensures Scan(s, b) == Err(e) {
      var begun, ms, read :| Spells(read, begun, ms) && b == read + tail;
      ScanPrefix(s, read, tail, begun, ms);
    }
  }

  // ----- joined buffers -----

  predicate AllFit(parts: seq<Bytes>) {
    forall p | p in parts :: |p| < 0x8000_0000
  }

  /** A part that is cut short: no room for its length, or for what its length says. */
  predicate CutShort(b: Bytes) {
    b != [] && (|b| < 4 || |b| - 4 < ReadLen(b[..4]))
  }

  lemma FramedMore(p: Bytes, parts: seq<Bytes>)
    ensures Framed([p] + parts) == LenBytes(|p|) + p + Framed(parts)
  {
    assert ([p] + parts)[1..] == parts;
  }

  lemma DivMod(x: nat, q: nat)
    requires x < 0x100
    ensures (x + 0x100 * q) / 0x100 == q && (x + 0x100 * q) % 0x100 == x
  {
  }

  lemma LittleEndian(b0: nat, b1: nat, b2: nat, b3: nat)
    requires b0 < 0x100 && b1 < 0x100 && b2 < 0x100
    ensures var m := FromLittleEndian(b0, b1, b2, b3);
            m % 0x100 == b0 && m / 0x100 % 0x100 == b1 && m / 0x100 / 0x100 % 0x100 == b2 && m / 0x100 / 0x100 / 0x100 == b3
  {
    var m2 := b2 + 0x100 * b3;
    var m1 := b1 + 0x100 * m2;
    assert FromLittleEndian(b0, b1, b2, b3) == b0 + 0x100 * m1;
    DivMod(b0, m1);
    DivMod(b1, m2);
    DivMod(b2, b3);
  }

  lemma LenSmall(n: nat)
    requires n < 0x8000_0000
    ensures LenBytes(n) == [n % 0x100, n / 0x100 % 0x100, n / 0x100 / 0x100 % 0x100, n / 0x100 / 0x100 / 0x100]
  {
    assert n % 0x1_0000_0000 == n;
  }

  /** Lengths are read as they were written, and written as they are read. */
  lemma LenReads(b: Bytes)
    requires |b| == 4 && ReadLen(b) < 0x8000_0000
    ensures LenBytes(ReadLen(b)) == b
  {
    LenSmall(ReadLen(b));
    LittleEndian(b[0], b[1], b[2], b[3]);
    hide LenBytes, FromLittleEndian;
    assert ReadLen(b) == FromLittleEndian(b[0], b[1], b[2], b[3]);
    assert LenBytes(ReadLen(b)) == [b[0], b[1], b[2], b[3]];
  }

  /** How many parts there are whole, and what is left. */
  ghost predicate FramedUpTo(z: Deflate, s: Split, b: Bytes, parts: seq<Bytes>, tail: Bytes) {
    AllFit(parts) && b == Framed(parts) + tail && DecodeEach(z, s, parts).Ok?
  }

  /** What stops the decoding of a joined buffer: a part cut short, or one that does not decode. */
  ghost predicate Stops(z: Deflate, s: Split, tail: Bytes, e: Error) {
    || (CutShort(tail) && e == Incomplete)
    || exists p, rest :: Refused(z, s, tail, p, rest, e)
  }

  predicate Refused(z: Deflate, s: Split, tail: Bytes, p: Bytes, rest: Bytes, e: Error) {
    |p| < 0x8000_0000 && tail == LenBytes(|p|) + p + rest && Decode(z, s, p) == Err(e)
  }

  /** How decoding ends: with all parts read, or stopped after some of them. */
  ghost predicate Ends(z: Deflate, s: Split, b: Bytes, parts: seq<Bytes>, tail: Bytes, r: Result<Split>) {
    && FramedUpTo(z, s, b, parts, tail)
    && if r.Ok? then tail == [] && DecodeEach(z, s, parts) == r else Stops(z, DecodeEach(z, s, parts).value, tail, r.error)
  }

  lemma EndsAtOnce(z: Deflate, s: Split, b: Bytes, r: Result<Split>)
    requires if r.Ok? then b == [] && r == Ok(s) else Stops(z, s, b, r.error)
    ensures Ends(z, s, b, [], b, r)
  {
    hide Stops;
    assert Framed([]) + b == b;
  }

  lemma EndsLater(z: Deflate, s: Split, p: Bytes, t: Split, rest: Bytes, parts: seq<Bytes>, tail: Bytes, r: Result<Split>)
    requires |p| < 0x8000_0000 && Decode(z, s, p) == Ok(t) && Ends(z, t, rest, parts, tail, r)
    ensures Ends(z, s, LenBytes(|p|) + p + rest, [p] + parts, tail, r)
  {
    hide Stops, FramedUpTo, Decode;
    PartMore(z, s, p, t, rest, parts, tail);
  }

  /** A buffer not cut short begins with a part. */
  lemma FirstPart(b: Bytes) returns (p: Bytes, rest: Bytes)
    requires b != [] && !CutShort(b) && |b| < 0x8000_0000_0000_0000
    ensures |p| < 0x8000_0000 && b == LenBytes(|p|) + p + rest && |rest| < |b|
    ensures p == b[4..4 + ReadLen(b[..4])] && rest == b[4 + ReadLen(b[..4])..]
  {
    var len := ReadLen(b[..4]);
    p, rest := b[4..4 + len], b[4 + len..];
    LenReads(b[..4]);
  }

  lemma {:induction false} VectorReads(z: Deflate, s: Split, b: Bytes)
    requires |b| < 0x8000_0000_0000_0000
    ensures exists parts, tail :: Ends(z, s, b, parts, tail, DecodeVector(z, s, b))
    decreases |b|
  {
    hide Ends, Decode, LenBytes, ReadLen;
    if b == [] || CutShort(b) {
      EndsAtOnce(z, s, b, DecodeVector(z, s, b));
    } else {
      var p, rest := FirstPart(b);
      match Decode(z, s, p)
      case Err(e) =>
        assert Refused(z, s, b, p, rest, e);
        assert DecodeVector(z, s, b) == Err(e);
        EndsAtOnce(z, s, b, DecodeVector(z, s, b));
      case Ok(t) =>
        VectorReads(z, t, rest);
        var parts, tail :| Ends(z, t, rest, parts, tail, DecodeVector(z, t, rest));
        assert DecodeVector(z, s, b) == DecodeVector(z, t, rest);
        EndsLater(z, s, p, t, rest, parts, tail, DecodeVector(z, t, rest));
    }
  }

  lemma PartMore(z: Deflate, s: Split, p: Bytes, t: Split, rest: Bytes, parts: seq<Bytes>, tail: Bytes)
    requires |p| < 0x8000_0000 && Decode(z, s, p) == Ok(t) && FramedUpTo(z, t, rest, parts, tail)
    ensures FramedUpTo(z, s, LenBytes(|p|) + p + rest, [p] + parts, tail)
    ensures DecodeEach(z, s, [p] + parts) == DecodeEach(z, t, parts)
  {
    FramedMore(p, parts);
    assert ([p] + parts)[1..] == parts;
    assert LenBytes(|p|) + p + rest == Framed([p] + parts) + tail;
  }

  /** Exact: a joined buffer decodes iff it is the join of parts that do, one after the other, and to
      what they hold. */
  lemma VectorExact(z: Deflate, s: Split, b: Bytes, t: Split)
    requires |b| < 0x8000_0000_0000_0000
    ensures DecodeVector(z, s, b) == Ok(t) <==>
              exists parts :: AllFit(parts) && b == Framed(parts) && DecodeEach(z, s, parts) == Ok(t)
  {
    VectorReads(z, s, b);
    forall parts | AllFit(parts) && b == Framed(parts) ensures DecodeVector(z, s, b) == DecodeEach(z, s, parts) {
      JoinDecodes(z, s, parts);
    }
    if DecodeVector(z, s, b).Ok? {
      var parts, tail :| Ends(z, s, b, parts, tail, DecodeVector(z, s, b));
      assert b == Framed(parts);
    }
  }

  lemma {:induction false} VectorPrefix(z: Deflate, s: Split, parts: seq<Bytes>, tail: Bytes)
    requires AllFit(parts) && DecodeEach(z, s, parts).Ok?
    ensures DecodeVector(z, s, Framed(parts) + tail) == DecodeVector(z, DecodeEach(z, s, parts).value, tail)
    decreases |parts|
  {
    var b := Framed(parts) + tail;
    if parts == [] {
      assert b == tail;
    } else {
      var p := parts[0];
      assert p in parts;
      PartReads(p, Framed(parts[1..]) + tail);
      assert b == LenBytes(|p|) + p + (Framed(parts[1..]) + tail);
      VectorPrefix(z, Decode(z, s, p).value, parts[1..], tail);
    }
  }

  lemma PartReads(p: Bytes, rest: Bytes)
    requires |p| < 0x8000_0000
    ensures var b := LenBytes(|p|) + p + rest;
            !CutShort(b) && ReadLen(b[..4]) == |p| && b[4..4 + |p|] == p && b[4 + |p|..] == rest
  {
    var b := LenBytes(|p|) + p + rest;
    LenRoundTrip(|p|);
    assert b[..4] == LenBytes(|p|);
  }

  lemma StopsThere(z: Deflate, s: Split, tail: Bytes, e: Error)
    requires Stops(z, s, tail, e)
    ensures DecodeVector(z, s, tail) == Err(e)
  {
    if !(CutShort(tail) && e == Incomplete) {
      var p, rest :| Refused(z, s, tail, p, rest, e);
      PartReads(p, rest);
    }
  }

  /** Exact: why a joined buffer is refused. */
  lemma VectorRefusedExact(z: Deflate, s: Split, b: Bytes, e: Error)
    requires |b| < 0x8000_0000_0000_0000
    ensures DecodeVector(z, s, b) == Err(e) <==>
              exists parts, tail :: FramedUpTo(z, s, b, parts, tail) && Stops(z, DecodeEach(z, s, parts).value, tail, e)
  {
    VectorReads(z, s, b);
    forall parts, tail | FramedUpTo(z, s, b, parts, tail) && Stops(z, DecodeEach(z, s, parts).value, tail, e)
      ensures DecodeVector(z, s, b) == Err(e)
    {
      VectorPrefix(z, s, parts, tail);
      StopsThere(z, DecodeEach(z, s, parts).value, tail, e);
    }
  }

  // ----- whole buffers -----

  lemma {:induction false} ChunksExact(s: Split, chunks: seq<Bytes>, t: Split)
    ensures ScanChunks(s, chunks) == Ok(t) <==>
              Scan(s, Flatten(chunks)) == Ok(t) && forall c | c in chunks :: !EndsOnHeader(c)
    decreases |chunks|
  {
    if chunks != [] {
      ScanCut(s, chunks[0], Flatten(chunks[1..]));
      if Scan(s, chunks[0]).Ok? {
        ChunksExact(Scan(s, chunks[0]).value, chunks[1..], t);
      }
      assert forall c :: c in chunks <==> c == chunks[0] || c in chunks[1..];
    }
  }

  /** A buffer holds a stream: compressed behind a zero byte, and cut by decompression nowhere right
      after a header byte. */
  ghost predicate HoldsStream(z: Deflate, r: Bytes, begun: Bytes, ms: seq<Message>) {
    && r != [] && r[0] == 0 && z.decompress(r[1..]).Ok?
    && Spells(Flatten(z.decompress(r[1..]).value), begun, ms)
    && forall c | c in z.decompress(r[1..]).value :: !EndsOnHeader(c)
  }

  lemma StreamDecodes(z: Deflate, s: Split, r: Bytes, t: Split)
    requires r != [] && r[0] == 0
    ensures Decode(z, s, r) == Ok(t) <==> exists begun, ms :: HoldsStream(z, r, begun, ms) && t == Continued(s, begun, ms)
  {
    hide Spells, Continued, Scan, ScanChunks;
    if z.decompress(r[1..]).Ok? {
      var chunks := z.decompress(r[1..]).value;
      ChunksExact(s, chunks, t);
      ScanExact(s, Flatten(chunks), t);
      forall begun, ms | Spells(Flatten(chunks), begun, ms) && forall c | c in chunks :: !EndsOnHeader(c)
        ensures HoldsStream(z, r, begun, ms)
      {
      }
    }
  }

  lemma JoinIs(r: Bytes, parts: seq<Bytes>)
    ensures r == Join(parts) <==> r != [] && r[0] == 1 && r[1..] == Framed(parts)
  {
    assert r != [] ==> r == [r[0]] + r[1..];
    assert Join(parts)[1..] == Framed(parts);
  }

  /** Exact: which buffers decode, and to what: those that hold a stream, and joins of buffers that decode
      one after the other. */
  lemma DecodeExact(z: Deflate, s: Split, r: Bytes, t: Split)
    requires |r| < 0x8000_0000_0000_0000
    ensures Decode(z, s, r) == Ok(t) <==>
              || (exists begun, ms :: HoldsStream(z, r, begun, ms) && t == Continued(s, begun, ms))
              || (exists parts :: AllFit(parts) && r == Join(parts) && DecodeEach(z, s, parts) == Ok(t))
  {
    hide Spells, Continued, ScanChunks, DecodeVector, DecodeEach, AllFit, Framed, Join;
    forall parts ensures r == Join(parts) <==> r != [] && r[0] == 1 && r[1..] == Framed(parts) {
      JoinIs(r, parts);
    }
    if r != [] && r[0] == 0 {
      StreamDecodes(z, s, r, t);
    } else if r != [] && r[0] == 1 {
      VectorExact(z, s, r[1..], t);
    }
  }
}
