/**
 Length-prefixed messages: a four-byte big-endian length and then the payload.

 `Decode` says what one read takes from the bytes ahead; `ReadAll` is a connection that reads
 until the stream ends or fails.
 */
module Wire {
  import opened Options
  import opened Transport

  const MAX_MESSAGE_SIZE: nat := 1_048_576
  const U32_LIMIT: nat := 0x1_0000_0000

  function ToBigEndian(n: nat): (s: seq<byte>)
    requires n < U32_LIMIT
    ensures |s| == 4
  {
    [n / 0x100_0000, n / 0x1_0000 % 256, n / 256 % 256, n % 256]
  }

  function FromBigEndian(s: seq<byte>): (n: nat)
    requires |s| == 4
    ensures n < U32_LIMIT
  {
    (((s[0] as int) * 256 + s[1]) * 256 + s[2]) * 256 + s[3]
  }

  /** The most significant byte comes first. */
  lemma BigEndianBytes(a: byte, b: byte, c: byte, d: byte)
    ensures FromBigEndian([a, b, c, d]) == (a as int) * 16_777_216 + (b as int) * 65_536 + (c as int) * 256 + d as int
  {
  }

  lemma BigEndianRoundTrip(n: nat)
    requires n < U32_LIMIT
    ensures FromBigEndian(ToBigEndian(n)) == n
  {
    assert n == n / 256 * 256 + n % 256;
    assert n / 256 == n / 0x1_0000 * 256 + n / 256 % 256;
    assert n / 0x1_0000 == n / 0x100_0000 * 256 + n / 0x1_0000 % 256;
  }

  lemma BigEndianInverse(s: seq<byte>)
    requires |s| == 4
    ensures ToBigEndian(FromBigEndian(s)) == s
  {
    var a: int, b: int, c: int, d: int := s[0], s[1], s[2], s[3];
    var n := FromBigEndian(s);
    DigitSplit((a * 256 + b) * 256 + c, d);
    DigitSplit(a * 256 + b, c);
    DigitSplit(a, b);
    assert n / 0x1_0000 == n / 256 / 256 && n / 0x100_0000 == n / 256 / 256 / 256;
  }

  lemma DigitSplit(q: int, r: int)
    requires 0 <= r < 256
    ensures (q * 256 + r) / 256 == q && (q * 256 + r) % 256 == r
  {
  }

  /** The bytes of one message; a payload of 4 GiB or more is refused. */
  function Encode(data: seq<byte>): Option<seq<byte>> {
    if |data| >= U32_LIMIT then None else Some(ToBigEndian(|data|) + data)
  }

  datatype Outcome =
    | Message(payload: seq<byte>)
    | CleanEnd
    | EmptyMessage
    | TooLarge
    | UnexpectedEof

  /** One read: a stream that ends inside the length prefix is a clean end. */
  function Decode(s: seq<byte>): (Outcome, seq<byte>) {
    if |s| < 4 then (CleanEnd, [])
    else
      var len := FromBigEndian(s[..4]);
      if len == 0 then (EmptyMessage, s[4..])
      else if len > MAX_MESSAGE_SIZE then (TooLarge, s[4..])
      else if |s| < 4 + len then (UnexpectedEof, [])
      else (Message(s[4..4 + len]), s[4 + len..])
  }

  function ReadAll(s: seq<byte>): (seq<seq<byte>>, Outcome)
    decreases |s|
  {
    var (outcome, rest) := Decode(s);
    if outcome.Message? then
      var (payloads, end) := ReadAll(rest);
      ([outcome.payload] + payloads, end)
    else ([], outcome)
  }

  predicate Sendable(payload: seq<byte>) {
    1 <= |payload| <= MAX_MESSAGE_SIZE
  }

  function Frame(payload: seq<byte>): seq<byte>
    requires Sendable(payload)
  {
    ToBigEndian(|payload|) + payload
  }

  function Frames(payloads: seq<seq<byte>>): seq<byte>
    requires forall p :: p in payloads ==> Sendable(p)
  {
    if payloads == [] then [] else Frame(payloads[0]) + Frames(payloads[1..])
  }

  /** The reader takes back exactly the frame the writer made, whatever follows it. */
  lemma DecodeFrame(payload: seq<byte>, rest: seq<byte>)
    requires Sendable(payload)
    ensures Decode(Frame(payload) + rest) == (Message(payload), rest)
  {
    var s := Frame(payload) + rest;
    assert s[..4] == ToBigEndian(|payload|);
    BigEndianRoundTrip(|payload|);
    assert s[4..4 + |payload|] == payload;
    assert s[4 + |payload|..] == rest;
  }

  /** A frame cut short is never a message. */
  lemma DecodeCutFrame(payload: seq<byte>, k: nat)
    requires Sendable(payload) && k < |Frame(payload)|
    ensures Decode(Frame(payload)[..k]).0 == if k < 4 then CleanEnd else UnexpectedEof
  {
    var s := Frame(payload)[..k];
    if k >= 4 {
      assert s[..4] == ToBigEndian(|payload|);
      BigEndianRoundTrip(|payload|);
    }
  }

  /** Reading the concatenated frames gives back the list and then a clean end. */
  lemma {:induction false} FramesRoundTrip(payloads: seq<seq<byte>>)
    requires forall p :: p in payloads ==> Sendable(p)
    ensures ReadAll(Frames(payloads)) == (payloads, CleanEnd)
  {
    if payloads != [] {
      DecodeFrame(payloads[0], Frames(payloads[1..]));
      FramesRoundTrip(payloads[1..]);
      assert payloads == [payloads[0]] + payloads[1..];
    }
  }

  /** `read` is the messages whose frames lie whole in the first `k` bytes, and `end` is no protocol error. */
  ghost predicate WholeFrames(payloads: seq<seq<byte>>, k: nat, read: seq<seq<byte>>, end: Outcome)
    requires forall p :: p in payloads ==> Sendable(p)
  {
    && read <= payloads
    && end in {CleanEnd, UnexpectedEof}
    && |Frames(payloads[..|read|])| <= k
    && (|read| < |payloads| ==> k < |Frames(payloads[..|read| + 1])|)
  }

  lemma WholeFramesExtend(payloads: seq<seq<byte>>, k: nat, read: seq<seq<byte>>, end: Outcome)
    requires (forall p :: p in payloads ==> Sendable(p)) && payloads != []
    requires WholeFrames(payloads[1..], k, read, end)
    ensures WholeFrames(payloads, |Frame(payloads[0])| + k, [payloads[0]] + read, end)
  {
    var n := |read|;
    assert [payloads[0]] + read == payloads[..n + 1];
    FramesOfPrefix(payloads, n);
    if n < |payloads[1..]| {
      FramesOfPrefix(payloads, n + 1);
    }
  }

  /** Reading a stream cut anywhere yields exactly the messages whose frames are whole, then an end. */
  lemma {:induction false} CutStreamYieldsPrefix(payloads: seq<seq<byte>>, k: nat)
    requires forall p :: p in payloads ==> Sendable(p)
    requires k <= |Frames(payloads)|
    ensures var (read, end) := ReadAll(Frames(payloads)[..k]); WholeFrames(payloads, k, read, end)
  {
    if payloads != [] {
      var first, others := payloads[0], payloads[1..];
      var s := Frames(payloads)[..k];
      if k < |Frame(first)| {
        assert s == Frame(first)[..k];
        DecodeCutFrame(first, k);
        FramesOfPrefix(payloads, 0);
      } else {
        var k' := k - |Frame(first)|;
        assert s == Frame(first) + Frames(others)[..k'];
        DecodeFrame(first, Frames(others)[..k']);
        CutStreamYieldsPrefix(others, k');
        var (read, end) := ReadAll(Frames(others)[..k']);
        WholeFramesExtend(payloads, k', read, end);
      }
    }
  }

  lemma FramesOfPrefix(payloads: seq<seq<byte>>, n: nat)
    requires forall p :: p in payloads ==> Sendable(p)
    requires n < |payloads|
    ensures Frames(payloads[..n + 1]) == Frame(payloads[0]) + Frames(payloads[1..][..n])
  {
    assert payloads[..n + 1][1..] == payloads[1..][..n];
  }

  /** What one read makes of any bytes, from the length that the first four spell. */
  lemma DecodeInPlainTerms(a: byte, b: byte, c: byte, d: byte, rest: seq<byte>)
    ensures var len := (a as int) * 16_777_216 + (b as int) * 65_536 + (c as int) * 256 + d as int;
            Decode([a, b, c, d] + rest) ==
            if len == 0 then (EmptyMessage, rest)
            else if len > 1_048_576 then (TooLarge, rest)
            else if |rest| < len then (UnexpectedEof, [])
            else (Message(rest[..len]), rest[len..])
  {
    var s := [a, b, c, d] + rest;
    assert s[..4] == [a, b, c, d] && s[4..] == rest;
    BigEndianBytes(a, b, c, d);
    var len := FromBigEndian(s[..4]);
    if len <= |rest| {
      assert s[4..4 + len] == rest[..len] && s[4 + len..] == rest[len..];
    }
  }

  /** Which payloads a round trip fails for: the writer takes them, the reader refuses them. */
  lemma OnlySendableRoundTrips(data: seq<byte>)
    requires |data| < U32_LIMIT
    ensures Decode(Encode(data).value).0 == Message(data) <==> 1 <= |data| <= 1_048_576
    ensures |data| == 0 ==> Decode(Encode(data).value).0 == EmptyMessage
    ensures |data| > 1_048_576 ==> Decode(Encode(data).value).0 == TooLarge
  {
    var s := Encode(data).value;
    assert s[..4] == ToBigEndian(|data|);
    BigEndianRoundTrip(|data|);
    if Sendable(data) {
      DecodeFrame(data, []);
      assert Frame(data) + [] == s;
    }
  }

  // ---------------------------------------------------------------------
  // Reading and writing over the chunked transport
  // ---------------------------------------------------------------------

  method Send(t: TestTransport, data: seq<byte>, ghost peer: TestTransport) returns (ok: bool)
    requires t.Valid() && t.rx != t.tx
    requires peer.Valid() && peer.rx == t.tx
    modifies t.tx
    ensures t.Valid() && t.Pending() == old(t.Pending())
    ensures peer.Valid() && peer.Pending() == old(peer.Pending()) + if ok then data else []
    ensures ok <==> old(t.tx.room) != Some(0)
    ensures t.tx.room == if ok && old(t.tx.room).Some? then Some(old(t.tx.room).value - 1) else old(t.tx.room)
  {
    ghost var buffered, queued, sent := peer.readBuffer[peer.readPos..], Flatten(t.tx.chunks), t.tx.sent;
    ok := t.WriteAll(data);
    if ok {
      assert peer.Pending() == buffered + (queued + data) == (buffered + queued) + data;
      assert peer.rx.sent == sent + data;
      assert sent + data == peer.delivered + ((buffered + queued) + data);
    }
  }

  datatype Written = Whole | Unencodable | Closed

  /** Write one frame; a peer that closes may be left with a cut frame, never with other bytes. */
  method WriteMessage(t: TestTransport, data: seq<byte>, ghost peer: TestTransport) returns (w: Written)
    requires t.Valid() && t.rx != t.tx
    requires peer.Valid() && peer.rx == t.tx
    modifies t.tx
    ensures t.Valid() && t.Pending() == old(t.Pending())
    ensures peer.Valid()
    ensures w == Unencodable <==> Encode(data).None?
    ensures w == Whole <==> Encode(data).Some? && (old(t.tx.room).None? || old(t.tx.room).value >= 2)
    ensures w == Whole ==> peer.Pending() == old(peer.Pending()) + Encode(data).value
    ensures w == Unencodable ==> peer.Pending() == old(peer.Pending())
    ensures w == Closed ==>
              exists k :: 0 <= k <= 4 && peer.Pending() == old(peer.Pending()) + Encode(data).value[..k]
  {
    if |data| >= U32_LIMIT {
      return Unencodable;
    }
    ghost var pending, length := peer.Pending(), ToBigEndian(|data|);
    var ok := Send(t, ToBigEndian(|data|), peer);
    if !ok {
      assert peer.Pending() == pending + Encode(data).value[..0];
      return Closed;
    }
    ok := Send(t, data, peer);
    if !ok {
      assert Encode(data).value[..4] == length;
      assert peer.Pending() == pending + Encode(data).value[..4];
      return Closed;
    }
    assert pending + length + data == pending + (length + data);
    return Whole;
  }

  method ReadMessage(t: TestTransport) returns (outcome: Outcome)
    requires t.Valid()
    modifies t, t.rx
    ensures t.Valid() && t.rx.sent == old(t.rx.sent)
    ensures (outcome, t.Pending()) == Decode(old(t.Pending()))
  {
    ghost var s := t.Pending();
    var lenBuf := new byte[4];
    var ok := t.ReadExact(lenBuf);
    if !ok {
      return CleanEnd;
    }
    assert lenBuf[..] == s[..4];
    var len := FromBigEndian(lenBuf[..]);
    if len == 0 {
      return EmptyMessage;
    }
    if len > MAX_MESSAGE_SIZE {
      return TooLarge;
    }
    var buf := new byte[len];
    ok := t.ReadExact(buf);
    if !ok {
      return UnexpectedEof;
    }
    assert buf[..] == s[4..4 + len];
    return Message(buf[..]);
  }

  /** A connection's read loop. */
  method ReadMessages(t: TestTransport) returns (payloads: seq<seq<byte>>, end: Outcome)
    requires t.Valid()
    modifies t, t.rx
    ensures t.Valid()
    ensures (payloads, end) == ReadAll(old(t.Pending()))
  {
    payloads := [];
    ghost var s := t.Pending();
    while true
      invariant t.Valid()
      invariant ReadAll(s).0 == payloads + ReadAll(t.Pending()).0
      invariant ReadAll(s).1 == ReadAll(t.Pending()).1
      decreases |t.Pending()|
    {
      ghost var before := t.Pending();
      end := ReadMessage(t);
      if !end.Message? {
        assert ReadAll(before) == ([], end);
        assert payloads + [] == payloads;
        return;
      }
      assert ReadAll(before).0 == [end.payload] + ReadAll(t.Pending()).0;
      assert payloads + ReadAll(before).0 == payloads + [end.payload] + ReadAll(t.Pending()).0;
      payloads := payloads + [end.payload];
    }
  }

  // ---------------------------------------------------------------------
  // Fields of the SSH agent protocol
  // ---------------------------------------------------------------------

  /** Read a big-endian number at `offset` and step past it; fails when fewer than four bytes remain. */
  method ReadU32(buf: seq<byte>, offset: nat) returns (value: Option<nat>, next: nat)
    ensures value.Some? <==> offset + 4 <= |buf|
    ensures value.Some? ==>
              next == offset + 4 && value.value < U32_LIMIT && buf[offset..next] == ToBigEndian(value.value)
    ensures value.None? ==> next == offset
  {
    var end := offset + 4;
    if end > |buf| {
      return None, offset;
    }
    BigEndianInverse(buf[offset..end]);
    return Some(FromBigEndian(buf[offset..end])), end;
  }

  method EncodeBytes(data: seq<byte>) returns (encoded: Option<seq<byte>>)
    ensures encoded == Encode(data)
  {
    if |data| >= U32_LIMIT {
      return None;
    }
    var buf := ToBigEndian(|data|);
    buf := buf + data;
    return Some(buf);
  }

  /** A field encoded anywhere in a buffer is read back by its length and then its bytes. */
  lemma FieldReadsBack(before: seq<byte>, data: seq<byte>, after: seq<byte>)
    requires |data| < U32_LIMIT
    ensures var buf := before + Encode(data).value + after;
            && FromBigEndian(buf[|before|..|before| + 4]) == |data|
            && buf[|before| + 4..][..|data|] == data
  {
    var buf := before + Encode(data).value + after;
    assert buf[|before|..|before| + 4] == ToBigEndian(|data|);
    BigEndianRoundTrip(|data|);
  }
}
