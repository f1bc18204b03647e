/**
 The in-memory transport: a channel of byte chunks and a reader that reassembles them.

 A channel's queue holds every chunk still to arrive before the sender closes, in order.
 */
module Transport {
  import opened Options

  /** The chunks laid end to end. */
  function Flatten(chunks: seq<seq<byte>>): seq<byte> {
    if chunks == [] then [] else chunks[0] + Flatten(chunks[1..])
  }

  lemma FlattenAppend(chunks: seq<seq<byte>>, chunk: seq<byte>)
    ensures Flatten(chunks + [chunk]) == Flatten(chunks) + chunk
  {
    if chunks == [] {
      assert [chunk][1..] == [];
    } else {
      assert (chunks + [chunk])[1..] == chunks[1..] + [chunk];
    }
  }

  /** A queue of chunks. `room` is how many more the receiver takes before it closes; without it, never. */
  class Channel {
    var chunks: seq<seq<byte>>
    var room: Option<nat>
    ghost var sent: seq<byte>

    constructor (room: Option<nat>)
      ensures chunks == [] && sent == [] && this.room == room
    {
      chunks, sent, this.room := [], [], room;
    }
  }

  class TestTransport {
    const rx: Channel
    const tx: Channel
    var readBuffer: seq<byte>
    var readPos: nat
    ghost var delivered: seq<byte>

    /** Bytes sent to this side and not yet handed to a caller. */
    ghost function Pending(): seq<byte>
      requires readPos <= |readBuffer|
      reads this, rx
    {
      readBuffer[readPos..] + Flatten(rx.chunks)
    }

    /** Nothing is lost, repeated or reordered: sent is delivered plus pending. */
    ghost predicate Valid()
      reads this, rx
    {
      readPos <= |readBuffer| && rx.sent == delivered + Pending()
    }

    constructor (rx: Channel, tx: Channel)
      requires rx.sent == Flatten(rx.chunks)
      ensures this.rx == rx && this.tx == tx && Valid() && delivered == []
      ensures Pending() == rx.sent
    {
      this.rx, this.tx, readBuffer, readPos, delivered := rx, tx, [], 0, [];
    }

    /** Hand over one chunk; fails, and sends nothing, when the other side has closed. */
    method WriteAll(buf: seq<byte>) returns (ok: bool)
      requires Valid() && rx != tx
      modifies tx
      ensures Valid() && Pending() == old(Pending())
      ensures ok <==> old(tx.room) != Some(0)
      ensures tx.room == if ok && old(tx.room).Some? then Some(old(tx.room).value - 1) else old(tx.room)
      ensures ok ==> tx.chunks == old(tx.chunks) + [buf]
      ensures ok ==> tx.sent == old(tx.sent) + buf
      ensures ok ==> Flatten(tx.chunks) == old(Flatten(tx.chunks)) + buf
      ensures !ok ==> tx.chunks == old(tx.chunks) && tx.sent == old(tx.sent)
    {
      if tx.room == Some(0) {
        return false;
      }
      if tx.room.Some? {
        tx.room := Some(tx.room.value - 1);
      }
      FlattenAppend(tx.chunks, buf);
      tx.chunks := tx.chunks + [buf];
      tx.sent := tx.sent + buf;
      return true;
    }

    /** Fill `buf` from the buffered chunk and then from further chunks; fails when the bytes run out. */
    method ReadExact(buf: array<byte>) returns (ok: bool)
      requires Valid()
      modifies this, rx, buf
      ensures Valid() && rx.sent == old(rx.sent) && rx.room == old(rx.room)
      ensures ok <==> buf.Length <= |old(Pending())|
      ensures ok ==> buf[..] == old(Pending())[..buf.Length] && Pending() == old(Pending())[buf.Length..]
      ensures ok ==> delivered == old(delivered) + buf[..]
      ensures !ok ==> Pending() == [] && delivered == old(delivered) + old(Pending())
      ensures !ok ==> buf[..|old(Pending())|] == old(Pending())
                      && buf[|old(Pending())|..] == old(buf[|Pending()|..])
    {
      ghost var pending, was := Pending(), buf[..];
      var filled := 0;
      while filled < buf.Length
        invariant filled <= buf.Length && filled <= |pending|
        invariant readPos <= |readBuffer|
        invariant buf[..filled] == pending[..filled] && buf[filled..] == was[filled..]
        invariant Pending() == pending[filled..]
        invariant delivered == old(delivered) + pending[..filled]
        invariant rx.sent == old(rx.sent) && rx.room == old(rx.room)
        decreases |rx.chunks|, buf.Length - filled
      {
        if readPos < |readBuffer| {
          var copied := TakeBuffered(buf, filled);
          Advance(pending, filled, copied);
          Advance(was, filled, copied);
          filled := filled + copied;
          continue;
        }
        if rx.chunks == [] {
          assert filled == |pending|;
          return false;
        }
        readBuffer := rx.chunks[0];
        readPos := 0;
        rx.chunks := rx.chunks[1..];
      }
      return true;
    }

    /** Copy what the buffered chunk can give, and drop the chunk once it is used up. */
    method TakeBuffered(buf: array<byte>, filled: nat) returns (copied: nat)
      requires readPos < |readBuffer| && filled < buf.Length
      modifies this, buf
      ensures readPos <= |readBuffer|
      ensures 0 < copied <= |old(Pending())| && filled + copied <= buf.Length
      ensures Pending() == old(Pending())[copied..]
      ensures delivered == old(delivered) + old(Pending())[..copied]
      ensures buf[..filled + copied] == old(buf[..filled]) + old(Pending())[..copied]
      ensures buf[filled + copied..] == old(buf[filled..])[copied..]
    {
      var available := |readBuffer| - readPos;
      var needed := buf.Length - filled;
      copied := if available < needed then available else needed;
      var src := readBuffer[readPos..readPos + copied];
      ghost var pending := Pending();
      assert src == pending[..copied];
      CopyInto(buf, filled, src);
      delivered := delivered + src;
      readPos := readPos + copied;
      assert Pending() == pending[copied..];
      if readPos >= |readBuffer| {
        readBuffer := [];
        readPos := 0;
      }
    }
  }

  lemma Advance(s: seq<byte>, from: nat, step: nat)
    requires from + step <= |s|
    ensures s[..from] + s[from..][..step] == s[..from + step]
    ensures s[from..][step..] == s[from + step..]
  {
  }

  /** `dest.copy_from_slice(src)` at offset `at`. */
  method CopyInto(buf: array<byte>, at: nat, src: seq<byte>)
    requires at + |src| <= buf.Length
    modifies buf
    ensures buf[..at + |src|] == old(buf[..at]) + src
    ensures buf[at + |src|..] == old(buf[at..])[|src|..]
  {
    forall i | 0 <= i < |src| {
      buf[at + i] := src[i];
    }
  }
}
