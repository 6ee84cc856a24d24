/** The small fragmentation protocol: a block of memory cut into messages and put together again. */
module Sfp {
  import opened Wrappers
  import opened Words

  const HEADER_SIZE: nat := 8

  /** A message on a connection: its fragment flag and its bytes. */
  datatype Msg = Msg(frag: bool, data: seq<byte>)

  datatype Status = NoError | Inval | NoMem | Tx | BadSfp | TimedOut

  type block = s: seq<byte> | |s| < 0x1_0000_0000 witness []

  // Header

  /** A payload followed by its offset and the total size, in network order. */
  function AddHeader(payload: seq<byte>, offset: uint32, total: uint32): seq<byte> {
    payload + Be32(offset) + Be32(total)
  }

  datatype Header = Header(offset: uint32, total: uint32, payload: seq<byte>)

  /** csp_sfp_header_remove. */
  function RemoveHeader(m: Msg): Option<Header> {
    if !m.frag || |m.data| < HEADER_SIZE then None
    else
      var n := |m.data| - HEADER_SIZE;
      var offset, total := Read32(m.data, n), Read32(m.data, n + 4);
      if offset > total then None else Some(Header(offset, total, m.data[..n]))
  }

  lemma HeaderRoundTrip(payload: seq<byte>, offset: uint32, total: uint32)
    requires offset <= total
    ensures RemoveHeader(Msg(true, AddHeader(payload, offset, total))) == Some(Header(offset, total, payload))
  {
    hide Be32, Read32;
    var data := AddHeader(payload, offset, total);
    ReadBe32(payload, offset, Be32(total));
    ReadBe32(payload + Be32(offset), total, []);
    assert data == payload + Be32(offset) + Be32(total) == (payload + Be32(offset)) + Be32(total) + [];
    assert data[..|payload|] == payload;
  }

  // Sending

  /** The size of the piece that starts at `count`. */
  function PieceSize(data: block, count: nat, mtu: nat): nat
    requires count <= |data|
  {
    if |data| - count > mtu then mtu else |data| - count
  }

  function Piece(data: block, count: nat, mtu: nat): Msg
    requires count <= |data|
  {
    Msg(true, AddHeader(data[count..count + PieceSize(data, count, mtu)], count, |data|))
  }

  /** The messages for the bytes from `count` on. */
  function Pieces(data: block, count: nat, mtu: nat): (ms: seq<Msg>)
    requires count <= |data| && mtu >= 1
    ensures count < |data| ==> |ms| > 0
    decreases |data| - count
  {
    if count == |data| then []
    else [Piece(data, count, mtu)] + Pieces(data, count + PieceSize(data, count, mtu), mtu)
  }

  /** Sending all of `ms` with `buffers` buffers to be had and a link that takes `accepts` messages. */
  ghost predicate Sends(ms: seq<Msg>, buffers: nat, accepts: nat, status: Status, sent: seq<Msg>) {
    if |ms| <= buffers && |ms| <= accepts then status == NoError && sent == ms
    else if buffers <= accepts then status == NoMem && sent == ms[..buffers]
    else status == Tx && sent == ms[..accepts]
  }

  // Receiving

  /** The outcome of a reception: the status, the data on success, and the messages left unread. */
  datatype Reception = Reception(status: Status, data: seq<byte>, unread: seq<Msg>)

  /** The size of the block: announced by the first message. */
  function BlockSize(size: Option<uint32>, h: Header): uint32 {
    if size.Some? then size.value else h.total
  }

  /** The receive loop from message m on, with `data` received so far and `memory` the largest block to be had. */
  function Collect(size: Option<uint32>, data: seq<byte>, m: Msg, unread: seq<Msg>, memory: int): Reception
    decreases |unread|
  {
    var header := RemoveHeader(m);
    if header.None? || header.value.offset != |data| then Reception(BadSfp, [], unread)
    else
      var h := header.value;
      if size.None? && h.total > memory then Reception(NoMem, [], unread)
      else
        var total := BlockSize(size, h);
        var data' := data + h.payload;
        if |data'| > total || total != h.total then Reception(BadSfp, [], unread)
        else if |data'| >= total then Reception(NoError, data', unread)
        else if h.payload == [] then Reception(BadSfp, [], unread)
        else if unread == [] then Reception(TimedOut, [], [])
        else Collect(Some(total), data', unread[0], unread[1..], memory)
  }

  /** csp_sfp_recv_fp on a stream of messages; the first may have been read already. */
  function Receive(first: Option<Msg>, inbox: seq<Msg>, memory: int): Reception {
    if first.Some? then Collect(None, [], first.value, inbox, memory)
    else if inbox == [] then Reception(TimedOut, [], [])
    else Collect(None, [], inbox[0], inbox[1..], memory)
  }

  /** The ends of a connection, as the fragmentation protocol sees them. */
  class Conn {
    var outFrag: bool
    var sent: seq<Msg>
    var inbox: seq<Msg>

    constructor (inbox: seq<Msg>)
      ensures !outFrag && sent == [] && this.inbox == inbox
    {
      outFrag, sent, this.inbox := false, [], inbox;
    }

    /** csp_sfp_send_own_memcpy; buffers hold `room` bytes. */
    method Send(data: block, mtu: uint32, room: nat, buffers: nat, accepts: nat) returns (status: Status)
      modifies this`outFrag, this`sent
      ensures mtu == 0 ==> status == Inval && sent == old(sent) && outFrag == old(outFrag)
      ensures mtu > 0 ==> old(sent) <= sent &&
                          Sends(Pieces(data, 0, mtu), if mtu + HEADER_SIZE <= room then buffers else 0, accepts, status,
                                sent[|old(sent)|..])
      ensures old(outFrag) || |sent| > |old(sent)| ==> outFrag
    {
      hide Pieces, Sends;
      if mtu == 0 {
        return Inval;
      }
      var pieces, began;
      status, pieces, began := SendPieces(data, mtu, if mtu + HEADER_SIZE <= room then buffers else 0, accepts);
      outFrag := outFrag || began;
      sent := sent + pieces;
      assert sent[|old(sent)|..] == pieces;
    }

    /**
     * csp_sfp_recv_fp. The largest block to be had is `memory` bytes; like the returned int size it stays below
     * 2^31. The loop ends because every round but the last brings a byte that was missing.
     */
    method Recv(first: Option<Msg>, memory: int) returns (status: Status, result: array?<byte>)
      requires memory < 0x8000_0000
      modifies this`inbox
      ensures var r := Receive(first, old(inbox), memory);
              && status == r.status && inbox == r.unread
              && if status == NoError then result != null && result[..] == r.data else result == null
    {
      hide RemoveHeader;
      result := null;
      var packet: Msg;
      if first.Some? {
        packet := first.value;
      } else {
        if inbox == [] {
          return TimedOut, null;
        }
        packet := inbox[0];
        inbox := inbox[1..];
      }
      var data := new byte[0];
      var size: Option<uint32> := None;
      var offset := 0;
      while true
        invariant fresh(data) && 0 <= offset <= data.Length
        invariant size.Some? ==> size.value == data.Length > offset
        invariant size.None? ==> offset == 0
        invariant Receive(first, old(inbox), memory) == Collect(size, data[..offset], packet, inbox, memory)
        decreases size.None?, data.Length - offset
      {
        var header := RemoveHeader(packet);
        if header.None? {
          return BadSfp, null;
        }
        var h := header.value;
        if h.offset != offset {
          return BadSfp, null;
        }
        ghost var before := data[..offset];
        if size.None? {
          if h.total > memory {
            return NoMem, null;
          }
          data := new byte[h.total];
          size := Some(h.total);
          assert data[..offset] == before;
        }
        if offset + |h.payload| > size.value || size.value != h.total {
          return BadSfp, null;
        }
        CopyInto(data, offset, h.payload);
        assert data[..offset + |h.payload|] == before + h.payload;
        offset := offset + |h.payload|;
        if offset >= size.value {
          assert data[..offset] == data[..];
          return NoError, data;
        }
        if h.payload == [] || inbox == [] {
          return if h.payload == [] then BadSfp else TimedOut, null;
        }
        packet := inbox[0];
        inbox := inbox[1..];
      }
    }
  }

  /** memcpy. */
  method CopyInto(data: array<byte>, offset: nat, bytes: seq<byte>)
    requires offset + |bytes| <= data.Length
    modifies data
    ensures data[..] == old(data[..offset]) + bytes + old(data[offset + |bytes|..])
  {
    forall i | 0 <= i < |bytes| {
      data[offset + i] := bytes[i];
    }
  }

  /** The loop of csp_sfp_send_own_memcpy: the messages sent, and whether a buffer was had for any. */
  method SendPieces(data: block, mtu: nat, buffers: nat, accepts: nat)
    returns (status: Status, sent: seq<Msg>, began: bool)
    requires mtu > 0
    ensures Sends(Pieces(data, 0, mtu), buffers, accepts, status, sent)
    ensures sent != [] ==> began
  {
    hide AddHeader, Pieces;
    ghost var all := Pieces(data, 0, mtu);
    var count := 0;
    sent, began := [], false;
    while count < |data|
      invariant 0 <= count <= |data|
      invariant sent + Pieces(data, count, mtu) == all
      invariant |sent| <= buffers && |sent| <= accepts
      invariant sent != [] ==> began
      decreases |data| - count
    {
      PiecesStep(data, count, mtu);
      assert all[..|sent|] == sent;
      if |sent| == buffers {
        return NoMem, sent, began;
      }
      var size := |data| - count;
      if size > mtu {
        size := mtu;
      }
      began := true;
      var packet := Msg(began, AddHeader(data[count..count + size], count, |data|));
      if |sent| == accepts {
        return Tx, sent, began;
      }
      sent := sent + [packet];
      count := count + size;
    }
    PiecesStep(data, count, mtu);
    return NoError, sent, began;
  }

  lemma PiecesStep(data: block, count: nat, mtu: nat)
    requires count <= |data| && mtu > 0
    ensures count == |data| ==> Pieces(data, count, mtu) == []
    ensures count < |data| ==>
              var size := if |data| - count > mtu then mtu else |data| - count;
              Pieces(data, count, mtu) ==
              [Msg(true, AddHeader(data[count..count + size], count, |data|))] + Pieces(data, count + size, mtu)
  {
    hide AddHeader;
  }
}
