/** What a reception means: the messages that complete a block, and the blocks the sender's messages complete. */
module SfpTransfer {
  import opened Wrappers
  import opened Words
  import opened Sfp

  function Payload(m: Msg): seq<byte> {
    if RemoveHeader(m).Some? then RemoveHeader(m).value.payload else []
  }

  /** The payloads, one after the other. */
  function Content(ms: seq<Msg>): seq<byte> {
    if ms == [] then [] else Content(ms[..|ms| - 1]) + Payload(ms[|ms| - 1])
  }

  /** Message j announces `total` and starts where the messages before it end. */
  ghost predicate InPlace(ms: seq<Msg>, j: nat, total: nat)
    requires j < |ms|
  {
    var header := RemoveHeader(ms[j]);
    header.Some? && header.value.total == total && header.value.offset == |Content(ms[..j])|
  }

  /** Message j brings something, but not the end. */
  ghost predicate Unfinished(ms: seq<Msg>, j: nat, total: nat)
    requires j < |ms|
  {
    InPlace(ms, j, total) && Payload(ms[j]) != [] && |Content(ms[..j + 1])| < total
  }

  /** The messages complete a block, and the last one is needed. */
  ghost predicate Tiles(ms: seq<Msg>, memory: int) {
    && |ms| >= 1
    && var total := |Content(ms)|;
       && total <= memory
       && InPlace(ms, |ms| - 1, total)
       && forall j | 0 <= j < |ms| - 1 :: Unfinished(ms, j, total)
  }

  lemma ContentSnoc(ms: seq<Msg>, i: nat)
    requires i < |ms|
    ensures Content(ms[..i + 1]) == Content(ms[..i]) + Payload(ms[i])
  {
    assert ms[..i + 1][..i] == ms[..i];
  }

  /** Seen after i messages: none is the last, and all announce the same total, which fits the memory. */
  ghost predicate Pending(ms: seq<Msg>, i: nat, total: nat, memory: int)
    requires i <= |ms|
  {
    && (i > 0 ==> total <= memory)
    && forall j | 0 <= j < i :: Unfinished(ms, j, total)
  }

  function SizeAfter(i: nat, total: uint32): Option<uint32> {
    if i == 0 then None else Some(total)
  }

  lemma UnfinishedPrefix(ms: seq<Msg>, k: nat, j: nat, total: nat)
    requires j < k <= |ms|
    ensures Unfinished(ms[..k], j, total) <==> Unfinished(ms, j, total)
    ensures InPlace(ms[..k], j, total) <==> InPlace(ms, j, total)
  {
    assert ms[..k][..j] == ms[..j] && ms[..k][..j + 1] == ms[..j + 1];
  }

  /** A reception succeeds only on messages that complete a block, which it returns. */
  lemma {:induction false} CollectSound(ms: seq<Msg>, i: nat, total: uint32, memory: int)
    requires i < |ms| && Pending(ms, i, total, memory)
    ensures var r := Collect(SizeAfter(i, total), Content(ms[..i]), ms[i], ms[i + 1..], memory);
            var k := |ms| - |r.unread|;
            r.status == NoError ==>
              i < k <= |ms| && Tiles(ms[..k], memory) && r.data == Content(ms[..k]) && r.unread == ms[k..]
    decreases |ms| - i
  {
    hide RemoveHeader, Content;
    var r := Collect(SizeAfter(i, total), Content(ms[..i]), ms[i], ms[i + 1..], memory);
    if r.status == NoError {
      var h := RemoveHeader(ms[i]).value;
      var total' := BlockSize(SizeAfter(i, total), h);
      ContentSnoc(ms, i);
      if |Content(ms[..i + 1])| < total' {
        assert Unfinished(ms, i, total');
        CollectSound(ms, i + 1, total', memory);
      } else {
        var got := ms[..i + 1];
        forall j | 0 <= j < i ensures Unfinished(got, j, total') {
          UnfinishedPrefix(ms, i + 1, j, total');
        }
        UnfinishedPrefix(ms, i + 1, i, total');
      }
    }
  }

  /** Messages that complete a block make the reception succeed, whatever follows them. */
  lemma {:induction false} CollectComplete(ms: seq<Msg>, i: nat, k: nat, total: uint32, memory: int)
    requires i < k <= |ms| && Tiles(ms[..k], memory) && total == |Content(ms[..k])|
    ensures Collect(SizeAfter(i, total), Content(ms[..i]), ms[i], ms[i + 1..], memory) ==
            Reception(NoError, Content(ms[..k]), ms[k..])
    decreases k - i
  {
    hide RemoveHeader, Content;
    ContentSnoc(ms, i);
    if i + 1 == k {
      UnfinishedPrefix(ms, k, i, total);
    } else {
      assert Unfinished(ms[..k], i, total);
      UnfinishedPrefix(ms, k, i, total);
      CollectComplete(ms, i + 1, k, total, memory);
    }
  }

  /** The messages a reception can read: the first one handed over, if any, and the connection's. */
  function Stream(first: Option<Msg>, inbox: seq<Msg>): seq<Msg> {
    if first.Some? then [first.value] + inbox else inbox
  }

  lemma StreamStarts(first: Option<Msg>, inbox: seq<Msg>, memory: int)
    requires Stream(first, inbox) != []
    ensures var ms := Stream(first, inbox); Receive(first, inbox, memory) == Collect(None, [], ms[0], ms[1..], memory)
  {
    hide Collect;
    assert first.Some? ==> Stream(first, inbox)[1..] == inbox;
  }

  lemma ContentOfNone(ms: seq<Msg>)
    ensures Content(ms[..0]) == []
  {
    assert ms[..0] == [];
  }

  /** A reception succeeds exactly when the messages at hand start with ones that complete a block. */
  lemma SucceedsIffTiles(first: Option<Msg>, inbox: seq<Msg>, memory: int)
    requires memory < 0x8000_0000
    ensures Receive(first, inbox, memory).status == NoError <==>
            exists k | 1 <= k <= |Stream(first, inbox)| :: Tiles(Stream(first, inbox)[..k], memory)
  {
    hide Collect, Tiles, Content;
    var ms := Stream(first, inbox);
    if ms != [] {
      StreamStarts(first, inbox, memory);
      ContentOfNone(ms);
      CollectSound(ms, 0, 0, memory);
      if exists k | 1 <= k <= |ms| :: Tiles(ms[..k], memory) {
        var k :| 1 <= k <= |ms| && Tiles(ms[..k], memory);
        TilesFit(ms[..k], memory);
        CollectComplete(ms, 0, k, |Content(ms[..k])|, memory);
      }
    }
  }

  lemma TilesFit(ms: seq<Msg>, memory: int)
    requires Tiles(ms, memory)
    ensures |Content(ms)| <= memory
  {
  }

  /** What a successful reception returns: the payloads of the messages it read, which complete a block. */
  lemma SuccessIsContent(first: Option<Msg>, inbox: seq<Msg>, memory: int)
    requires Receive(first, inbox, memory).status == NoError
    ensures var r := Receive(first, inbox, memory);
            var ms := Stream(first, inbox);
            var k := |ms| - |r.unread|;
            1 <= k <= |ms| && Tiles(ms[..k], memory) && r.data == Content(ms[..k]) && r.unread == ms[k..]
  {
    hide Collect, Tiles, Content;
    var ms := Stream(first, inbox);
    if ms != [] {
      StreamStarts(first, inbox, memory);
      ContentOfNone(ms);
      CollectSound(ms, 0, 0, memory);
    }
  }

  // Every byte once

  /** Message j writes byte b. */
  ghost predicate Writes(ms: seq<Msg>, j: nat, b: nat)
    requires j < |ms|
  {
    |Content(ms[..j])| <= b < |Content(ms[..j + 1])|
  }

  lemma {:induction false} ContentMonotone(ms: seq<Msg>, i: nat, j: nat)
    requires i <= j <= |ms|
    ensures Content(ms[..i]) <= Content(ms[..j])
    decreases j
  {
    hide Content;
    if i < j {
      ContentMonotone(ms, i, j - 1);
      ContentSnoc(ms, j - 1);
    }
  }

  lemma {:induction false} SomeWriter(ms: seq<Msg>, n: nat, b: nat) returns (j: nat)
    requires n <= |ms| && b < |Content(ms[..n])|
    ensures j < n && Writes(ms, j, b)
    decreases n
  {
    hide Content;
    if n == 0 {
      ContentOfNone(ms);
    } else if |Content(ms[..n - 1])| <= b {
      j := n - 1;
    } else {
      j := SomeWriter(ms, n - 1, b);
    }
  }

  /** The message carries x as byte b of the block. */
  ghost predicate Supplies(m: Msg, b: nat, x: byte) {
    var header := RemoveHeader(m);
    && header.Some? && header.value.offset <= b < header.value.offset + |header.value.payload|
    && header.value.payload[b - header.value.offset] == x
  }

  /** In messages that complete a block, each byte is written by one message, at its offset, and by no other. */
  lemma WrittenOnce(ms: seq<Msg>, memory: int, b: nat) returns (j: nat)
    requires Tiles(ms, memory) && b < |Content(ms)|
    ensures j < |ms| && Writes(ms, j, b)
    ensures Supplies(ms[j], b, Content(ms)[b])
    ensures forall i | 0 <= i < |ms| && i != j :: !Writes(ms, i, b)
  {
    hide RemoveHeader, Content;
    assert ms[..|ms|] == ms;
    j := SomeWriter(ms, |ms|, b);
    ContentSnoc(ms, j);
    ContentMonotone(ms, j + 1, |ms|);
    PlaceOf(ms, memory, j);
    forall i | 0 <= i < |ms| && i != j ensures !Writes(ms, i, b) {
      if i < j {
        ContentMonotone(ms, i + 1, j);
      } else {
        ContentMonotone(ms, j + 1, i);
      }
    }
  }

  lemma PlaceOf(ms: seq<Msg>, memory: int, j: nat)
    requires Tiles(ms, memory) && j < |ms|
    ensures RemoveHeader(ms[j]).Some? && RemoveHeader(ms[j]).value.offset == |Content(ms[..j])|
    ensures Payload(ms[j]) == RemoveHeader(ms[j]).value.payload
  {
    hide RemoveHeader, Content;
    assert j < |ms| - 1 ==> Unfinished(ms, j, |Content(ms)|);
  }

  // Round trip

  lemma {:induction false} CollectPieces(data: block, count: nat, mtu: nat, rest: seq<Msg>, size: Option<uint32>,
                                         memory: int)
    requires count < |data| <= memory && mtu >= 1
    requires size == if count == 0 then None else Some(|data|)
    ensures var ms := Pieces(data, count, mtu);
            Collect(size, data[..count], ms[0], ms[1..] + rest, memory) == Reception(NoError, data, rest)
    decreases |data| - count
  {
    hide RemoveHeader, AddHeader;
    var n := PieceSize(data, count, mtu);
    var ms := Pieces(data, count, mtu);
    var payload := data[count..count + n];
    HeaderRoundTrip(payload, count, |data|);
    assert data[..count] + payload == data[..count + n];
    if count + n < |data| {
      assert ms[1..] == Pieces(data, count + n, mtu);
      CollectPieces(data, count + n, mtu, rest, Some(|data|), memory);
      var tail := Pieces(data, count + n, mtu);
      assert (tail + rest)[0] == tail[0] && (tail + rest)[1..] == tail[1..] + rest;
    } else {
      assert data[..count + n] == data;
      assert ms[1..] + rest == rest;
    }
  }

  /**
   * Receiving the sender's messages gives back exactly the data, for all data that fits the receiver's memory and
   * every piece size, whether or not the first message was read beforehand; later messages stay unread.
   */
  lemma TransferRoundTrip(data: block, mtu: nat, rest: seq<Msg>, memory: int)
    requires 0 < |data| <= memory && mtu >= 1
    ensures var ms := Pieces(data, 0, mtu);
            && Receive(None, ms + rest, memory) == Reception(NoError, data, rest)
            && Receive(Some(ms[0]), ms[1..] + rest, memory) == Reception(NoError, data, rest)
  {
    hide Collect, Pieces;
    var ms := Pieces(data, 0, mtu);
    assert data[..0] == [];
    CollectPieces(data, 0, mtu, rest, None, memory);
    assert (ms + rest)[0] == ms[0] && (ms + rest)[1..] == ms[1..] + rest;
  }

  /** No data, no messages: the receiver of an empty block waits until it times out. */
  lemma EmptyBlockTimesOut(mtu: nat, memory: int)
    requires mtu >= 1
    ensures Pieces([], 0, mtu) == [] && Receive(None, Pieces([], 0, mtu), memory).status == TimedOut
  {
  }
}
