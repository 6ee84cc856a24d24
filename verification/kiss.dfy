/** KISS framing: the printer, the byte-at-a-time receiver, and how the receiver finds back into step. */
module Kiss {
  import opened Bytes
  import opened Packets
  import opened PacketCrc

  const FEND: bv8 := 0xC0
  const FESC: bv8 := 0xDB
  const TFEND: bv8 := 0xDC
  const TFESC: bv8 := 0xDD
  const TNC_DATA: bv8 := 0x00

  /** A packet as the router gets it. */
  datatype Pkt = Pkt(id: bv32, data: seq<bv8>)

  // Sending

  function Escape(b: bv8): seq<bv8> {
    if b == FEND then [FESC, TFEND] else if b == FESC then [FESC, TFESC] else [b]
  }

  function EscapeAll(s: seq<bv8>): seq<bv8> {
    if s == [] then [] else EscapeAll(s[..|s| - 1]) + Escape(s[|s| - 1])
  }

  /** The packet and its checksum fit into a buffer of this size; the interface's MTU sees to that. */
  predicate Fits(p: Pkt, size: nat) {
    |p.data| + 4 <= size
  }

  /**
   * The bytes between the delimiters before escaping: header and data, with the checksum behind if there is room for
   * it.
   */
  function Body(p: Pkt, size: nat): seq<bv8> {
    Be32(p.id) + (p.data + if Fits(p, size) then CrcTag(p.data) else [])
  }

  function Frame(p: Pkt, size: nat): seq<bv8> {
    [FEND, TNC_DATA] + EscapeAll(Body(p, size)) + [FEND]
  }

  /** csp_kiss_tx, which goes on when the checksum could not be appended. */
  method KissTx(packet: Packet, id: bv32) returns (wire: seq<bv8>)
    requires packet.Valid()
    modifies packet`length, packet.data
    ensures wire == Frame(Pkt(id, old(packet.Contents())), packet.data.Length)
  {
    hide CrcTag, Be32, EscapeAll;
    ghost var p := Pkt(id, packet.Contents());
    var _ := CrcAppend(packet);
    var bytes := Be32(id) + packet.data[..packet.length];
    assert bytes == Body(p, packet.data.Length);
    wire := SendEscaped(bytes);
    wire := wire + [FEND];
  }

  /** The start sequence and the loop over the bytes. */
  method SendEscaped(bytes: seq<bv8>) returns (wire: seq<bv8>)
    ensures wire == [FEND, TNC_DATA] + EscapeAll(bytes)
  {
    wire := [FEND, TNC_DATA];
    for i := 0 to |bytes|
      invariant wire == [FEND, TNC_DATA] + EscapeAll(bytes[..i])
    {
      assert bytes[..i + 1][..i] == bytes[..i];
      var b := bytes[i];
      if b == FEND {
        wire := wire + [FESC, TFEND];
        continue;
      }
      if b == FESC {
        wire := wire + [FESC, TFESC];
        continue;
      }
      wire := wire + [b];
    }
    assert bytes[..|bytes|] == bytes;
  }

  // Receiving

  datatype Mode = NotStarted | Started | Escaped | SkipFrame

  /** One received byte, and whether a packet buffer can be had at that moment. */
  datatype Input = Input(b: bv8, avail: bool)

  datatype Rx = Rx(
    mode: Mode,
    length: nat,          // rx_length
    first: bool,          // rx_first
    have: bool,           // rx_packet != NULL
    bytes: seq<bv8>,      // what has been stored in rx_packet since the frame started
    out: seq<Pkt>,        // packets given to the router
    frame: nat,
    rxError: nat)

  const INITIAL: Rx := Rx(NotStarted, 0, false, false, [], [], 0, 0)

  /** The end of a frame. */
  function Accept(r: Rx): Rx {
    if r.length == 0 then r
    else if r.length < 8 || |r.bytes| < 8 then r.(mode := NotStarted, bytes := [], rxError := r.rxError + 1)
    else if !GoodCrc(r.bytes[4..]) then
      r.(mode := NotStarted, bytes := [], frame := r.frame + 1, rxError := r.rxError + 1)
    else
      r.(mode := NotStarted, have := false, bytes := [], frame := r.frame + 1,
         out := r.out + [Pkt(ReadBe32(r.bytes[..4]), r.bytes[4..|r.bytes| - 4])])
  }

  function Store(r: Rx, b: bv8): Rx {
    r.(bytes := r.bytes + [b], length := r.length + 1)
  }

  function CheckOverflow(r: Rx, max: nat): Rx {
    if r.length > max then r.(rxError := r.rxError + 1, mode := NotStarted, length := 0, bytes := []) else r
  }

  /** One turn of the loop in csp_kiss_rx. */
  function Step(r: Rx, i: Input, max: nat): Rx {
    var c := CheckOverflow(r, max);
    match c.mode
    case NotStarted =>
      if i.b != FEND then c
      else if !c.have && !i.avail then c.(mode := SkipFrame)
      else c.(have := true, length := 0, mode := Started, first := true, bytes := [])
    case Started =>
      if i.b == FESC then c.(mode := Escaped)
      else if i.b == FEND then Accept(c)
      else if c.first then c.(first := false)
      else Store(c, i.b)
    case Escaped =>
      var d := if i.b == TFESC then Store(c, FESC) else if i.b == TFEND then Store(c, FEND) else c;
      d.(mode := Started)
    case SkipFrame =>
      if i.b == FEND then c.(mode := NotStarted) else c
  }

  function Feed(r: Rx, s: seq<Input>, max: nat): Rx
    decreases |s|
  {
    if s == [] then r else Feed(Step(r, s[0], max), s[1..], max)
  }

  /** The byte is stored if the frame is not dropped as too long: plain inside a frame, or a proper escape. */
  predicate Stores(r: Rx, b: bv8) {
    || (r.mode == Started && !r.first && b != FESC && b != FEND)
    || (r.mode == Escaped && (b == TFESC || b == TFEND))
  }

  /** The byte is stored behind the buffer, which holds `max` bytes: the length test lets one more in. */
  predicate Overruns(r: Rx, b: bv8, max: nat) {
    r.length == max && Stores(r, b)
  }

  /** How many bytes of a stream are stored behind the buffer. */
  function Outside(r: Rx, s: seq<Input>, max: nat): nat
    decreases |s|
  {
    if s == [] then 0
    else (if Overruns(r, s[0].b, max) then 1 else 0) + Outside(Step(r, s[0], max), s[1..], max)
  }

  predicate Storing(r: Rx) {
    r.mode == Started || r.mode == Escaped
  }

  /** What holds between any two bytes. */
  predicate RxOk(r: Rx, max: nat) {
    if Storing(r) then r.have && |r.bytes| == r.length <= max + 1
    else r.bytes == [] && r.length <= max
  }

  /**
   * The interface's receiver: fields of csp_kiss_interface_data_t, the packet's header and data as one buffer, and the
   * byte of memory behind that buffer.
   */
  class Receiver {
    const max: nat
    var rxMode: Mode
    var rxLength: nat
    var rxFirst: bool
    var rxPacket: array?<bv8>
    var behind: bv8
    var qfifo: seq<Pkt>
    var frame: nat
    var rxError: nat
    ghost var outside: nat // how many bytes have been written behind the buffer

    /** The first n bytes of the buffer, and perhaps the byte behind it. */
    ghost function Memory(n: nat): seq<bv8>
      requires rxPacket != null
      reads this, rxPacket
    {
      if n <= rxPacket.Length then rxPacket[..n] else if n == rxPacket.Length + 1 then rxPacket[..] + [behind] else []
    }

    ghost function State(): Rx
      reads this, rxPacket
    {
      var storing := rxMode == Started || rxMode == Escaped;
      Rx(rxMode, rxLength, rxFirst, rxPacket != null,
         if storing && rxPacket != null then Memory(rxLength) else [], qfifo, frame, rxError)
    }

    ghost predicate Valid()
      reads this, rxPacket
    {
      && (rxPacket != null ==> rxPacket.Length == max)
      && RxOk(State(), max)
    }

    /** csp_kiss_add_interface for buffers of the given data size. */
    constructor (size: nat)
      ensures Valid() && max == 4 + size && State() == INITIAL && outside == 0
    {
      outside := 0;
      max := 4 + size;
      rxMode, rxLength, rxFirst, rxPacket := NotStarted, 0, false, null;
      qfifo, frame, rxError := [], 0, 0;
    }

    /** csp_kiss_rx on one chunk. */
    method Receive(buf: seq<Input>)
      requires Valid()
      modifies this, rxPacket
      ensures Valid() && State() == Feed(old(State()), buf, max)
      ensures outside == old(outside) + Outside(old(State()), buf, max)
      ensures rxPacket == old(rxPacket) || rxPacket == null || fresh(rxPacket)
    {
      hide Step, RxOk, Overruns;
      for n := 0 to |buf|
        invariant Valid() && (rxPacket == old(rxPacket) || rxPacket == null || fresh(rxPacket))
        invariant Feed(State(), buf[n..], max) == Feed(old(State()), buf, max)
        invariant outside + Outside(State(), buf[n..], max) == old(outside) + Outside(old(State()), buf, max)
      {
        assert buf[n..][0] == buf[n] && buf[n..][1..] == buf[n + 1..];
        ReceiveByte(buf[n]);
      }
    }

    method ReceiveByte(i: Input)
      requires Valid()
      modifies this, rxPacket
      ensures Valid() && State() == Step(old(State()), i, max)
      ensures outside == old(outside) + if Overruns(old(State()), i.b, max) then 1 else 0
      ensures rxPacket == old(rxPacket) || rxPacket == null || fresh(rxPacket)
    {
      hide GoodCrc, ReadBe32;
      var inputbyte := i.b;
      if rxLength > max {
        rxError := rxError + 1;
        rxMode := NotStarted;
        rxLength := 0;
      }
      assert State() == CheckOverflow(old(State()), max);
      match rxMode {
        case NotStarted =>
          if inputbyte != FEND {
            return;
          }
          StartOfFrame(i.avail);
        case Started =>
          if inputbyte == FESC {
            rxMode := Escaped;
            return;
          }
          if inputbyte == FEND {
            EndOfFrame();
            return;
          }
          if rxFirst {
            rxFirst := false;
            return;
          }
          StoreByte(inputbyte);
        case Escaped =>
          if inputbyte == TFESC {
            StoreByte(FESC);
          }
          if inputbyte == TFEND {
            StoreByte(FEND);
          }
          rxMode := Started;
        case SkipFrame =>
          if inputbyte == FEND {
            rxMode := NotStarted;
          }
      }
    }

    method StartOfFrame(avail: bool)
      requires rxMode == NotStarted && Valid() && rxLength <= max
      modifies this
      ensures Valid() && State() == Step(old(State()), Input(FEND, avail), max) && outside == old(outside)
      ensures rxPacket == old(rxPacket) || fresh(rxPacket)
    {
      hide GoodCrc, ReadBe32;
      if rxPacket == null {
        if avail {
          rxPacket := new bv8[max];
        }
      }
      if rxPacket == null {
        rxMode := SkipFrame;
        return;
      }
      rxLength := 0;
      rxMode := Started;
      rxFirst := true;
    }

    /** An in-place write behind what is already stored, which may be all of the buffer. */
    method StoreByte(b: bv8)
      requires Storing(State()) && rxPacket != null && rxLength <= rxPacket.Length
      modifies this`rxLength, this`behind, this`outside, rxPacket
      ensures State() == Store(old(State()), b)
      ensures outside == old(outside) + if old(rxLength) == rxPacket.Length then 1 else 0
    {
      if rxLength < rxPacket.Length {
        rxPacket[rxLength] := b;
      } else {
        behind := b;
        outside := outside + 1;
      }
      rxLength := rxLength + 1;
    }

    method EndOfFrame()
      requires rxMode == Started && Valid() && rxLength <= max
      modifies this
      ensures Valid() && State() == Accept(old(State())) && outside == old(outside)
      ensures rxPacket == old(rxPacket) || rxPacket == null
    {
      hide GoodCrc, ReadBe32;
      if rxLength > 0 {
        if rxLength < 8 {
          rxError := rxError + 1;
          rxMode := NotStarted;
          return;
        }
        frame := frame + 1;
        ghost var bytes := State().bytes;
        var packet := new Packet(rxPacket[4..rxLength], max - 4);
        var id := ReadBe32(rxPacket[..4]);
        assert bytes[..4] == rxPacket[..4] && bytes[4..] == rxPacket[4..rxLength];
        var ok := CrcVerify(packet);
        if !ok {
          rxError := rxError + 1;
          rxMode := NotStarted;
          return;
        }
        var data := packet.data[..packet.length];
        assert data == bytes[4..|bytes| - 4];
        qfifo := qfifo + [Pkt(id, data)];
        rxPacket := null;
        rxMode := NotStarted;
      }
    }
  }
}
