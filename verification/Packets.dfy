/** Packets of the Xacto protocol: a 16-byte header in network byte order and a payload of the size that the
    header gives. */
module Packets {
  import opened Types
  import opened Rio

  // ----- 32-bit words in memory

  const WORD: nat := 0x1_0000_0000

  datatype Endian = Little | Big

  function FromDigits(a: Byte, b: Byte, c: Byte, d: Byte): (x: nat)
    ensures x < WORD
  {
    a as nat * 0x100_0000 + b as nat * 0x1_0000 + c as nat * 0x100 + d as nat
  }

  function Digit(x: nat, unit: nat): Byte
    requires unit > 0
  {
    ((x / unit) % 256) as Byte
  }

  /** Network byte order: most significant byte first. */
  function Network(x: nat): (b: Bytes)
    ensures |b| == 4
  {
    [Digit(x, 0x100_0000), Digit(x, 0x1_0000), Digit(x, 0x100), Digit(x, 1)]
  }

  function FromNetwork(b: Bytes): (x: nat)
    requires |b| == 4
    ensures x < WORD
  {
    FromDigits(b[0], b[1], b[2], b[3])
  }

  function Reversed(b: Bytes): (r: Bytes)
    requires |b| == 4
    ensures |r| == 4
  {
    [b[3], b[2], b[1], b[0]]
  }

  /** How a host keeps a word in memory, and what word it takes four bytes of memory for. */
  function InMemory(e: Endian, x: nat): (b: Bytes)
    ensures |b| == 4
  {
    if e.Big? then Network(x) else Reversed(Network(x))
  }

  function Loaded(e: Endian, b: Bytes): (x: nat)
    requires |b| == 4
    ensures x < WORD
  {
    if e.Big? then FromNetwork(b) else FromNetwork(Reversed(b))
  }

  /** htonl, and ntohl, which is the same function. */
  function Swap(e: Endian, x: nat): (y: nat)
    ensures x < WORD ==> y < WORD
  {
    if e.Big? then x else FromNetwork(Reversed(Network(x)))
  }

  lemma DigitsUnique(a: Byte, b: Byte, c: Byte, d: Byte)
    ensures Network(FromDigits(a, b, c, d)) == [a, b, c, d]
  {
    var x := FromDigits(a, b, c, d);
    var x2 := a as nat * 0x1_0000 + b as nat * 0x100 + c as nat;
    var x1 := a as nat * 0x100 + b as nat;
    assert x == 0x100 * x2 + d as nat;
    assert x2 == 0x100 * x1 + c as nat;
    assert x / 0x100 == x2;
    assert x / 0x1_0000 == x1;
    assert x / 0x100_0000 == a as nat;
  }

  lemma NetworkRoundTrip(x: nat)
    requires x < WORD
    ensures FromNetwork(Network(x)) == x
  {
    var d, x1 := x % 256, x / 256;
    var c, x2 := x1 % 256, x1 / 256;
    var b, x3 := x2 % 256, x2 / 256;
    assert x / 0x1_0000 == x2 && x / 0x100_0000 == x3;
    assert x3 < 256;
  }

  lemma FromNetworkRoundTrip(b: Bytes)
    requires |b| == 4
    ensures Network(FromNetwork(b)) == b
  {
    DigitsUnique(b[0], b[1], b[2], b[3]);
  }

  /** After htonl the memory image is in network order, whatever the host's own order. */
  lemma SwapToNetwork(e: Endian, x: nat)
    requires x < WORD
    ensures InMemory(e, Swap(e, x)) == Network(x)
  {
    FromNetworkRoundTrip(Reversed(Network(x)));
  }

  /** Loading an image gives the word back, and ntohl turns a loaded network image into the word sent. */
  lemma LoadedImage(e: Endian, x: nat)
    requires x < WORD
    ensures Loaded(e, InMemory(e, x)) == x
  {
    NetworkRoundTrip(x);
  }

  lemma SwapFromNetwork(e: Endian, b: Bytes)
    requires |b| == 4
    ensures Swap(e, Loaded(e, b)) == FromNetwork(b)
  {
    FromNetworkRoundTrip(Reversed(b));
  }

  // ----- Headers

  const HEADER: nat := 16

  /** XACTO_PACKET; `pad` is the byte that the compiler leaves between the null flag and `size`. */
  datatype Packet = Packet(kind: Byte, status: Byte, isNull: Byte, pad: Byte, size: nat, sec: nat, nsec: nat)

  predicate Fits(p: Packet) {
    p.size < WORD && p.sec < WORD && p.nsec < WORD
  }

  /** The header on the wire. */
  function Wire(p: Packet): (b: Bytes)
    ensures |b| == HEADER
  {
    [p.kind, p.status, p.isNull, p.pad] + Network(p.size) + Network(p.sec) + Network(p.nsec)
  }

  function Parsed(b: Bytes): (p: Packet)
    requires |b| == HEADER
    ensures Fits(p)
  {
    Packet(b[0], b[1], b[2], b[3], FromNetwork(b[4..8]), FromNetwork(b[8..12]), FromNetwork(b[12..16]))
  }

  /** The fields as a host sees them in a structure in its memory. */
  function Fields(e: Endian, b: Bytes): (p: Packet)
    requires |b| == HEADER
    ensures Fits(p)
  {
    Packet(b[0], b[1], b[2], b[3], Loaded(e, b[4..8]), Loaded(e, b[8..12]), Loaded(e, b[12..16]))
  }

  lemma WireRoundTrip(p: Packet)
    requires Fits(p)
    ensures Parsed(Wire(p)) == p
  {
    var b := Wire(p);
    assert b[4..8] == Network(p.size) && b[8..12] == Network(p.sec) && b[12..16] == Network(p.nsec);
    NetworkRoundTrip(p.size);
    NetworkRoundTrip(p.sec);
    NetworkRoundTrip(p.nsec);
  }

  /** `b` spells `x` with the most significant byte first. */
  predicate Spells(b: Bytes, x: nat) {
    && |b| == 4 && b[0] as nat == x / 0x100_0000 && b[1] as nat == x / 0x1_0000 % 0x100
    && b[2] as nat == x / 0x100 % 0x100 && b[3] as nat == x % 0x100
  }

  lemma NetworkSpells(x: nat)
    requires x < WORD
    ensures Spells(Network(x), x)
  {
    assert x / 0x100_0000 < 256;
  }

  /** Where each field is on the wire, and how: three single bytes, a byte of padding, and three words with the
      most significant byte first. */
  lemma WireBytes(p: Packet)
    requires Fits(p)
    ensures var b := Wire(p);
            && b[0] == p.kind && b[1] == p.status && b[2] == p.isNull && b[3] == p.pad
            && Spells(b[4..8], p.size) && Spells(b[8..12], p.sec) && Spells(b[12..16], p.nsec)
  {
    NetworkSpells(p.size);
    NetworkSpells(p.sec);
    NetworkSpells(p.nsec);
    hide Network, Spells;
    var b := Wire(p);
    assert b[4..8] == Network(p.size) && b[8..12] == Network(p.sec) && b[12..16] == Network(p.nsec);
  }

  /** The number that four bytes are, the least significant one first. */
  function Weighed(b: Bytes): nat
    requires |b| == 4
  {
    b[0] as nat + 0x100 * b[1] as nat + 0x1_0000 * b[2] as nat + 0x100_0000 * b[3] as nat
  }

  /** Which fields a host finds in a structure in its memory: on a little-endian one the first byte of a word
      weighs least, on a big-endian one the last. */
  lemma FieldBytes(e: Endian, b: Bytes)
    requires |b| == HEADER
    ensures var p := Fields(e, b);
            && p.kind == b[0] && p.status == b[1] && p.isNull == b[2] && p.pad == b[3]
            && (e.Little? ==>
                  && p.size == Weighed([b[4], b[5], b[6], b[7]]) && p.sec == Weighed([b[8], b[9], b[10], b[11]])
                  && p.nsec == Weighed([b[12], b[13], b[14], b[15]]))
            && (e.Big? ==>
                  && p.size == Weighed([b[7], b[6], b[5], b[4]]) && p.sec == Weighed([b[11], b[10], b[9], b[8]])
                  && p.nsec == Weighed([b[15], b[14], b[13], b[12]]))
  {
  }

  function SwapWord(e: Endian, b: Bytes, at: nat): (r: Bytes)
    requires at + 4 <= |b|
    ensures |r| == |b|
  {
    Patch(b, at, InMemory(e, Swap(e, Loaded(e, b[at..at + 4]))))
  }

  /** What the three conversions do to the structure. */
  function Converted(e: Endian, b: Bytes): (r: Bytes)
    requires |b| == HEADER
    ensures |r| == HEADER
  {
    SwapWord(e, SwapWord(e, SwapWord(e, b, 4), 8), 12)
  }

  lemma SwapWordIn(e: Endian, pre: Bytes, w: Bytes, post: Bytes)
    requires |w| == 4
    ensures SwapWord(e, pre + w + post, |pre|) == pre + InMemory(e, Swap(e, Loaded(e, w))) + post
  {
    assert (pre + w + post)[|pre|..|pre| + 4] == w;
    assert (pre + w + post)[..|pre|] == pre && (pre + w + post)[|pre| + 4..] == post;
  }

  lemma ConvertedPieces(e: Endian, h: Bytes, x: Bytes, y: Bytes, z: Bytes, x': Bytes, y': Bytes, z': Bytes)
    requires |h| == |x| == |y| == |z| == 4
    requires x' == InMemory(e, Swap(e, Loaded(e, x))) && y' == InMemory(e, Swap(e, Loaded(e, y))) &&
             z' == InMemory(e, Swap(e, Loaded(e, z)))
    ensures Converted(e, h + x + y + z) == h + x' + y' + z'
  {
    hide SwapWord, InMemory, Swap, Loaded;
    SwapWordIn(e, h, x, y + z);
    SwapWordIn(e, h + x', y, z);
    SwapWordIn(e, h + x' + y', z, []);
    assert h + x + (y + z) == h + x + y + z;
    assert h + x' + (y + z) == h + x' + y + z;
    assert h + x' + y' + z + [] == h + x' + y' + z;
    assert h + x' + y' + z' + [] == h + x' + y' + z';
  }

  lemma ConvertedWords(e: Endian, b: Bytes)
    requires |b| == HEADER
    ensures Converted(e, b) == b[..4] + InMemory(e, Swap(e, Loaded(e, b[4..8]))) +
            InMemory(e, Swap(e, Loaded(e, b[8..12])))
                                      + InMemory(e, Swap(e, Loaded(e, b[12..16])))
  {
    hide Converted, InMemory, Swap, Loaded;
    var h, x, y, z := b[..4], b[4..8], b[8..12], b[12..16];
    ConvertedPieces(e, h, x, y, z, InMemory(e, Swap(e, Loaded(e, x))), InMemory(e, Swap(e, Loaded(e, y))),
        InMemory(e, Swap(e, Loaded(e, z))));
    assert b == h + x + y + z;
  }

  /** Sending: the converted structure in memory is the header on the wire. */
  lemma ConvertedIsWire(e: Endian, b: Bytes)
    requires |b| == HEADER
    ensures Converted(e, b) == Wire(Fields(e, b))
  {
    ConvertedWords(e, b);
    SwapToNetwork(e, Loaded(e, b[4..8]));
    SwapToNetwork(e, Loaded(e, b[8..12]));
    SwapToNetwork(e, Loaded(e, b[12..16]));
    hide Network, Loaded, InMemory, Swap, Converted;
    assert b[..4] == [b[0], b[1], b[2], b[3]];
  }

  /** Receiving: converting a wire header in memory leaves the fields that were sent. */
  lemma ConvertedIsParsed(e: Endian, b: Bytes)
    requires |b| == HEADER
    ensures Fields(e, Converted(e, b)) == Parsed(b)
  {
    hide Network, Loaded, InMemory, Swap, Converted, FromNetwork;
    ConvertedWords(e, b);
    var r := Converted(e, b);
    var x, y, z := Loaded(e, b[4..8]), Loaded(e, b[8..12]), Loaded(e, b[12..16]);
    LoadedImage(e, Swap(e, x));
    LoadedImage(e, Swap(e, y));
    LoadedImage(e, Swap(e, z));
    SwapFromNetwork(e, b[4..8]);
    SwapFromNetwork(e, b[8..12]);
    SwapFromNetwork(e, b[12..16]);
    assert r[..4] == b[..4] && r[0] == r[..4][0] && r[1] == r[..4][1] && r[2] == r[..4][2] && r[3] == r[..4][3];
    assert r[4..8] == InMemory(e, Swap(e, x)) && r[8..12] == InMemory(e, Swap(e, y)) &&
        r[12..16] == InMemory(e, Swap(e, z));
  }

  // ----- Sending and receiving

  /** `pkt->field = htonl(pkt->field)`, in the structure. */
  method SwapField(e: Endian, pkt: array<Byte>, at: nat)
    requires at + 4 <= pkt.Length
    modifies pkt
    ensures pkt[..] == SwapWord(e, old(pkt[..]), at)
  {
    var word := InMemory(e, Swap(e, Loaded(e, pkt[at..at + 4])));
    CopyInto(word, pkt, at);
  }

  method ConvertFields(e: Endian, pkt: array<Byte>)
    requires pkt.Length == HEADER
    modifies pkt
    ensures pkt[..] == Converted(e, old(pkt[..]))
  {
    hide SwapWord;
    SwapField(e, pkt, 4);
    SwapField(e, pkt, 8);
    SwapField(e, pkt, 12);
  }

  /** Some, but not all, of `whole` has been written. */
  ghost predicate CutOff(before: Bytes, written: Bytes, whole: Bytes) {
    var m := |written| - |before|;
    0 <= m < |whole| && written == before + whole[..m]
  }

  lemma EmittedIsCutOff(before: Bytes, written: Bytes, whole: Bytes)
    requires 0 <= |written| - |before| < |whole| && Emitted(before, written, whole, |written| - |before|)
    ensures CutOff(before, written, whole)
  {
  }

  lemma CutOffLater(before: Bytes, head: Bytes, now: Bytes, written: Bytes, tail: Bytes)
    requires now == before + head && CutOff(now, written, tail)
    ensures CutOff(before, written, head + tail)
  {
    var m := |written| - |now|;
    assert head + tail[..m] == (head + tail)[..|head| + m];
    assert written == before + (head + tail[..m]);
  }

  lemma CutOffSooner(before: Bytes, written: Bytes, head: Bytes, tail: Bytes)
    requires CutOff(before, written, head)
    ensures CutOff(before, written, head + tail)
  {
    var m := |written| - |before|;
    assert head[..m] == (head + tail)[..m];
  }

  /** The header half of proto_send_packet. */
  method SendHeader(dst: Sink, e: Endian, pkt: array<Byte>) returns (r: int)
    requires pkt.Length == HEADER
    modifies dst, pkt
    ensures Used(old(dst.script), dst.script, r < 0)
    ensures r == -1 || r >= 0
    ensures pkt[..] == Wire(Fields(e, old(pkt[..])))
    ensures r >= 0 ==> dst.written == old(dst.written) + Wire(Fields(e, old(pkt[..])))
    ensures r < 0 ==> CutOff(old(dst.written), dst.written, Wire(Fields(e, old(pkt[..]))))
  {
    ConvertedIsWire(e, pkt[..]);
    hide Converted, Wire, Used, Fields, Emitted, CutOff;
    ConvertFields(e, pkt);
    r := WriteN(dst, pkt, HEADER);
    assert pkt[..HEADER] == pkt[..];
    if r < 0 { EmittedIsCutOff(old(dst.written), dst.written, pkt[..HEADER]); }
  }

  method SendPayload(dst: Sink, data: array<Byte>, n: nat) returns (r: int)
    requires n <= data.Length
    modifies dst
    ensures Used(old(dst.script), dst.script, r < 0)
    ensures r == -1 || r >= 0
    ensures r >= 0 ==> dst.written == old(dst.written) + data[..n]
    ensures r < 0 ==> CutOff(old(dst.written), dst.written, data[..n])
  {
    hide Used, CutOff, Emitted;
    r := WriteN(dst, data, n);
    if r < 0 { EmittedIsCutOff(old(dst.written), dst.written, data[..n]); }
  }

  /** proto_send_packet: the header on the wire, then `size` bytes of payload. */
  method SendPacket(dst: Sink, e: Endian, pkt: array<Byte>, data: array?<Byte>) returns (r: int)
    requires pkt.Length == HEADER && data != pkt
    requires Fields(e, pkt[..]).size != 0 ==> data != null && Fields(e, pkt[..]).size <= data.Length
    modifies dst, pkt
    ensures r == 0 || r == -1
    ensures Used(old(dst.script), dst.script, r < 0)
    ensures pkt[..] == Wire(Fields(e, old(pkt[..])))
    ensures r == 0 ==> dst.written == old(dst.written) + Wire(Fields(e, old(pkt[..]))) +
                                      if Fields(e, old(pkt[..])).size == 0 then []
                                      else data[..Fields(e, old(pkt[..])).size]
    ensures r < 0 ==> CutOff(old(dst.written), dst.written, Wire(Fields(e, old(pkt[..]))) +
                                      if Fields(e, old(pkt[..])).size == 0 then []
                                      else data[..Fields(e, old(pkt[..])).size])
  {
    hide Wire, Used, Fields, Loaded, Emitted, CutOff;
    ghost var script, before, p := dst.script, dst.written, Fields(e, pkt[..]);
    ghost var payload := if p.size == 0 then [] else data[..p.size];
    var length := Loaded(e, pkt[4..8]);
    assert length == p.size by { FieldsSize(e, pkt[..]); assert pkt[..][4..8] == pkt[4..8]; }
    var wrote := SendHeader(dst, e, pkt);
    assert p.size != 0 ==> data[..p.size] == payload;
    if wrote == -1 {
      CutOffSooner(before, dst.written, Wire(p), payload);
      return -1;
    }
    if length != 0 {
      ghost var script1, sent := dst.script, dst.written;
      wrote := SendPayload(dst, data, length);
      if wrote == -1 {
        UsedThenBroken(script, script1, dst.script);
        CutOffLater(before, Wire(p), sent, dst.written, payload);
        return -1;
      }
      UsedOneMore(script, script1, dst.script);
    }
    return 0;
  }

  /** What proto_recv_packet makes of a stream, given what the header structure held before: a header cut
      short by end of file is completed with old bytes, and a payload cut short is delivered as it is. */
  datatype Reception = Rejected | Accepted(packet: Packet, payload: Bytes, rest: Bytes)

  function Receive(before: Bytes, stream: Bytes): Reception
    requires |before| == HEADER
  {
    if stream == [] then Rejected
    else
      var m := Min(HEADER, |stream|);
      var p, rest := Parsed(Filled(before, stream, m)), stream[m..];
      if p.size == 0 then Accepted(p, [], rest)
      else if rest == [] then Rejected
      else Accepted(p, rest[..Min(p.size, |rest|)], rest[Min(p.size, |rest|)..])
  }

  /** Nothing is received at the end of the stream, nor when it comes right after, or inside, a header that
      announces a payload. */
  lemma RejectedExactly(before: Bytes, stream: Bytes)
    requires |before| == HEADER
    ensures Receive(before, stream).Rejected? <==>
              stream == [] ||
              (|stream| <= HEADER && Parsed(Filled(before, stream, |stream|)).size > 0)
  {
    if |stream| > HEADER { assert stream[HEADER..] != []; }
  }

  /** The stream starts with a whole header and all of the payload that it announces. */
  predicate Whole(stream: Bytes) {
    |stream| >= HEADER && |stream| - HEADER >= Parsed(stream[..HEADER]).size
  }

  /** What "successful reception" should mean: a message that was sent is at the front of the stream, and it
      is received as it was sent. */
  ghost predicate ReceivedAsSent(before: Bytes, stream: Bytes)
    requires |before| == HEADER
  {
    exists m, more | Complete(m) && stream == OnWire(m) + more ::
        Receive(before, stream) == Accepted(m.packet, m.payload, more)
  }

  /** The header half of proto_recv_packet. */
  method ReceiveHeader(src: Source, e: Endian, pkt: array<Byte>) returns (r: int)
    requires pkt.Length == HEADER
    modifies src, pkt
    ensures Used(old(src.script), src.script, r < 0)
    ensures Leaves(old(src.script), old(src.errno), src.script, src.errno)
    ensures r == -1 || r >= 0
    ensures r >= 0 ==> r == Min(HEADER, |old(src.unread)|) && src.unread == old(src.unread)[r..]
    ensures r > 0 ==> Fields(e, pkt[..]) == Parsed(Filled(old(pkt[..]), old(src.unread), r))
  {
    ghost var stream, before := src.unread, pkt[..];
    hide Used, Leaves, Filled, Fields, Parsed, Converted;
    r := ReadN(src, pkt, HEADER);
    if r <= 0 { return; }
    ConvertedIsParsed(e, pkt[..]);
    ConvertFields(e, pkt);
  }

  /** proto_recv_packet.  Without an error on the descriptor it returns 0 exactly when the stream is accepted;
      `datap` is left alone when there is no payload. */
  method ReceivePacket(src: Source, e: Endian, pkt: array<Byte>, datap: array?<Byte>) returns (r: int,
                       data: array?<Byte>)
    requires pkt.Length == HEADER
    modifies src, pkt
    ensures r == 0 || r == -1
    ensures Used(old(src.script), src.script, false) || (Used(old(src.script), src.script, true) && r == -1)
    ensures Used(old(src.script), src.script, false) ==>
              (r == 0 <==> Receive(old(pkt[..]), old(src.unread)).Accepted?)
    ensures Leaves(old(src.script), old(src.errno), src.script, src.errno)
    ensures r == -1 ==>
              (Indicated(old(src.script), src.script, src.errno) <==> Used(old(src.script), src.script, true))
    ensures r == -1 && Used(old(src.script), src.script, false) ==> src.errno == old(src.errno) || src.errno == EINTR
    ensures Used(old(src.script), src.script, false) && Whole(old(src.unread)) ==> r == 0
    ensures r == 0 ==> (ReceivedAsSent(old(pkt[..]), old(src.unread)) <==> Whole(old(src.unread)))
    ensures r == 0 ==> var got := Receive(old(pkt[..]), old(src.unread));
              got.Accepted? && Fields(e, pkt[..]) == got.packet && src.unread == got.rest
    ensures r == 0 ==> var got := Receive(old(pkt[..]), old(src.unread));
              if got.packet.size == 0 then data == datap
              else
                data != null && fresh(data) && data.Length == got.packet.size && |got.payload| <= data.Length &&
                data[..|got.payload|] == got.payload
  {
    data := datap;
    ghost var script, errno, stream, before := src.script, src.errno, src.unread, pkt[..];
    UsedNothing(script);
    ReceptionExact(before, stream);
    hide Filled, Parsed, Fields, Whole, ReceivedAsSent, Leaves, Indicated;
    var read := ReceiveHeader(src, e, pkt);
    ErrnoTells(script, errno, src.script, src.errno);
    if read <= 0 {
      UsedExclusive(script, src.script);
      return -1, data;
    }
    var size := Loaded(e, pkt[4..8]);
    assert size == Fields(e, pkt[..]).size by { FieldsSize(e, pkt[..]); assert pkt[..][4..8] == pkt[4..8]; }
    if size != 0 {
      r, data := ReceivePayload(src, size, script, errno);
      ErrnoTells(script, errno, src.script, src.errno);
      if r == -1 { data := datap; }
      return;
    }
    return 0, data;
  }

  lemma FieldsSize(e: Endian, b: Bytes)
    requires |b| == HEADER
    ensures Fields(e, b).size == Loaded(e, b[4..8])
  {
  }

  lemma UsedExclusive(before: seq<Outcome>, after: seq<Outcome>)
    ensures !(Used(before, after, true) && Used(before, after, false))
  {
    var n := |before| - |after|;
    assert 0 < n <= |before| ==> before[..n][n - 1] == before[n - 1];
  }

  /** The payload half of proto_recv_packet. */
  method ReceivePayload(src: Source, size: nat, ghost script: seq<Outcome>, ghost errno: nat)
    returns (r: int, data: array<Byte>)
    requires size > 0 && Used(script, src.script, false) && Leaves(script, errno, src.script, src.errno)
    modifies src
    ensures Leaves(script, errno, src.script, src.errno)
    ensures fresh(data) && data.Length == size
    ensures r == 0 || r == -1
    ensures Used(script, src.script, false) || (Used(script, src.script, true) && r == -1)
    ensures Used(script, src.script, false) ==> (r == 0 <==> old(src.unread) != [])
    ensures r == 0 ==> var k := Min(size, |old(src.unread)|);
              src.unread == old(src.unread)[k..] && data[..k] == old(src.unread)[..k]
  {
    ghost var now, sofar, stream := src.script, src.errno, src.unread;
    data := new Byte[size];
    ghost var before := data[..];
    hide Used, Leaves;
    var read := ReadN(src, data, size);
    LeavesFurther(script, errno, now, sofar, src.script, src.errno);
    if read < 0 {
      UsedThenBroken(script, now, src.script);
      UsedExclusive(script, src.script);
    } else {
      UsedOneMore(script, now, src.script);
    }
    if read <= 0 {
      r := -1;
    } else {
      assert data[..read] == data[..][..read] == stream[..read];
      r := 0;
    }
  }

  /** The peer has closed the connection: reception fails, and errno is still 0. */
  method EndWithoutErrno(e: Endian) returns (r: int, errno: nat)
    ensures r == -1 && errno == 0
  {
    var src := new Source([], []);
    var pkt := new Byte[HEADER];
    var data;
    r, data := ReceivePacket(src, e, pkt, null);
    errno := src.errno;
  }

  // ----- Whole conversations

  datatype Message = Message(packet: Packet, payload: Bytes)

  predicate Complete(m: Message) {
    Fits(m.packet) && |m.payload| == m.packet.size
  }

  function OnWire(m: Message): Bytes {
    Wire(m.packet) + m.payload
  }

  function Encoded(ms: seq<Message>): Bytes {
    if ms == [] then [] else Encoded(ms[..|ms| - 1]) + OnWire(ms[|ms| - 1])
  }

  lemma {:induction false} EncodedFirst(ms: seq<Message>)
    requires ms != []
    ensures Encoded(ms) == OnWire(ms[0]) + Encoded(ms[1..])
  {
    hide OnWire;
    var n := |ms| - 1;
    if n == 0 {
      assert ms[..0] == [] && ms[1..] == [];
    } else {
      EncodedFirst(ms[..n]);
      var mid := ms[..n][1..];
      assert mid == ms[1..][..n - 1] && ms[1..][n - 1] == ms[n];
      EncodedLast(ms);
      EncodedLast(ms[1..]);
      hide Encoded;
      assert OnWire(ms[0]) + Encoded(mid) + OnWire(ms[n]) == OnWire(ms[0]) + (Encoded(mid) + OnWire(ms[n]));
    }
  }

  lemma EncodedLast(ms: seq<Message>)
    requires ms != []
    ensures Encoded(ms) == Encoded(ms[..|ms| - 1]) + OnWire(ms[|ms| - 1])
  {
  }

  lemma FilledWhole(before: Bytes, b: Bytes, more: Bytes)
    requires |before| == |b|
    ensures Filled(before, b + more, |b|) == b && (b + more)[|b|..] == more && (b + more)[..|b|] == b
  {
  }

  /** Whatever the header structure held before, a complete message at the front of the stream is received
      as it was sent, and nothing beyond it is consumed. */
  lemma ReceiveComplete(before: Bytes, m: Message, more: Bytes)
    requires |before| == HEADER && Complete(m)
    ensures Receive(before, OnWire(m) + more) == Accepted(m.packet, m.payload, more)
  {
    WireRoundTrip(m.packet);
    WireFirst(m, more);
    FilledWhole(before, Wire(m.packet), m.payload + more);
    FilledWhole(m.payload, m.payload, more);
    ReceiveFrom(before, OnWire(m) + more, m.payload + more, m.packet, more);
  }

  /** What proto_recv_packet reports as received is what was sent exactly if the stream holds a whole message;
      and then it does report it. */
  lemma ReceptionExact(before: Bytes, stream: Bytes)
    requires |before| == HEADER
    ensures ReceivedAsSent(before, stream) <==> Whole(stream)
    ensures Whole(stream) ==> Receive(before, stream).Accepted?
  {
    if Whole(stream) {
      var m, more := WholeMessage(stream);
      ReceiveComplete(before, m, more);
    }
    if m, more :|
       Complete(m) && stream == OnWire(m) + more && Receive(before, stream) == Accepted(m.packet, m.payload, more) {
      WireRoundTrip(m.packet);
      WireFirst(m, more);
      FilledWhole(before, Wire(m.packet), m.payload + more);
    }
  }

  lemma WholeMessage(stream: Bytes) returns (m: Message, more: Bytes)
    requires Whole(stream)
    ensures Complete(m) && stream == OnWire(m) + more
  {
    hide Wire, Parsed, Fits;
    var p := Parsed(stream[..HEADER]);
    var end := HEADER + p.size;
    m, more := Message(p, stream[HEADER..end]), stream[end..];
    WireOfParsed(stream[..HEADER]);
  }

  lemma WireOfParsed(b: Bytes)
    requires |b| == HEADER
    ensures Wire(Parsed(b)) == b
  {
    FromNetworkRoundTrip(b[4..8]);
    FromNetworkRoundTrip(b[8..12]);
    FromNetworkRoundTrip(b[12..16]);
    hide Network, FromNetwork;
    assert b == [b[0], b[1], b[2], b[3]] + b[4..8] + b[8..12] + b[12..16];
  }

  const ZEROS: Bytes := [0, 0, 0, 0, 0, 0, 0, 0, 0, 0, 0, 0, 0, 0, 0, 0]

  /** One byte before the end of the stream passes for a packet: the rest of its header is what the structure
      held before. */
  lemma HeaderCutShort()
    ensures Receive(ZEROS, [1]) == Accepted(Packet(1, 0, 0, 0, 0, 0, 0), [], [])
    ensures !ReceivedAsSent(ZEROS, [1])
  {
    hide Parsed, ReceivedAsSent, Filled;
    OneAndZeros();
    ReceptionExact(ZEROS, [1]);
  }

  lemma OneAndZeros()
    ensures Parsed(Filled(ZEROS, [1], 1)) == Packet(1, 0, 0, 0, 0, 0, 0)
  {
    var b := Filled(ZEROS, [1], 1);
    assert forall i | 0 <= i < HEADER :: b[i] == if i == 0 then 1 else 0;
    assert b[4..8] == [0, 0, 0, 0] && b[8..12] == [0, 0, 0, 0] && b[12..16] == [0, 0, 0, 0];
  }

  /** One of two payload bytes passes for a payload. */
  lemma PayloadCutShort(before: Bytes, p: Packet, b: Byte)
    requires |before| == HEADER && Fits(p) && p.size == 2
    ensures Receive(before, Wire(p) + [b]) == Accepted(p, [b], [])
    ensures !ReceivedAsSent(before, Wire(p) + [b])
  {
    hide ReceivedAsSent, Wire, Parsed, Filled;
    WireRoundTrip(p);
    FilledWhole(before, Wire(p), [b]);
    ReceptionExact(before, Wire(p) + [b]);
    assert [b][..1] == [b] && [b][1..] == [];
  }

  lemma WireFirst(m: Message, more: Bytes)
    ensures OnWire(m) + more == Wire(m.packet) + (m.payload + more)
  {
    hide Wire;
  }

  lemma ReceiveFrom(before: Bytes, stream: Bytes, rest: Bytes, p: Packet, more: Bytes)
    requires |before| == HEADER <= |stream| && stream[HEADER..] == rest && Parsed(Filled(before, stream, HEADER)) == p
    requires p.size <= |rest| && rest[p.size..] == more
    ensures Receive(before, stream) == Accepted(p, rest[..p.size], more)
  {
    hide Parsed, Filled;
    assert p.size == 0 ==> rest[..0] == [] && rest[0..] == rest;
    assert rest == [] ==> p.size == 0;
  }

  /** The structure in which a host prepares a packet. */
  function HostImage(e: Endian, p: Packet): (b: Bytes)
    ensures |b| == HEADER
  {
    [p.kind, p.status, p.isNull, p.pad] + InMemory(e, p.size) + InMemory(e, p.sec) + InMemory(e, p.nsec)
  }

  lemma HostImageFields(e: Endian, p: Packet)
    requires Fits(p)
    ensures Fields(e, HostImage(e, p)) == p
  {
    var b := HostImage(e, p);
    assert b[4..8] == InMemory(e, p.size) && b[8..12] == InMemory(e, p.sec) && b[12..16] == InMemory(e, p.nsec);
    LoadedImage(e, p.size);
    LoadedImage(e, p.sec);
    LoadedImage(e, p.nsec);
  }

  method NewArray(bytes: Bytes) returns (a: array<Byte>)
    ensures fresh(a) && a[..] == bytes
  {
    a := new Byte[|bytes|];
    CopyInto(bytes, a, 0);
  }

  method SendMessage(dst: Sink, e: Endian, m: Message) returns (r: int)
    requires Complete(m)
    modifies dst
    ensures Used(old(dst.script), dst.script, r < 0)
    ensures r >= 0 ==> dst.written == old(dst.written) + OnWire(m)
  {
    HostImageFields(e, m.packet);
    hide HostImage, Fields, Wire, Used;
    var pkt := NewArray(HostImage(e, m.packet));
    var data := NewArray(m.payload);
    assert data[..data.Length] == m.payload;
    r := SendPacket(dst, e, pkt, data);
  }

  method ReceiveMessage(src: Source, e: Endian, ghost m: Message, ghost more: Bytes) returns (r: int, got: Message)
    requires Complete(m) && src.unread == OnWire(m) + more
    modifies src
    ensures (r == 0 && Used(old(src.script), src.script, false)) || (r == -1 && Used(old(src.script), src.script, true))
    ensures r == 0 ==> got == m && src.unread == more
  {
    var pkt := new Byte[HEADER];
    ReceiveComplete(pkt[..], m, more);
    hide Fields, Wire, Used, Receive;
    var data;
    r, data := ReceivePacket(src, e, pkt, null);
    var p := Fields(e, pkt[..]);
    got := Message(p, if r == 0 && p.size != 0 then data[..] else []);
  }

  /** The wire round trip: whatever the byte orders of the two hosts and however reads and writes are cut
      short or interrupted, the messages arrive as sent, in order, and nothing is left over.  It fails only if
      a call on a descriptor fails. */
  method Converse(ms: seq<Message>, sender: Endian, receiver: Endian, outgoing: seq<Outcome>, incoming: seq<Outcome>)
    returns (ok: bool, got: seq<Message>, left: Bytes)
    requires forall i | 0 <= i < |ms| :: Complete(ms[i])
    ensures Sound(outgoing) && Sound(incoming) ==> ok
    ensures ok ==> got == ms && left == []
  {
    got, left := [], [];
    var dst := new Sink(outgoing);
    UsedNothing(outgoing);
    var i := 0;
    while i < |ms|
      invariant 0 <= i <= |ms|
      invariant Used(outgoing, dst.script, false)
      invariant dst.written == Encoded(ms[..i])
    {
      ghost var script := dst.script;
      var r := SendMessage(dst, sender, ms[i]);
      if r < 0 {
        UsedThenBroken(outgoing, script, dst.script);
        BrokenNotSound(outgoing, dst.script);
        return false, got, left;
      }
      UsedOneMore(outgoing, script, dst.script);
      assert ms[..i + 1][..i] == ms[..i];
      i := i + 1;
    }
    assert ms[..|ms|] == ms && ms[0..] == ms;
    var src := new Source(dst.written, incoming);
    UsedNothing(incoming);
    i := 0;
    while i < |ms|
      invariant 0 <= i <= |ms| && got == ms[..i]
      invariant Used(incoming, src.script, false)
      invariant src.unread == Encoded(ms[i..])
    {
      ghost var script := src.script;
      EncodedFirst(ms[i..]);
      assert ms[i..][1..] == ms[i + 1..];
      var r, m := ReceiveMessage(src, receiver, ms[i], Encoded(ms[i + 1..]));
      if r < 0 {
        UsedThenBroken(incoming, script, src.script);
        BrokenNotSound(incoming, src.script);
        return false, got, left;
      }
      UsedOneMore(incoming, script, src.script);
      got, i := got + [m], i + 1;
    }
    return true, got, src.unread;
  }

  lemma BrokenNotSound(before: seq<Outcome>, after: seq<Outcome>)
    requires Used(before, after, true)
    ensures !Sound(before)
  {
  }
}
