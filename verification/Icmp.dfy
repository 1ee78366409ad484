/** Echo requests and replies: what `icmp_pinger_send_echo` writes and what the two reply
    parsers accept. */
module Icmp {
  import opened Machine
  import Checksum

  const PACKET_SIZE: nat := 64
  const SEND_BUFFER_SIZE: nat := 256
  const RECEIVE_BUFFER_SIZE: nat := 1500
  const HEADER_SIZE: nat := 8
  const MIN_IP_HEADER: nat := 20
  const IPPROTO_ICMP: byte := 1

  datatype Family = Inet | Inet6

  /** A socket address: the family, the address bytes and the parts the program ignores. */
  datatype Endpoint = Endpoint(family: Family, address: seq<byte>, portOrScope: nat)

  datatype ReceiveStatus = NoMore | Ignored | Matched | ReceiveError

  function EchoRequestType(f: Family): byte { if f == Inet6 then 128 else 8 }

  function EchoReplyType(f: Family): byte { if f == Inet6 then 129 else 0 }

  /** `ntohs` of the two bytes at offset `i`. */
  function NetworkWord(b: seq<byte>, i: nat): uint16
    requires i + 1 < |b|
  {
    Checksum.WordBE(b[i], b[i + 1])
  }

  /** The sequence generator: wraps at 16 bits and skips the "not waiting" sentinel 0. */
  function NextSequence(current: uint16): uint16 {
    var next := (current + 1) % 0x1_0000;
    if next == 0 then 1 else next
  }

  /** The sequence number that the k-th echo of a run carries; no echo carries 0. */
  function SequenceOf(k: nat): uint16 {
    if k == 0 then 0 else (k - 1) % 0xFFFF + 1
  }

  lemma NextOfSequence(k: nat)
    ensures NextSequence(SequenceOf(k)) == SequenceOf(k + 1) != 0
  {
    if k > 0 {
      var r, q := (k - 1) % 0xFFFF, (k - 1) / 0xFFFF;
      if r == 0xFFFE {
        assert k == 0xFFFF * (q + 1);
      } else {
        assert k == 0xFFFF * q + (r + 1);
      }
    }
  }

  /** Two echoes of a run carry the same number exactly when their indices agree mod 65535. */
  lemma SequenceCollides(j: nat, k: nat)
    requires 0 < j && 0 < k
    ensures SequenceOf(j) == SequenceOf(k) <==> j % 0xFFFF == k % 0xFFFF
  {
    PredecessorResidue(j);
    PredecessorResidue(k);
  }

  lemma PredecessorResidue(k: nat)
    requires 0 < k
    ensures (k - 1) % 0xFFFF == if k % 0xFFFF == 0 then 0xFFFE else k % 0xFFFF - 1
  {
    var q, r := k / 0xFFFF, k % 0xFFFF;
    if r == 0 {
      assert k - 1 == 0xFFFF * (q - 1) + 0xFFFE;
    } else {
      assert k - 1 == 0xFFFF * q + (r - 1);
    }
  }

  /** The eight header bytes before the checksum is filled in. */
  function Header(f: Family, id: uint16, number: uint16): (h: seq<byte>)
    ensures |h| == HEADER_SIZE
  {
    [EchoRequestType(f), 0, 0, 0, id / 0x100, id % 0x100, number / 0x100, number % 0x100]
  }

  /** The send buffer after an echo request of `len` bytes has been written into it. */
  function WithRequest(f: Family, id: uint16, number: uint16, len: nat, buffer: seq<byte>): (r: seq<byte>)
    requires len <= |buffer| && HEADER_SIZE <= |buffer|
    ensures |r| == |buffer|
  {
    var blank := Header(f, id, number) + buffer[HEADER_SIZE..];
    if f == Inet6 then blank else Checksum.StoreLE(blank, 2, Checksum.Value(blank[..len]))
  }

  /** What a standards-conforming peer must find in the packet (RFC 792, Echo or Echo Reply
      Message; section 4.1 of RFC 4443). The ICMPv6 checksum is filled in by the kernel. */
  predicate WellFormedRequest(f: Family, id: uint16, number: uint16, packet: seq<byte>) {
    && |packet| == 64
    && packet[0] == (if f == Inet6 then 128 else 8)
    && packet[1] == 0
    && NetworkWord(packet, 4) == id
    && NetworkWord(packet, 6) == number
    && PayloadPattern(packet)
    && if f == Inet then Checksum.Value(packet) == 0 else packet[2] == packet[3] == 0
  }

  predicate PayloadPattern(packet: seq<byte>) {
    |packet| >= 64 && forall i: nat :: 8 <= i < 64 ==> packet[i] == i - 8
  }

  lemma RequestIsWellFormed(f: Family, id: uint16, number: uint16, buffer: seq<byte>)
    requires PayloadPattern(buffer)
    ensures var r := WithRequest(f, id, number, PACKET_SIZE, buffer);
      PayloadPattern(r) && WellFormedRequest(f, id, number, r[..PACKET_SIZE])
  {
    var blank := Header(f, id, number) + buffer[HEADER_SIZE..];
    var r := WithRequest(f, id, number, PACKET_SIZE, buffer);
    var packet := blank[..PACKET_SIZE];
    assert forall i: nat :: HEADER_SIZE <= i < PACKET_SIZE ==> blank[i] == buffer[i];
    if f == Inet {
      assert r[..PACKET_SIZE] == Checksum.StoreLE(packet, 2, Checksum.Value(packet));
      Checksum.SelfVerifies(packet, 2);
    }
    assert NetworkWord(r, 4) == id && NetworkWord(r, 6) == number;
  }

  /** What a conforming peer sends back: the request with its type changed to a reply and
      some checksum of its own (RFC 792; section 4.2 of RFC 4443). */
  predicate IsEchoReplyTo(f: Family, reply: seq<byte>, request: seq<byte>) {
    && |reply| == |request| >= 8
    && reply[0] == (if f == Inet6 then 129 else 0)
    && reply[1] == 0
    && reply[4..] == request[4..]
  }

  function ParseIpv4Reply(received: seq<byte>, id: uint16, expected: uint16): ReceiveStatus {
    if |received| < MIN_IP_HEADER then Ignored
    else if received[9] != IPPROTO_ICMP then Ignored
    else
      var headerLen := received[0] % 0x10 * 4;
      if headerLen < MIN_IP_HEADER || headerLen > |received| || headerLen + HEADER_SIZE > |received| then Ignored
      else if received[headerLen] != EchoReplyType(Inet) then Ignored
      else if NetworkWord(received, headerLen + 4) != id then Ignored
      else if NetworkWord(received, headerLen + 6) != expected then Ignored
      else Matched
  }

  function ParseIpv6Reply(received: seq<byte>, id: uint16, expected: uint16): ReceiveStatus {
    if |received| < HEADER_SIZE then Ignored
    else if received[0] != EchoReplyType(Inet6) then Ignored
    else if NetworkWord(received, 4) != id then Ignored
    else if NetworkWord(received, 6) != expected then Ignored
    else Matched
  }

  function ParseReply(f: Family, received: seq<byte>, id: uint16, expected: uint16): ReceiveStatus {
    if f == Inet then ParseIpv4Reply(received, id, expected) else ParseIpv6Reply(received, id, expected)
  }

  /** An IPv4 header of 5 to 15 words that announces ICMP. */
  predicate IsIcmpHeader(h: seq<byte>) {
    && 20 <= |h| <= 60
    && h[9] == 1
    && 4 * (h[0] % 0x10) as int == |h|
  }

  /** Raw IPv4 sockets deliver the IP header in front of the message, IPv6 ones do not. */
  predicate Delivers(f: Family, packet: seq<byte>, message: seq<byte>) {
    match f
    case Inet => exists n: nat :: n <= |packet| && IsIcmpHeader(packet[..n]) && packet[n..] == message
    case Inet6 => packet == message
  }

  /** Round trip: the answer to a request with identity (id, number) is accepted by a pinger
      waiting for exactly that identity, and by no other. */
  lemma ReplyRoundTrip(f: Family, id: uint16, number: uint16, request: seq<byte>, reply: seq<byte>,
                       packet: seq<byte>, myId: uint16, expected: uint16)
    requires WellFormedRequest(f, id, number, request)
    requires IsEchoReplyTo(f, reply, request)
    requires Delivers(f, packet, reply)
    ensures ParseReply(f, packet, myId, expected) == Matched <==> myId == id && expected == number
  {}

  /** Parsing behind a valid header looks at the message alone. */
  lemma ParseBehindHeader(packet: seq<byte>, n: nat, message: seq<byte>, id: uint16, expected: uint16)
    requires n <= |packet| && IsIcmpHeader(packet[..n]) && packet[n..] == message
    requires |message| >= HEADER_SIZE
    ensures ParseIpv4Reply(packet, id, expected) == Matched <==>
      && message[0] == EchoReplyType(Inet)
      && NetworkWord(message, 4) == id
      && NetworkWord(message, 6) == expected
    ensures ParseIpv4Reply(packet, id, expected) in {Matched, Ignored}
  {}

  /** What acceptance means: an ICMP header of whatever length in front (IPv4), and behind it an
      echo reply that carries the id and the number waited for. */
  lemma MatchedExactly(f: Family, packet: seq<byte>, id: uint16, expected: uint16)
    ensures ParseReply(f, packet, id, expected) == Matched <==>
      exists message: seq<byte> ::
        && Delivers(f, packet, message)
        && |message| >= 8
        && message[0] == (if f == Inet6 then 129 else 0)
        && NetworkWord(message, 4) == id
        && NetworkWord(message, 6) == expected
  {
    if f == Inet6 {
      assert Delivers(f, packet, packet);
    } else {
      forall message: seq<byte> | Delivers(f, packet, message) && |message| >= HEADER_SIZE
        ensures ParseIpv4Reply(packet, id, expected) == Matched <==>
          && message[0] == EchoReplyType(Inet)
          && NetworkWord(message, 4) == id
          && NetworkWord(message, 6) == expected
      {
        var n: nat :| n <= |packet| && IsIcmpHeader(packet[..n]) && packet[n..] == message;
        ParseBehindHeader(packet, n, message, id, expected);
      }
      if ParseIpv4Reply(packet, id, expected) == Matched {
        var n: nat := packet[0] % 0x10 * 4;
        assert packet[..n][0] == packet[0] && packet[..n][9] == packet[9];
        assert IsIcmpHeader(packet[..n]);
        assert Delivers(f, packet, packet[n..]);
      }
    }
  }

  /** Our own request is never taken for a reply: a well-formed request,
      delivered as it is, is ignored. */
  lemma OwnRequestIgnored(f: Family, id: uint16, number: uint16, request: seq<byte>, packet: seq<byte>,
                          expected: uint16)
    requires WellFormedRequest(f, id, number, request)
    requires Delivers(f, packet, request)
    ensures ParseReply(f, packet, id, expected) == Ignored
  {}

  /** A packet matches at most one identity. */
  lemma MatchIdentifies(f: Family, packet: seq<byte>, id: uint16, expected: uint16, id': uint16, expected': uint16)
    requires ParseReply(f, packet, id, expected) == Matched
    ensures ParseReply(f, packet, id', expected') == Matched <==> id' == id && expected' == expected
  {}

  predicate SourceMatches(dest: Endpoint, source: Endpoint) {
    source.family == dest.family && source.address == dest.address
  }

  function Received(packet: seq<byte>): seq<byte> {
    packet[..Min(|packet|, RECEIVE_BUFFER_SIZE)]
  }

  /** Classification of one arrived packet by `icmp_pinger_receive_reply`. */
  function Classify(dest: Endpoint, source: Endpoint, packet: seq<byte>, id: uint16, expected: uint16): ReceiveStatus {
    if |packet| == 0 || !SourceMatches(dest, source) then Ignored
    else ParseReply(dest.family, Received(packet), id, expected)
  }

  /** A packet from another host is ignored, whatever it contains. */
  lemma ForeignPacketIgnored(dest: Endpoint, source: Endpoint, packet: seq<byte>, id: uint16, expected: uint16)
    requires source.family != dest.family || source.address != dest.address
    ensures Classify(dest, source, packet, id, expected) == Ignored
  {}

  /** Exactly which packets are accepted: they come from the target's address - the port or
      scope does not matter - and their first 1500 bytes parse as the awaited reply. */
  lemma ClassifiedExactly(dest: Endpoint, source: Endpoint, packet: seq<byte>, id: uint16, expected: uint16)
    ensures Classify(dest, source, packet, id, expected) == Matched <==>
      && source.family == dest.family
      && source.address == dest.address
      && ParseReply(dest.family, if |packet| <= 1500 then packet else packet[..1500], id, expected) == Matched
    ensures Classify(dest, source, packet, id, expected) in {Matched, Ignored}
  {}

  /** Latency credited to a match; never negative even if the clock ran backwards. */
  function Latency(sendTime: uint64, now: uint64): uint64 {
    if now >= sendTime then now - sendTime else 0
  }

  /** The pinger: a 16-bit sequence counter and a send buffer that requests overwrite. */
  class Pinger {
    const family: Family
    var sequence: uint16
    const sendBuffer: array<byte>

    constructor (family: Family)
      ensures this.family == family && sequence == 0
      ensures fresh(sendBuffer) && sendBuffer.Length == SEND_BUFFER_SIZE
    {
      this.family := family;
      sequence := 0;
      sendBuffer := new byte[SEND_BUFFER_SIZE](_ => 0);
    }

    /** `monitor_prepare_packet`: fills the payload behind the header. */
    method PreparePacket() returns (packetLen: nat)
      requires sendBuffer.Length == SEND_BUFFER_SIZE
      modifies sendBuffer
      ensures packetLen == PACKET_SIZE
      ensures PayloadPattern(sendBuffer[..])
    {
      packetLen := PACKET_SIZE;
      var payloadLen := packetLen - HEADER_SIZE;
      for i := 0 to payloadLen
        invariant forall k: nat :: HEADER_SIZE <= k < HEADER_SIZE + i ==> sendBuffer[k] == k - HEADER_SIZE
      {
        sendBuffer[HEADER_SIZE + i] := i % 0x100;
      }
    }

    method AdvanceSequence() returns (number: uint16)
      modifies this`sequence
      ensures number == sequence == NextSequence(old(sequence))
    {
      sequence := (sequence + 1) % 0x1_0000;
      if sequence == 0 {
        sequence := 1;
      }
      number := sequence;
    }

    /** `icmp_pinger_send_echo`; `delivered` says whether `sendto` took the whole packet. */
    method SendEcho(id: uint16, packetLen: nat, delivered: bool) returns (ok: bool)
      requires sendBuffer.Length == SEND_BUFFER_SIZE
      modifies this`sequence, sendBuffer
      ensures packetLen == 0 || packetLen > SEND_BUFFER_SIZE ==>
        !ok && sequence == old(sequence) && sendBuffer[..] == old(sendBuffer[..])
      ensures 0 < packetLen <= SEND_BUFFER_SIZE ==>
        && ok == delivered
        && sequence == NextSequence(old(sequence))
        && sendBuffer[..] == WithRequest(family, id, sequence, packetLen, old(sendBuffer[..]))
    {
      if packetLen == 0 || packetLen > SEND_BUFFER_SIZE {
        return false;
      }
      ghost var before := sendBuffer[..];
      var number := AdvanceSequence();
      for i := 0 to HEADER_SIZE
        modifies sendBuffer
        invariant forall k :: 0 <= k < i ==> sendBuffer[k] == 0
        invariant forall k :: i <= k < SEND_BUFFER_SIZE ==> sendBuffer[k] == before[k]
      {
        sendBuffer[i] := 0;
      }
      sendBuffer[0] := EchoRequestType(family);
      sendBuffer[1] := 0;
      sendBuffer[4], sendBuffer[5] := id / 0x100, id % 0x100;
      sendBuffer[6], sendBuffer[7] := number / 0x100, number % 0x100;
      ghost var blank := Header(family, id, number) + before[HEADER_SIZE..];
      assert sendBuffer[..] == blank;
      if family == Inet {
        var checksum := Checksum.Calculate(sendBuffer, packetLen);
        assert sendBuffer[..packetLen] == blank[..packetLen];
        sendBuffer[2], sendBuffer[3] := checksum % 0x100, checksum / 0x100;
      }
      ok := delivered;
    }
  }
}
