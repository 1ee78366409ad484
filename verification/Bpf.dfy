/** The two classic-BPF socket filters and their agreement with the reply parsers. */
module Bpf {
  import opened Machine
  import opened Icmp

  /** The instructions the filters use; jump offsets are relative and only forward. */
  datatype Instruction =
    | LoadByteAbs(k: uint32)
    | LoadByteInd(k: uint32)
    | And(k: uint32)
    | Mul(k: uint32)
    | Tax
    | JumpIfEqual(k: uint32, ifTrue: byte, ifFalse: byte)
    | Return(k: uint32)

  type Program = seq<Instruction>

  function BitAnd(a: nat, b: nat): (r: nat)
    ensures r <= a
    decreases a
  {
    if a == 0 || b == 0 then 0 else 2 * BitAnd(a / 2, b / 2) + (if a % 2 == 1 && b % 2 == 1 then 1 else 0)
  }

  /** Runs from instruction `pc` with accumulator `a` and index `x`. The result is the number
      of bytes to keep; 0 drops the packet, as does a load outside it. */
  function Run(prog: Program, packet: seq<byte>, pc: nat, a: uint32, x: uint32): uint32
    decreases |prog| - pc
  {
    if pc >= |prog| then 0
    else
      match prog[pc]
      case LoadByteAbs(k) => if k < |packet| then Run(prog, packet, pc + 1, packet[k], x) else 0
      case LoadByteInd(k) =>
        var i := (x + k) % 0x1_0000_0000;
        if i < |packet| then Run(prog, packet, pc + 1, packet[i], x) else 0
      case And(k) => Run(prog, packet, pc + 1, BitAnd(a, k), x)
      case Mul(k) => Run(prog, packet, pc + 1, MulWrap(a, k), x)
      case Tax => Run(prog, packet, pc + 1, a, a)
      case JumpIfEqual(k, t, f) => Run(prog, packet, pc + 1 + (if a == k then t else f) as int, a, x)
      case Return(k) => k
  }

  function MulWrap(a: uint32, k: uint32): uint32 {
    (a as int * k as int) % 0x1_0000_0000
  }

  function Keep(prog: Program, packet: seq<byte>): uint32 { Run(prog, packet, 0, 0, 0) }

  const IPV4_FILTER: Program := [
    LoadByteAbs(0),
    And(0x0f),
    Mul(4),
    Tax,
    LoadByteInd(0),
    JumpIfEqual(0, 0, 1),
    Return(0xffff),
    Return(0)
  ]

  const IPV6_FILTER: Program := [
    LoadByteAbs(0),
    JumpIfEqual(129, 0, 1),
    Return(0xffff),
    Return(0)
  ]

  function Filter(f: Family): Program { if f == Inet then IPV4_FILTER else IPV6_FILTER }

  function Pow2(n: nat): (r: nat)
    ensures r > 0
  {
    if n == 0 then 1 else 2 * Pow2(n - 1)
  }

  lemma ModDouble(a: nat, m: nat)
    requires m > 0
    ensures a % (2 * m) == 2 * ((a / 2) % m) + a % 2
  {
    var q, r := (a / 2) / m, (a / 2) % m;
    var low := 2 * r + a % 2;
    assert a / 2 == q * m + r;
    assert a == q * (2 * m) + low;
    DivMod(a, 2 * m, q, low);
  }

  /** Masking with n low one bits is reduction modulo 2^n. */
  lemma {:induction false} LowBits(a: nat, n: nat)
    ensures BitAnd(a, Pow2(n) - 1) == a % Pow2(n)
    decreases n
  {
    if n > 0 {
      var m := Pow2(n - 1);
      LowBits(a / 2, n - 1);
      ModDouble(a, m);
      assert (2 * m - 1) / 2 == m - 1 && (2 * m - 1) % 2 == 1;
    }
  }

  lemma LowNibble(a: nat)
    ensures BitAnd(a, 0x0f) == a % 0x10
  {
    LowBits(a, 4);
    assert Pow2(4) == 0x10;
  }

  /** Exactly what the IPv4 filter lets through: the byte behind the IP header, wherever the
      length nibble puts it, exists and is an echo reply type. */
  lemma Ipv4FilterAccepts(packet: seq<byte>)
    ensures Keep(IPV4_FILTER, packet) ==
      if |packet| > 0 && 4 * (packet[0] % 0x10) as int < |packet| && packet[4 * (packet[0] % 0x10) as int] == 0
      then 0xffff else 0
  {
    if |packet| > 0 {
      var a := packet[0];
      var x: uint32 := 4 * (a % 0x10) as int;
      Ipv4FilterHead(packet, a, x);
      if x < |packet| {
        Ipv4FilterTail(packet, packet[x], x);
      } else {
        assert Run(IPV4_FILTER, packet, 4, x, x) == 0;
      }
    }
  }

  lemma Ipv4FilterHead(packet: seq<byte>, a: byte, x: uint32)
    requires |packet| > 0 && packet[0] == a && x == 4 * (a % 0x10) as int
    ensures Keep(IPV4_FILTER, packet) == Run(IPV4_FILTER, packet, 4, x, x)
  {
    var n: uint32 := BitAnd(a, 0x0f);
    LowNibble(a);
    assert Keep(IPV4_FILTER, packet) == Run(IPV4_FILTER, packet, 1, a, 0);
    assert Run(IPV4_FILTER, packet, 1, a, 0) == Run(IPV4_FILTER, packet, 2, n, 0);
    Ipv4FilterScale(packet, n, x);
  }

  lemma Ipv4FilterScale(packet: seq<byte>, n: uint32, x: uint32)
    requires n < 0x10 && x == 4 * n as int
    ensures Run(IPV4_FILTER, packet, 2, n, 0) == Run(IPV4_FILTER, packet, 4, x, x)
  {
    assert MulWrap(n, 4) == x;
    assert Run(IPV4_FILTER, packet, 2, n, 0) == Run(IPV4_FILTER, packet, 3, x, 0);
    assert Run(IPV4_FILTER, packet, 3, x, 0) == Run(IPV4_FILTER, packet, 4, x, x);
  }

  lemma Ipv4FilterTail(packet: seq<byte>, kind: byte, x: uint32)
    requires x < |packet| && packet[x] == kind
    ensures Run(IPV4_FILTER, packet, 4, x, x) == if kind == 0 then 0xffff else 0
  {}

  lemma Ipv6FilterAccepts(packet: seq<byte>)
    ensures Keep(IPV6_FILTER, packet) == if |packet| > 0 && packet[0] == 129 then 0xffff else 0
  {}

  /** The filter only saves work: a packet from which the program would accept a reply - even
      after truncation to the receive buffer - is never dropped, and 65535 bytes of it are
      kept, which is more than the receive buffer holds. */
  lemma FilterAgreesWithParser(f: Family, packet: seq<byte>, n: nat, id: uint16, expected: uint16)
    requires n <= |packet|
    requires ParseReply(f, packet[..n], id, expected) == Matched
    ensures Keep(Filter(f), packet) == 0xffff > RECEIVE_BUFFER_SIZE
  {
    if f == Inet { Ipv4FilterAccepts(packet); } else { Ipv6FilterAccepts(packet); }
  }

  /** Conversely a dropped packet would have been ignored anyway. */
  lemma DroppedMeansIgnored(dest: Endpoint, source: Endpoint, packet: seq<byte>, id: uint16, expected: uint16)
    requires Keep(Filter(dest.family), packet) == 0
    ensures Classify(dest, source, packet, id, expected) == Ignored
  {
    var n := Min(|packet|, RECEIVE_BUFFER_SIZE);
    if ParseReply(dest.family, packet[..n], id, expected) == Matched {
      FilterAgreesWithParser(dest.family, packet, n, id, expected);
    }
  }
}
