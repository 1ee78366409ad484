/** The one's-complement Internet checksum of RFC 1071, as `calculate_checksum` computes it. */
module Checksum {
  import opened Machine

  function WordLE(low: byte, high: byte): uint16 { low as int + 0x100 * high as int }

  function WordBE(high: byte, low: byte): uint16 { WordLE(low, high) }

  /** Sum of the 16-bit little-endian words; an odd trailing byte counts as a low byte. */
  function WordSum(b: seq<byte>): nat {
    if |b| == 0 then 0
    else if |b| == 1 then b[0]
    else WordLE(b[0], b[1]) + WordSum(b[2..])
  }

  /** Sum of the 16-bit big-endian words of an even-length buffer. */
  function WordSumBE(b: seq<byte>): nat {
    if |b| < 2 then 0
    else WordBE(b[0], b[1]) + WordSumBE(b[2..])
  }

  /** The end-around carry loop. */
  function Fold(x: nat): (r: nat)
    ensures r < 0x1_0000
  {
    if x < 0x1_0000 then x else Fold(x % 0x1_0000 + x / 0x1_0000)
  }

  function Complement(x: nat): uint16 requires x < 0x1_0000 { 0xFFFF - x }

  /** The C function on a little-endian host, including its 32-bit accumulator. */
  function Value(b: seq<byte>): uint16 {
    Complement(Fold(WordSum(b) % 0x1_0000_0000))
  }

  /** Folding keeps the value modulo 65535, and only a zero sum folds to zero. */
  lemma {:induction false} FoldCongruent(x: nat)
    ensures Fold(x) <= 0xFFFF
    ensures Fold(x) % 0xFFFF == x % 0xFFFF
    ensures Fold(x) == 0 <==> x == 0
  {
    if x >= 0x1_0000 {
      var q, r := x / 0x1_0000, x % 0x1_0000;
      FoldCongruent(r + q);
      assert x == (r + q) + 0xFFFF * q;
      AddMultiple(r + q, q);
    }
  }

  lemma AddMultiple(a: nat, q: nat)
    ensures (a + 0xFFFF * q) % 0xFFFF == a % 0xFFFF
  {}

  /** A 16-bit value is determined by its residue modulo 65535 and whether it is zero. */
  lemma ResidueDetermines(a: nat, b: nat)
    requires a <= 0xFFFF && b <= 0xFFFF
    requires a % 0xFFFF == b % 0xFFFF
    requires a == 0 <==> b == 0
    ensures a == b
  {}

  /** Up to 65537 words the 32-bit accumulator does not wrap. */
  lemma {:induction false} NoOverflow(b: seq<byte>)
    ensures WordSum(b) <= 0xFFFF * ((|b| + 1) / 2)
    ensures |b| <= 2 * 65537 ==> WordSum(b) % 0x1_0000_0000 == WordSum(b)
    decreases |b|
  {
    if |b| >= 2 {
      NoOverflow(b[2..]);
      assert (|b| + 1) / 2 == (|b[2..]| + 1) / 2 + 1;
    }
  }

  /** An odd buffer sums like the one padded with a zero byte (section 4.1 of RFC 1071). */
  lemma {:induction false} OddTailIsPadded(b: seq<byte>)
    requires |b| % 2 == 1
    ensures WordSum(b) == WordSum(b + [0])
    decreases |b|
  {
    var padded := b + [0];
    if |b| == 1 {
      assert padded[2..] == [];
    } else {
      assert padded[2..] == b[2..] + [0];
      OddTailIsPadded(b[2..]);
    }
  }

  /** The worked example in section 3 of RFC 1071. */
  lemma StandardExample(b: seq<byte>)
    requires b == [0x00, 0x01, 0xf2, 0x03, 0xf4, 0xf5, 0xf6, 0xf7]
    ensures Fold(WordSumBE(b)) == 0xddf2
    ensures StoreLE([0, 0], 0, Value(b)) == [0x22, 0x0d]
  {
    SumOfFour(0x00, 0x01, 0xf2, 0x03, 0xf4, 0xf5, 0xf6, 0xf7);
    FoldOnce(0x2ddf0, 2, 0xddf0);
    FoldOnce(0x1f2dc, 1, 0xf2dc);
    assert Value(b) == 0x0d22;
  }

  lemma FoldOnce(x: nat, high: nat, low: nat)
    requires x == high * 0x1_0000 + low && 0 < high && low < 0x1_0000 && low + high < 0x1_0000
    ensures Fold(x) == low + high
  {}

  lemma SumOfFour(a: byte, b: byte, c: byte, d: byte, e: byte, f: byte, g: byte, h: byte)
    ensures WordSum([a, b, c, d, e, f, g, h]) == WordLE(a, b) + WordLE(c, d) + WordLE(e, f) + WordLE(g, h)
    ensures WordSumBE([a, b, c, d, e, f, g, h]) == WordBE(a, b) + WordBE(c, d) + WordBE(e, f) + WordBE(g, h)
  {
    assert [a, b, c, d, e, f, g, h][2..] == [c, d, e, f, g, h];
    assert [c, d, e, f, g, h][2..] == [e, f, g, h];
    assert [e, f, g, h][2..] == [g, h];
    assert [g, h][2..] == [];
    assert WordSum([g, h]) == WordLE(g, h) && WordSumBE([g, h]) == WordBE(g, h);
    assert WordSum([e, f, g, h]) == WordLE(e, f) + WordSum([g, h]) && WordSumBE([e, f, g, h]) == WordBE(e, f) + WordSumBE([g, h]);
  }

  /** `b` with the two bytes of the word `v` stored low byte first at offset `k`. */
  function StoreLE(b: seq<byte>, k: nat, v: uint16): (r: seq<byte>)
    requires k + 1 < |b|
  {
    b[k := v % 0x100][k + 1 := v / 0x100]
  }

  function StoreBE(b: seq<byte>, k: nat, v: uint16): (r: seq<byte>)
    requires k + 1 < |b|
  {
    b[k := v / 0x100][k + 1 := v % 0x100]
  }

  lemma {:induction false} StoreAddsWord(b: seq<byte>, k: nat, v: uint16)
    requires k % 2 == 0 && k + 1 < |b| && b[k] == 0 && b[k + 1] == 0
    ensures WordSum(StoreLE(b, k, v)) == WordSum(b) + v
    decreases k
  {
    var c := StoreLE(b, k, v);
    if k == 0 {
      assert c[2..] == b[2..];
    } else {
      assert c[2..] == StoreLE(b[2..], k - 2, v);
      StoreAddsWord(b[2..], k - 2, v);
    }
  }

  /** Self-verification: storing the checksum in a zeroed, even-offset field makes the
      checksum of the whole buffer zero. */
  lemma SelfVerifies(b: seq<byte>, k: nat)
    requires k % 2 == 0 && k + 1 < |b| <= 2 * 65537 && b[k] == 0 && b[k + 1] == 0
    ensures Value(StoreLE(b, k, Value(b))) == 0
  {
    StoreAddsWord(b, k, Value(b));
    NoOverflow(b);
    NoOverflow(StoreLE(b, k, Value(b)));
    FoldOfComplemented(WordSum(b));
  }

  lemma FoldOfComplemented(sum: nat)
    ensures Fold(sum + Complement(Fold(sum))) == 0xFFFF
  {
    var f := Fold(sum);
    var total := sum + (0xFFFF - f);
    FoldCongruent(sum);
    FoldCongruent(total);
    ComplementCancels(f, sum);
    ResidueDetermines(Fold(total), 0xFFFF);
  }

  lemma ComplementCancels(f: nat, sum: nat)
    requires f <= 0xFFFF && f % 0xFFFF == sum % 0xFFFF
    ensures (sum + (0xFFFF - f)) % 0xFFFF == 0
  {
    SameResidue(f, sum);
    var q := (sum - f) / 0xFFFF;
    assert sum + (0xFFFF - f) == 0xFFFF * (q + 1);
  }

  /** Congruent numbers differ by a multiple of 65535. */
  lemma SameResidue(a: nat, b: nat)
    requires a % 0xFFFF == b % 0xFFFF
    ensures (b - a) % 0xFFFF == 0 && b - a == 0xFFFF * ((b - a) / 0xFFFF)
  {
    assert b - a == 0xFFFF * (b / 0xFFFF - a / 0xFFFF);
  }

  /** The converse: the stored word is the only one that verifies, up to the two
      representations of zero in one's-complement arithmetic. */
  lemma OnlyChecksumVerifies(b: seq<byte>, k: nat, v: uint16)
    requires k % 2 == 0 && k + 1 < |b| <= 2 * 65537 && b[k] == 0 && b[k + 1] == 0
    ensures Value(StoreLE(b, k, v)) == 0 <==> v % 0xFFFF == Value(b) % 0xFFFF && WordSum(b) + v > 0
  {
    StoreAddsWord(b, k, v);
    NoOverflow(b);
    NoOverflow(StoreLE(b, k, v));
    FoldIsMaximal(WordSum(b), v);
  }

  lemma FoldIsMaximal(sum: nat, v: uint16)
    ensures Fold(sum + v) == 0xFFFF <==> v % 0xFFFF == Complement(Fold(sum)) % 0xFFFF && sum + v > 0
  {
    var f := Fold(sum);
    FoldCongruent(sum);
    FoldCongruent(sum + v);
    SameResidue(f, sum);
    AddMultipleInt(f + v, (sum - f) / 0xFFFF);
    assert (sum + v) % 0xFFFF == (f + v) % 0xFFFF;
    Opposites(f, v);
    MaximalResidue(Fold(sum + v));
  }

  lemma Opposites(f: nat, v: nat)
    requires f <= 0xFFFF && v <= 0xFFFF
    ensures (f + v) % 0xFFFF == 0 <==> v % 0xFFFF == (0xFFFF - f) % 0xFFFF
  {}

  lemma MaximalResidue(a: nat)
    requires a <= 0xFFFF
    ensures a == 0xFFFF <==> a % 0xFFFF == 0 && a > 0
  {}

  lemma AddMultipleInt(a: nat, q: int)
    ensures (a + 0xFFFF * q) % 0xFFFF == a % 0xFFFF
  {}

  function Swap(v: uint16): uint16 { 0x100 * (v % 0x100) + v / 0x100 }

  /** Swapping the bytes of a word multiplies it by 256 modulo 65535. */
  lemma SwapIsTimes256(v: uint16)
    ensures Swap(v) % 0xFFFF == (0x100 * v) % 0xFFFF
    ensures Swap(v) == 0 <==> v == 0
  {
    var hi := v / 0x100;
    assert 0x100 * v == Swap(v) + 0xFFFF * hi;
    AddMultiple(Swap(v), hi);
  }

  lemma {:induction false} SumsSwap(b: seq<byte>)
    requires |b| % 2 == 0
    ensures WordSumBE(b) % 0xFFFF == (0x100 * WordSum(b)) % 0xFFFF
    ensures WordSumBE(b) == 0 <==> WordSum(b) == 0
    decreases |b|
  {
    if |b| >= 2 {
      SumsSwap(b[2..]);
      var le: nat, be: nat := WordLE(b[0], b[1]), WordBE(b[0], b[1]);
      var rle, rbe := WordSum(b[2..]), WordSumBE(b[2..]);
      assert 0x100 * le == be + 0xFFFF * (b[1] as int);
      AddCongruent(be, rbe, 0x100 * le, 0x100 * rle, b[1]);
    }
  }

  lemma AddCongruent(a: nat, b: nat, c: nat, d: nat, q: nat)
    requires c == a + 0xFFFF * q && b % 0xFFFF == d % 0xFFFF
    ensures (a + b) % 0xFFFF == (c + d) % 0xFFFF
  {
    assert c + d == (a + d) + 0xFFFF * q;
    AddMultiple(a + d, q);
  }

  /** Byte-order independence (section 2(B) of RFC 1071): a big-endian host, summing
      big-endian words and storing its native word, writes the very same bytes. */
  lemma ByteOrderIndependent(b: seq<byte>, k: nat)
    requires |b| % 2 == 0 && k + 1 < |b|
    requires |b| <= 2 * 65537
    ensures StoreBE(b, k, Complement(Fold(WordSumBE(b)))) == StoreLE(b, k, Value(b))
  {
    NoOverflow(b);
    FoldSwaps(b);
    SwapComplement(Fold(WordSum(b)));
    SwapStores(b, k, Value(b));
  }

  lemma SwapStores(b: seq<byte>, k: nat, v: uint16)
    requires k + 1 < |b|
    ensures StoreBE(b, k, Swap(v)) == StoreLE(b, k, v)
  {}

  lemma FoldSwaps(b: seq<byte>)
    requires |b| % 2 == 0
    ensures Fold(WordSumBE(b)) == Swap(Fold(WordSum(b)))
  {
    var le, be := Fold(WordSum(b)), Fold(WordSumBE(b));
    FoldCongruent(WordSum(b));
    FoldCongruent(WordSumBE(b));
    SumsSwap(b);
    SwapIsTimes256(le);
    TimesCongruent(le, WordSum(b));
    ResidueDetermines(be, Swap(le));
  }

  lemma SwapComplement(v: nat)
    requires v < 0x1_0000
    ensures Complement(Swap(v)) == Swap(Complement(v))
  {}

  lemma TimesCongruent(a: nat, b: nat)
    requires a % 0xFFFF == b % 0xFFFF
    ensures (0x100 * a) % 0xFFFF == (0x100 * b) % 0xFFFF
  {
    var r := a % 0xFFFF;
    var p, q := a / 0xFFFF, b / 0xFFFF;
    assert 0x100 * a == 0x100 * r + 0xFFFF * (0x100 * p);
    assert 0x100 * b == 0x100 * r + 0xFFFF * (0x100 * q);
    AddMultiple(0x100 * r, 0x100 * p);
    AddMultiple(0x100 * r, 0x100 * q);
  }

  lemma WrapAdd(total: nat, word: nat)
    ensures (total % 0x1_0000_0000 + word) % 0x1_0000_0000 == (total + word) % 0x1_0000_0000
  {
    var q := total / 0x1_0000_0000;
    assert total + word == 0x1_0000_0000 * q + (total % 0x1_0000_0000 + word);
  }

  /** The loop of `calculate_checksum` that ends when no carry is left. */
  method FoldCarries(sum: uint32) returns (r: uint16)
    ensures r == Fold(sum)
  {
    var s := sum;
    while s / 0x1_0000 != 0
      invariant Fold(s) == Fold(sum)
      decreases s
    {
      s := s % 0x1_0000 + s / 0x1_0000;
    }
    r := s;
  }

  /** The accumulating loop of `calculate_checksum`, with its odd trailing byte. */
  method SumWords(data: array<byte>, len: nat) returns (sum: uint32)
    requires len <= data.Length
    ensures sum == WordSum(data[..len]) % 0x1_0000_0000
  {
    ghost var b := data[..len];
    ghost var total: nat, words: nat := 0, 0;
    sum := 0;
    var i := 0;
    while i + 1 < len
      invariant i == 2 * words <= len
      invariant total + WordSum(b[i..]) == WordSum(b) && sum == total % 0x1_0000_0000
      decreases len - i
    {
      var word := WordLE(data[i], data[i + 1]);
      assert b[i..][2..] == b[i + 2..];
      WrapAdd(total, word);
      sum := (sum + word) % 0x1_0000_0000;
      total, words := total + word, words + 1;
      i := i + 2;
    }
    if len % 2 == 1 {
      WrapAdd(total, data[len - 1]);
      sum := (sum + data[len - 1]) % 0x1_0000_0000;
    }
  }

  /** `calculate_checksum` over the first `len` bytes of an array. */
  method Calculate(data: array<byte>, len: nat) returns (r: uint16)
    requires len <= data.Length
    ensures r == Value(data[..len])
  {
    var sum := SumWords(data, len);
    var folded := FoldCarries(sum);
    r := Complement(folded);
  }
}
