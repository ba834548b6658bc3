/** The Internet checksum of tests/RAWtcpip.h (RFC 1071).

    Bytes are numbers below 256.  The machine's byte order is a parameter, because the source
    reads words through a `u_short *` and treats the odd byte by `#if BIG_ENDIAN`.  The
    accumulator `sum` is an unsigned 32-bit integer, so its additions are taken modulo 2^32. */
module Checksum {
  import opened Common

  const TWO_TO_32 := 0x1_0000_0000

  /** The longest buffer, in bytes, whose word sum always fits in 32 bits. */
  const LONGEST := 131074

  // ----- specification -----

  /** The 16-bit word a machine of the given byte order loads from two adjacent bytes. */
  function Word(big: bool, b0: Byte, b1: Byte): nat {
    if big then 256 * b0 + b1 else b0 + 256 * b1
  }

  /** What the odd byte at the end contributes. */
  function LeftOver(big: bool, b: Byte): nat {
    if big then 256 * b else b
  }

  /** The sum of all words as an unbounded number. */
  function WordSum(big: bool, s: seq<Byte>): nat {
    if |s| == 0 then 0
    else if |s| == 1 then LeftOver(big, s[0])
    else Word(big, s[0], s[1]) + WordSum(big, s[2..])
  }

  /** One's complement reduction to 16 bits: zero stays zero, any other number becomes its
      representative modulo 65535 among 1..65535. */
  function Reduce(sum: nat): nat {
    if sum == 0 then 0 else 1 + (sum - 1) % 65535
  }

  /** The checksum of a buffer whose word sum is accumulated in 32 bits. */
  function Cksum(big: bool, s: seq<Byte>): nat {
    65535 - Reduce(WordSum(big, s) % TWO_TO_32)
  }

  function Swap16(x: nat): nat {
    256 * (x % 256) + x / 256
  }

  /** Exchanges the two bytes of every word. */
  function SwapBytes(s: seq<Byte>): seq<Byte> {
    if |s| < 2 then s else [s[1], s[0]] + SwapBytes(s[2..])
  }

  /** The buffer with the 16-bit value `c` stored at offset `k` in the machine's byte order. */
  function Store(big: bool, s: seq<Byte>, k: nat, c: nat): (r: seq<Byte>)
    requires k + 2 <= |s| && c < 65536
    ensures |r| == |s| && Word(big, r[k], r[k + 1]) == c
    ensures forall i :: 0 <= i < |s| && i != k && i != k + 1 ==> r[i] == s[i]
  {
    var hi: Byte, lo: Byte := c / 256, c % 256;
    if big then s[k := hi][k + 1 := lo] else s[k := lo][k + 1 := hi]
  }

  // ----- the routine -----

  /** `in_cksum`.  A count that is zero or negative reads nothing. */
  method InCksum(big: bool, addr: array<Byte>, count: int) returns (result: nat, ghost rounds: nat)
    requires count <= addr.Length
    ensures result == Cksum(big, if count < 0 then [] else addr[..count])
    ensures rounds <= 2
  {
    ghost var data := if count < 0 then [] else addr[..count];
    ghost var wraps := 0;
    var sum, left, at := 0, count, 0;
    while left > 1
      invariant 0 <= at && at + left == count && (count >= 0 ==> left >= 0)
      invariant count < 0 ==> at == 0
      invariant 0 <= sum < TWO_TO_32 && at <= |data|
      invariant sum + TWO_TO_32 * wraps + WordSum(big, data[at..]) == WordSum(big, data)
    {
      WordSumSplit(big, data, at);
      var word := Word(big, addr[at], addr[at + 1]);
      wraps := wraps + (sum + word) / TWO_TO_32;
      sum := (sum + word) % TWO_TO_32;
      at, left := at + 2, left - 2;
    }
    if left > 0 {
      wraps := wraps + (sum + LeftOver(big, addr[at])) / TWO_TO_32;
      sum := (sum + LeftOver(big, addr[at])) % TWO_TO_32;
    }
    Wrapped(WordSum(big, data), sum, wraps);
    sum, rounds := Fold(sum);
    result := 65535 - sum % 65536;
  }

  /** The loop that folds a 32-bit sum to 16 bits; it never takes more than two rounds. */
  method Fold(start: nat) returns (sum: nat, ghost rounds: nat)
    requires start < TWO_TO_32
    ensures sum == Reduce(start) && sum < 65536
    ensures rounds <= 2
  {
    sum, rounds := start, 0;
    while sum / 65536 != 0
      invariant sum < TWO_TO_32 && Reduce(sum) == Reduce(start)
      invariant rounds == 1 ==> sum <= 131070
      invariant rounds >= 2 ==> rounds == 2 && sum < 65536
      decreases sum
    {
      FoldKeepsReduction(sum);
      sum := sum % 65536 + sum / 65536;
      rounds := rounds + 1;
    }
  }

  /** Numbers that differ by a multiple of 65535 have the same remainder. */
  lemma SameResidue(x: int, y: int, q: int)
    requires x == y + 65535 * q
    ensures x % 65535 == y % 65535
  {
    var k := x / 65535 - y / 65535 - q;
    assert 65535 * k == y % 65535 - x % 65535;
    assert k == 0;
  }

  lemma WordSumSplit(big: bool, s: seq<Byte>, at: nat)
    requires at + 2 <= |s|
    ensures WordSum(big, s[at..]) == Word(big, s[at], s[at + 1]) + WordSum(big, s[at + 2..])
  {
    assert s[at..][2..] == s[at + 2..];
  }

  lemma Wrapped(x: nat, r: nat, q: int)
    requires x == r + TWO_TO_32 * q && r < TWO_TO_32
    ensures x % TWO_TO_32 == r
  {
    var k := x / TWO_TO_32 - q;
    assert TWO_TO_32 * k == r - x % TWO_TO_32;
    assert k == 0;
  }

  /** A folding round keeps the one's complement value. */
  lemma FoldKeepsReduction(sum: nat)
    requires sum >= 65536
    ensures Reduce(sum % 65536 + sum / 65536) == Reduce(sum)
    ensures sum < TWO_TO_32 ==> sum % 65536 + sum / 65536 <= 131070
    ensures 65536 <= sum <= 131070 ==> sum % 65536 + sum / 65536 < 65536
  {
    var q := sum / 65536;
    SameResidue(sum - 1, sum % 65536 + q - 1, q);
  }

  // ----- range of the accumulator -----

  lemma {:induction false} WordSumAtMost(big: bool, s: seq<Byte>)
    ensures WordSum(big, s) <= 65535 * ((|s| + 1) / 2)
  {
    if |s| >= 2 {
      WordSumAtMost(big, s[2..]);
      assert (|s| + 1) / 2 == 1 + (|s| - 2 + 1) / 2;
    }
  }

  lemma WordSumBound(big: bool, s: seq<Byte>)
    ensures WordSum(big, s) <= 65535 * ((|s| + 1) / 2)
    ensures |s| <= LONGEST ==> WordSum(big, s) < TWO_TO_32
  {
    WordSumAtMost(big, s);
  }

  /** A buffer whose bytes are all 0xFF has at least this word sum. */
  lemma {:induction false} AllOnesSum(big: bool, s: seq<Byte>)
    requires forall i :: 0 <= i < |s| ==> s[i] == 255
    ensures WordSum(big, s) >= 65535 * (|s| / 2) + 255 * (|s| % 2)
  {
    if |s| >= 2 {
      AllOnesSum(big, s[2..]);
    }
  }

  /** The 32-bit accumulator overflows on no buffer of n bytes exactly when n is at most 131074. */
  lemma NoOverflowIff(big: bool, n: nat)
    ensures (forall s: seq<Byte> {:trigger WordSum(big, s)} | |s| == n :: WordSum(big, s) < TWO_TO_32)
       <==> n <= LONGEST
  {
    if n <= LONGEST {
      forall s: seq<Byte> | |s| == n ensures WordSum(big, s) < TWO_TO_32 {
        WordSumBound(big, s);
      }
    } else {
      var worst: seq<Byte> := seq(n, _ => 255);
      AllOnesSum(big, worst);
      assert |worst| == n && WordSum(big, worst) >= TWO_TO_32;
    }
  }

  /** On every buffer within range the routine returns the one's complement of the exact sum. */
  lemma CksumExact(big: bool, s: seq<Byte>)
    requires |s| <= LONGEST
    ensures Cksum(big, s) == 65535 - Reduce(WordSum(big, s))
  {
    WordSumBound(big, s);
  }

  /** Dropping `q` times 2^32 from a sum keeps its reduction exactly when q is a multiple of 65535 and
      the sum does not become zero by it. */
  lemma WrapKeepsReductionIff(w: nat, q: nat)
    requires w < TWO_TO_32
    ensures Reduce(w) == Reduce(q * TWO_TO_32 + w) <==> q % 65535 == 0 && (w > 0 || q == 0)
  {
    if w > 0 {
      var sum := q * TWO_TO_32 + w;
      assert sum - 1 == (w - 1 + q) + 65535 * (65537 * q);
      SameResidue(sum - 1, w - 1 + q, 65537 * q);
      assert Reduce(sum) == 1 + (w - 1 + q) % 65535;
      if q % 65535 == 0 {
        SameResidue(w - 1 + q, w - 1, q / 65535);
      }
    }
  }

  /** On any buffer, the result is exact if and only if the accumulator wraps a multiple of 65535 times
      and is not left at zero by wrapping. */
  lemma CksumExactIff(big: bool, s: seq<Byte>)
    ensures Cksum(big, s) == 65535 - Reduce(WordSum(big, s))
       <==> var q, w := WordSum(big, s) / TWO_TO_32, WordSum(big, s) % TWO_TO_32;
            q % 65535 == 0 && (w > 0 || q == 0)
  {
    WrapKeepsReductionIff(WordSum(big, s) % TWO_TO_32, WordSum(big, s) / TWO_TO_32);
  }

  lemma {:induction false} ZerosSum(big: bool, s: seq<Byte>)
    requires forall i :: 0 <= i < |s| ==> s[i] == 0
    ensures WordSum(big, s) == 0
  {
    if |s| >= 2 {
      ZerosSum(big, s[2..]);
    }
  }

  /** The shortest buffer of 0xFF bytes that overflows, and zeros after it, overflow exactly once. */
  lemma OverflowsOnce(big: bool, n: nat) returns (s: seq<Byte>)
    requires n > LONGEST
    ensures |s| == n && WordSum(big, s) / TWO_TO_32 == 1
  {
    var k := if n <= LONGEST + 2 then n else LONGEST + 2;
    var ones: seq<Byte>, zeros: seq<Byte> := seq(k, _ => 255), seq(n - k, _ => 0);
    s := ones + zeros;
    AllOnesSum(big, ones);
    WordSumBound(big, ones);
    ZerosSum(big, zeros);
    if n <= LONGEST + 2 {
      assert s == ones;
    } else {
      WordSumConcat(big, ones, zeros);
    }
  }

  lemma {:induction false} WordSumConcat(big: bool, a: seq<Byte>, b: seq<Byte>)
    requires |a| % 2 == 0
    ensures WordSum(big, a + b) == WordSum(big, a) + WordSum(big, b)
    decreases |a|
  {
    if |a| == 0 {
      assert a + b == b;
    } else {
      assert (a + b)[2..] == a[2..] + b;
      WordSumConcat(big, a[2..], b);
    }
  }

  /** The result is exact on all buffers of n bytes if and only if n is at most 131074. */
  lemma AllExactIff(big: bool, n: nat)
    ensures (forall s: seq<Byte> {:trigger Cksum(big, s)} |
              |s| == n :: Cksum(big, s) == 65535 - Reduce(WordSum(big, s)))
       <==> n <= LONGEST
  {
    if n <= LONGEST {
      forall s: seq<Byte> | |s| == n ensures Cksum(big, s) == 65535 - Reduce(WordSum(big, s)) {
        CksumExact(big, s);
      }
    } else {
      var s := OverflowsOnce(big, n);
      CksumExactIff(big, s);
    }
  }

  /** The numerical example of section 3 of RFC 1071, in both byte orders. */
  lemma RfcExample()
    ensures var s: seq<Byte> := [0x00, 0x01, 0xF2, 0x03, 0xF4, 0xF5, 0xF6, 0xF7];
            && WordSum(true, s) == 0x2DDF0 && Cksum(true, s) == 0xFFFF - 0xDDF2
            && WordSum(false, s) == 0x1F2DC && Cksum(false, s) == 0xFFFF - 0xF2DD
  {
    var s: seq<Byte> := [0x00, 0x01, 0xF2, 0x03, 0xF4, 0xF5, 0xF6, 0xF7];
    assert s[2..] == [0xF2, 0x03, 0xF4, 0xF5, 0xF6, 0xF7] && s[2..][2..] == [0xF4, 0xF5, 0xF6, 0xF7]
        && s[2..][2..][2..] == [0xF6, 0xF7] && s[2..][2..][2..][2..] == [];
  }

  // ----- padding and position -----

  /** An odd buffer has the checksum of the same data padded with one zero byte. */
  lemma {:induction false} OddIsPadded(big: bool, s: seq<Byte>)
    requires |s| % 2 == 1
    ensures WordSum(big, s) == WordSum(big, s + [0])
    ensures Cksum(big, s) == Cksum(big, s + [0])
  {
    if |s| > 1 {
      OddIsPadded(big, s[2..]);
      assert (s + [0])[2..] == s[2..] + [0];
    }
  }

  lemma {:induction false} WordSumStore(big: bool, s: seq<Byte>, k: nat, c: nat)
    requires k % 2 == 0 && k + 2 <= |s| && c < 65536
    ensures WordSum(big, Store(big, s, k, c)) == WordSum(big, s) - Word(big, s[k], s[k + 1]) + c
  {
    var r := Store(big, s, k, c);
    if k == 0 {
      assert r[2..] == s[2..];
    } else {
      assert r[2..] == Store(big, s[2..], k - 2, c);
      WordSumStore(big, s[2..], k - 2, c);
    }
  }

  /** Adding its complement to an accumulator does not wrap it, and leaves all ones. */
  lemma ComplementFills(w: nat)
    requires w < TWO_TO_32
    ensures w + (65535 - Reduce(w)) < TWO_TO_32 && Reduce(w + (65535 - Reduce(w))) == 65535
  {
    if w > 0 {
      var k := (w - 1) / 65535;
      assert w - Reduce(w) == 65535 * k && k <= 65536;
      SameResidue(65535 * k + 65534, 65534, k);
    }
  }

  /** Storing the checksum into a zeroed field at an even offset makes the whole buffer sum to 0, however
      long the buffer is. */
  lemma SelfVerifying(big: bool, s: seq<Byte>, k: nat)
    requires k % 2 == 0 && k + 2 <= |s|
    requires s[k] == 0 && s[k + 1] == 0
    ensures Cksum(big, s) < 65536
    ensures Cksum(big, Store(big, s, k, Cksum(big, s))) == 0
  {
    var c, sum := Cksum(big, s), WordSum(big, s);
    var w := sum % TWO_TO_32;
    ComplementFills(w);
    WordSumStore(big, s, k, c);
    Wrapped(sum + c, w + c, sum / TWO_TO_32);
  }

  // ----- byte order -----

  /** The sum of the high bytes of all words. */
  function HighSum(big: bool, s: seq<Byte>): nat {
    if |s| == 0 then 0
    else if |s| == 1 then (if big then s[0] else 0)
    else (if big then s[0] else s[1]) + HighSum(big, s[2..])
  }

  /** Up to multiples of 65535, loading in the other byte order multiplies the sum by 256. */
  lemma {:induction false} OtherOrderSum(big: bool, s: seq<Byte>)
    ensures 256 * WordSum(big, s) == WordSum(!big, s) + 65535 * HighSum(big, s)
    ensures WordSum(big, s) == 0 <==> WordSum(!big, s) == 0
  {
    if |s| >= 2 {
      OtherOrderSum(big, s[2..]);
      var word, other := Word(big, s[0], s[1]), Word(!big, s[0], s[1]);
      assert 256 * word == other + 65535 * (if big then s[0] else s[1]);
      assert WordSum(!big, s) == other + WordSum(!big, s[2..]);
    }
  }

  /** The reduction of a positive number is its representative, and swapping multiplies it by 256, up to
      multiples of 65535. */
  lemma SwappedResidue(w: nat) returns (k: nat)
    requires w > 0
    ensures var r := Reduce(w);
            && 1 <= r <= 65535 && 1 <= Swap16(r) <= 65535
            && w == 65535 * k + r && 256 * r == Swap16(r) + 65535 * (r / 256)
  {
    k := (w - 1) / 65535;
  }

  lemma CongruentIff(x: int, y: int)
    ensures x % 65535 == y % 65535 <==> (x - y) % 65535 == 0
  {
    assert x - y == x % 65535 - y % 65535 + 65535 * (x / 65535 - y / 65535);
    SameResidue(x - y, x % 65535 - y % 65535, x / 65535 - y / 65535);
  }

  /** Of numbers between 1 and 65535, those are equal whose difference is a multiple of 65535. */
  lemma EqualIff(t: int, r: int, d: int, m: int)
    requires 1 <= t <= 65535 && 1 <= r <= 65535 && t - r == d + 65535 * m
    ensures t == r <==> d % 65535 == 0
  {
    if t == r {
      SameResidue(d, 0, -m);
    }
    if d % 65535 == 0 {
      assert t - r == 65535 * (d / 65535 + m);
    }
  }

  /** Wrapping `p` and `q` times keeps two sums in the relation of the two byte orders exactly when p
      and q are in it themselves. */
  lemma WrappedSwap(v: nat, p: nat, w: nat, q: nat, high: int)
    requires 0 < v < TWO_TO_32 && 0 < w < TWO_TO_32
    requires 256 * (p * TWO_TO_32 + v) == q * TWO_TO_32 + w + 65535 * high
    ensures Reduce(w) == Swap16(Reduce(v)) <==> 256 * p % 65535 == q % 65535
  {
    var i := SwappedResidue(v);
    var j := SwappedResidue(w);
    var m: int := high + j - 256 * i - Reduce(v) / 256 + 65537 * (q - 256 * p);
    EqualIff(Swap16(Reduce(v)), Reduce(w), q - 256 * p, m);
    CongruentIff(q, 256 * p);
  }

  lemma WrappedToZero(p: nat, q: nat, high: int)
    requires 256 * (p * TWO_TO_32) == q * TWO_TO_32 + 65535 * high
    ensures 256 * p % 65535 == q % 65535
  {
    SameResidue(256 * p, q, high - 65537 * (256 * p - q));
  }

  /** The same where an accumulator may be left at zero. */
  lemma WrappedSwapIff(v: nat, p: nat, w: nat, q: nat, high: int)
    requires v < TWO_TO_32 && w < TWO_TO_32
    requires 256 * (p * TWO_TO_32 + v) == q * TWO_TO_32 + w + 65535 * high
    ensures Reduce(w) == Swap16(Reduce(v)) <==> (v == 0 <==> w == 0) && 256 * p % 65535 == q % 65535
  {
    if v > 0 && w > 0 {
      WrappedSwap(v, p, w, q, high);
    } else if v > 0 {
      var _ := SwappedResidue(v);
    } else if w == 0 {
      WrappedToZero(p, q, high);
    }
  }

  lemma Swap16Complement(r: nat)
    requires r <= 65535
    ensures Swap16(65535 - r) == 65535 - Swap16(r)
  {
    var hi, lo := r / 256, r % 256;
    assert 65535 - r == 256 * (255 - hi) + (255 - lo);
  }

  /** The accumulators of both byte orders wrap alike: both to zero or neither, and as often, up to the
      factor between the orders. */
  predicate WrapAlike(big: bool, s: seq<Byte>) {
    var a, b := WordSum(big, s), WordSum(!big, s);
    && (a % TWO_TO_32 == 0 <==> b % TWO_TO_32 == 0)
    && 256 * (a / TWO_TO_32) % 65535 == (b / TWO_TO_32) % 65535
  }

  /** A machine of the other byte order computes the byte-swapped checksum of the same bytes if and only
      if the accumulators wrap alike, as they do within the range without overflow. */
  lemma ByteOrderIndependentIff(big: bool, s: seq<Byte>)
    ensures Cksum(!big, s) == Swap16(Cksum(big, s)) <==> WrapAlike(big, s)
    ensures |s| <= LONGEST ==> WrapAlike(big, s)
  {
    var a, b := WordSum(big, s), WordSum(!big, s);
    OtherOrderSum(big, s);
    Swap16Complement(Reduce(a % TWO_TO_32));
    WrappedSwapIff(a % TWO_TO_32, a / TWO_TO_32, b % TWO_TO_32, b / TWO_TO_32, HighSum(big, s));
    InRangeWrapsAlike(big, s);
  }

  lemma InRangeWrapsAlike(big: bool, s: seq<Byte>)
    ensures |s| <= LONGEST ==> WrapAlike(big, s)
  {
    OtherOrderSum(big, s);
    WordSumBound(big, s);
    WordSumBound(!big, s);
  }

  lemma {:induction false} SwappedSum(big: bool, s: seq<Byte>)
    requires |s| % 2 == 0
    ensures |SwapBytes(s)| == |s| && WordSum(big, SwapBytes(s)) == WordSum(!big, s)
  {
    if |s| >= 2 {
      SwappedSum(big, s[2..]);
      assert SwapBytes(s)[2..] == SwapBytes(s[2..]);
    }
  }

  /** Swapping the bytes of every word of an even buffer swaps the bytes of its checksum if and only if
      the accumulators of both orders wrap alike. */
  lemma SwappedDataSwapsChecksumIff(big: bool, s: seq<Byte>)
    requires |s| % 2 == 0
    ensures Cksum(big, SwapBytes(s)) == Swap16(Cksum(big, s)) <==> WrapAlike(big, s)
    ensures |s| <= LONGEST ==> WrapAlike(big, s)
  {
    SwappedSum(big, s);
    ByteOrderIndependentIff(big, s);
  }
}
