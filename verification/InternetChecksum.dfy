/**
 The checksums as the standards have them: RFC 1071 over big-endian words, of the header of RFC 791, and of the segments
 of RFC 768 and RFC 793 behind their pseudo-header. The little-endian sums of the code agree with them.
 */
module InternetChecksum {
  import opened Devices
  import opened Checksum

  /** The sum of the 16-bit words of these bytes, most significant byte first, an odd byte padded with zero. */
  function BigSum(s: seq<byte>): nat {
    if s == [] then 0
    else if |s| == 1 then 256 * s[0] as int
    else 256 * s[0] as int + s[1] as int + BigSum(s[2..])
  }

  /** Adds up to all ones, with end-around carries. */
  predicate Verifies(s: seq<byte>) {
    BigSum(s) > 0 && BigSum(s) % 65535 == 0
  }

  /** The twelve bytes of the pseudo-header: both addresses, zero and the protocol, the length of the segment. */
  function PseudoHeader(src: seq<byte>, dst: seq<byte>, protocol: byte, length: nat): seq<byte>
    requires length < 65536
  {
    src + dst + [0, protocol] + [length / 256, length % 256]
  }

  // ---- the order of the bytes does not matter ----

  /** Times 256, modulo 65535, which is swapping the bytes of a word. */
  predicate Swapped(x: nat, y: nat) {
    Multiple65535(256 * x - y) && (x == 0 <==> y == 0)
  }

  predicate Multiple65535(n: int) {
    n % 65535 == 0
  }

  lemma {:induction false} SwapsAdd(x: nat, y: nat, u: nat, v: nat)
    requires Swapped(x, y) && Swapped(u, v)
    ensures Swapped(x + u, y + v)
  {
    hide Multiple65535;
    MultiplesAdd(256 * x - y, 256 * u - v);
    assert 256 * (x + u) - (y + v) == (256 * x - y) + (256 * u - v);
  }

  lemma {:induction false} MultiplesAdd(p: int, q: int)
    requires Multiple65535(p) && Multiple65535(q)
    ensures Multiple65535(p + q)
  {
  }

  lemma {:induction false} WordSwaps(f: byte, s: byte)
    ensures Swapped(Word(f, s), 256 * f as int + s as int)
  {
    assert 256 * Word(f, s) - (256 * f as int + s as int) == 65535 * s as int;
  }

  lemma {:induction false} SumSwaps(b: seq<byte>, off: nat, len: nat)
    requires off + len <= |b|
    ensures Swapped(Sum(b, off, len), BigSum(b[off..off + len]))
    decreases len
  {
    hide Swapped;
    var s := b[off..off + len];
    if len == 0 {
      assert Swapped(0, 0) by { Nothing(); }
    } else if len == 1 {
      WordSwaps(b[off], 0);
    } else {
      WordSwaps(b[off], b[off + 1]);
      SumSwaps(b, off + 2, len - 2);
      assert s[2..] == b[off + 2..off + 2 + (len - 2)];
      SwapsAdd(Word(b[off], b[off + 1]), 256 * b[off] as int + b[off + 1] as int, Sum(b, off + 2, len - 2), BigSum(s[2..]));
    }
  }

  lemma {:induction false} Nothing()
    ensures Swapped(0, 0)
  {
  }

  lemma {:induction false} BigSumThen(a: seq<byte>, b: seq<byte>)
    requires |a| % 2 == 0
    ensures BigSum(a + b) == BigSum(a) + BigSum(b)
    decreases |a|
  {
    if a == [] {
      assert a + b == b;
    } else {
      assert (a + b)[2..] == a[2..] + b;
      BigSumThen(a[2..], b);
    }
  }

  lemma {:induction false} FoldsToOnes(x: nat)
    ensures Fold(x) == 65535 <==> x > 0 && x % 65535 == 0
  {
    FoldIs(x);
    if x > 0 && x % 65535 == 0 { OnlyAllOnes(Fold(x)); }
  }

  /** A little-endian sum folds to all ones exactly if the big-endian sum does. */
  lemma {:induction false} SwappedFolds(x: nat, y: nat)
    requires Swapped(x, y)
    ensures Fold(x) == 65535 <==> y > 0 && y % 65535 == 0
  {
    FoldsToOnes(x);
    var k := (256 * x - y) / 65535;
    assert 256 * x - y == 65535 * k;
    if x % 65535 == 0 {
      var m := x / 65535;
      assert y == 65535 * (256 * m - k);
      Divisible(y, 256 * m - k);
    }
    if y % 65535 == 0 {
      var m := y / 65535;
      assert 256 * x == 65535 * (m + k);
      assert x == 65535 * (256 * (m + k) - x);
      Divisible(x, 256 * (m + k) - x);
    }
  }

  lemma {:induction false} Divisible(x: int, k: int)
    requires x == 65535 * k
    ensures x % 65535 == 0
  {
  }

  // ---- packets ----

  /** The header and the segment of a packet behind the four bytes of the tunnel. */
  function Header(b: seq<byte>): seq<byte>
    requires WellFormed(b)
  {
    b[4..4 + b[4] as int % 16 * 4]
  }

  function Segment(b: seq<byte>): seq<byte>
    requires WellFormed(b) && HasSegment(b)
  {
    b[4 + HeaderLength(b)..4 + HeaderLength(b) + SegmentLength(b)]
  }

  lemma {:induction false} HeaderIsStandard(b: seq<byte>)
    requires WellFormed(b)
    ensures HeaderChecks(b) <==> Verifies(Header(b))
  {
    var len := HeaderLength(b);
    SumSwaps(b, 4, len);
    SwappedFolds(Sum(b, 4, len), BigSum(Header(b)));
  }

  lemma {:induction false} TwoBytes(a: byte, c: byte)
    ensures BigSum([a, c]) == 256 * a as int + c as int
  {
    assert [a, c][2..] == [];
  }

  lemma {:induction false} PseudoAdds(s: seq<byte>, d: seq<byte>, protocol: byte, length: nat)
    requires |s| == |d| == 4 && length < 65536
    ensures BigSum(PseudoHeader(s, d, protocol, length))
         == BigSum(s) + BigSum(d) + (256 * 0 + protocol as int) + (256 * (length / 256) + length % 256)
  {
    hide BigSum;
    var p, l: seq<byte> := [0, protocol], [length / 256, length % 256];
    BigSumThen(s + d + p, l);
    BigSumThen(s + d, p);
    BigSumThen(s, d);
    TwoBytes(0, protocol);
    TwoBytes(length / 256, length % 256);
  }

  lemma {:induction false} HtonsIs(x: nat, high: byte, low: byte)
    requires x == 256 * high as int + low as int
    ensures Htons(x % 65536) == Htons(x) == Word(high, low)
  {
  }

  lemma {:induction false} PseudoSwaps(b: seq<byte>, src: nat, dst: nat, protocol: byte, length: nat)
    requires src + 4 <= |b| && dst + 4 <= |b| && length < 65536
    ensures Swapped(Pseudo(b, src, dst, protocol, length), BigSum(PseudoHeader(b[src..src + 4], b[dst..dst + 4], protocol, length)))
  {
    hide Swapped, Sum, BigSum, PseudoHeader, Htons, Word;
    var s, d, high, low := b[src..src + 4], b[dst..dst + 4], length / 256, length % 256;
    SumSwaps(b, src, 4);
    SumSwaps(b, dst, 4);
    WordSwaps(0, protocol);
    WordSwaps(high, low);
    HtonsIs(protocol, 0, protocol);
    HtonsIs(length, high, low);
    PseudoAdds(s, d, protocol, length);
    SwapsAdd(Sum(b, src, 4), BigSum(s), Sum(b, dst, 4), BigSum(d));
    SwapsAdd(Sum(b, src, 4) + Sum(b, dst, 4), BigSum(s) + BigSum(d), Word(0, protocol), 256 * 0 + protocol as int);
    SwapsAdd(Sum(b, src, 4) + Sum(b, dst, 4) + Word(0, protocol), BigSum(s) + BigSum(d) + (256 * 0 + protocol as int),
             Word(high, low), 256 * high + low);
  }

  /** The segment with its pseudo-header, whose addresses and protocol are where RFC 791 has them. */
  lemma {:induction false} SegmentIsStandard(b: seq<byte>)
    requires WellFormed(b) && HasSegment(b)
    ensures |Segment(b)| < 65536
    ensures SegmentChecks(b) <==> Verifies(PseudoHeader(b[16..20], b[20..24], b[13], |Segment(b)|) + Segment(b))
  {
    hide Swapped, Verifies, Sum, BigSum, Pseudo, Fold;
    var off, len := 4 + HeaderLength(b), SegmentLength(b);
    var header := PseudoHeader(b[16..20], b[20..24], b[13], len);
    SumSwaps(b, off, len);
    PseudoSwaps(b, 16, 20, b[13], len);
    SwapsAdd(Sum(b, off, len), BigSum(Segment(b)), Pseudo(b, 16, 20, b[13], len), BigSum(header));
    SwappedFolds(Sum(b, off, len) + Pseudo(b, 16, 20, b[13], len), BigSum(Segment(b)) + BigSum(header));
    BigSumThen(header, Segment(b));
    VerifiesIs(header + Segment(b));
  }

  lemma {:induction false} VerifiesIs(s: seq<byte>)
    ensures Verifies(s) <==> BigSum(s) > 0 && BigSum(s) % 65535 == 0
  {
  }
}
