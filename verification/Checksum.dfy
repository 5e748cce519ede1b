/**
 The checksums of a tunnelled packet: one's-complement sums over little-endian words, written in place.
 */
module Checksum {
  import opened Devices

  // ---- one's-complement sums ----

  /** The same one's-complement number: equal modulo 65535, and zero only together. */
  ghost predicate Same(x: nat, y: nat) {
    x % 65535 == y % 65535 && (x == 0 <==> y == 0)
  }

  /** Adding the carries until the sum fits into 16 bits. */
  function Fold(sum: nat): (r: nat)
    ensures r < 65536
  {
    if sum < 65536 then sum else Fold(sum % 65536 + sum / 65536)
  }

  lemma {:induction false} CarryIs(sum: nat)
    ensures Same(sum % 65536 + sum / 65536, sum)
  {
    var q, r := sum / 65536, sum % 65536;
    assert sum == 65536 * q + r == 65535 * q + (q + r);
  }

  lemma {:induction false} FoldIs(sum: nat)
    ensures Same(Fold(sum), sum)
  {
    if sum >= 65536 {
      CarryIs(sum);
      FoldIs(sum % 65536 + sum / 65536);
    }
  }

  /** Sums that are the same fold to the same word. */
  lemma {:induction false} FoldSame(x: nat, y: nat)
    requires Same(x, y)
    ensures Fold(x) == Fold(y)
  {
    FoldIs(x);
    FoldIs(y);
    var a, b := Fold(x), Fold(y);
    assert a % 65535 == b % 65535;
  }

  lemma {:induction false} Multiple(x: nat, k: int)
    requires x == 65535 * k
    ensures x % 65535 == 0
  {
  }

  lemma {:induction false} OnlyAllOnes(x: nat)
    requires 0 < x < 65536 && x % 65535 == 0
    ensures x == 65535
  {
  }

  /** A sum and the complement of its folded word add up to all ones. */
  lemma {:induction false} ComplementFolds(sum: nat)
    ensures Fold(sum + (65535 - Fold(sum))) == 65535
  {
    var f := Fold(sum);
    var total := sum + (65535 - f);
    FoldIs(sum);
    FoldIs(total);
    var a, b, r := sum / 65535, f / 65535, f % 65535;
    assert total == 65535 * (a - b + 1) + (r - r);
    Multiple(total, a - b + 1);
    OnlyAllOnes(Fold(total));
  }

  // ---- words of a buffer ----

  /** Two bytes as a little-endian word. */
  function Word(low: byte, high: byte): nat {
    (low as int) + 256 * (high as int)
  }

  /** The sum of the little-endian words of `len` bytes from `off` on; an odd byte counts as the low one. */
  function Sum(b: seq<byte>, off: nat, len: nat): nat
    requires off + len <= |b|
    decreases len
  {
    if len == 0 then 0
    else if len == 1 then b[off] as int
    else Word(b[off], b[off + 1]) + Sum(b, off + 2, len - 2)
  }

  lemma {:induction false} SumBound(b: seq<byte>, off: nat, len: nat)
    requires off + len <= |b|
    ensures 2 * Sum(b, off, len) <= 65535 * (len + 1)
    decreases len
  {
    if len >= 2 { SumBound(b, off + 2, len - 2); }
  }

  /** Only the bytes summed matter. */
  lemma {:induction false} SumUnchanged(b: seq<byte>, c: seq<byte>, off: nat, len: nat)
    requires off + len <= |b| == |c| && forall i | off <= i < off + len :: b[i] == c[i]
    ensures Sum(b, off, len) == Sum(c, off, len)
    decreases len
  {
    if len >= 2 { SumUnchanged(b, c, off + 2, len - 2); }
  }

  /** Writing a word where there was zero adds it to the sum. */
  lemma {:induction false} SumWithWord(b: seq<byte>, c: seq<byte>, off: nat, len: nat, at: nat)
    requires off + len <= |b| == |c| && off <= at && at + 2 <= off + len && (at - off) % 2 == 0
    requires b[at] == 0 && b[at + 1] == 0
    requires forall i | off <= i < off + len && i != at && i != at + 1 :: b[i] == c[i]
    ensures Sum(c, off, len) == Sum(b, off, len) + Word(c[at], c[at + 1])
    decreases len
  {
    if at == off {
      SumUnchanged(b, c, off + 2, len - 2);
    } else {
      SumWithWord(b, c, off + 2, len - 2, at);
    }
  }

  // ---- the loops ----

  /** Adds in 32 bits, where the sum fits. */
  method Add32(x: nat, y: nat) returns (z: nat)
    requires x + y < 0x1_0000_0000
    ensures z == x + y
  {
    z := (x + y) % 0x1_0000_0000;
  }

  /** Adds the carries. */
  method Carries(sum0: nat) returns (sum: nat)
    ensures sum == Fold(sum0)
  {
    sum := sum0;
    while sum / 65536 != 0
      invariant Fold(sum) == Fold(sum0)
      decreases sum
    {
      sum := sum % 65536 + sum / 65536;
    }
  }

  /** The checksum of a header: the carries are added now and then in the middle of the loop, which changes nothing. */
  method IpChecksum(b: array<byte>, off: nat, len0: nat) returns (check: nat)
    requires off + len0 <= b.Length && len0 <= 0x10000
    ensures check == 65535 - Fold(Sum(b[..], off, len0))
  {
    var sum: nat, len: nat, at: nat := 0, len0, off;
    ghost var total := Sum(b[..], off, len0);
    SumBound(b[..], off, len0);
    while len > 1
      invariant 0 <= len && at + len == off + len0 && off <= at
      invariant Same(sum + Sum(b[..], at, len), total) && sum + Sum(b[..], at, len) <= total
      invariant sum < 0x1_0000_0000
    {
      assert Sum(b[..], at, len) == Word(b[at], b[at + 1]) + Sum(b[..], at + 2, len - 2);
      sum := Add32(sum, Word(b[at], b[at + 1]));
      if sum / 0x800 % 2 == 1 {
        sum := CarryOnce(sum, Sum(b[..], at + 2, len - 2));
      }
      at, len := at + 2, len - 2;
    }
    if len % 2 == 1 { sum := sum + (b[at] as int); }
    FoldSame(sum, total);
    sum := Carries(sum);
    check := 65535 - sum;
  }

  method CarryOnce(sum0: nat, ghost rest: nat) returns (sum: nat)
    ensures Same(sum + rest, sum0 + rest) && sum <= sum0
  {
    ghost var q, r := sum0 / 65536, sum0 % 65536;
    assert sum0 + rest == 65535 * q + (q + r + rest);
    sum := sum0 % 65536 + sum0 / 65536;
  }

  /** The bytes of a word the other way round. */
  function Htons(x: nat): nat {
    x % 256 * 256 + x / 256 % 256
  }

  /** The words of the pseudo-header. */
  function Pseudo(b: seq<byte>, src: nat, dst: nat, protocol: nat, len: nat): nat
    requires src + 4 <= |b| && dst + 4 <= |b|
  {
    Sum(b, src, 4) + Sum(b, dst, 4) + Htons(protocol) + Htons(len % 65536)
  }

  method SumWords(b: array<byte>, off: nat, len0: nat) returns (sum: nat)
    requires off + len0 <= b.Length && len0 < 0x10000
    ensures sum == Sum(b[..], off, len0)
  {
    var len: nat, at: nat := len0, off;
    sum := 0;
    ghost var total := Sum(b[..], off, len0);
    SumBound(b[..], off, len0);
    while len > 1
      invariant 0 <= len && at + len == off + len0 && off <= at
      invariant sum + Sum(b[..], at, len) == total
    {
      assert Sum(b[..], at, len) == Word(b[at], b[at + 1]) + Sum(b[..], at + 2, len - 2);
      sum := Add32(sum, Word(b[at], b[at + 1]));
      at, len := at + 2, len - 2;
    }
    if len % 2 == 1 { sum := sum + (b[at] as int); }
  }

  method AddAddress(sum0: nat, b: array<byte>, at: nat) returns (sum: nat)
    requires at + 4 <= b.Length && sum0 < 0xFF00_0000
    ensures sum == sum0 + Sum(b[..], at, 4) && sum <= sum0 + 131070
  {
    TwoWords(b[..], at);
    sum := Add32(sum0, Word(b[at], b[at + 1]));
    sum := Add32(sum, Word(b[at + 2], b[at + 3]));
  }

  /** The checksum of a segment with its pseudo-header. */
  method UdpTcpChecksum(b: array<byte>, off: nat, len: nat, src: nat, dst: nat, protocol: nat) returns (check: nat)
    requires off + len <= b.Length && len < 0x10000 && src + 4 <= b.Length && dst + 4 <= b.Length
    ensures check == 65535 - Fold(Sum(b[..], off, len) + Pseudo(b[..], src, dst, protocol, len))
  {
    SumBound(b[..], off, len);
    var sum := SumWords(b, off, len);
    sum := AddAddress(sum, b, src);
    sum := AddAddress(sum, b, dst);
    sum := Add32(sum, Htons(protocol));
    sum := Add32(sum, Htons(len % 65536));
    sum := Carries(sum);
    check := 65535 - sum;
  }

  lemma {:induction false} TwoWords(b: seq<byte>, at: nat)
    requires at + 4 <= |b|
    ensures Sum(b, at, 4) == Word(b[at], b[at + 1]) + Word(b[at + 2], b[at + 3])
  {
    assert Sum(b, at, 4) == Word(b[at], b[at + 1]) + Sum(b, at + 2, 2);
    assert Sum(b, at + 2, 2) == Word(b[at + 2], b[at + 3]) + Sum(b, at + 4, 0);
  }

  // ---- packets ----

  const IP := 4
  const SRC := 16
  const DST := 20
  const UDP := 17
  const TCP := 6

  /** A word in network order. */
  function Ntohs(b: seq<byte>, at: nat): nat
    requires at + 2 <= |b|
  {
    (b[at] as int) * 256 + (b[at + 1] as int)
  }

  function HeaderLength(b: seq<byte>): nat
    requires |b| > IP
  {
    b[IP] as int % 16 * 4
  }

  function TotalLength(b: seq<byte>): nat
    requires |b| >= IP + 20
  {
    Ntohs(b, IP + 2)
  }

  function Protocol(b: seq<byte>): nat
    requires |b| >= IP + 20
  {
    b[IP + 9] as int
  }

  /** The length of the segment that the checksum covers, and where its checksum is. */
  function SegmentLength(b: seq<byte>): nat
    requires |b| >= IP + 20 && |b| >= IP + HeaderLength(b) + 8
  {
    if Protocol(b) == UDP then Ntohs(b, IP + HeaderLength(b) + 4)
    else if TotalLength(b) >= HeaderLength(b) then TotalLength(b) - HeaderLength(b) else 0
  }

  function CheckPosition(b: seq<byte>): nat
    requires |b| >= IP + 20
  {
    IP + HeaderLength(b) + (if Protocol(b) == UDP then 6 else 16)
  }

  predicate HasSegment(b: seq<byte>)
    requires |b| >= IP + 20
  {
    Protocol(b) == UDP || Protocol(b) == TCP
  }

  /** A whole IPv4 packet, with any options and any payload, odd or even. */
  predicate WellFormed(b: seq<byte>) {
    && |b| >= IP + 20 && HeaderLength(b) >= 20 && HeaderLength(b) <= TotalLength(b) && IP + TotalLength(b) <= |b|
    && (HasSegment(b) ==> |b| >= IP + HeaderLength(b) + 8)
    && (HasSegment(b) ==> SegmentLength(b) >= (if Protocol(b) == UDP then 8 else 20))
    && (HasSegment(b) ==> HeaderLength(b) + SegmentLength(b) <= TotalLength(b))
  }

  /** The header adds up to all ones, and so does the segment with its pseudo-header. */
  predicate HeaderChecks(b: seq<byte>)
    requires |b| >= IP + 20 && |b| >= IP + HeaderLength(b)
  {
    Fold(Sum(b, IP, HeaderLength(b))) == 65535
  }

  predicate SegmentChecks(b: seq<byte>)
    requires WellFormed(b)
  {
    HasSegment(b) ==>
      Fold(Sum(b, IP + HeaderLength(b), SegmentLength(b)) + Pseudo(b, SRC, DST, Protocol(b), SegmentLength(b))) == 65535
  }

  /** The bytes that computing the checksums may change. */
  predicate IsCheck(b: seq<byte>, i: nat)
    requires |b| >= IP + 20
  {
    i == IP + 10 || i == IP + 11 || (HasSegment(b) && (i == CheckPosition(b) || i == CheckPosition(b) + 1))
  }

  method PutWord(b: array<byte>, at: nat, w: nat)
    requires at + 2 <= b.Length && w < 65536
    modifies b
    ensures Word(b[at], b[at + 1]) == w
    ensures forall i | 0 <= i < b.Length && i != at && i != at + 1 :: b[i] == old(b[i])
  {
    b[at], b[at + 1] := w % 256, w / 256;
  }

  /** The header checksum: computed over a zeroed field and then written into it. */
  method CheckHeader(b: array<byte>)
    requires WellFormed(b[..])
    modifies b
    ensures forall i | 0 <= i < b.Length && i != IP + 10 && i != IP + 11 :: b[i] == old(b[i])
    ensures WellFormed(b[..]) && HeaderChecks(b[..])
  {
    ghost var was := b[..];
    var len := b[IP] as int % 16 * 4;
    b[IP + 10], b[IP + 11] := 0, 0;
    ghost var zeroed := b[..];
    assert zeroed[IP] == was[IP];
    var check := IpChecksum(b, IP, len);
    PutWord(b, IP + 10, check);
    ghost var now := b[..];
    SameShape(was, now);
    SumWithWord(zeroed, now, IP, len, IP + 10);
    ComplementFolds(Sum(zeroed, IP, len));
  }

  /** The lengths and the protocol are read from bytes outside the checksum fields. */
  lemma {:induction false} SameShape(b: seq<byte>, c: seq<byte>)
    requires WellFormed(b) && |b| == |c|
    requires forall i | 0 <= i < |b| && !IsCheck(b, i) :: b[i] == c[i]
    ensures WellFormed(c) && HeaderLength(c) == HeaderLength(b) && Protocol(c) == Protocol(b) && TotalLength(c) == TotalLength(b)
    ensures HasSegment(b) ==> SegmentLength(c) == SegmentLength(b) && CheckPosition(c) == CheckPosition(b)
  {
    assert c[IP] == b[IP] && c[IP + 2] == b[IP + 2] && c[IP + 3] == b[IP + 3] && c[IP + 9] == b[IP + 9];
    if HasSegment(b) {
      var at := IP + HeaderLength(b) + 4;
      if Protocol(b) == UDP { assert c[at] == b[at] && c[at + 1] == b[at + 1]; }
    }
  }

  method CheckSegment(b: array<byte>)
    requires WellFormed(b[..]) && HasSegment(b[..])
    modifies b
    ensures forall i | 0 <= i < b.Length && i != old(CheckPosition(b[..])) && i != old(CheckPosition(b[..])) + 1 :: b[i] == old(b[i])
    ensures WellFormed(b[..]) && SegmentChecks(b[..])
  {
    hide Sum, Fold, Pseudo;
    ghost var was := b[..];
    var len := b[IP] as int % 16 * 4;
    var protocol := b[IP + 9] as int;
    var off := IP + len;
    var at := if protocol == UDP then off + 6 else off + 16;
    b[at], b[at + 1] := 0, 0;
    ghost var zeroed := b[..];
    SameShape(was, zeroed);
    var size := if protocol == UDP then (b[off + 4] as int) * 256 + (b[off + 5] as int)
                else (b[IP + 2] as int) * 256 + (b[IP + 3] as int) - len;
    assert size == SegmentLength(zeroed);
    var check := UdpTcpChecksum(b, off, size, SRC, DST, protocol);
    PutWord(b, at, check);
    ghost var now := b[..];
    SameShape(was, now);
    SegmentFolds(zeroed, now, off, size, at, protocol, check);
  }

  lemma {:induction false} SegmentFolds(zeroed: seq<byte>, now: seq<byte>, off: nat, size: nat, at: nat, protocol: nat, check: nat)
    requires |zeroed| == |now| && IP + 20 <= off && off + size <= |now| && off <= at && at + 2 <= off + size && (at - off) % 2 == 0
    requires zeroed[at] == 0 && zeroed[at + 1] == 0 && Word(now[at], now[at + 1]) == check
    requires forall i | 0 <= i < |now| && i != at && i != at + 1 :: now[i] == zeroed[i]
    requires check == 65535 - Fold(Sum(zeroed, off, size) + Pseudo(zeroed, SRC, DST, protocol, size))
    ensures Fold(Sum(now, off, size) + Pseudo(now, SRC, DST, protocol, size)) == 65535
  {
    SumWithWord(zeroed, now, off, size, at);
    SumUnchanged(zeroed, now, SRC, 4);
    SumUnchanged(zeroed, now, DST, 4);
    ComplementFolds(Sum(zeroed, off, size) + Pseudo(zeroed, SRC, DST, protocol, size));
  }

  /** Both checksums: afterwards both sums are all ones, and only the checksum fields have changed. */
  method CalculateChecksums(b: array<byte>)
    requires WellFormed(b[..])
    modifies b
    ensures WellFormed(b[..]) && HeaderChecks(b[..]) && SegmentChecks(b[..])
    ensures forall i | 0 <= i < b.Length && !IsCheck(old(b[..]), i) :: b[i] == old(b[i])
  {
    ghost var was := b[..];
    CheckHeader(b);
    ghost var middle := b[..];
    SameShape(was, middle);
    if b[IP + 9] as int == UDP || b[IP + 9] as int == TCP {
      CheckSegment(b);
      SameShape(middle, b[..]);
      SumUnchanged(middle, b[..], IP, HeaderLength(middle));
    }
  }

  // ---- addresses ----

  /** Rewrites both addresses of a packet for this device to its network; tells whether it was for this device. */
  method Apply(device: Device, b: array<byte>) returns (applied: bool)
    requires b.Length >= IP + 20 && |device.netAddr| <= 4
    modifies b
    ensures applied == (old(HasSegment(b[..])) && old(b[DST + 3]) == device.hostAddr)
    ensures forall i | 0 <= i < b.Length ::
              b[i] == if applied && SRC <= i < SRC + |device.netAddr| then device.netAddr[i - SRC]
                      else if applied && DST <= i < DST + |device.netAddr| then device.netAddr[i - DST]
                      else old(b[i])
  {
    applied := false;
    if b[IP + 9] as int == UDP || b[IP + 9] as int == TCP {
      if b[DST + 3] == device.hostAddr {
        var i := 0;
        while i < |device.netAddr|
          invariant i <= |device.netAddr|
          invariant forall k | 0 <= k < b.Length ::
                      b[k] == if SRC <= k < SRC + i then device.netAddr[k - SRC]
                              else if DST <= k < DST + i then device.netAddr[k - DST]
                              else old(b[k])
        {
          b[SRC + i], b[DST + i] := device.netAddr[i], device.netAddr[i];
          i := i + 1;
        }
        applied := true;
      }
    }
  }

  predicate IsAddress(i: int) {
    SRC <= i < DST + 4
  }

  lemma {:induction false} AddressesKeepShape(b: seq<byte>, c: seq<byte>)
    requires WellFormed(b) && |b| == |c| && forall i | 0 <= i < |b| && !IsAddress(i) :: b[i] == c[i]
    ensures WellFormed(c) && Protocol(c) == Protocol(b) && HeaderLength(c) == HeaderLength(b)
  {
    assert c[IP] == b[IP] && c[IP + 2] == b[IP + 2] && c[IP + 3] == b[IP + 3] && c[IP + 9] == b[IP + 9];
    if HasSegment(b) {
      var at := IP + HeaderLength(b) + 4;
      assert c[at] == b[at] && c[at + 1] == b[at + 1];
    }
  }

  /** A packet that is readdressed and then written to the tunnel: it checks, and only addresses and checksums have changed. */
  method Deliver(device: Device, b: array<byte>) returns (applied: bool)
    requires WellFormed(b[..]) && |device.netAddr| <= 4
    modifies b
    ensures applied == (old(HasSegment(b[..])) && old(b[DST + 3]) == device.hostAddr)
    ensures applied ==> WellFormed(b[..]) && HeaderChecks(b[..]) && SegmentChecks(b[..])
    ensures applied ==> forall i | 0 <= i < b.Length && !IsAddress(i) && !IsCheck(old(b[..]), i) :: b[i] == old(b[i])
    ensures applied ==> forall i | 0 <= i < |device.netAddr| :: b[SRC + i] == b[DST + i] == device.netAddr[i]
    ensures !applied ==> b[..] == old(b[..])
  {
    ghost var was := b[..];
    applied := Apply(device, b);
    if applied {
      ghost var moved := b[..];
      AddressesKeepShape(was, moved);
      CalculateChecksums(b);
      assert forall i | 0 <= i < b.Length && !IsCheck(moved, i) :: b[i] == moved[i];
      assert forall i | 0 <= i < b.Length && !IsAddress(i) :: moved[i] == was[i];
    }
  }
}
