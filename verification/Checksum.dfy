/** The Internet checksum: libcpe464/checksum.c, and RFC 1071, section 1 and section 2(B). */
module Checksum {
  import opened Bytes

  /** The byte order of the host that runs the code: `in_cksum` reads native 16-bit words. */
  datatype Order = Little | Big

  newtype int32 = x: int | -0x8000_0000 <= x < 0x8000_0000

  type word = x: int | 0 <= x < 0x1_0000

  function Word(o: Order, first: byte, second: byte): (w: word) {
    if o.Little? then first + 256 * second else 256 * first + second
  }

  function FirstByte(o: Order, w: word): byte {
    if o.Little? then w % 256 else w / 256
  }

  function SecondByte(o: Order, w: word): byte {
    if o.Little? then w / 256 else w % 256
  }

  /** The plain sum of the 16-bit words; an odd last byte is padded with a zero byte. */
  function Sum(o: Order, s: seq<byte>): nat {
    if |s| == 0 then 0
    else if |s| == 1 then Word(o, s[0], 0)
    else Word(o, s[0], s[1]) + Sum(o, s[2..])
  }

  /** The one's complement 16-bit representative of a sum: its residue modulo 65535, where 0
      stands only for an all-zero sum. */
  function Residue(sum: nat): (w: word) {
    if sum == 0 then 0 else (sum - 1) % 0xFFFF + 1
  }

  /** The checksum as RFC 1071 describes it: the complement of the one's complement sum. */
  function Cksum(o: Order, s: seq<byte>): (w: word) {
    0xFFFF - Residue(Sum(o, s))
  }

  /** What a receiver asks of a datagram. */
  predicate Verified(o: Order, s: seq<byte>) {
    Cksum(o, s) == 0
  }

  /** The two carry folds at the end of `in_cksum`. */
  function Fold(sum: nat): nat {
    var once := sum / 0x1_0000 + sum % 0x1_0000;
    once + once / 0x1_0000
  }

  /** Two folds are enough for every sum an `int` accumulator can hold. */
  lemma FoldIsResidue(sum: nat)
    requires sum < 0x8000_0000
    ensures Fold(sum) % 0x1_0000 == Residue(sum)
  {
    var high, low := sum / 0x1_0000, sum % 0x1_0000;
    var once := high + low;
    assert sum == 0xFFFF * high + once;
    if sum > 0 {
      var target := if once > 0xFFFF then once - 0xFFFF else once;
      var laps := if once > 0xFFFF then high + 1 else high;
      assert sum - 1 == 0xFFFF * laps + (target - 1);
      SmallRemainder(target - 1, laps, 0xFFFF);
    }
  }

  /** `in_cksum`. The sum stays within a 32-bit `int` for every length up to 65536 bytes, which
      covers any packet; what it returns is the RFC's checksum. */
  method InCksum(host: Order, addr: array<byte>, len: nat) returns (answer: word)
    requires len <= addr.Length && len <= 0x1_0000
    ensures answer == Cksum(host, addr[..len])
  {
    var sum: int32 := 0;
    var w, nleft := 0, len;
    while nleft > 1
      invariant w + nleft == len
      invariant 0 <= 2 * (sum as int) <= 0xFFFF * w
      invariant sum as int + Sum(host, addr[w..len]) == Sum(host, addr[..len])
    {
      assert addr[w..len][2..] == addr[w + 2..len];
      sum := sum + Word(host, addr[w], addr[w + 1]) as int32;
      w, nleft := w + 2, nleft - 2;
    }
    if nleft == 1 {
      sum := sum + Word(host, addr[w], 0) as int32;
    }
    assert sum as int == Sum(host, addr[..len]);
    FoldIsResidue(sum as int);
    sum := sum / 0x1_0000 + sum % 0x1_0000;
    sum := sum + sum / 0x1_0000;
    answer := 0xFFFF - (sum % 0x1_0000) as int;
  }

  // ---- Residues ----

  lemma ResidueIsMaximal(sum: nat)
    ensures Residue(sum) == 0xFFFF <==> sum > 0 && sum % 0xFFFF == 0
  {
    if sum > 0 {
      var q, r := (sum - 1) / 0xFFFF, (sum - 1) % 0xFFFF;
      if r == 0xFFFE {
        assert sum == 0xFFFF * (q + 1) + 0;
        SmallRemainder(0, q + 1, 0xFFFF);
      } else {
        assert sum == 0xFFFF * q + (r + 1);
        SmallRemainder(r + 1, q, 0xFFFF);
      }
    }
  }

  /** A datagram verifies exactly when its words add up to a positive multiple of 65535. */
  lemma VerifiedExactly(o: Order, s: seq<byte>)
    ensures Verified(o, s) <==> Sum(o, s) > 0 && Sum(o, s) % 0xFFFF == 0
  {
    ResidueIsMaximal(Sum(o, s));
  }

  lemma SameResidue(a: nat, b: nat, laps: int)
    requires a - b == 0xFFFF * laps
    requires a == 0 <==> b == 0
    ensures Residue(a) == Residue(b)
  {
    if a > 0 {
      var q, r := (b - 1) / 0xFFFF, (b - 1) % 0xFFFF;
      assert a - 1 == 0xFFFF * (q + laps) + r;
      assert q + laps >= 0;
      SmallRemainder(r, q + laps, 0xFFFF);
    }
  }

  // ---- Byte order ----

  function Swap(w: word): word {
    w % 256 * 256 + w / 256
  }

  lemma {:induction false} SumSwaps(s: seq<byte>) returns (laps: nat)
    ensures 256 * Sum(Big, s) == Sum(Little, s) + 0xFFFF * laps
    ensures Sum(Big, s) == 0 <==> Sum(Little, s) == 0
    decreases |s|
  {
    if |s| == 0 {
      laps := 0;
    } else if |s| == 1 {
      laps := s[0];
    } else {
      var rest := SumSwaps(s[2..]);
      laps := rest + s[0];
    }
  }

  lemma ResidueSwaps(sum: nat)
    ensures Residue(256 * sum) == Swap(Residue(sum))
  {
    if sum > 0 {
      var q, c := (sum - 1) / 0xFFFF, Residue(sum);
      var high, low := c / 256, c % 256;
      assert sum == 0xFFFF * q + c;
      assert 256 * c == 0xFFFF * high + (high + 256 * low);
      assert 256 * sum - 1 == 0xFFFF * (256 * q + high) + (Swap(c) - 1);
      SmallRemainder(Swap(c) - 1, 256 * q + high, 0xFFFF);
    }
  }

  lemma SwapOfComplement(c: word)
    ensures Swap(0xFFFF - c) == 0xFFFF - Swap(c)
  {
    var high, low := c / 256, c % 256;
    assert 0xFFFF - c == 256 * (255 - high) + (255 - low);
  }

  /** RFC 1071, section 2(B): a host of the other byte order computes the swapped checksum,
      for odd lengths too. */
  lemma ByteOrderIndependence(s: seq<byte>)
    ensures Cksum(Little, s) == Swap(Cksum(Big, s))
  {
    var laps := SumSwaps(s);
    SameResidue(256 * Sum(Big, s), Sum(Little, s), laps);
    ResidueSwaps(Sum(Big, s));
    SwapOfComplement(Residue(Sum(Big, s)));
  }

  /** So sender and receiver may run on hosts of different byte order. */
  lemma VerifiedOnEveryHost(o: Order, o': Order, s: seq<byte>)
    ensures Verified(o, s) <==> Verified(o', s)
  {
    ByteOrderIndependence(s);
  }

  // ---- The checksum of a number ----

  lemma {:induction false} SumGrows(o: Order, s: seq<byte>, first: byte, second: byte)
    requires |s| % 2 == 0
    ensures Sum(o, s + [first, second]) == Sum(o, s) + Word(o, first, second)
    decreases |s|
  {
    var t := s + [first, second];
    if |s| == 0 {
      assert t == [first, second] && t[2..] == [];
    } else {
      SumGrows(o, s[2..], first, second);
      assert t[2..] == s[2..] + [first, second];
    }
  }

  /** Modulo 65535 the sum of big-endian words is the whole string read as one number. */
  lemma {:induction false} SumOfNumeral(s: seq<byte>) returns (laps: nat)
    requires |s| % 2 == 0
    ensures Numeral(s) == Sum(Big, s) + 0xFFFF * laps
    ensures Sum(Big, s) == 0 ==> Numeral(s) == 0
    decreases |s|
  {
    laps := 0;
    if s != [] {
      var n := |s| - 2;
      var earlier := SumOfNumeral(s[..n]);
      SumGrows(Big, s[..n], s[n], s[n + 1]);
      assert s == s[..n] + [s[n], s[n + 1]];
      assert s[..n + 1][..n] == s[..n];
      laps := earlier + Numeral(s[..n]);
    }
  }

  /** So a datagram of even length is accepted, on a host of either byte order, exactly when as one big
      number it is a positive multiple of 65535; an odd one as if a zero byte followed. */
  lemma VerifiedAsNumeral(o: Order, s: seq<byte>)
    ensures var padded := if |s| % 2 == 0 then s else s + [0];
      Verified(o, s) <==> Numeral(padded) > 0 && Numeral(padded) % 0xFFFF == 0
  {
    var padded := if |s| % 2 == 0 then s else s + [0];
    VerifiedOnEveryHost(o, Big, s);
    SumOfPadded(Big, s);
    VerifiedExactly(Big, s);
    var laps := SumOfNumeral(padded);
    SameRemainder(Numeral(padded), Sum(Big, padded), laps);
  }

  lemma SameRemainder(a: nat, b: nat, laps: nat)
    requires a == b + 0xFFFF * laps
    ensures a % 0xFFFF == b % 0xFFFF
  {
    SmallRemainder(b % 0xFFFF, b / 0xFFFF + laps, 0xFFFF);
  }

  lemma {:induction false} SumOfPadded(o: Order, s: seq<byte>)
    ensures |s| % 2 == 1 ==> Sum(o, s + [0]) == Sum(o, s)
    decreases |s|
  {
    if |s| == 1 {
      assert (s + [0])[2..] == [];
    } else if |s| % 2 == 1 {
      SumOfPadded(o, s[2..]);
      assert (s + [0])[2..] == s[2..] + [0];
    }
  }

  // ---- Storing the checksum, and damaging a packet ----

  /** The weight of the byte at index `i` in the sum. */
  function Weight(o: Order, i: nat): nat {
    if o.Little? == (i % 2 == 0) then 1 else 256
  }

  lemma {:induction false} SumAfterOneChange(o: Order, s: seq<byte>, i: nat, b: byte)
    requires i < |s|
    ensures Sum(o, s[i := b]) == Sum(o, s) + (b - s[i]) * Weight(o, i)
    decreases |s|
  {
    var t := s[i := b];
    if |s| >= 2 && i >= 2 {
      SumAfterOneChange(o, s[2..], i - 2, b);
      assert Weight(o, i - 2) == Weight(o, i);
      assert t[2..] == s[2..][i - 2 := b];
    } else if |s| >= 2 {
      assert t[2..] == s[2..];
    }
  }

  /** Changing exactly one byte of a verified datagram is always detected. */
  lemma OneByteChangeIsDetected(o: Order, s: seq<byte>, i: nat, b: byte)
    requires Verified(o, s) && i < |s| && b != s[i]
    ensures !Verified(o, s[i := b])
  {
    VerifiedExactly(o, s);
    VerifiedExactly(o, s[i := b]);
    SumAfterOneChange(o, s, i, b);
    var before, after := Sum(o, s), Sum(o, s[i := b]);
    assert 0 < after - before < 0xFFFF || 0 < before - after < 0xFFFF;
    if after % 0xFFFF == 0 {
      SameSlot(before, after, 0xFFFF);
    }
  }

  /** The datagram with checksum `c` stored at index `at` in host order. */
  function WithChecksum(o: Order, s: seq<byte>, at: nat, c: word): (t: seq<byte>)
    requires at + 1 < |s|
    ensures |t| == |s|
  {
    s[at := FirstByte(o, c)][at + 1 := SecondByte(o, c)]
  }

  /** Hosts of different byte order store the same two bytes; on the wire they are the big-endian
      checksum, most significant byte first. */
  lemma StoredBytesAreTheSame(o: Order, s: seq<byte>, at: nat)
    requires at + 1 < |s|
    ensures var t := WithChecksum(o, s, at, Cksum(o, s));
      && t == WithChecksum(Big, s, at, Cksum(Big, s))
      && Numeral(t[at..at + 2]) == Cksum(Big, s)
      && t[..at] == s[..at] && t[at + 2..] == s[at + 2..]
  {
    ByteOrderIndependence(s);
    var c := Cksum(Big, s);
    var t := WithChecksum(Big, s, at, c);
    assert t[at..at + 2] == [c / 256, c % 256];
    assert [c / 256, c % 256][..1] == [c / 256] && [c / 256][..0] == [];
    assert Numeral([c / 256]) == c / 256;
  }

  lemma SumWithItsComplement(sum: nat)
    ensures var total := sum + (0xFFFF - Residue(sum)); total > 0 && total % 0xFFFF == 0
  {
    if sum > 0 {
      var q := (sum - 1) / 0xFFFF;
      SmallRemainder(0, q + 1, 0xFFFF);
    }
  }

  lemma SumWithChecksum(o: Order, s: seq<byte>, at: nat, c: word)
    requires at + 1 < |s| && at % 2 == 0 && s[at] == 0 && s[at + 1] == 0
    ensures Sum(o, WithChecksum(o, s, at, c)) == Sum(o, s) + c
  {
    SumAfterOneChange(o, s, at, FirstByte(o, c));
    SumAfterOneChange(o, s[at := FirstByte(o, c)], at + 1, SecondByte(o, c));
  }

  /** Computing the checksum over a zeroed field and storing it makes the whole datagram verify. */
  lemma StoredChecksumVerifies(o: Order, s: seq<byte>, at: nat)
    requires at + 1 < |s| && at % 2 == 0 && s[at] == 0 && s[at + 1] == 0
    ensures Verified(o, WithChecksum(o, s, at, Cksum(o, s)))
  {
    SumWithChecksum(o, s, at, Cksum(o, s));
    SumWithItsComplement(Sum(o, s));
    VerifiedExactly(o, WithChecksum(o, s, at, Cksum(o, s)));
  }
}
