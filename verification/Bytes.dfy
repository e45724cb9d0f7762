/** Bytes, 32-bit integers in network order, and small facts about sequences and remainders. */
module Bytes {

  type byte = x: int | 0 <= x < 256

  const TWO_TO_THE_32 := 0x1_0000_0000

  /** What `htonl` followed by a four-byte `memcpy` leaves in a buffer. */
  function ToNetwork(n: nat): (s: seq<byte>)
    requires n < TWO_TO_THE_32
    ensures |s| == 4
  {
    [n / 256 / 256 / 256, n / 256 / 256 % 256, n / 256 % 256, n % 256]
  }

  /** What a four-byte `memcpy` followed by `ntohl` reads back. */
  function FromNetwork(s: seq<byte>): (n: nat)
    requires |s| == 4
    ensures n < TWO_TO_THE_32
  {
    s[0] as int * 0x100_0000 + s[1] as int * 0x1_0000 + s[2] as int * 256 + s[3]
  }

  lemma NetworkOrderRoundTrip(n: nat)
    requires n < TWO_TO_THE_32
    ensures FromNetwork(ToNetwork(n)) == n
  {
  }

  /** A byte string read as a number in base 256, the first byte the most significant. */
  function Numeral(s: seq<byte>): nat {
    if s == [] then 0 else 256 * Numeral(s[..|s| - 1]) + s[|s| - 1]
  }

  function Power256(k: nat): (p: nat)
    ensures p > 0
  {
    if k == 0 then 1 else 256 * Power256(k - 1)
  }

  lemma NumeralOfFour(s: seq<byte>)
    requires |s| == 4
    ensures Numeral(s[..0]) == 0 && Numeral(s[..1]) == s[0]
    ensures Numeral(s[..2]) == 256 * (s[0] as int) + s[1]
    ensures Numeral(s[..3]) == 0x1_0000 * (s[0] as int) + 256 * (s[1] as int) + s[2]
    ensures Numeral(s) == Numeral(s[..4])
         == 0x100_0000 * (s[0] as int) + 0x1_0000 * (s[1] as int) + 256 * (s[2] as int) + s[3]
  {
    assert s[..4] == s;
    assert s[..4][..3] == s[..3] && s[..3][..2] == s[..2];
    assert s[..2][..1] == s[..1] && s[..1][..0] == s[..0];
  }

  lemma PowersOf256()
    ensures Power256(0) == 1 && Power256(1) == 256 && Power256(2) == 0x1_0000
    ensures Power256(3) == 0x100_0000 && Power256(4) == TWO_TO_THE_32
  {
    assert Power256(2) == 256 * Power256(1) && Power256(3) == 256 * Power256(2);
  }

  /** Network byte order: the first `k` of the four bytes are the number without its last `4 - k`
      digits, so the most significant byte comes first. */
  lemma MostSignificantFirst(n: nat, k: nat)
    requires n < TWO_TO_THE_32 && k <= 4
    ensures Numeral(ToNetwork(n)[..k]) == n / Power256(4 - k)
  {
    NumeralOfFour(ToNetwork(n));
    PowersOf256();
  }

  /** Four bytes are read back as that numeral. */
  lemma ReadAsNumeral(s: seq<byte>)
    requires |s| == 4
    ensures FromNetwork(s) == Numeral(s)
  {
    NumeralOfFour(s);
  }

  /** All chunks one after the other. */
  function Concat(chunks: seq<seq<byte>>): seq<byte> {
    if chunks == [] then [] else Concat(chunks[..|chunks| - 1]) + chunks[|chunks| - 1]
  }

  lemma ConcatStep(chunks: seq<seq<byte>>, n: nat)
    requires n < |chunks|
    ensures Concat(chunks[..n + 1]) == Concat(chunks[..n]) + chunks[n]
  {
    assert chunks[..n + 1][..n] == chunks[..n];
  }

  lemma MultipleBounds(w: int, d: int)
    requires 0 <= w
    ensures d >= 1 ==> w * d >= w
    ensures d <= -1 ==> w * d <= -w
  {
  }

  /** A multiple of `w` strictly between `-w` and `w` is zero. */
  lemma SmallMultiple(w: int, d: int)
    requires -w < w * d < w
    ensures d == 0
  {
    MultipleBounds(w, d);
  }

  /** Two numbers less than `w` apart that leave the same remainder are equal. */
  lemma SameSlot(a: nat, b: nat, w: nat)
    requires 0 < w && a % w == b % w
    requires a - w < b < a + w
    ensures a == b
  {
    assert w * (a / w - b / w) == a - b;
    SmallMultiple(w, a / w - b / w);
  }

  /** Adding the divisor does not change the remainder. */
  lemma NextLap(a: nat, w: nat)
    requires 0 < w
    ensures (a + w) % w == a % w
  {
    var q := a / w;
    assert a + w == w * (q + 1) + a % w;
    SmallRemainder(a % w, q + 1, w);
  }

  lemma SmallRemainder(r: nat, q: nat, w: nat)
    requires r < w
    ensures (w * q + r) % w == r
  {
    var n := w * q + r;
    assert n == w * (n / w) + n % w;
    assert w * (n / w - q) == r - n % w;
    SmallMultiple(w, n / w - q);
  }
}
