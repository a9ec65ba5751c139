/** C integer widths, and the big-endian words that go over the wire. */
module Words {

  const TWO31: int := 0x8000_0000
  const TWO32: int := 0x1_0000_0000
  const TWO64: int := 0x1_0000_0000_0000_0000

  type Byte = b: int | 0 <= b < 256
  type U32 = x: int | 0 <= x < TWO32
  type U64 = x: int | 0 <= x < TWO64
  type I32 = x: int | -TWO31 <= x < TWO31

  datatype Option<+T> = None | Some(value: T)

  /** Conversion to `uint32_t`. */
  function ToU32(x: int): U32 {
    x % TWO32
  }

  /** Conversion to `uint64_t`. */
  function ToU64(x: int): U64 {
    x % TWO64
  }

  /** Conversion to `int32_t`, two's complement. */
  function ToI32(x: int): I32 {
    var u := x % TWO32;
    if u < TWO31 then u else u - TWO32
  }

  /** Integer division as C does it: the quotient is truncated toward zero. */
  function TruncDiv(x: int, d: int): int
    requires d > 0
  {
    if x >= 0 then x / d else -(-x / d)
  }

  function Distance(x: int, y: int): nat {
    if x < y then y - x else x - y
  }

  /** The bytes `htonl` leaves in memory. */
  function BigEndian(w: U32): (b: seq<Byte>)
    ensures |b| == 4
  {
    [w / 0x100_0000, w / 0x1_0000 % 0x100, w / 0x100 % 0x100, w % 0x100]
  }

  /** The value `ntohl` reads from memory. */
  function FromBigEndian(b: seq<Byte>): (w: U32)
    requires |b| == 4
  {
    ((b[0] as int * 0x100 + b[1]) * 0x100 + b[2]) * 0x100 + b[3]
  }

  /** Network order: words compare as their byte strings do, from the first byte on. */
  lemma NetworkOrder(v: U32, w: U32)
    ensures v < w <==> exists k :: 0 <= k < 4 && BigEndian(v)[k] < BigEndian(w)[k] && BigEndian(v)[..k] == BigEndian(w)[..k]
  {
    WordRoundTrip(v);
    WordRoundTrip(w);
    var a, b := BigEndian(v), BigEndian(w);
    hide BigEndian;
    if v < w {
      FirstDifference(a, b);
    }
    if exists k :: 0 <= k < 4 && a[k] < b[k] && a[..k] == b[..k] {
      var k :| 0 <= k < 4 && a[k] < b[k] && a[..k] == b[..k];
      assert forall i :: 0 <= i < k ==> a[i] == a[..k][i] == b[..k][i] == b[i];
    }
  }

  lemma FirstDifference(a: seq<Byte>, b: seq<Byte>)
    requires |a| == |b| == 4 && FromBigEndian(a) < FromBigEndian(b)
    ensures exists k :: 0 <= k < 4 && a[k] < b[k] && a[..k] == b[..k]
  {
    var k := if a[0] != b[0] then 0 else if a[1] != b[1] then 1 else if a[2] != b[2] then 2 else 3;
    assert a[k] < b[k] && a[..k] == b[..k];
  }

  /** `ntohl` undoes `htonl`. */
  lemma WordRoundTrip(w: U32)
    ensures FromBigEndian(BigEndian(w)) == w
  {
    var q1 := w / 0x100;
    var q2 := q1 / 0x100;
    assert w / 0x1_0000 == q2 && w / 0x100_0000 == q2 / 0x100;
    assert w == q1 * 0x100 + w % 0x100;
    assert q1 == q2 * 0x100 + q1 % 0x100;
    assert q2 == q2 / 0x100 * 0x100 + q2 % 0x100;
  }

  /** Two numbers congruent modulo 2^32 convert to the same `uint32_t` and `int32_t`. */
  lemma SameWord(x: int, y: int, k: int)
    requires x == y + k * TWO32
    ensures ToU32(x) == ToU32(y) && ToI32(x) == ToI32(y)
  {
    var q, r := y / TWO32, y % TWO32;
    assert y == q * TWO32 + r;
    assert x == (q + k) * TWO32 + r;
    assert x % TWO32 == r;
  }

  /** Adding to an already reduced word is adding to the unreduced one. */
  lemma WordSum(x: int, y: int)
    ensures ToU32(ToU32(x) + y) == ToU32(x + y)
  {
    SameWord(x + y, ToU32(x) + y, x / TWO32);
  }

  lemma LongSum(x: int, y: int)
    ensures ToU64(ToU64(x) + y) == ToU64(x + y)
  {
  }

  /** Converting a 64-bit word is converting the number itself. */
  lemma WordOfLong(x: nat)
    ensures ToU32(ToU64(x)) == ToU32(x)
  {
    hide ToU32;
    SameWord(ToU64(x), x, -(x / TWO64) * TWO32);
  }

  /** A balance survives the reduction of some of its terms. */
  lemma WordBalance(a: nat, b: nat, c: nat, d: nat)
    requires a + b == c + d
    ensures ToU32(ToU32(a) + ToU32(b)) == ToU32(ToU32(c) + d)
  {
    WordSum(a, ToU32(b));
    WordSum(b, a);
    WordSum(c, d);
  }

  lemma MulMonotone(a: nat, b: nat, c: nat, d: nat)
    requires a <= b && c <= d
    ensures a * c <= b * d
  {
    assert a * c <= b * c <= b * d;
  }

  lemma FitsU32(x: int)
    requires 0 <= x < TWO32
    ensures ToU32(x) == x
  {
  }

  lemma FitsU64(x: nat)
    requires x < TWO64
    ensures ToU64(x) == x
  {
  }

  lemma FitsI32(x: int)
    requires -TWO31 <= x < TWO31
    ensures ToI32(x) == x
  {
    SameWord(x, if x < 0 then x + TWO32 else x, if x < 0 then -1 else 0);
  }

  /** A signed word survives the trip through an unsigned one. */
  lemma SignedRoundTrip(x: I32)
    ensures ToI32(ToU32(x)) == x
  {
    FitsI32(x);
    SameWord(x, ToU32(x), x / TWO32);
  }

  /** A quotient and a remainder are determined by their product and sum. */
  lemma UniqueQuotient(n: nat, q: nat, r: nat, d: nat)
    requires n == q * d + r && r < d
    ensures n / d == q && n % d == r
  {
    var q', r' := n / d, n % d;
    assert n == q' * d + r';
    AtLeastOne(q - q', d);
    assert (q - q') * d == q * d - q' * d;
  }

  /** Dividing twice is dividing by the product. */
  lemma NestedQuotient(n: nat, d: nat, k: nat)
    requires d > 0 && k > 0
    ensures d * k > 0 && n / d / k == n / (d * k)
  {
    var m := n / d;
    var q, r, t := m / k, m % k, n % d;
    Nested(n, d, k, m, t, q, r);
    UniqueQuotient(n, q, r * d + t, d * k);
  }

  lemma Nested(n: nat, d: nat, k: nat, m: nat, t: nat, q: nat, r: nat)
    requires n == m * d + t && t < d && m == q * k + r && r < k
    ensures n == q * (d * k) + (r * d + t) && r * d + t < d * k
  {
    assert m * d == q * k * d + r * d;
    assert q * k * d == q * (d * k);
    MulMonotone(r, k - 1, d, d);
    assert (k - 1) * d == d * k - d;
  }

  lemma AtLeastOne(k: int, d: nat)
    ensures k >= 1 ==> k * d >= d
    ensures k <= -1 ==> k * d <= 0 - d
  {
  }
}
