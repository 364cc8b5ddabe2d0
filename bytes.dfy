/** Machine integers and byte strings as the canister (a wasm32 Rust program)
    sees them: bytes, u32 with wrap-around, blobs, 32-byte hashes, the
    little- and big-endian encodings of a u32, and the lexicographic order
    in which an RbTree visits its byte-string keys. */
module Bytes {

  const U32_LIMIT: int := 0x1_0000_0000

  type byte = x: int | 0 <= x < 256
  type u32 = x: int | 0 <= x < 0x1_0000_0000

  type Blob = seq<byte>

  /** A SHA-256 digest, the Rust `[u8; 32]`. */
  type Hash = h: Blob | |h| == 32 witness [0, 0, 0, 0, 0, 0, 0, 0, 0, 0, 0, 0, 0, 0, 0, 0,
    0, 0, 0, 0, 0, 0, 0, 0, 0, 0, 0, 0, 0, 0, 0, 0]

  const ZERO_HASH: Hash := [0, 0, 0, 0, 0, 0, 0, 0, 0, 0, 0, 0, 0, 0, 0, 0,
    0, 0, 0, 0, 0, 0, 0, 0, 0, 0, 0, 0, 0, 0, 0, 0]

  /** `x as u32`, and the result of u32 arithmetic that wraps (the canister is
      built in release mode, where overflow checks are off). */
  function ToU32(x: int): (r: u32)
    ensures 0 <= x < U32_LIMIT ==> r == x
  {
    x % U32_LIMIT
  }

  /** `length() - 1` right after a push is the `length()` before it, even
      across the wrap from `u32::MAX` to 0. */
  lemma PushIndex(total: nat)
    ensures ToU32(ToU32(total + 1) - 1) == ToU32(total)
  {
    var q := total % U32_LIMIT;
    assert total == (total / U32_LIMIT) * U32_LIMIT + q;
    if q + 1 < U32_LIMIT {
      assert ToU32(total + 1) == q + 1;
    } else {
      assert ToU32(total + 1) == 0;
      assert ToU32(-1) == U32_LIMIT - 1;
    }
  }

  /** `x.to_le_bytes()`: least significant byte first. */
  function LeBytes(x: u32): (r: Blob)
    ensures |r| == 4
  {
    var q1 := x / 256;
    var q2 := q1 / 256;
    [x % 256, q1 % 256, q2 % 256, q2 / 256]
  }

  /** `u32::from_le_bytes`. */
  function FromLeBytes(b: Blob): u32
    requires |b| == 4
  {
    b[0] as int + 256 * (b[1] as int + 256 * (b[2] as int + 256 * b[3] as int))
  }

  lemma LeRoundTrip(x: u32)
    ensures FromLeBytes(LeBytes(x)) == x
  {
    var q1 := x / 256;
    var q2 := q1 / 256;
    assert x == x % 256 + 256 * q1;
    assert q1 == q1 % 256 + 256 * q2;
    assert q2 == q2 % 256 + 256 * (q2 / 256);
  }

  lemma LeBytesOf(b: Blob)
    requires |b| == 4
    ensures LeBytes(FromLeBytes(b)) == b
  {
    var x := FromLeBytes(b);
    var h2: int := b[2] as int + 256 * b[3] as int;
    var h1: int := b[1] as int + 256 * h2;
    assert x == b[0] as int + 256 * h1;
    assert x % 256 == b[0] && x / 256 == h1;
    assert h1 % 256 == b[1] && h1 / 256 == h2;
    assert h2 % 256 == b[2] && h2 / 256 == b[3];
  }

  /** `x.to_be_bytes()`: most significant byte first. */
  function BeBytes(x: u32): (r: Blob)
    ensures |r| == 4
  {
    var l := LeBytes(x);
    [l[3], l[2], l[1], l[0]]
  }

  function FromBeBytes(b: Blob): u32
    requires |b| == 4
  {
    FromLeBytes([b[3], b[2], b[1], b[0]])
  }

  lemma BeRoundTrip(x: u32)
    ensures FromBeBytes(BeBytes(x)) == x
  {
    var l := LeBytes(x);
    assert [l[0], l[1], l[2], l[3]] == l;
    LeRoundTrip(x);
  }

  lemma BeInjective(x: u32, y: u32)
    ensures BeBytes(x) == BeBytes(y) <==> x == y
  {
    if BeBytes(x) == BeBytes(y) {
      BeRoundTrip(x);
      BeRoundTrip(y);
    }
  }

  /** The order of `Vec<u8>` keys in an RbTree: byte by byte, a proper prefix first. */
  predicate LexLess(a: Blob, b: Blob)
    decreases |a|
  {
    if |a| == 0 then |b| > 0
    else if |b| == 0 then false
    else a[0] < b[0] || (a[0] == b[0] && LexLess(a[1..], b[1..]))
  }

  lemma {:induction false} LexIrreflexive(a: Blob)
    ensures !LexLess(a, a)
    decreases |a|
  {
    if |a| > 0 {
      LexIrreflexive(a[1..]);
    }
  }

  lemma {:induction false} LexTransitive(a: Blob, b: Blob, c: Blob)
    requires LexLess(a, b) && LexLess(b, c)
    ensures LexLess(a, c)
    decreases |a|
  {
    if |a| > 0 && a[0] == b[0] && b[0] == c[0] {
      LexTransitive(a[1..], b[1..], c[1..]);
    }
  }

  lemma {:induction false} LexTotal(a: Blob, b: Blob)
    requires a != b
    ensures LexLess(a, b) || LexLess(b, a)
    decreases |a|
  {
    if |a| > 0 && |b| > 0 && a[0] == b[0] {
      assert a == [a[0]] + a[1..] && b == [b[0]] + b[1..];
      LexTotal(a[1..], b[1..]);
    }
  }

  lemma LexAsymmetric(a: Blob, b: Blob)
    requires LexLess(a, b)
    ensures !LexLess(b, a)
  {
    if LexLess(b, a) {
      LexTransitive(a, b, a);
      LexIrreflexive(a);
    }
  }

  /** Digit-wise comparison in base 256. */
  lemma DigitOrder(hi: int, lo: byte, hi': int, lo': byte)
    ensures hi * 256 + lo < hi' * 256 + lo' <==> hi < hi' || (hi == hi' && lo < lo')
    ensures hi * 256 + lo == hi' * 256 + lo' <==> hi == hi' && lo == lo'
  {
  }

  /** Big-endian keys sort like the numbers they encode, which is why the
      block tree keys positions by `to_be_bytes`. */
  lemma BeOrder(x: u32, y: u32)
    ensures LexLess(BeBytes(x), BeBytes(y)) <==> x < y
  {
    var a, b := LeBytes(x), LeBytes(y);
    LeRoundTrip(x);
    LeRoundTrip(y);
    var ax: int, bx: int := a[3] as int * 256 + a[2] as int, b[3] as int * 256 + b[2] as int;
    var ax1: int, bx1: int := ax * 256 + a[1] as int, bx * 256 + b[1] as int;
    assert x == ax1 * 256 + a[0] as int;
    assert y == bx1 * 256 + b[0] as int;
    DigitOrder(a[3] as int, a[2], b[3] as int, b[2]);
    DigitOrder(ax, a[1], bx, b[1]);
    DigitOrder(ax1, a[0], bx1, b[0]);
    var ba, bb := BeBytes(x), BeBytes(y);
    assert ba[1..][1..][1..][1..] == [] && bb[1..][1..][1..][1..] == [];
    assert LexLess(ba[1..][1..][1..], bb[1..][1..][1..]) <==> a[0] < b[0];
    assert LexLess(ba[1..][1..], bb[1..][1..]) <==> a[1] < b[1] || (a[1] == b[1] && a[0] < b[0]);
    assert LexLess(ba[1..], bb[1..]) <==> a[2] < b[2] || (a[2] == b[2] && LexLess(ba[1..][1..], bb[1..][1..]));
  }
}
