/**
  Bytes and the fixed-width big-endian numbers of the TinyFrame wire format.

  The composer writes a multi-byte field most significant byte first
  (the WRITENUM loop of TinyFrame.c), and the parser rebuilds it one byte
  at a time by shifting the field left by eight bits, OR-ing in the new
  byte and truncating to the field's C type (the COLLECT_NUMBER macro).
  Field widths are configuration, so every number here carries its width
  `w` in bytes and stays below 256^w.
*/
module Wire {

  /** An octet of the byte stream. */
  newtype byte = x: int | 0 <= x < 256

  /** 256^w: the number of values of a w-byte unsigned C type. */
  function Pow256(w: nat): (r: nat)
    ensures r >= 1
    ensures w >= 1 ==> r >= 256
  {
    if w == 0 then 1 else 256 * Pow256(w - 1)
  }

  // ---------------------------------------------------------------------
  // Division facts used by the encoding proofs
  // ---------------------------------------------------------------------

  /** Multiplying by a non-negative factor preserves order. */
  lemma MulMono(a: int, b: int, c: int)
    requires c >= 0
    ensures a <= b ==> a * c <= b * c
  {
    if a <= b {
      assert b * c - a * c == (b - a) * c;
    }
  }

  /** Euclidean division is determined by quotient and remainder. */
  lemma DivModUnique(x: int, d: int, q: int, r: int)
    requires d > 0 && 0 <= r < d && x == q * d + r
    ensures x / d == q && x % d == r
  {
    var q' := x / d;
    var r' := x % d;
    assert x == q' * d + r';
    assert (q - q') * d == r' - r;
    MulMono(1, q - q', d);
    MulMono(q - q', -1, d);
  }

  /** Reducing the high part modulo p first does not change the result. */
  lemma ModMulAdd(a: nat, p: nat, q: nat, v: nat)
    requires p > 0
    ensures (a * q + v) % p == ((a % p) * q + v) % p
  {
    var k := a / p;
    var r := a % p;
    assert a == k * p + r;
    assert a * q == (k * q) * p + r * q by {
      assert a * q == (k * p + r) * q;
    }
    ModAddMultiple(k * q, p, r * q + v);
  }

  /** Adding a multiple of the modulus does not change the remainder. */
  lemma ModAddMultiple(k: int, p: int, y: int)
    requires p > 0
    ensures (k * p + y) % p == y % p
  {
    DivModUnique(k * p + y, p, k + y / p, y % p);
  }

  /** Dividing twice is dividing by the product. */
  lemma DivDiv(x: nat, a: nat, b: nat)
    requires a > 0 && b > 0
    ensures x / a / b == x / (a * b)
  {
    var q := x / (a * b);
    var r := x % (a * b);
    assert x == q * (a * b) + r;
    var r1 := r / a;
    assert r == r1 * a + r % a;
    MulMono(b, r1, a);
    DivModUnique(x, a, q * b + r1, r % a);
    DivModUnique(q * b + r1, b, q, r1);
  }

  // ---------------------------------------------------------------------
  // Encoding (WRITENUM) and decoding (COLLECT_NUMBER)
  // ---------------------------------------------------------------------

  /** The w bytes written for `x`: byte k is `x >> 8*(w-1-k) & 0xFF`. */
  function BigEndian(x: nat, w: nat): (r: seq<byte>)
    ensures |r| == w
  {
    seq(w, k requires 0 <= k < w => ((x / Pow256(w - 1 - k)) % 256) as byte)
  }

  /** The bytes of `x` down to weight 256^i: those above it, then the byte of that weight. */
  lemma BigEndianUpTo(x: nat, w: nat, i: nat)
    requires i < w
    ensures BigEndian(x, w)[..w - i] == BigEndian(x, w)[..w - 1 - i] + [((x / Pow256(i)) % 256) as byte]
  {
    var r := BigEndian(x, w);
    assert r[w - 1 - i] == ((x / Pow256(i)) % 256) as byte;
    assert r[..w - i] == r[..w - 1 - i] + [r[w - 1 - i]];
  }

  /** One COLLECT_NUMBER step: `dest = (T)((dest << 8) | c)` for a w-byte type T. */
  function CollectByte(dest: nat, c: byte, w: nat): (r: nat)
    ensures r < Pow256(w)
  {
    (dest * 256 + c as int) % Pow256(w)
  }

  /** COLLECT_NUMBER applied to each byte of `s` in turn. */
  function CollectAll(dest: nat, s: seq<byte>, w: nat): nat
    decreases |s|
  {
    if s == [] then dest else CollectAll(CollectByte(dest, s[0], w), s[1..], w)
  }

  /** The big-endian value of `s` read after an initial value `v`. */
  function ValueFrom(v: nat, s: seq<byte>): nat
    decreases |s|
  {
    if s == [] then v else ValueFrom(v * 256 + s[0] as int, s[1..])
  }

  lemma {:induction false} ValueFromShift(v: nat, s: seq<byte>)
    ensures ValueFrom(v, s) == v * Pow256(|s|) + ValueFrom(0, s)
    decreases |s|
  {
    if s != [] {
      var c := s[0] as int;
      ValueFromShift(v * 256 + c, s[1..]);
      ValueFromShift(c, s[1..]);
      assert ValueFrom(0, s) == ValueFrom(c, s[1..]);
      assert Pow256(|s|) == 256 * Pow256(|s| - 1);
    }
  }

  lemma {:induction false} ValueFromSnoc(v: nat, s: seq<byte>, b: byte)
    ensures ValueFrom(v, s + [b]) == ValueFrom(v, s) * 256 + b as int
    decreases |s|
  {
    if s == [] {
      assert ValueFrom(v, [b]) == ValueFrom(v * 256 + b as int, []);
    } else {
      assert (s + [b])[1..] == s[1..] + [b];
      ValueFromSnoc(v * 256 + s[0] as int, s[1..], b);
    }
  }

  /** Truncating after every step equals truncating once at the end. */
  lemma {:induction false} CollectAllIsValue(dest: nat, s: seq<byte>, w: nat)
    requires dest < Pow256(w)
    ensures CollectAll(dest, s, w) == ValueFrom(dest, s) % Pow256(w)
    decreases |s|
  {
    var p := Pow256(w);
    if s == [] {
      DivModUnique(dest, p, 0, dest);
    } else {
      var a := dest * 256 + s[0] as int;
      var t := s[1..];
      assert CollectAll(dest, s, w) == CollectAll(a % p, t, w);
      assert ValueFrom(dest, s) == ValueFrom(a, t);
      CollectAllIsValue(a % p, t, w);
      ValueFromShift(a % p, t);
      ValueFromShift(a, t);
      ModMulAdd(a, p, Pow256(|t|), ValueFrom(0, t));
    }
  }

  /** The last byte of a w-byte rendering is the low byte; the rest renders x / 256. */
  lemma BigEndianSnoc(x: nat, w: nat)
    requires w >= 1
    ensures BigEndian(x, w) == BigEndian(x / 256, w - 1) + [(x % 256) as byte]
  {
    var l := BigEndian(x, w);
    var r := BigEndian(x / 256, w - 1) + [(x % 256) as byte];
    forall k | 0 <= k < w ensures l[k] == r[k] {
      if k < w - 1 {
        DivDiv(x, 256, Pow256(w - 2 - k));
        assert Pow256(w - 1 - k) == 256 * Pow256(w - 2 - k);
      }
    }
  }

  /** The big-endian value of a rendering is the number rendered. */
  lemma {:induction false} ValueOfBigEndian(x: nat, w: nat)
    requires x < Pow256(w)
    ensures ValueFrom(0, BigEndian(x, w)) == x
    decreases w
  {
    if w == 0 {
      assert BigEndian(x, w) == [];
    } else {
      BigEndianSnoc(x, w);
      DivModUnique(x, 256, x / 256, x % 256);
      MulMono(Pow256(w - 1), x / 256, 256);
      ValueOfBigEndian(x / 256, w - 1);
      ValueFromSnoc(0, BigEndian(x / 256, w - 1), (x % 256) as byte);
    }
  }

  /**
    Round trip of one field: whatever the parser's field held before,
    collecting the w bytes written for `x` yields exactly `x`.
  */
  lemma CollectBigEndian(dest: nat, x: nat, w: nat)
    requires dest < Pow256(w) && x < Pow256(w)
    ensures CollectAll(dest, BigEndian(x, w), w) == x
  {
    CollectAllIsValue(dest, BigEndian(x, w), w);
    ValueFromShift(dest, BigEndian(x, w));
    ValueOfBigEndian(x, w);
    ModAddMultiple(dest, Pow256(w), x);
    DivModUnique(x, Pow256(w), 0, x);
  }

  /** Collecting the bytes of a concatenation collects them in order. */
  lemma {:induction false} CollectAllAppend(dest: nat, s: seq<byte>, t: seq<byte>, w: nat)
    ensures CollectAll(dest, s + t, w) == CollectAll(CollectAll(dest, s, w), t, w)
    decreases |s|
  {
    if s == [] {
      assert s + t == t;
    } else {
      assert (s + t)[1..] == s[1..] + t;
      CollectAllAppend(CollectByte(dest, s[0], w), s[1..], t, w);
    }
  }
}
