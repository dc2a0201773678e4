/** Clamping of the WireGuard private key (generate_wireguard_keypair): the
    32 random bytes are turned into an X25519 scalar as in the function
    decodeScalar25519 of section 5 of RFC 7748 — the three low bits of the
    first byte are cleared, the top bit of the last byte is cleared and the
    bit below it is set. The random source, the public-key computation and
    the base64 encoding are not part of this model. */
module WireguardKey {

  /** The length of an X25519 private key in bytes. */
  const KeyLength: nat := 32

  /** `private_key_bytes[0] &= 248` */
  function ClampLow(b: bv8): (c: bv8)
    ensures c % 8 == 0
    ensures c <= b && b - c < 8
  {
    b & 248
  }

  /** `private_key_bytes[31] &= 127` followed by `|= 64` */
  function ClampHigh(b: bv8): (c: bv8)
    ensures 64 <= c <= 127
    ensures c % 64 == b % 64
  {
    (b & 127) | 64
  }

  function Clamp(key: seq<bv8>): (c: seq<bv8>)
    requires |key| == KeyLength
    ensures |c| == KeyLength
    ensures c[0] % 8 == 0 && c[0] <= key[0] && key[0] - c[0] < 8
    ensures 64 <= c[31] <= 127 && c[31] % 64 == key[31] % 64
    ensures forall i :: 1 <= i < 31 ==> c[i] == key[i]
  {
    key[0 := ClampLow(key[0])][31 := ClampHigh(key[31])]
  }

  /** A key is already a clamped scalar exactly when clamping leaves it
      unchanged. */
  lemma ClampFixpoint(key: seq<bv8>)
    requires |key| == KeyLength
    ensures Clamp(key) == key <==> key[0] % 8 == 0 && 64 <= key[31] <= 127
  {
    assert key[0] % 8 == 0 ==> key[0] & 248 == key[0];
    assert 64 <= key[31] <= 127 ==> (key[31] & 127) | 64 == key[31];
    if key[0] % 8 == 0 && 64 <= key[31] <= 127 {
      assert Clamp(key)[0] == key[0];
      assert Clamp(key)[31] == key[31];
    }
  }

  /** Clamping twice is clamping once. */
  lemma ClampIdempotent(key: seq<bv8>)
    requires |key| == KeyLength
    ensures Clamp(Clamp(key)) == Clamp(key)
  {
    ClampFixpoint(Clamp(key));
  }

  /** The bytes read as a little-endian number, as RFC 7748 decodes them. */
  function LittleEndian(s: seq<bv8>): nat {
    if |s| == 0 then 0 else s[0] as nat + 256 * LittleEndian(s[1..])
  }

  function Pow2(n: nat): (p: nat)
    ensures p >= 1
  {
    if n == 0 then 1 else 2 * Pow2(n - 1)
  }

  lemma {:induction false} Pow2Add(a: nat, b: nat)
    ensures Pow2(a + b) == Pow2(a) * Pow2(b)
    decreases a
  {
    if a > 0 {
      Pow2Add(a - 1, b);
    }
  }

  /** A little-endian number whose most significant byte lies in [lo, hi]
      lies in [lo, hi + 1) times the weight of that byte. */
  lemma {:induction false} LittleEndianTop(s: seq<bv8>, lo: nat, hi: nat)
    requires |s| > 0 && lo <= s[|s| - 1] as nat <= hi
    ensures lo * Pow2(8 * (|s| - 1)) <= LittleEndian(s) < (hi + 1) * Pow2(8 * (|s| - 1))
    decreases |s|
  {
    if |s| == 1 {
      assert LittleEndian(s[1..]) == 0;
    } else {
      LittleEndianTop(s[1..], lo, hi);
      var w := Pow2(8 * (|s| - 2));
      Pow2Add(8, 8 * (|s| - 2));
      assert Pow2(8) == 256;
      assert 8 * (|s| - 1) == 8 + 8 * (|s| - 2);
      var t := LittleEndian(s[1..]);
      assert lo * w <= t < (hi + 1) * w;
      TopStep(s[0] as nat, t, lo, hi, w);
    }
  }

  lemma TopStep(b: nat, t: nat, lo: nat, hi: nat, w: nat)
    requires b < 256 && lo * w <= t < (hi + 1) * w
    ensures lo * (256 * w) <= b + 256 * t < (hi + 1) * (256 * w)
  {
    assert 256 * t <= 256 * ((hi + 1) * w) - 256;
  }

  /** The clamped key is a multiple of 8 in [2^254, 2^255), which is what
      decodeScalar25519 of RFC 7748 produces. */
  lemma ClampedScalar(key: seq<bv8>)
    requires |key| == KeyLength
    ensures LittleEndian(Clamp(key)) % 8 == 0
    ensures Pow2(254) <= LittleEndian(Clamp(key)) < Pow2(255)
  {
    ClampedMultipleOf8(Clamp(key));
    ScalarRange(Clamp(key));
  }

  /** 32 bytes whose last byte lies in [64, 127] read as a number in
      [2^254, 2^255). */
  lemma ScalarRange(c: seq<bv8>)
    requires |c| == KeyLength && 64 <= c[31] <= 127
    ensures Pow2(254) <= LittleEndian(c) < Pow2(255)
  {
    var w := Pow2(8 * (|c| - 1));
    LittleEndianTop(c, 64, 127);
    assert 64 * w <= LittleEndian(c) < 128 * w;
    assert 8 * (|c| - 1) == 248;
    TopByteWeight();
  }

  /** Bit 254 and bit 255 are bits 6 and 7 of the last of 32 bytes. */
  lemma TopByteWeight()
    ensures Pow2(254) == 64 * Pow2(248) && Pow2(255) == 128 * Pow2(248)
  {
    Pow2Add(6, 248);
    Pow2Add(7, 248);
  }

  lemma ClampedMultipleOf8(c: seq<bv8>)
    requires |c| > 0 && c[0] % 8 == 0
    ensures LittleEndian(c) % 8 == 0
  {
    var t := LittleEndian(c[1..]);
    assert (c[0] as nat) % 8 == 0;
    assert c[0] as nat + 256 * t == 8 * ((c[0] as nat) / 8 + 32 * t);
  }
}
