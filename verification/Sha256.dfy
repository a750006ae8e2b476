/** SHA-256 as FIPS 180-4 defines it, and the array-and-loop code of sha256.rs that computes it. */
module Sha256 {
  import opened Prelude
  import opened HexText

  type word = bv32

  // ----- FIPS 180-4, sections 3.2 and 4.1.2: the functions on words -----

  /** Addition modulo 2^32. */
  function Add(x: word, y: word): word { x + y }

  function Ch(x: word, y: word, z: word): word { (x & y) ^ (!x & z) }

  function Maj(x: word, y: word, z: word): word { (x & y) ^ (x & z) ^ (y & z) }

  // ROTR n (x) is (x >> n) | (x << (32 - n)).

  function BigSigma0(x: word): word {
    ((x >> 2) | (x << 30)) ^ ((x >> 13) | (x << 19)) ^ ((x >> 22) | (x << 10))
  }

  function BigSigma1(x: word): word {
    ((x >> 6) | (x << 26)) ^ ((x >> 11) | (x << 21)) ^ ((x >> 25) | (x << 7))
  }

  function SmallSigma0(x: word): word {
    ((x >> 7) | (x << 25)) ^ ((x >> 18) | (x << 14)) ^ (x >> 3)
  }

  function SmallSigma1(x: word): word {
    ((x >> 17) | (x << 15)) ^ ((x >> 19) | (x << 13)) ^ (x >> 10)
  }

  // ----- Sections 4.2.2 and 5.3.3: the constants -----

  // The 64 constants, in rows of eight as the standard prints them.
  const K0: seq<word> := [
    0x428a2f98, 0x71374491, 0xb5c0fbcf, 0xe9b5dba5, 0x3956c25b, 0x59f111f1, 0x923f82a4, 0xab1c5ed5]
  const K1: seq<word> := [
    0xd807aa98, 0x12835b01, 0x243185be, 0x550c7dc3, 0x72be5d74, 0x80deb1fe, 0x9bdc06a7, 0xc19bf174]
  const K2: seq<word> := [
    0xe49b69c1, 0xefbe4786, 0x0fc19dc6, 0x240ca1cc, 0x2de92c6f, 0x4a7484aa, 0x5cb0a9dc, 0x76f988da]
  const K3: seq<word> := [
    0x983e5152, 0xa831c66d, 0xb00327c8, 0xbf597fc7, 0xc6e00bf3, 0xd5a79147, 0x06ca6351, 0x14292967]
  const K4: seq<word> := [
    0x27b70a85, 0x2e1b2138, 0x4d2c6dfc, 0x53380d13, 0x650a7354, 0x766a0abb, 0x81c2c92e, 0x92722c85]
  const K5: seq<word> := [
    0xa2bfe8a1, 0xa81a664b, 0xc24b8b70, 0xc76c51a3, 0xd192e819, 0xd6990624, 0xf40e3585, 0x106aa070]
  const K6: seq<word> := [
    0x19a4c116, 0x1e376c08, 0x2748774c, 0x34b0bcb5, 0x391c0cb3, 0x4ed8aa4a, 0x5b9cca4f, 0x682e6ff3]
  const K7: seq<word> := [
    0x748f82ee, 0x78a5636f, 0x84c87814, 0x8cc70208, 0x90befffa, 0xa4506ceb, 0xbef9a3f7, 0xc67178f2]
  const K_ROWS: seq<seq<word>> := [K0, K1, K2, K3, K4, K5, K6, K7]

  function K(t: nat): word
    requires t < 64
  {
    K_ROWS[t / 8][t % 8]
  }

  /** Eight words: a hash value, or the working variables a to h. */
  datatype Words = Words(a: word, b: word, c: word, d: word, e: word, f: word, g: word, h: word)

  const H0 := Words(0x6a09e667, 0xbb67ae85, 0x3c6ef372, 0xa54ff53a,
                    0x510e527f, 0x9b05688c, 0x1f83d9ab, 0x5be0cd19)

  // ----- Section 5.1.1: padding -----

  /** How many zero bytes follow the byte 0x80. */
  function ZeroCount(length: nat): nat { (119 - length % 64) % 64 }

  /** ZeroCount is the smallest number of zero bytes that leaves room for the length. */
  lemma ZeroCountLeast(n: nat, z: nat)
    requires z <= ZeroCount(n)
    ensures (n + 1 + z) % 64 == 56 <==> z == ZeroCount(n)
  {
  }

  lemma PaddedLength(n: nat)
    ensures (n + 1 + ZeroCount(n) + 8) % 64 == 0
  {
    ZeroCountLeast(n, ZeroCount(n));
  }

  function Zeros(n: nat): (s: Bytes)
    ensures |s| == n && forall i :: 0 <= i < n ==> s[i] == 0
  {
    seq(n, _ => 0)
  }

  /** `n` as `k` bytes, most significant first. */
  function BigEndian(n: nat, k: nat): (s: Bytes)
    ensures |s| == k
  {
    if k == 0 then [] else BigEndian(n / 256, k - 1) + [n % 256]
  }

  /** The message, a one bit, zeros, and the bit length in 64 bits. The standard covers
      messages of fewer than 2^64 bits, whose length the remainder leaves alone. */
  function Padded(m: Bytes): (p: Bytes)
    ensures |p| % 64 == 0 && |p| > 0
  {
    PaddedLength(|m|);
    m + [0x80] + Zeros(ZeroCount(|m|)) + BigEndian(8 * |m| % 0x1_0000_0000_0000_0000, 8)
  }

  // ----- Section 6.2.2: the hash computation -----

  function Word(b0: byte, b1: byte, b2: byte, b3: byte): word {
    (b0 * 0x100_0000 + b1 * 0x1_0000 + b2 * 0x100 + b3) as word
  }

  /** Word `t` of the 64-byte block that starts at `base`. */
  function BlockWord(p: Bytes, base: nat, t: nat): word
    requires base + 64 <= |p| && t < 16
  {
    Word(p[base + 4 * t], p[base + 4 * t + 1], p[base + 4 * t + 2], p[base + 4 * t + 3])
  }

  /** The standard lists these four summands last to first; the sum is the same. */
  function ScheduleWord(w16: word, w15: word, w7: word, w2: word): word {
    Add(Add(Add(w16, SmallSigma0(w15)), w7), SmallSigma1(w2))
  }

  /** The message schedule W_t. */
  function W(p: Bytes, base: nat, t: nat): word
    requires base + 64 <= |p| && t < 64
  {
    if t < 16 then BlockWord(p, base, t)
    else ScheduleWord(W(p, base, t - 16), W(p, base, t - 15), W(p, base, t - 7), W(p, base, t - 2))
  }

  function T1(e: word, f: word, g: word, h: word, k: word, w: word): word {
    Add(Add(Add(Add(h, BigSigma1(e)), Ch(e, f, g)), k), w)
  }

  function T2(a: word, b: word, c: word): word { Add(BigSigma0(a), Maj(a, b, c)) }

  function Round(v: Words, k: word, w: word): Words {
    var t1 := T1(v.e, v.f, v.g, v.h, k, w);
    var t2 := T2(v.a, v.b, v.c);
    Words(Add(t1, t2), v.a, v.b, v.c, Add(v.d, t1), v.e, v.f, v.g)
  }

  /** The working variables after `n` rounds on one block. */
  function Rounds(p: Bytes, base: nat, v: Words, n: nat): Words
    requires base + 64 <= |p| && n <= 64
  {
    if n == 0 then v else Round(Rounds(p, base, v, n - 1), K(n - 1), W(p, base, n - 1))
  }

  function AddWords(x: Words, y: Words): Words {
    Words(Add(x.a, y.a), Add(x.b, y.b), Add(x.c, y.c), Add(x.d, y.d),
          Add(x.e, y.e), Add(x.f, y.f), Add(x.g, y.g), Add(x.h, y.h))
  }

  /** The hash value after the first `n` blocks. */
  function HashValue(p: Bytes, n: nat): Words
    requires 64 * n <= |p|
  {
    if n == 0 then H0
    else
      var h := HashValue(p, n - 1);
      AddWords(h, Rounds(p, 64 * (n - 1), h, 64))
  }

  function WordBytes(w: word): (s: Bytes)
    ensures |s| == 4
  {
    BigEndian(w as int, 4)
  }

  function DigestOf(h: Words): (s: Bytes)
    ensures |s| == 32
  {
    WordBytes(h.a) + WordBytes(h.b) + WordBytes(h.c) + WordBytes(h.d)
    + WordBytes(h.e) + WordBytes(h.f) + WordBytes(h.g) + WordBytes(h.h)
  }

  /** The SHA-256 digest of a message. */
  function Digest(m: Bytes): (s: Bytes)
    ensures |s| == 32
  {
    DigestOf(HashValue(Padded(m), |Padded(m)| / 64))
  }

  // ----- The code of sha256.rs -----

  /** `pad`: pushes zeros while the length is not 56 modulo 64. */
  method Pad(message: Bytes) returns (padded: Bytes)
    ensures padded == Padded(message)
  {
    hide BigEndian;
    var bitLen := |message| * 8 % 0x1_0000_0000_0000_0000;
    padded := message + [0x80];
    ghost var z := 0;
    ZeroCountLeast(|message|, z);
    while |padded| % 64 != 56
      invariant 0 <= z <= ZeroCount(|message|)
      invariant |padded| == |message| + 1 + z
      invariant padded == message + [0x80] + Zeros(z)
      decreases ZeroCount(|message|) - z
    {
      ZeroCountLeast(|message|, z);
      padded := padded + [0];
      assert Zeros(z) + [0] == Zeros(z + 1);
      z := z + 1;
    }
    ZeroCountLeast(|message|, z);
    padded := padded + BigEndian(bitLen, 8);
  }

  method Sha256(message: Bytes) returns (digest: Bytes)
    ensures digest == Digest(message)
  {
    hide Padded, Rounds, AddWords, BigEndian, DigestOf;
    var padded := Pad(message);
    var h := new word[8] [0x6a09e667, 0xbb67ae85, 0x3c6ef372, 0xa54ff53a,
                          0x510e527f, 0x9b05688c, 0x1f83d9ab, 0x5be0cd19];
    var n := 0;
    while n < |padded| / 64
      invariant 0 <= n <= |padded| / 64
      invariant h.Length == 8 && fresh(h)
      invariant FromArray(h) == HashValue(padded, n)
    {
      CompressBlock(padded, 64 * n, h);
      n := n + 1;
    }
    digest := Output(h);
  }

  function FromArray(h: array<word>): Words
    requires h.Length == 8
    reads h
  {
    Words(h[0], h[1], h[2], h[3], h[4], h[5], h[6], h[7])
  }

  /** One block: fills the schedule, runs the rounds and adds the result into `h`. */
  method CompressBlock(p: Bytes, base: nat, h: array<word>)
    requires base + 64 <= |p| && h.Length == 8
    modifies h
    ensures FromArray(h) == AddWords(old(FromArray(h)), Rounds(p, base, old(FromArray(h)), 64))
  {
    hide Rounds, W, Add;
    var w := FillSchedule(p, base);
    var v := RunRounds(p, base, w, FromArray(h));
    h[0] := Add(h[0], v.a);
    h[1] := Add(h[1], v.b);
    h[2] := Add(h[2], v.c);
    h[3] := Add(h[3], v.d);
    h[4] := Add(h[4], v.e);
    h[5] := Add(h[5], v.f);
    h[6] := Add(h[6], v.g);
    h[7] := Add(h[7], v.h);
  }

  method FillSchedule(p: Bytes, base: nat) returns (w: array<word>)
    requires base + 64 <= |p|
    ensures fresh(w) && w.Length == 64
    ensures forall t :: 0 <= t < 64 ==> w[t] == W(p, base, t)
  {
    hide ScheduleWord, Word, W;
    w := new word[64];
    for i := 0 to 16
      invariant forall t :: 0 <= t < i ==> w[t] == W(p, base, t)
    {
      FirstWords(p, base, i);
      w[i] := Word(p[base + 4 * i], p[base + 4 * i + 1], p[base + 4 * i + 2], p[base + 4 * i + 3]);
    }
    for i := 16 to 64
      invariant forall t :: 0 <= t < i ==> w[t] == W(p, base, t)
    {
      LaterWords(p, base, i);
      w[i] := NextScheduleWord(w[i - 16], w[i - 15], w[i - 7], w[i - 2]);
    }
  }

  lemma FirstWords(p: Bytes, base: nat, t: nat)
    requires base + 64 <= |p| && t < 16
    ensures W(p, base, t)
            == Word(p[base + 4 * t], p[base + 4 * t + 1], p[base + 4 * t + 2], p[base + 4 * t + 3])
  {
    hide Word;
  }

  lemma LaterWords(p: Bytes, base: nat, t: nat)
    requires base + 64 <= |p| && 16 <= t < 64
    ensures W(p, base, t)
            == ScheduleWord(W(p, base, t - 16), W(p, base, t - 15), W(p, base, t - 7), W(p, base, t - 2))
  {
    hide ScheduleWord, BlockWord;
  }

  /** The rotations, the shift and the wrapping additions of one schedule word. */
  method NextScheduleWord(w16: word, w15: word, w7: word, w2: word) returns (w: word)
    ensures w == ScheduleWord(w16, w15, w7, w2)
  {
    hide Add, SmallSigma0, SmallSigma1;
    var s0 := w15.RotateRight(7) ^ w15.RotateRight(18) ^ (w15 >> 3);
    var s1 := w2.RotateRight(17) ^ w2.RotateRight(19) ^ (w2 >> 10);
    SmallSigma0Rotates(w15);
    SmallSigma1Rotates(w2);
    w := Add(Add(Add(w16, s0), w7), s1);
  }

  lemma SmallSigma0Rotates(x: word)
    ensures x.RotateRight(7) ^ x.RotateRight(18) ^ (x >> 3) == SmallSigma0(x)
  {
  }

  lemma SmallSigma1Rotates(x: word)
    ensures x.RotateRight(17) ^ x.RotateRight(19) ^ (x >> 10) == SmallSigma1(x)
  {
  }

  lemma BigSigma0Rotates(x: word)
    ensures x.RotateRight(2) ^ x.RotateRight(13) ^ x.RotateRight(22) == BigSigma0(x)
  {
  }

  lemma BigSigma1Rotates(x: word)
    ensures x.RotateRight(6) ^ x.RotateRight(11) ^ x.RotateRight(25) == BigSigma1(x)
  {
  }

  method RunRounds(p: Bytes, base: nat, w: array<word>, h: Words) returns (v: Words)
    requires base + 64 <= |p| && w.Length == 64
    requires forall t :: 0 <= t < 64 ==> w[t] == W(p, base, t)
    ensures v == Rounds(p, base, h, 64)
  {
    hide Round, W;
    v := h;
    for i := 0 to 64
      invariant v == Rounds(p, base, h, i)
    {
      v := RoundStep(v, K(i), w[i]);
    }
  }

  /** One round: the eight working variables shift down and two of them take new values. */
  method RoundStep(v: Words, k: word, w: word) returns (r: Words)
    ensures r == Round(v, k, w)
  {
    hide Add, T1, T2;
    var a, b, c, d, e, f, g, hh := v.a, v.b, v.c, v.d, v.e, v.f, v.g, v.h;
    var temp1 := Temp1(e, f, g, hh, k, w);
    var temp2 := Temp2(a, b, c);
    hh := g;
    g := f;
    f := e;
    e := Add(d, temp1);
    d := c;
    c := b;
    b := a;
    a := Add(temp1, temp2);
    r := Words(a, b, c, d, e, f, g, hh);
  }

  method Temp1(e: word, f: word, g: word, hh: word, k: word, w: word) returns (t: word)
    ensures t == T1(e, f, g, hh, k, w)
  {
    hide Add, BigSigma1;
    var s1 := e.RotateRight(6) ^ e.RotateRight(11) ^ e.RotateRight(25);
    BigSigma1Rotates(e);
    var ch := (e & f) ^ (!e & g);
    t := Add(Add(Add(Add(hh, s1), ch), k), w);
  }

  method Temp2(a: word, b: word, c: word) returns (t: word)
    ensures t == T2(a, b, c)
  {
    hide Add, BigSigma0;
    var s0 := a.RotateRight(2) ^ a.RotateRight(13) ^ a.RotateRight(22);
    BigSigma0Rotates(a);
    var maj := (a & b) ^ (a & c) ^ (b & c);
    t := Add(s0, maj);
  }

  /** Writes the eight words, big-endian, into the 32 output bytes. */
  method Output(h: array<word>) returns (digest: Bytes)
    requires h.Length == 8
    ensures digest == DigestOf(FromArray(h))
  {
    hide WordBytes;
    var out := new byte[32];
    for i := 0 to 8
      invariant forall j :: 0 <= j < i ==> out[4 * j..4 * j + 4] == WordBytes(h[j])
    {
      PutWord(out, i, h[i]);
    }
    digest := out[..];
    ghost var v := FromArray(h);
    assert digest[0..4] == WordBytes(v.a) && digest[4..8] == WordBytes(v.b);
    assert digest[8..12] == WordBytes(v.c) && digest[12..16] == WordBytes(v.d);
    assert digest[16..20] == WordBytes(v.e) && digest[20..24] == WordBytes(v.f);
    assert digest[24..28] == WordBytes(v.g) && digest[28..32] == WordBytes(v.h);
    EightParts(digest);
  }

  lemma EightParts(s: Bytes)
    requires |s| == 32
    ensures s == s[0..4] + s[4..8] + s[8..12] + s[12..16] + s[16..20] + s[20..24] + s[24..28] + s[28..32]
  {
  }

  /** Writes one word, most significant byte first, as the `i`th group of four output bytes. */
  method PutWord(out: array<byte>, i: nat, w: word)
    requires out.Length == 32 && i < 8
    modifies out
    ensures out[4 * i..4 * i + 4] == WordBytes(w)
    ensures forall j :: 0 <= j < 8 && j != i ==> out[4 * j..4 * j + 4] == old(out[4 * j..4 * j + 4])
  {
    hide WordBytes;
    var bytes := WordBytes(w);
    out[4 * i] := bytes[0];
    out[4 * i + 1] := bytes[1];
    out[4 * i + 2] := bytes[2];
    out[4 * i + 3] := bytes[3];
    assert out[4 * i..4 * i + 4] == bytes;
  }

  /** `sha256:` and the digest in hexadecimal. */
  function CanonicalHash(m: Bytes): HashBytes
  {
    PREFIX + Hex(Digest(m))
  }

  method ComputeCanonicalHash(m: Bytes) returns (t: Bytes)
    ensures t == CanonicalHash(m)
  {
    hide Digest, Hex;
    var digest := Sha256(m);
    t := PREFIX + Hex(digest);
  }

  // ----- What the pieces mean -----

  /** Two canonical hashes agree exactly when the digests do. */
  lemma CanonicalHashInjective(m: Bytes, n: Bytes)
    ensures CanonicalHash(m) == CanonicalHash(n) <==> Digest(m) == Digest(n)
  {
    hide Digest, Hex;
    assert CanonicalHash(m)[7..] == Hex(Digest(m));
    assert CanonicalHash(n)[7..] == Hex(Digest(n));
    if CanonicalHash(m) == CanonicalHash(n) {
      HexInjective(Digest(m), Digest(n));
    }
  }

  function Unsigned(s: Bytes): nat {
    if s == [] then 0 else 256 * Unsigned(s[..|s| - 1]) + s[|s| - 1]
  }

  function Pow256(k: nat): nat { if k == 0 then 1 else 256 * Pow256(k - 1) }

  /** BigEndian writes the number that its bytes denote, when it fits. */
  lemma {:induction false} BigEndianDenotes(n: nat, k: nat)
    requires n < Pow256(k)
    ensures Unsigned(BigEndian(n, k)) == n
  {
    if k > 0 {
      BigEndianDenotes(n / 256, k - 1);
      assert BigEndian(n, k)[..k - 1] == BigEndian(n / 256, k - 1);
    }
  }

  /** Padding loses nothing: below 2^64 bits, the padded message determines the message. */
  lemma PaddingInjective(m: Bytes, n: Bytes)
    requires |m| < 0x2000_0000_0000_0000 && |n| < 0x2000_0000_0000_0000
    requires Padded(m) == Padded(n)
    ensures m == n
  {
    hide BigEndian;
    PaddedEnds(m);
    PaddedEnds(n);
    var p := Padded(m);
    assert p[..|m|] == m && p[..|n|] == n;
  }

  /** The last eight bytes of the padded message denote its length in bits. */
  lemma PaddedEnds(m: Bytes)
    requires |m| < 0x2000_0000_0000_0000
    ensures Unsigned(Padded(m)[|Padded(m)| - 8..]) == 8 * |m|
  {
    hide BigEndian, Pow256, Unsigned;
    var bits := 8 * |m|;
    EightBytes();
    assert Padded(m)[|Padded(m)| - 8..] == BigEndian(bits, 8);
    BigEndianDenotes(bits, 8);
  }

  lemma EightBytes()
    ensures Pow256(8) == 0x1_0000_0000_0000_0000
  {
    assert Pow256(4) == 0x1_0000_0000;
  }
}
