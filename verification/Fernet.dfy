/** Fernet tokens (secrets/fernet.go): a version byte, a time stamp, an IV, the plaintext
    under PKCS#7 padding and CBC, and a MAC, as one URL-safe base64 text. The block cipher
    and the MAC are functions that the theorems know only by their laws. */
module Fernet {
  import opened Prelude
  import opened Base64

  const VERSION: byte := 0x80
  const BLOCK := 16
  const KEY_LEN := 32
  const SIGNING_LEN := 16
  const STAMP_LEN := 8
  const MAC_LEN := 32
  const HEADER_LEN := 1 + STAMP_LEN + BLOCK
  const MIN_LEN := HEADER_LEN + BLOCK + MAC_LEN
  const URL := Encoding(UrlSafe, true)

  // ----- PKCS#7, section 6.3 of RFC 5652 -----

  function Repeat(b: byte, n: nat): (r: seq<byte>)
    ensures |r| == n && forall i :: 0 <= i < n ==> r[i] == b
  {
    seq(n, i => b)
  }

  function Padded(p: seq<byte>, size: nat): seq<byte>
    requires 0 < size < 256
  {
    var pad := size - |p| % size;
    p + Repeat(pad, pad)
  }

  method Pad(buf: array<byte>, size: nat) returns (out: array<byte>)
    requires 0 < size < 256
    ensures fresh(out) && out[..] == Padded(buf[..], size)
  {
    var pad := size - buf.Length % size;
    out := new byte[buf.Length + pad];
    Copy(out, 0, buf[..]);
    for i := buf.Length to out.Length
      invariant out[..buf.Length] == buf[..]
      invariant forall k :: buf.Length <= k < i ==> out[k] == pad
    {
      out[i] := pad;
    }
    assert out[..] == buf[..] + Repeat(pad, pad);
  }

  /** copy(out[at:], src). */
  method Copy(out: array<byte>, at: nat, src: seq<byte>)
    requires at + |src| <= out.Length
    modifies out
    ensures out[..] == old(out[..at]) + src + old(out[at + |src|..])
  {
    for i := 0 to |src|
      invariant forall k :: 0 <= k < i ==> out[at + k] == src[k]
      invariant forall k :: 0 <= k < out.Length && !(at <= k < at + i) ==> out[k] == old(out[k])
    {
      out[at + i] := src[i];
    }
  }

  /** Succeeds with p exactly when the buffer is the padding of p. */
  method Unpad(buf: array<byte>, size: nat) returns (r: Option<seq<byte>>)
    requires 0 < size < 256
    ensures forall p :: r == Some(p) <==> buf[..] == Padded(p, size)
  {
    ghost var all := buf[..];
    if buf.Length == 0 || buf.Length % size != 0 {
      NotPadded(all, size);
      return None;
    }
    var pad := buf[buf.Length - 1];
    if pad < 1 || pad > size || pad > buf.Length {
      NotPadded(all, size);
      return None;
    }
    for i := buf.Length - pad to buf.Length
      invariant forall k :: buf.Length - pad <= k < i ==> buf[k] == pad
    {
      if buf[i] != pad {
        NotPadded(all, size);
        return None;
      }
    }
    r := Some(buf[..buf.Length - pad]);
    IsPadded(all, size, pad);
  }

  /** A padded buffer is a whole number of blocks whose last byte counts the bytes like it. */
  predicate LooksPadded(buf: seq<byte>, size: nat)
    requires 0 < size < 256
  {
    |buf| > 0 && |buf| % size == 0 &&
    var pad := buf[|buf| - 1];
    1 <= pad <= size && pad <= |buf| && forall k :: |buf| - pad <= k < |buf| ==> buf[k] == pad
  }

  lemma PaddingFills(n: nat, size: nat)
    requires 0 < size
    ensures (n + (size - n % size)) % size == 0 && 1 <= size - n % size <= size
  {
    var q := n / size;
    assert n == q * size + n % size;
    Multiple(q + 1, size);
    assert n + (size - n % size) == (q + 1) * size;
  }

  lemma Multiple(q: nat, size: nat)
    requires 0 < size
    ensures q * size % size == 0
  {
    Remainder(q, size, 0);
  }

  lemma RestOfMultiple(n: nat, pad: nat, size: nat)
    requires 0 < size && n % size == 0 && 1 <= pad <= size && pad <= n
    ensures size - (n - pad) % size == pad
  {
    var q := n / size;
    assert n == q * size;
    if pad == size {
      assert n - pad == (q - 1) * size;
      Multiple(q - 1, size);
    } else {
      assert n - pad == (q - 1) * size + (size - pad);
      Remainder(q - 1, size, size - pad);
    }
  }

  lemma Remainder(q: nat, size: nat, r: nat)
    requires r < size
    ensures (q * size + r) % size == r
  {
    var n := q * size + r;
    var k := q - n / size;
    assert n == n / size * size + n % size;
    assert k * size == n % size - r by {
      assert k * size == q * size - n / size * size;
    }
    TimesSize(k, size);
  }

  lemma TimesSize(k: int, size: nat)
    ensures k > 0 ==> k * size >= size
    ensures k < 0 ==> k * size <= -(size as int)
  {
  }

  lemma NotPadded(buf: seq<byte>, size: nat)
    requires 0 < size < 256 && !LooksPadded(buf, size)
    ensures forall p :: buf != Padded(p, size)
  {
    forall p | buf == Padded(p, size) ensures false {
      PaddingFills(|p|, size);
      assert LooksPadded(buf, size);
    }
  }

  lemma IsPadded(buf: seq<byte>, size: nat, pad: nat)
    requires 0 < size < 256 && LooksPadded(buf, size) && pad == buf[|buf| - 1]
    ensures forall p :: p == buf[..|buf| - pad] <==> buf == Padded(p, size)
  {
    RestOfMultiple(|buf|, pad, size);
    var q := buf[..|buf| - pad];
    assert buf == q + Repeat(pad, pad);
    forall p | buf == Padded(p, size) ensures p == q {
      PaddingFills(|p|, size);
      assert buf[|buf| - 1] == size - |p| % size;
    }
  }

  // ----- CBC, section 6.2 of NIST SP 800-38A -----

  /** A block cipher and a MAC, each given a key. */
  datatype Crypto = Crypto(
    enc: (seq<byte>, seq<byte>) -> seq<byte>,
    dec: (seq<byte>, seq<byte>) -> seq<byte>,
    mac: (seq<byte>, seq<byte>) -> seq<byte>)

  /** Under every key enc and dec are inverse bijections of blocks. */
  ghost predicate Lawful(c: Crypto) {
    (forall k, b :: |b| == BLOCK ==> |c.enc(k, b)| == BLOCK && c.dec(k, c.enc(k, b)) == b) &&
    (forall k, b :: |b| == BLOCK ==> |c.dec(k, b)| == BLOCK && c.enc(k, c.dec(k, b)) == b) &&
    (forall k, m :: |c.mac(k, m)| == MAC_LEN)
  }

  function XorBits(a: nat, b: nat, bits: nat): (r: nat) {
    if bits == 0 then 0 else (if a % 2 == b % 2 then 0 else 1) + 2 * XorBits(a / 2, b / 2, bits - 1)
  }

  lemma {:induction false} XorBounded(a: nat, b: nat, bits: nat, limit: nat)
    requires limit == Power2(bits)
    ensures XorBits(a, b, bits) < limit
  {
    if bits > 0 { XorBounded(a / 2, b / 2, bits - 1, Power2(bits - 1)); }
  }

  function Power2(n: nat): nat { if n == 0 then 1 else 2 * Power2(n - 1) }

  lemma LowBit(low: nat, high: nat)
    requires low < 2
    ensures (low + 2 * high) % 2 == low && (low + 2 * high) / 2 == high
  {
  }

  lemma {:induction false} XorUndoes(a: nat, b: nat, bits: nat)
    requires a < Power2(bits)
    ensures XorBits(XorBits(a, b, bits), b, bits) == a
  {
    if bits > 0 {
      XorUndoes(a / 2, b / 2, bits - 1);
      LowBit(if a % 2 == b % 2 then 0 else 1, XorBits(a / 2, b / 2, bits - 1));
    }
  }

  function Xor(a: byte, b: byte): byte {
    XorBounded(a, b, 8, 256);
    XorBits(a, b, 8)
  }

  lemma XorTwice(a: byte, b: byte)
    ensures Xor(Xor(a, b), b) == a
  {
    XorUndoes(a, b, 8);
  }

  function XorBlock(a: seq<byte>, b: seq<byte>): (r: seq<byte>)
    requires |a| == |b| == BLOCK
    ensures |r| == BLOCK
  {
    seq(BLOCK, i requires 0 <= i < BLOCK => Xor(a[i], b[i]))
  }

  lemma XorBlockTwice(a: seq<byte>, b: seq<byte>)
    requires |a| == |b| == BLOCK
    ensures XorBlock(XorBlock(a, b), b) == a
  {
    forall i | 0 <= i < BLOCK ensures XorBlock(XorBlock(a, b), b)[i] == a[i] {
      XorTwice(a[i], b[i]);
    }
  }

  /** Bit i of a number, bit 0 being the lowest. */
  function Bit(n: nat, i: nat): bool {
    if i == 0 then n % 2 == 1 else Bit(n / 2, i - 1)
  }

  lemma {:induction false} XorIsBitwise(a: nat, b: nat, bits: nat, i: nat)
    requires i < bits
    ensures Bit(XorBits(a, b, bits), i) <==> Bit(a, i) != Bit(b, i)
  {
    LowBit(if a % 2 == b % 2 then 0 else 1, XorBits(a / 2, b / 2, bits - 1));
    if i > 0 { XorIsBitwise(a / 2, b / 2, bits - 1, i - 1); }
  }

  /** Bit by bit, m is the exclusive or of a and b. */
  ghost predicate IsXor(m: seq<byte>, a: seq<byte>, b: seq<byte>) {
    |m| == |a| == |b| && forall k, i :: 0 <= k < |m| && 0 <= i < 8 ==> (Bit(m[k], i) <==> Bit(a[k], i) != Bit(b[k], i))
  }

  lemma XorBlockIsXor(a: seq<byte>, b: seq<byte>)
    requires |a| == |b| == BLOCK
    ensures IsXor(XorBlock(a, b), a, b)
  {
    hide Bit, XorBits;
    forall k, i | 0 <= k < BLOCK && 0 <= i < 8 ensures Bit(XorBlock(a, b)[k], i) <==> Bit(a[k], i) != Bit(b[k], i) {
      XorIsBitwise(a[k], b[k], 8, i);
    }
  }

  /** Eight bits are the byte. */
  lemma {:induction false} BitsAreTheByte(a: nat, b: nat, bits: nat)
    requires a < Power2(bits) && b < Power2(bits) && forall i :: 0 <= i < bits ==> Bit(a, i) == Bit(b, i)
    ensures a == b
  {
    if bits > 0 {
      assert Bit(a, 0) == Bit(b, 0);
      forall i | 0 <= i < bits - 1 ensures Bit(a / 2, i) == Bit(b / 2, i) {
        assert Bit(a, i + 1) == Bit(b, i + 1);
      }
      BitsAreTheByte(a / 2, b / 2, bits - 1);
    }
  }

  /** A block has one exclusive or with another. */
  lemma XorIsUnique(m: seq<byte>, n: seq<byte>, a: seq<byte>, b: seq<byte>)
    requires IsXor(m, a, b) && IsXor(n, a, b)
    ensures m == n
  {
    hide Bit;
    forall k | 0 <= k < |m| ensures m[k] == n[k] {
      assert Power2(8) == 256;
      assert forall i :: 0 <= i < 8 ==> Bit(m[k], i) == Bit(n[k], i);
      BitsAreTheByte(m[k], n[k], 8);
    }
  }

  /** The i-th block of a text, counting from 0. */
  function Block(s: seq<byte>, i: nat): seq<byte>
    requires (i + 1) * BLOCK <= |s|
  {
    s[i * BLOCK..(i + 1) * BLOCK]
  }

  /** The equation of CBC: a block of the ciphertext enciphers the plaintext block XORed with
      the ciphertext block before it, or the IV. */
  ghost predicate CbcBlock(c: Crypto, key: seq<byte>, plain: seq<byte>, previous: seq<byte>, cipher: seq<byte>) {
    exists m :: IsXor(m, plain, previous) && cipher == c.enc(key, m)
  }

  lemma FirstBlock(c: Crypto, key: seq<byte>, plain: seq<byte>, iv: seq<byte>)
    requires |plain| == |iv| == BLOCK
    ensures CbcBlock(c, key, plain, iv, c.enc(key, XorBlock(plain, iv)))
  {
    XorBlockIsXor(plain, iv);
    hide IsXor, XorBlock;
  }

  lemma {:induction false} CbcEncryptsBlocks(c: Crypto, key: seq<byte>, iv: seq<byte>, p: seq<byte>, i: nat)
    requires Lawful(c) && |iv| == BLOCK && |p| % BLOCK == 0 && (i + 1) * BLOCK <= |p|
    ensures var t := CbcEncrypt(c, key, iv, p);
            CbcBlock(c, key, Block(p, i), if i == 0 then iv else Block(t, i - 1), Block(t, i))
    decreases i
  {
    hide IsXor, XorBlock, CbcBlock;
    var first, after := p[..BLOCK], p[BLOCK..];
    var b := c.enc(key, XorBlock(first, iv));
    var rest := CbcEncrypt(c, key, b, after);
    assert CbcEncrypt(c, key, iv, p) == b + rest && p == first + after;
    FirstBlock(c, key, first, iv);
    if i == 0 {
      assert Block(p, 0) == first && Block(b + rest, 0) == b;
    } else {
      CbcEncryptsBlocks(c, key, b, after, i - 1);
      hide Lawful, CbcEncrypt;
      BlockOfRest(first, after, i - 1);
      BlockOfRest(b, rest, i - 1);
      if i > 1 { BlockOfRest(b, rest, i - 2); }
    }
  }

  function CbcEncrypt(c: Crypto, key: seq<byte>, iv: seq<byte>, p: seq<byte>): (r: seq<byte>)
    requires Lawful(c) && |iv| == BLOCK && |p| % BLOCK == 0
    ensures |r| == |p|
    decreases |p|
  {
    if p == [] then []
    else
      var b := c.enc(key, XorBlock(p[..BLOCK], iv));
      b + CbcEncrypt(c, key, b, p[BLOCK..])
  }

  function CbcDecrypt(c: Crypto, key: seq<byte>, iv: seq<byte>, t: seq<byte>): (r: seq<byte>)
    requires Lawful(c) && |iv| == BLOCK && |t| % BLOCK == 0
    ensures |r| == |t|
    decreases |t|
  {
    if t == [] then []
    else XorBlock(c.dec(key, t[..BLOCK]), iv) + CbcDecrypt(c, key, t[..BLOCK], t[BLOCK..])
  }

  /** The block after the first is the next one of the rest. */
  lemma BlockOfRest(first: seq<byte>, rest: seq<byte>, i: nat)
    requires |first| == BLOCK && (i + 1) * BLOCK <= |rest|
    ensures Block(first + rest, 0) == first && Block(first + rest, i + 1) == Block(rest, i)
  {
  }

  /** The equation of decryption: a plaintext block is the deciphered block XORed with the
      ciphertext block before it, or the IV. */
  lemma {:induction false} CbcDecryptsBlocks(c: Crypto, key: seq<byte>, iv: seq<byte>, t: seq<byte>, i: nat)
    requires Lawful(c) && |iv| == BLOCK && |t| % BLOCK == 0 && (i + 1) * BLOCK <= |t|
    ensures IsXor(Block(CbcDecrypt(c, key, iv, t), i), c.dec(key, Block(t, i)), if i == 0 then iv else Block(t, i - 1))
    decreases i
  {
    var first, after := t[..BLOCK], t[BLOCK..];
    var x, rest := XorBlock(c.dec(key, first), iv), CbcDecrypt(c, key, first, after);
    assert CbcDecrypt(c, key, iv, t) == x + rest && t == first + after;
    XorBlockIsXor(c.dec(key, first), iv);
    hide IsXor, XorBlock;
    if i == 0 {
      assert Block(x + rest, 0) == x && Block(t, 0) == first;
    } else {
      CbcDecryptsBlocks(c, key, first, after, i - 1);
      hide Lawful, CbcDecrypt;
      BlockOfRest(x, rest, i - 1);
      BlockOfRest(first, after, i - 1);
      if i > 1 { BlockOfRest(first, after, i - 2); }
    }
  }

  lemma {:induction false} CbcDecryptsWhatItEncrypts(c: Crypto, key: seq<byte>, iv: seq<byte>, p: seq<byte>)
    requires Lawful(c) && |iv| == BLOCK && |p| % BLOCK == 0
    ensures CbcDecrypt(c, key, iv, CbcEncrypt(c, key, iv, p)) == p
    decreases |p|
  {
    if p != [] {
      var x := XorBlock(p[..BLOCK], iv);
      var b := c.enc(key, x);
      var rest := CbcEncrypt(c, key, b, p[BLOCK..]);
      assert (b + rest)[..BLOCK] == b && (b + rest)[BLOCK..] == rest;
      XorBlockTwice(p[..BLOCK], iv);
      CbcDecryptsWhatItEncrypts(c, key, b, p[BLOCK..]);
    }
  }

  lemma {:induction false} CbcEncryptsWhatItDecrypts(c: Crypto, key: seq<byte>, iv: seq<byte>, t: seq<byte>)
    requires Lawful(c) && |iv| == BLOCK && |t| % BLOCK == 0
    ensures CbcEncrypt(c, key, iv, CbcDecrypt(c, key, iv, t)) == t
    decreases |t|
  {
    if t != [] {
      var b := t[..BLOCK];
      var x := XorBlock(c.dec(key, b), iv);
      var rest := CbcDecrypt(c, key, b, t[BLOCK..]);
      assert (x + rest)[..BLOCK] == x && (x + rest)[BLOCK..] == rest;
      XorBlockTwice(c.dec(key, b), iv);
      CbcEncryptsWhatItDecrypts(c, key, b, t[BLOCK..]);
    }
  }

  // ----- the token -----

  /** binary.BigEndian.PutUint64. */
  function BigEndian(v: nat, n: nat): (r: seq<byte>)
    ensures |r| == n
  {
    if n == 0 then [] else BigEndian(v / 256, n - 1) + [v % 256]
  }

  function FromBigEndian(b: seq<byte>): nat {
    if b == [] then 0 else FromBigEndian(b[..|b| - 1]) * 256 + b[|b| - 1]
  }

  lemma {:induction false} BigEndianCovers(b: seq<byte>)
    ensures BigEndian(FromBigEndian(b), |b|) == b
  {
    if b != [] {
      BigEndianCovers(b[..|b| - 1]);
      assert b == b[..|b| - 1] + [b[|b| - 1]];
    }
  }

  lemma {:induction false} BigEndianFits(b: seq<byte>, n: nat)
    requires |b| <= n
    ensures FromBigEndian(b) < Power256(n)
  {
    if b != [] {
      BigEndianFits(b[..|b| - 1], n - 1);
    }
  }

  function Power256(n: nat): (r: nat)
    ensures r >= 1
  {
    if n == 0 then 1 else 256 * Power256(n - 1)
  }

  /** Everything the MAC covers. */
  function Signed(c: Crypto, key: seq<byte>, stamp: nat, iv: seq<byte>, p: seq<byte>): seq<byte>
    requires Lawful(c) && |key| == KEY_LEN && |iv| == BLOCK
  {
    PaddingFills(|p|, BLOCK);
    [VERSION] + BigEndian(stamp, STAMP_LEN) + iv + CbcEncrypt(c, key[SIGNING_LEN..], iv, Padded(p, BLOCK))
  }

  function Token(c: Crypto, key: seq<byte>, stamp: nat, iv: seq<byte>, p: seq<byte>): seq<byte>
    requires Lawful(c) && |key| == KEY_LEN && |iv| == BLOCK
  {
    var signed := Signed(c, key, stamp, iv, p);
    signed + c.mac(key[..SIGNING_LEN], signed)
  }

  function DecodeUrl(s: string): Option<seq<byte>> {
    match |s| % 4
    case 1 => None
    case 2 => Decode(URL, s + "==")
    case 3 => Decode(URL, s + "=")
    case _ => Decode(URL, s)
  }

  /** A key text that decodes to a key of the right length. */
  predicate GoodKey(key: string) {
    DecodeUrl(key).Some? && |DecodeUrl(key).value| == KEY_LEN
  }

  function CiphertextOf(data: seq<byte>): seq<byte>
    requires |data| >= MIN_LEN
  {
    data[HEADER_LEN..|data| - MAC_LEN]
  }

  /** The checks of Decrypt before it decrypts. */
  predicate Shaped(c: Crypto, key: seq<byte>, data: seq<byte>)
    requires |key| == KEY_LEN
  {
    |data| >= MIN_LEN && data[0] == VERSION &&
    c.mac(key[..SIGNING_LEN], data[..|data| - MAC_LEN]) == data[|data| - MAC_LEN..] &&
    |CiphertextOf(data)| != 0 && |CiphertextOf(data)| % BLOCK == 0
  }

  ghost predicate Plain(c: Crypto, key: seq<byte>, data: seq<byte>, p: seq<byte>)
    requires Lawful(c) && |key| == KEY_LEN
  {
    Shaped(c, key, data) &&
    CbcDecrypt(c, key[SIGNING_LEN..], data[1 + STAMP_LEN..HEADER_LEN], CiphertextOf(data)) == Padded(p, BLOCK)
  }

  lemma TokenIsPlain(c: Crypto, key: seq<byte>, stamp: nat, iv: seq<byte>, p: seq<byte>)
    requires Lawful(c) && |key| == KEY_LEN && |iv| == BLOCK
    ensures Plain(c, key, Token(c, key, stamp, iv, p), p)
  {
    PaddingFills(|p|, BLOCK);
    var signed := Signed(c, key, stamp, iv, p);
    var data := Token(c, key, stamp, iv, p);
    var ct := CbcEncrypt(c, key[SIGNING_LEN..], iv, Padded(p, BLOCK));
    hide CbcEncrypt, CbcDecrypt, Padded, BigEndian;
    assert data[..|data| - MAC_LEN] == signed && data[|data| - MAC_LEN..] == c.mac(key[..SIGNING_LEN], signed);
    assert data[1 + STAMP_LEN..HEADER_LEN] == iv;
    assert CiphertextOf(data) == ct;
    CbcDecryptsWhatItEncrypts(c, key[SIGNING_LEN..], iv, Padded(p, BLOCK));
  }

  lemma PlainIsToken(c: Crypto, key: seq<byte>, data: seq<byte>, p: seq<byte>)
    requires Lawful(c) && |key| == KEY_LEN && Plain(c, key, data, p)
    ensures FromBigEndian(data[1..1 + STAMP_LEN]) < Power256(STAMP_LEN)
    ensures data == Token(c, key, FromBigEndian(data[1..1 + STAMP_LEN]), data[1 + STAMP_LEN..HEADER_LEN], p)
  {
    var iv := data[1 + STAMP_LEN..HEADER_LEN];
    hide CbcEncrypt, CbcDecrypt, Padded, BigEndian, FromBigEndian;
    BigEndianCovers(data[1..1 + STAMP_LEN]);
    BigEndianFits(data[1..1 + STAMP_LEN], STAMP_LEN);
    CbcEncryptsWhatItDecrypts(c, key[SIGNING_LEN..], iv, CiphertextOf(data));
    var signed := data[..|data| - MAC_LEN];
    assert signed == [VERSION] + data[1..1 + STAMP_LEN] + iv + CiphertextOf(data);
    assert data == signed + data[|data| - MAC_LEN..];
  }

  /** The text decodes to a token made under the key, for some time and IV, from p. */
  ghost predicate Opens(c: Crypto, key: string, token: string, p: seq<byte>)
    requires Lawful(c)
  {
    GoodKey(key) && DecodeUrl(token).Some? &&
    exists stamp: nat, iv ::
      stamp < Power256(STAMP_LEN) && |iv| == BLOCK && DecodeUrl(token).value == Token(c, DecodeUrl(key).value, stamp, iv, p)
  }

  lemma OpensIffPlain(c: Crypto, key: string, token: string, p: seq<byte>)
    requires Lawful(c)
    ensures Opens(c, key, token, p) <==>
            GoodKey(key) && DecodeUrl(token).Some? && Plain(c, DecodeUrl(key).value, DecodeUrl(token).value, p)
  {
    hide CbcDecrypt, Padded, Token, DecodeUrl;
    if GoodKey(key) && DecodeUrl(token).Some? {
      var k, data := DecodeUrl(key).value, DecodeUrl(token).value;
      if Opens(c, key, token, p) {
        var stamp: nat, iv :| |iv| == BLOCK && data == Token(c, k, stamp, iv, p);
        TokenIsPlain(c, k, stamp, iv, p);
      }
      if Plain(c, k, data, p) {
        PlainIsToken(c, k, data, p);
        var stamp, iv := FromBigEndian(data[1..1 + STAMP_LEN]), data[1 + STAMP_LEN..HEADER_LEN];
        assert |iv| == BLOCK && data == Token(c, k, stamp, iv, p);
      }
    }
  }

  /** The bytes before the MAC, as Encrypt lays them out in its buffer. */
  method Assemble(stamp: seq<byte>, iv: seq<byte>, ciphertext: seq<byte>) returns (token: array<byte>)
    requires |stamp| == STAMP_LEN && |iv| == BLOCK
    ensures fresh(token) && token.Length == HEADER_LEN + |ciphertext| + MAC_LEN
    ensures token[..token.Length - MAC_LEN] == [VERSION] + stamp + iv + ciphertext
  {
    token := new byte[HEADER_LEN + |ciphertext| + MAC_LEN];
    token[0] := VERSION;
    Copy(token, 1, stamp);
    Copy(token, 1 + STAMP_LEN, iv);
    Copy(token, HEADER_LEN, ciphertext);
  }

  /** now is the Unix time as an unsigned 64-bit number, iv what the random source gave. */
  method Encrypt(c: Crypto, key: string, plaintext: array<byte>, now: nat, iv: Option<seq<byte>>) returns (r: Option<string>)
    requires Lawful(c) && now < Power256(STAMP_LEN) && (iv.Some? ==> |iv.value| == BLOCK)
    ensures r.Some? <==> GoodKey(key) && iv.Some?
    ensures r.Some? ==> r.value == Encode(URL, Token(c, DecodeUrl(key).value, now, iv.value, plaintext[..]))
  {
    hide Encode, DecodeUrl, BigEndian, CbcEncrypt, Padded;
    var k := DecodeUrl(key);
    if k.None? || |k.value| != KEY_LEN { return None; }
    if iv.None? { return None; }
    PaddingFills(plaintext.Length, BLOCK);
    var padded := Pad(plaintext, BLOCK);
    PaddedLength(plaintext[..], BLOCK);
    var ciphertext := CbcEncrypt(c, k.value[SIGNING_LEN..], iv.value, padded[..]);
    var token := Assemble(BigEndian(now, STAMP_LEN), iv.value, ciphertext);
    ghost var signed := Signed(c, k.value, now, iv.value, plaintext[..]);
    Copy(token, token.Length - MAC_LEN, c.mac(k.value[..SIGNING_LEN], token[..token.Length - MAC_LEN]));
    assert token[..] == Token(c, k.value, now, iv.value, plaintext[..]);
    return Some(Encode(URL, token[..]));
  }

  lemma PaddedLength(p: seq<byte>, size: nat)
    requires 0 < size < 256
    ensures |Padded(p, size)| % size == 0
  {
    PaddingFills(|p|, size);
  }

  /** Accepts exactly the texts that decode to a token made under this key, for some time
      and IV, and returns that token's plaintext. */
  method Decrypt(c: Crypto, key: string, token: string) returns (r: Option<seq<byte>>)
    requires Lawful(c)
    ensures forall p :: r == Some(p) <==> Opens(c, key, token, p)
  {
    hide DecodeUrl, CbcDecrypt, Padded, Opens;
    forall p ensures Opens(c, key, token, p) <==>
        GoodKey(key) && DecodeUrl(token).Some? && Plain(c, DecodeUrl(key).value, DecodeUrl(token).value, p)
    {
      OpensIffPlain(c, key, token, p);
    }
    var k := DecodeUrl(key);
    if k.None? || |k.value| != KEY_LEN { return None; }
    var data := DecodeUrl(token);
    if data.None? { return None; }
    if |data.value| < MIN_LEN || data.value[0] != VERSION { return None; }
    var signed := data.value[..|data.value| - MAC_LEN];
    if c.mac(k.value[..SIGNING_LEN], signed) != data.value[|data.value| - MAC_LEN..] { return None; }
    var iv := data.value[1 + STAMP_LEN..HEADER_LEN];
    var ciphertext := CiphertextOf(data.value);
    if |ciphertext| == 0 || |ciphertext| % BLOCK != 0 { return None; }
    var plaintext := new byte[|ciphertext|];
    Copy(plaintext, 0, CbcDecrypt(c, k.value[SIGNING_LEN..], iv, ciphertext));
    r := Unpad(plaintext, BLOCK);
  }

  // ----- the layout of a token, byte by byte -----

  /** The k-th digit of v to the base 256, digit 0 being the lowest. */
  function Digit256(v: nat, k: nat): byte {
    if k == 0 then v % 256 else Digit256(v / 256, k - 1)
  }

  lemma {:induction false} BigEndianDigits(v: nat, n: nat, i: nat)
    requires i < n
    ensures BigEndian(v, n)[i] == Digit256(v, n - 1 - i)
  {
    if i < n - 1 { BigEndianDigits(v / 256, n - 1, i); }
  }

  /** b is v in base 256, highest digit first. */
  ghost predicate IsBigEndian(b: seq<byte>, v: nat) {
    forall i :: 0 <= i < |b| ==> b[i] == Digit256(v, |b| - 1 - i)
  }

  /** p with one to sixteen bytes behind it, each their count, in whole blocks. */
  ghost predicate IsPaddingOf(padded: seq<byte>, p: seq<byte>) {
    |p| < |padded| <= |p| + 16 && |padded| % 16 == 0 && padded[..|p|] == p &&
    forall i :: |p| <= i < |padded| ==> padded[i] == |padded| - |p|
  }

  /** Every block satisfies the equation of CBC. */
  ghost predicate IsChained(c: Crypto, key: seq<byte>, iv: seq<byte>, plain: seq<byte>, cipher: seq<byte>) {
    |cipher| == |plain| && |plain| % BLOCK == 0 &&
    forall i: nat :: (i + 1) * BLOCK <= |plain| ==> ChainedAt(c, key, iv, plain, cipher, i)
  }

  ghost predicate ChainedAt(c: Crypto, key: seq<byte>, iv: seq<byte>, plain: seq<byte>, cipher: seq<byte>, i: nat)
    requires |cipher| == |plain| && (i + 1) * BLOCK <= |plain|
  {
    CbcBlock(c, key, Block(plain, i), if i == 0 then iv else Block(cipher, i - 1), Block(cipher, i))
  }

  lemma PaddedIsPadding(p: seq<byte>)
    ensures IsPaddingOf(Padded(p, BLOCK), p)
  {
    PaddedLength(p, BLOCK);
    PaddingFills(|p|, BLOCK);
  }

  lemma EncryptIsChained(c: Crypto, key: seq<byte>, iv: seq<byte>, plain: seq<byte>)
    requires Lawful(c) && |iv| == BLOCK && |plain| % BLOCK == 0
    ensures IsChained(c, key, iv, plain, CbcEncrypt(c, key, iv, plain))
  {
    var cipher := CbcEncrypt(c, key, iv, plain);
    forall i: nat | (i + 1) * BLOCK <= |plain| ensures ChainedAt(c, key, iv, plain, cipher, i) {
      CbcEncryptsBlocks(c, key, iv, plain, i);
    }
  }

  /** The layout of section "Token Format" of the Fernet specification: the version, eight
      bytes of seconds, the IV, the padded plaintext in CBC under the last sixteen bytes of
      the key, and a MAC of all that under the first sixteen. */
  lemma TokenLayout(c: Crypto, key: seq<byte>, stamp: nat, iv: seq<byte>, p: seq<byte>)
    returns (time: seq<byte>, padded: seq<byte>, cipher: seq<byte>)
    requires Lawful(c) && |key| == 32 && |iv| == 16
    ensures |time| == 8 && IsBigEndian(time, stamp)
    ensures IsPaddingOf(padded, p) && IsChained(c, key[16..], iv, padded, cipher)
    ensures Token(c, key, stamp, iv, p) == [0x80] + time + iv + cipher + c.mac(key[..16], [0x80] + time + iv + cipher)
  {
    PaddedIsPadding(p);
    PaddedLength(p, BLOCK);
    time, padded := BigEndian(stamp, 8), Padded(p, BLOCK);
    cipher := CbcEncrypt(c, key[16..], iv, padded);
    EncryptIsChained(c, key[16..], iv, padded);
    hide CbcEncrypt, Padded, IsPaddingOf, IsChained, BigEndian;
    forall i | 0 <= i < 8 ensures time[i] == Digit256(stamp, 8 - 1 - i) {
      BigEndianDigits(stamp, 8, i);
    }
  }

  // ----- the law of the codec -----

  /** Every plaintext, encrypted under any usable key at any time with any IV, is the one
      plaintext that Decrypt can return for the token, and it does return it. */
  lemma DecryptOpensWhatEncryptMade(c: Crypto, key: string, stamp: nat, iv: seq<byte>, p: seq<byte>, q: seq<byte>)
    requires Lawful(c) && GoodKey(key) && stamp < Power256(STAMP_LEN) && |iv| == BLOCK
    ensures Opens(c, key, Encode(URL, Token(c, DecodeUrl(key).value, stamp, iv, p)), q) <==> q == p
  {
    hide DecodeUrl, Token, Encode;
    var k := DecodeUrl(key).value;
    var data := Token(c, k, stamp, iv, p);
    EncodedIsDecoded(data);
    TokenIsPlain(c, k, stamp, iv, p);
    OpensIffPlain(c, key, Encode(URL, data), q);
    OpensIffPlain(c, key, Encode(URL, data), p);
    if Plain(c, k, data, q) {
      PaddedIsInjective(p, q);
    }
  }

  /** Keys and tokens are read whether or not they are padded. */
  lemma UnpaddedIsDecoded(data: seq<byte>)
    ensures DecodeUrl(Encode(Encoding(UrlSafe, false), data)) == Some(data)
  {
    EncodedIsDecoded(data);
    var raw := Encode(Encoding(UrlSafe, false), data);
    EncodedText(Encoding(UrlSafe, false), data);
    EncodedText(URL, data);
    PaddingIsOnlyAdded(UrlSafe, data);
    RoundTrip(URL, data);
    hide Decode, Encode;
    if |data| % 3 == 0 {
      Remainder(|data| / 3, 4, 0) by { assert |raw| == |data| / 3 * 4; }
      assert raw + "" == raw;
    } else if |data| % 3 == 1 {
      Remainder(|data| / 3, 4, 2) by { assert |raw| == |data| / 3 * 4 + 2; }
    } else {
      Remainder(|data| / 3, 4, 3) by { assert |raw| == |data| / 3 * 4 + 3; }
    }
  }

  lemma EncodedIsDecoded(data: seq<byte>)
    ensures DecodeUrl(Encode(URL, data)) == Some(data)
  {
    RoundTrip(URL, data);
    EncodedText(URL, data);
    Multiple((|data| + 2) / 3, 4);
    hide Decode, Encode;
  }

  lemma PaddedIsInjective(p: seq<byte>, q: seq<byte>)
    requires Padded(p, BLOCK) == Padded(q, BLOCK)
    ensures p == q
  {
    var buf := Padded(p, BLOCK);
    PaddingFills(|p|, BLOCK);
    assert LooksPadded(buf, BLOCK);
    IsPadded(buf, BLOCK, buf[|buf| - 1]);
  }
}
