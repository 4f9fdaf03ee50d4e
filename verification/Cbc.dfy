/** Cipher block chaining as in section 6.2 of NIST SP 800-38A, over an abstract
    block cipher. */
module Cbc {
  import opened Bytes

  /** What the codec takes from its libraries: the AES block functions under a
      16-octet key, and the MD5 digest. */
  datatype Crypto = Crypto(
    encrypt: (CipherBlock, CipherBlock) -> CipherBlock,
    decrypt: (CipherBlock, CipherBlock) -> CipherBlock,
    md5: seq<byte> -> CipherBlock)
  {
    /** Under every key the two block functions are inverse to each other. */
    ghost predicate Permutation() {
      && (forall k: CipherBlock, b: CipherBlock :: decrypt(k, encrypt(k, b)) == b)
      && (forall k: CipherBlock, b: CipherBlock :: encrypt(k, decrypt(k, b)) == b)
    }
  }

  function Pow2(k: nat): (r: nat)
    ensures r >= 1
  {
    if k == 0 then 1 else 2 * Pow2(k - 1)
  }

  /** Exclusive or of the low `bits` bits. */
  function XorBits(a: nat, b: nat, bits: nat): (r: nat)
    ensures r < Pow2(bits)
  {
    if bits == 0 then 0
    else (if a % 2 == b % 2 then 0 else 1) + 2 * XorBits(a / 2, b / 2, bits - 1)
  }

  lemma {:induction false} XorBitsCancel(a: nat, b: nat, bits: nat)
    requires a < Pow2(bits)
    ensures XorBits(XorBits(a, b, bits), b, bits) == a
  {
    if bits > 0 {
      var low, high := if a % 2 == b % 2 then 0 else 1, XorBits(a / 2, b / 2, bits - 1);
      var r := low + 2 * high;
      assert XorBits(a, b, bits) == r && r % 2 == low && r / 2 == high;
      XorBitsCancel(a / 2, b / 2, bits - 1);
      assert XorBits(high, b / 2, bits - 1) == a / 2;
    }
  }

  lemma Pow2Of8()
    ensures Pow2(8) == 256
  {
    assert Pow2(4) == 16;
  }

  function Xor(a: byte, b: byte): (r: byte)
  {
    Pow2Of8();
    XorBits(a, b, 8)
  }

  function XorBlock(a: CipherBlock, b: CipherBlock): (r: CipherBlock)
    ensures forall i :: 0 <= i < 16 ==> r[i] == Xor(a[i], b[i])
  {
    seq(16, i requires 0 <= i < 16 => Xor(a[i], b[i]))
  }

  lemma XorBlockCancel(a: CipherBlock, b: CipherBlock)
    ensures XorBlock(XorBlock(a, b), b) == a
  {
    Pow2Of8();
    forall i | 0 <= i < 16 ensures XorBlock(XorBlock(a, b), b)[i] == a[i] {
      XorBitsCancel(a[i], b[i], 8);
    }
  }

  function Encrypt(c: Crypto, key: CipherBlock, iv: CipherBlock, plain: seq<byte>): (r: seq<byte>)
    requires |plain| % 16 == 0
    ensures |r| == |plain|
    decreases |plain|
  {
    if plain == [] then []
    else
      var first := c.encrypt(key, XorBlock(plain[..16], iv));
      first + Encrypt(c, key, first, plain[16..])
  }

  function Decrypt(c: Crypto, key: CipherBlock, iv: CipherBlock, cipher: seq<byte>): (r: seq<byte>)
    requires |cipher| % 16 == 0
    ensures |r| == |cipher|
    decreases |cipher|
  {
    if cipher == [] then []
    else XorBlock(c.decrypt(key, cipher[..16]), iv) + Decrypt(c, key, cipher[..16], cipher[16..])
  }

  lemma {:induction false} DecryptOfEncrypt(c: Crypto, key: CipherBlock, iv: CipherBlock, plain: seq<byte>)
    requires c.Permutation()
    requires |plain| % 16 == 0
    ensures Decrypt(c, key, iv, Encrypt(c, key, iv, plain)) == plain
    decreases |plain|
  {
    if plain != [] {
      var first := c.encrypt(key, XorBlock(plain[..16], iv));
      var whole := Encrypt(c, key, iv, plain);
      assert whole[..16] == first && whole[16..] == Encrypt(c, key, first, plain[16..]);
      XorBlockCancel(plain[..16], iv);
      DecryptOfEncrypt(c, key, first, plain[16..]);
    }
  }

  lemma {:induction false} EncryptOfDecrypt(c: Crypto, key: CipherBlock, iv: CipherBlock, cipher: seq<byte>)
    requires c.Permutation()
    requires |cipher| % 16 == 0
    ensures Encrypt(c, key, iv, Decrypt(c, key, iv, cipher)) == cipher
    decreases |cipher|
  {
    if cipher != [] {
      var first := XorBlock(c.decrypt(key, cipher[..16]), iv);
      var whole := Decrypt(c, key, iv, cipher);
      assert whole[..16] == first && whole[16..] == Decrypt(c, key, cipher[..16], cipher[16..]);
      XorBlockCancel(c.decrypt(key, cipher[..16]), iv);
      EncryptOfDecrypt(c, key, cipher[..16], cipher[16..]);
    }
  }
}
