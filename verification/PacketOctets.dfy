/** What the packets of pkg/rockrobo/cloud.go are, octet by octet: the key and the vector
    that a body is encrypted with, each block of it, the checksum, and what of a packet
    decides how reading it ends. */
module PacketOctets {
  import opened Bytes
  import opened Cbc
  import opened Padding
  import opened CloudPacket

  // ----- exclusive or

  /** Bit `k` of an octet. */
  function Bit(n: byte, k: nat): nat
    requires k < 8
  {
    n / [1, 2, 4, 8, 16, 32, 64, 128][k] % 2
  }

  lemma LowAndHigh(low: nat, high: nat)
    requires low < 2
    ensures (low + 2 * high) % 2 == low && (low + 2 * high) / 2 == high
  {
  }

  lemma XorStep(a: nat, b: nat, bits: nat)
    requires bits > 0
    ensures XorBits(a, b, bits) % 2 == if a % 2 == b % 2 then 0 else 1
    ensures XorBits(a, b, bits) / 2 == XorBits(a / 2, b / 2, bits - 1)
  {
    LowAndHigh(if a % 2 == b % 2 then 0 else 1, XorBits(a / 2, b / 2, bits - 1));
  }

  function Halved(n: nat, k: nat): nat {
    if k == 0 then n else Halved(n / 2, k - 1)
  }

  lemma {:induction false} XorBitsAt(a: nat, b: nat, bits: nat, k: nat)
    requires k < bits
    ensures Halved(XorBits(a, b, bits), k) % 2 == if Halved(a, k) % 2 == Halved(b, k) % 2 then 0 else 1
  {
    XorStep(a, b, bits);
    if k > 0 {
      XorBitsAt(a / 2, b / 2, bits - 1, k - 1);
    }
  }

  lemma HalvedLow(n: byte)
    ensures Halved(n, 0) == n && Halved(n, 1) == n / 2 && Halved(n, 2) == n / 4 && Halved(n, 3) == n / 8
  {
    assert Halved(n, 2) == Halved(n / 2, 1) == n / 2 / 2;
    assert Halved(n, 3) == Halved(n / 2, 2) == Halved(n / 2 / 2, 1) == n / 2 / 2 / 2;
  }

  lemma HalvedMore(n: nat, j: nat, k: nat)
    ensures Halved(n, j + k) == Halved(Halved(n, j), k)
  {
    if j > 0 {
      HalvedMore(n / 2, j - 1, k);
    }
  }

  lemma HalvedHigh(n: byte)
    ensures Halved(n, 4) == n / 16 && Halved(n, 5) == n / 32 && Halved(n, 6) == n / 64 && Halved(n, 7) == n / 128
  {
    HalvedLow(n);
    HalvedMore(n, 3, 1);
    HalvedMore(n, 4, 1);
    HalvedMore(n, 5, 1);
    HalvedMore(n, 6, 1);
  }

  lemma BitIsHalved(n: byte, k: nat)
    requires k < 8
    ensures Bit(n, k) == Halved(n, k) % 2
  {
    HalvedLow(n);
    HalvedHigh(n);
    assert k == 0 || k == 1 || k == 2 || k == 3 || k == 4 || k == 5 || k == 6 || k == 7;
  }

  /** Exclusive or, bit by bit. */
  lemma XorBit(a: byte, b: byte, k: nat)
    requires k < 8
    ensures Bit(Xor(a, b), k) == if Bit(a, k) == Bit(b, k) then 0 else 1
  {
    Pow2Of8();
    BitIsHalved(a, k);
    BitIsHalved(b, k);
    BitIsHalved(Xor(a, b), k);
    XorBitsAt(a, b, 8, k);
  }

  // ----- the blocks

  /** The block that follows `i` whole ones from `from` on. */
  function BlockAt(s: seq<byte>, from: nat, i: nat): CipherBlock
    requires from + 16 * i + 16 <= |s|
  {
    s[from + 16 * i..from + 16 * i + 16]
  }

  lemma BlockOfRest(s: seq<byte>, i: nat)
    requires i > 0 && 16 * i + 16 <= |s|
    ensures BlockAt(s[16..], 0, i - 1) == BlockAt(s, 0, i)
  {
  }

  lemma BlockOfTail(head: seq<byte>, s: seq<byte>, i: nat)
    requires i > 0 && |head| == 16 && 16 * i <= |s|
    ensures BlockAt(head + s, 0, i) == BlockAt(s, 0, i - 1)
  {
    assert (head + s)[16..] == s;
  }

  /** Every block is encrypted after exclusive or with the cipher block before it. */
  lemma {:induction false} EncryptedBlock(c: Crypto, key: CipherBlock, iv: CipherBlock, plain: seq<byte>, i: nat)
    requires |plain| % 16 == 0 && 16 * i < |plain|
    ensures BlockAt(Encrypt(c, key, iv, plain), 0, i)
         == c.encrypt(key, XorBlock(BlockAt(plain, 0, i),
                                    if i == 0 then iv else BlockAt(Encrypt(c, key, iv, plain), 0, i - 1)))
    decreases i
  {
    var first: seq<byte> := c.encrypt(key, XorBlock(plain[..16], iv));
    var more: seq<byte> := Encrypt(c, key, first, plain[16..]);
    assert Encrypt(c, key, iv, plain) == first + more;
    if i == 0 {
      assert (first + more)[0..16] == first && plain[0..16] == plain[..16];
    } else {
      EncryptedBlock(c, key, first, plain[16..], i - 1);
      BlockOfRest(plain, i);
      BlockOfTail(first, more, i);
      if i == 1 {
        assert BlockAt(first + more, 0, 0) == first;
      } else {
        BlockOfTail(first, more, i - 1);
      }
    }
  }

  /** Every block is decrypted and then combined with the cipher block before it. */
  lemma {:induction false} DecryptedBlock(c: Crypto, key: CipherBlock, iv: CipherBlock, cipher: seq<byte>, i: nat)
    requires |cipher| % 16 == 0 && 16 * i < |cipher|
    ensures BlockAt(Decrypt(c, key, iv, cipher), 0, i)
         == XorBlock(c.decrypt(key, BlockAt(cipher, 0, i)), if i == 0 then iv else BlockAt(cipher, 0, i - 1))
    decreases i
  {
    var first: seq<byte> := XorBlock(c.decrypt(key, cipher[..16]), iv);
    var more: seq<byte> := Decrypt(c, key, cipher[..16], cipher[16..]);
    assert Decrypt(c, key, iv, cipher) == first + more;
    if i == 0 {
      assert (first + more)[0..16] == first && cipher[0..16] == cipher[..16];
    } else {
      DecryptedBlock(c, key, cipher[..16], cipher[16..], i - 1);
      BlockOfRest(cipher, i);
      BlockOfTail(first, more, i);
      if i == 1 {
        assert BlockAt(cipher, 0, 0) == cipher[..16];
      } else {
        BlockOfRest(cipher, i - 1);
      }
    }
  }

  lemma BlockBehindHeader(packet: seq<byte>, i: nat)
    requires 48 + 16 * i <= |packet|
    ensures BlockAt(packet[32..], 0, i) == BlockAt(packet, 32, i)
  {
  }

  // ----- what Write writes

  lemma BlocksBehindHeader(c: Crypto, k: CipherBlock, iv: CipherBlock, packet: seq<byte>, plain: seq<byte>, i: nat)
    requires |packet| >= 32 && |plain| % 16 == 0 && 16 * i < |plain|
    requires packet[32..] == Encrypt(c, k, iv, plain)
    ensures |packet| == 32 + |plain|
    ensures BlockAt(packet, 32, i)
         == c.encrypt(k, XorBlock(BlockAt(plain, 0, i), if i == 0 then iv else BlockAt(packet, 32, i - 1)))
  {
    EncryptedBlock(c, k, iv, plain, i);
    BlockBehindHeader(packet, i);
    if i > 0 {
      BlockBehindHeader(packet, i - 1);
    }
  }

  lemma WrittenCipher(c: Crypto, m: Message, key: seq<byte>)
    requires m.body != []
    ensures Written(c, m, key)[32..] == Encrypt(c, c.md5(key), c.md5(c.md5(key) + key), Pad(m.body))
  {
    WrittenParts(c, m, key);
  }

  /** Block `i` of the ciphertext: the key is the digest of the given key, the vector is the
      digest of that key and the given key. */
  lemma WrittenBlock(c: Crypto, m: Message, key: seq<byte>, i: nat)
    requires m.body != [] && 16 * i < |Pad(m.body)|
    ensures |Written(c, m, key)| == 32 + |Pad(m.body)|
    ensures BlockAt(Written(c, m, key), 32, i)
         == c.encrypt(c.md5(key), XorBlock(BlockAt(Pad(m.body), 0, i),
                                           if i == 0 then c.md5(c.md5(key) + key)
                                           else BlockAt(Written(c, m, key), 32, i - 1)))
  {
    WrittenCipher(c, m, key);
    BlocksBehindHeader(c, c.md5(key), c.md5(c.md5(key) + key), Written(c, m, key), Pad(m.body), i);
  }

  /** The checksum of a written packet: the digest of the first half of its header, the
      key and all that is behind the header. */
  lemma WrittenChecksum(c: Crypto, m: Message, key: seq<byte>)
    requires m.body != []
    ensures var packet := Written(c, m, key); packet[16..32] == c.md5(packet[..16] + key + packet[32..])
  {
    var packet, h := Written(c, m, key), SealedHeader(c, m, key);
    WrittenParts(c, m, key);
    EncodeOfDecodeHeader(packet[..32]);
    assert packet[..16] == EncodeHeader(h)[..16];
    assert packet[16..32] == EncodeHeader(h)[16..32];
    HeaderLayout(h);
  }

  /** The rest of the header of a written packet: that of the message, but for the length. */
  lemma WrittenHeader(c: Crypto, m: Message, key: seq<byte>)
    ensures var packet: seq<int>, h := Written(c, m, key), m.header;
            && |packet| >= 32
            && packet[0..2] == h.magic && packet[4..8] == h.unknown
            && 0x100 * packet[2] + packet[3] == |packet| % 0x1_0000
            && 0x100_0000 * packet[8] + 0x1_0000 * packet[9] + 0x100 * packet[10] + packet[11] == h.deviceID
            && 0x100_0000 * packet[12] + 0x1_0000 * packet[13] + 0x100 * packet[14] + packet[15] == h.epoch
            && (m.body == [] ==> |packet| == 32 && packet[16..32] == h.checksum)
  {
    var packet := Written(c, m, key);
    if m.body == [] {
      HeaderLayout(m.header.(length := WrappedLength(0)));
    } else {
      WrittenParts(c, m, key);
      WrittenSize(c, m, key);
      EncodeOfDecodeHeader(packet[..32]);
      HeaderLayout(SealedHeader(c, m, key));
    }
  }

  // ----- what Read reads

  /** Block `i` of the decrypted body. */
  lemma PlaintextBlock(c: Crypto, packet: seq<byte>, key: seq<byte>, i: nat)
    requires |packet| >= 32 && |packet| % 16 == 0 && 48 + 16 * i <= |packet|
    ensures var k := c.md5(key);
            && |Plaintext(c, packet, key)| == |packet| - 32
            && BlockAt(Plaintext(c, packet, key), 0, i)
            == XorBlock(c.decrypt(k, BlockAt(packet, 32, i)),
                        if i == 0 then c.md5(k + key) else BlockAt(packet, 32, i - 1))
  {
    DecryptedBlock(c, c.md5(key), c.md5(c.md5(key) + key), packet[32..], i);
    BlockBehindHeader(packet, i);
    if i > 0 {
      BlockBehindHeader(packet, i - 1);
    }
  }

  /** The length that a packet announces. */
  function Announced(packet: seq<byte>): nat
    requires |packet| >= 4
  {
    0x100 * (packet[2] as int) + packet[3]
  }

  lemma HeaderOfPacket(packet: seq<byte>)
    requires |packet| >= 32
    ensures var h := DecodeHeader(packet[..32]);
            h.length == Announced(packet) && h.checksum == packet[16..32] && EncodeHeader(h)[..16] == packet[..16]
  {
    var h := DecodeHeader(packet[..32]);
    EncodeOfDecodeHeader(packet[..32]);
    HeaderLayout(h);
  }

  /** How the checks end, in the octets of the packet. */
  lemma CheckedOctets(c: Crypto, packet: seq<byte>, key: seq<byte>)
    requires |packet| >= 32
    ensures Checked(c, Message(DecodeHeader(packet[..32]), packet[32..]), key)
         == if Announced(packet) != |packet| % 0x1_0000 then SizeMismatch
            else if Announced(packet) == 32 then NoError
            else if packet[16..32] != c.md5(packet[..16] + key + packet[32..]) then ChecksumMismatch
            else if |packet| % 16 != 0 then PartialBlocks
            else NoError
  {
    HeaderOfPacket(packet);
    assert |packet[32..]| == |packet| - 32;
  }

  /** The last octet of the plaintext is larger than the number of its octets. */
  predicate OverPadded(c: Crypto, packet: seq<byte>, key: seq<byte>)
    requires |packet| >= 32 && |packet| % 16 == 0
  {
    var plain := Plaintext(c, packet, key);
    plain != [] && plain[|plain| - 1] > |plain|
  }

  lemma ErrorFromChecks(c: Crypto, before: Message, packet: seq<byte>, key: seq<byte>)
    requires |packet| >= 32
    ensures (var m := Message(DecodeHeader(packet[..32]), packet[32..]);
             Decoded(c, before, packet, key).error
             == if Checked(c, m, key) != NoError || m.header.length == 32 then Checked(c, m, key)
                else if |packet| % 16 == 0 && OverPadded(c, packet, key) then BadPadding else NoError)
  {
    assert |packet[32..]| == |packet| - 32;
  }

  /** How reading any octets ends. */
  lemma ReadErrorExactly(c: Crypto, before: Message, packet: seq<byte>, key: seq<byte>)
    ensures Decoded(c, before, packet, key).error
         == if |packet| < 32 then ShortHeader
            else if Announced(packet) != |packet| % 0x1_0000 then SizeMismatch
            else if Announced(packet) == 32 then NoError
            else if packet[16..32] != c.md5(packet[..16] + key + packet[32..]) then ChecksumMismatch
            else if |packet| % 16 != 0 then PartialBlocks
            else if OverPadded(c, packet, key) then BadPadding
            else NoError
  {
    if |packet| >= 32 {
      CheckedOctets(c, packet, key);
      HeaderOfPacket(packet);
      ErrorFromChecks(c, before, packet, key);
    }
  }

  /** The plaintext without as many octets as its last one says. */
  function WithoutPadding(c: Crypto, packet: seq<byte>, key: seq<byte>): seq<byte>
    requires |packet| > 32 && |packet| % 16 == 0 && !OverPadded(c, packet, key)
  {
    var plain := Plaintext(c, packet, key);
    plain[..|plain| - plain[|plain| - 1]]
  }

  lemma UnpadIsWithoutPadding(c: Crypto, packet: seq<byte>, key: seq<byte>)
    requires |packet| > 32 && |packet| % 16 == 0 && !OverPadded(c, packet, key)
    ensures |Plaintext(c, packet, key)| == |packet| - 32
    ensures Unpad(Plaintext(c, packet, key)) == Padding.Unpadded(WithoutPadding(c, packet, key))
  {
  }

  lemma BodyFromChecks(c: Crypto, before: Message, packet: seq<byte>, key: seq<byte>)
    requires |packet| > 32 && |packet| % 16 == 0 && !OverPadded(c, packet, key)
    requires var m := Message(DecodeHeader(packet[..32]), packet[32..]);
             Checked(c, m, key) == NoError && m.header.length != 32
    ensures Decoded(c, before, packet, key).message.body == Trim(WithoutPadding(c, packet, key))
  {
    UnpadIsWithoutPadding(c, packet, key);
    var plain := Decrypt(c, AesKey(c, key), AesIV(c, key), Message(DecodeHeader(packet[..32]), packet[32..]).body);
    assert plain == Plaintext(c, packet, key);
  }

  /** What the message holds after reading without error: the header of the packet; and the
      octets behind it when it announces a header alone, or else the plaintext without its
      padding and without NULs at its ends. */
  lemma ReadBodyExactly(c: Crypto, before: Message, packet: seq<byte>, key: seq<byte>)
    requires Decoded(c, before, packet, key).error == NoError
    ensures |packet| >= 32
    ensures Decoded(c, before, packet, key).message.header == DecodeHeader(packet[..32])
    ensures if Announced(packet) == 32 then Decoded(c, before, packet, key).message.body == packet[32..]
            else
              && |packet| > 32 && |packet| % 16 == 0 && !OverPadded(c, packet, key)
              && Decoded(c, before, packet, key).message.body == Trim(WithoutPadding(c, packet, key))
  {
    ReadErrorExactly(c, before, packet, key);
    HeaderOfPacket(packet);
    CheckedOctets(c, packet, key);
    if Announced(packet) != 32 {
      BodyFromChecks(c, before, packet, key);
    }
  }

  // ----- the hello

  /** A hello, as it is before its length is set. */
  function HelloMessage(epoch: uint32): Message {
    Message(Header([0x21, 0x31], 0, Repeat(0xff, 4), 0xffff_ffff, epoch, Repeat(0, 16)), [])
  }

  lemma HelloHeader(epoch: uint32)
    ensures EncodeHeader(HelloMessage(epoch).header.(length := 32))
         == [0x21, 0x31, 0, 32] + Repeat(0xff, 8) + BE(epoch, 4) + Repeat(0, 16)
  {
    OctetOrder(32, 0xffff_ffff);
    assert BE(32, 2) == [0, 32] && BE(0xffff_ffff, 4) == Repeat(0xff, 4);
    assert Repeat(0xff, 4) + Repeat(0xff, 4) == Repeat(0xff, 8);
    assert [0x21, 0x31] + [0, 32] == [0x21, 0x31, 0, 32];
  }

  /** The octets of a hello packet, under any key. */
  lemma HelloPacket(c: Crypto, key: seq<byte>, epoch: uint32)
    ensures Written(c, HelloMessage(epoch), key)
         == [0x21, 0x31, 0, 32] + Repeat(0xff, 8) + BE(epoch, 4) + Repeat(0, 16)
  {
    HelloHeader(epoch);
    assert WrappedLength(0) == 32;
  }
}
