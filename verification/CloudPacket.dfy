/** The cloud packet codec of pkg/rockrobo/cloud.go. `Written` and `Decoded` say on
    values what the two methods of the class CloudMessage do to slices in place. */
module CloudPacket {
  import opened Bytes
  import opened Cbc
  import opened Padding

  datatype Header = Header(
    magic: Bytes2,
    length: uint16,
    unknown: Bytes4,
    deviceID: uint32,
    epoch: uint32,
    checksum: CipherBlock)

  datatype Message = Message(header: Header, body: seq<byte>)

  /** How reading ends. `PartialBlocks` stands for the panic of the block mode on
      input that is not made of whole blocks. */
  datatype ReadError =
    | NoError
    | ShortHeader
    | SizeMismatch
    | ChecksumMismatch
    | PartialBlocks
    | BadPadding

  const HEADER_SIZE := 32

  function EncodeHeader(h: Header): (s: seq<byte>)
    ensures |s| == HEADER_SIZE
  {
    h.magic + BE(h.length, 2) + h.unknown + BE(h.deviceID, 4) + BE(h.epoch, 4) + h.checksum
  }

  function DecodeHeader(s: seq<byte>): Header
    requires |s| == HEADER_SIZE
  {
    RangeValues();
    Header(s[0..2], FromBE(s[2..4]), s[4..8], FromBE(s[8..12]), FromBE(s[12..16]), s[16..32])
  }

  lemma Digits4(m: uint32)
    ensures m == 0x100_0000 * (m / 0x100_0000) + 0x1_0000 * (m / 0x1_0000 % 0x100)
              + 0x100 * (m / 0x100 % 0x100) + m % 0x100
  {
  }

  /** Where each field of the header is, octet by octet. */
  lemma HeaderLayout(h: Header)
    ensures var s: seq<int> := EncodeHeader(h);
            && s[0..2] == h.magic && s[4..8] == h.unknown && s[16..32] == h.checksum
            && h.length == 0x100 * s[2] + s[3]
            && h.deviceID == 0x100_0000 * s[8] + 0x1_0000 * s[9] + 0x100 * s[10] + s[11]
            && h.epoch == 0x100_0000 * s[12] + 0x1_0000 * s[13] + 0x100 * s[14] + s[15]
  {
    OctetOrder(h.length, h.deviceID);
    OctetOrder(h.length, h.epoch);
    var s := EncodeHeader(h);
    assert s[2..4] == BE(h.length, 2) && s[8..12] == BE(h.deviceID, 4) && s[12..16] == BE(h.epoch, 4);
    Digits4(h.deviceID);
    Digits4(h.epoch);
  }

  lemma DecodeOfEncodeHeader(h: Header)
    ensures DecodeHeader(EncodeHeader(h)) == h
  {
    RangeValues();
    var s := EncodeHeader(h);
    assert s[0..2] == h.magic && s[2..4] == BE(h.length, 2) && s[4..8] == h.unknown
        && s[8..12] == BE(h.deviceID, 4) && s[12..16] == BE(h.epoch, 4) && s[16..32] == h.checksum;
    FromBEOfBE(h.length, 2);
    FromBEOfBE(h.deviceID, 4);
    FromBEOfBE(h.epoch, 4);
  }

  lemma EncodeOfDecodeHeader(s: seq<byte>)
    requires |s| == HEADER_SIZE
    ensures EncodeHeader(DecodeHeader(s)) == s
  {
    BEOfFromBE(s[2..4]);
    BEOfFromBE(s[8..12]);
    BEOfFromBE(s[12..16]);
    assert s == s[0..2] + s[2..4] + s[4..8] + s[8..12] + s[12..16] + s[16..32];
  }

  function AesKey(c: Crypto, key: seq<byte>): CipherBlock {
    c.md5(key)
  }

  function AesIV(c: Crypto, key: seq<byte>): CipherBlock {
    c.md5(AesKey(c, key) + key)
  }

  /** The digest over the first half of the header, the key and the body. */
  function Checksum(c: Crypto, h: Header, key: seq<byte>, body: seq<byte>): CipherBlock {
    c.md5(EncodeHeader(h)[..16] + key + body)
  }

  /** The 16-bit length field of a packet with this much behind the header. */
  function WrappedLength(bodyLength: nat): uint16 {
    (HEADER_SIZE + bodyLength) % 0x1_0000
  }

  /** The packet written for a message. */
  function Written(c: Crypto, m: Message, key: seq<byte>): (packet: seq<byte>)
    ensures |packet| >= HEADER_SIZE
  {
    if m.body == [] then
      EncodeHeader(m.header.(length := WrappedLength(0)))
    else
      var cipher := Encrypt(c, AesKey(c, key), AesIV(c, key), Pad(m.body));
      var h := m.header.(length := WrappedLength(|cipher|));
      EncodeHeader(h.(checksum := Checksum(c, h, key, cipher))) + cipher
  }

  datatype Reading = Reading(message: Message, error: ReadError)

  /** How the checks before decryption end. */
  function Checked(c: Crypto, m: Message, key: seq<byte>): ReadError {
    if m.header.length != WrappedLength(|m.body|) then SizeMismatch
    else if m.header.length == HEADER_SIZE then NoError
    else if m.header.checksum != Checksum(c, m.header, key, m.body) then ChecksumMismatch
    else if |m.body| % 16 != 0 then PartialBlocks
    else NoError
  }

  /** What a message holds, and how reading ends, after reading `data` into it. A
      packet that is a header alone is neither checked nor decrypted. */
  function Decoded(c: Crypto, before: Message, data: seq<byte>, key: seq<byte>): Reading {
    if |data| < HEADER_SIZE then Reading(before, ShortHeader)
    else
      var m := Message(DecodeHeader(data[..HEADER_SIZE]), data[HEADER_SIZE..]);
      var error := Checked(c, m, key);
      if error != NoError || m.header.length == HEADER_SIZE then Reading(m, error)
      else
        match Unpad(Decrypt(c, AesKey(c, key), AesIV(c, key), m.body))
        case TooShort => Reading(m.(body := []), BadPadding)
        case Unpadded(content) => Reading(m.(body := Trim(content)), NoError)
  }

  /** The body lengths for which the length field wraps around to that of a header
      alone, so that the reader takes the ciphertext for the body. */
  predicate LooksLikeHeaderOnly(n: nat) {
    16 * (n / 16 + 1) % 0x1_0000 == 0
  }

  /** The checksum does not depend on the checksum field. */
  lemma ChecksumIgnoresChecksum(c: Crypto, h: Header, sum: CipherBlock, key: seq<byte>, body: seq<byte>)
    ensures Checksum(c, h.(checksum := sum), key, body) == Checksum(c, h, key, body)
  {
    assert EncodeHeader(h.(checksum := sum))[..16] == EncodeHeader(h)[..16];
  }

  /** The header that is written for a message with a body. */
  function SealedHeader(c: Crypto, m: Message, key: seq<byte>): Header {
    var cipher := Encrypt(c, AesKey(c, key), AesIV(c, key), Pad(m.body));
    var h := m.header.(length := WrappedLength(|cipher|));
    h.(checksum := Checksum(c, h, key, cipher))
  }

  /** A written packet falls back into the header and the ciphertext, and the
      checksum in the header is the one the reader computes. */
  lemma WrittenParts(c: Crypto, m: Message, key: seq<byte>)
    requires m.body != []
    ensures var packet := Written(c, m, key); var h := SealedHeader(c, m, key);
            && packet[HEADER_SIZE..] == Encrypt(c, AesKey(c, key), AesIV(c, key), Pad(m.body))
            && DecodeHeader(packet[..HEADER_SIZE]) == h
            && h.checksum == Checksum(c, h, key, packet[HEADER_SIZE..])
            && h.length == WrappedLength(|packet[HEADER_SIZE..]|)
  {
    var cipher := Encrypt(c, AesKey(c, key), AesIV(c, key), Pad(m.body));
    var h := m.header.(length := WrappedLength(|cipher|));
    var sum := Checksum(c, h, key, cipher);
    var packet := Written(c, m, key);
    assert packet[..HEADER_SIZE] == EncodeHeader(h.(checksum := sum)) && packet[HEADER_SIZE..] == cipher;
    DecodeOfEncodeHeader(h.(checksum := sum));
    ChecksumIgnoresChecksum(c, h, sum, key, cipher);
  }

  lemma WrapsToHeaderOnly(n: nat)
    ensures WrappedLength(16 * (n / 16 + 1)) == HEADER_SIZE <==> LooksLikeHeaderOnly(n)
  {
  }

  lemma DecodedOfWritten(c: Crypto, m: Message, key: seq<byte>, before: Message)
    requires c.Permutation()
    requires m.body != []
    ensures var packet := Written(c, m, key);
            Decoded(c, before, packet, key)
            == Reading(Message(SealedHeader(c, m, key),
                               if LooksLikeHeaderOnly(|m.body|) then packet[HEADER_SIZE..] else Trim(m.body)),
                       NoError)
  {
    WrittenParts(c, m, key);
    DecryptOfEncrypt(c, AesKey(c, key), AesIV(c, key), Pad(m.body));
    UnpadOfPad(m.body);
    WrapsToHeaderOnly(|m.body|);
    assert |Written(c, m, key)[HEADER_SIZE..]| == 16 * (|m.body| / 16 + 1);
  }

  lemma WrittenSize(c: Crypto, m: Message, key: seq<byte>)
    requires m.body != []
    ensures |Written(c, m, key)| == HEADER_SIZE + 16 * (|m.body| / 16 + 1)
    ensures SealedHeader(c, m, key)
         == m.header.(length := |Written(c, m, key)| % 0x1_0000, checksum := SealedHeader(c, m, key).checksum)
  {
  }

  /** Reading what was written, into a message that held anything before: the header
      comes back with the new length and checksum, and the body comes back trimmed
      exactly when its length is not one of those that look like a header alone. */
  lemma ReadOfWrite(c: Crypto, m: Message, key: seq<byte>, before: Message)
    requires c.Permutation()
    requires m.body != []
    ensures var packet := Written(c, m, key);
            var r := Decoded(c, before, packet, key);
            && |packet| == HEADER_SIZE + 16 * (|m.body| / 16 + 1)
            && r.error == NoError
            && r.message.header
               == m.header.(length := |packet| % 0x1_0000, checksum := r.message.header.checksum)
            && (r.message.body == Trim(m.body) <==> !LooksLikeHeaderOnly(|m.body|))
            && (LooksLikeHeaderOnly(|m.body|) ==> r.message.body == packet[HEADER_SIZE..])
  {
    DecodedOfWritten(c, m, key, before);
    WrittenSize(c, m, key);
  }

  /** A message without a body is one header, and comes back as it went out. */
  lemma ReadOfWriteEmpty(c: Crypto, m: Message, key: seq<byte>, before: Message)
    requires m.body == []
    ensures Decoded(c, before, Written(c, m, key), key)
         == Reading(m.(header := m.header.(length := HEADER_SIZE)), NoError)
  {
    var h := m.header.(length := HEADER_SIZE);
    DecodeOfEncodeHeader(h);
    assert EncodeHeader(h)[..HEADER_SIZE] == EncodeHeader(h) && EncodeHeader(h)[HEADER_SIZE..] == [];
  }

  /** The exact inputs on which write and then read is the identity on bodies. */
  lemma RoundTripExactly(c: Crypto, m: Message, key: seq<byte>, before: Message)
    requires c.Permutation()
    ensures Decoded(c, before, Written(c, m, key), key).message.body == m.body
       <==> NoEdgeNuls(m.body) && (m.body == [] || !LooksLikeHeaderOnly(|m.body|))
  {
    TrimFixed(m.body);
    if m.body == [] {
      ReadOfWriteEmpty(c, m, key, before);
    } else {
      ReadOfWrite(c, m, key, before);
      assert LooksLikeHeaderOnly(|m.body|) ==> |Written(c, m, key)[HEADER_SIZE..]| > |m.body|;
    }
  }

  /** The length field is the length of the packet up to bodies of 65487 octets. */
  lemma LengthFieldExact(c: Crypto, m: Message, key: seq<byte>)
    requires m.body != []
    ensures var packet := Written(c, m, key);
            DecodeHeader(packet[..HEADER_SIZE]).length == |packet| <==> |m.body| <= 65487
  {
    WrittenParts(c, m, key);
  }

  /** The wrap-around happens: a body of 65520 octets is the shortest. */
  lemma ShortestHeaderOnlyLookalike()
    ensures LooksLikeHeaderOnly(65520)
    ensures forall n: nat :: n < 65520 ==> !LooksLikeHeaderOnly(n)
  {
    forall n: nat | n < 65520 ensures !LooksLikeHeaderOnly(n) {
      assert 0 < 16 * (n / 16 + 1) < 0x1_0000;
    }
  }

  /** The decrypted but not yet unpadded body of a packet. */
  function Plaintext(c: Crypto, packet: seq<byte>, key: seq<byte>): seq<byte>
    requires |packet| >= HEADER_SIZE && (|packet| - HEADER_SIZE) % 16 == 0
  {
    Decrypt(c, AesKey(c, key), AesIV(c, key), packet[HEADER_SIZE..])
  }

  /** Decoding loses nothing: the padding is the only one the writer can produce,
      and no NUL was trimmed. */
  predicate Lossless(plain: seq<byte>) {
    Canonical(plain) && Unpad(plain).content != [] && NoEdgeNuls(Unpad(plain).content)
  }

  /** For a packet that was read and decrypted: writing the decoded message, whatever
      its length and checksum fields hold by then, reproduces the packet octet for
      octet if and only if decoding was lossless. */
  lemma WriteOfRead(c: Crypto, packet: seq<byte>, key: seq<byte>, before: Message,
                    length: uint16, checksum: CipherBlock)
    requires c.Permutation()
    requires Decoded(c, before, packet, key).error == NoError
    requires Decoded(c, before, packet, key).message.header.length != HEADER_SIZE
    ensures var m := Decoded(c, before, packet, key).message;
            var altered := m.(header := m.header.(length := length, checksum := checksum));
            Written(c, altered, key) == packet <==> Lossless(Plaintext(c, packet, key))
  {
    var m := Decoded(c, before, packet, key).message;
    var altered := m.(header := m.header.(length := length, checksum := checksum));
    var head, body := packet[..HEADER_SIZE], packet[HEADER_SIZE..];
    assert packet == head + body;
    var h := DecodeHeader(head);
    var plain := Plaintext(c, packet, key);
    EncodeOfDecodeHeader(head);
    EncryptOfDecrypt(c, AesKey(c, key), AesIV(c, key), body);
    var content := Unpad(plain).content;
    TrimFixed(content);
    if Lossless(plain) {
      PadOfUnpad(plain);
      assert m.body == content != [] && Pad(m.body) == plain;
      var sized := altered.header.(length := WrappedLength(|body|));
      assert sized == h.(checksum := checksum);
      ChecksumIgnoresChecksum(c, h, checksum, key, body);
      assert sized.(checksum := Checksum(c, sized, key, body)) == h;
    }
    if Written(c, altered, key) == packet {
      assert body != [];
      assert m.body != [];
      var cipher := Encrypt(c, AesKey(c, key), AesIV(c, key), Pad(m.body));
      assert cipher == Written(c, altered, key)[HEADER_SIZE..] == body;
      DecryptOfEncrypt(c, AesKey(c, key), AesIV(c, key), Pad(m.body));
      assert plain == Pad(m.body);
      UnpadOfPad(m.body);
    }
  }
}
