/** The mutable side of the cloud packet codec: byte slices that share backing
    arrays, and the message whose body they are. */
module CloudMessages {
  import opened Bytes
  import opened Cbc
  import opened Padding
  import opened CloudPacket

  /** A slice: `len` octets of `arr` from `off` on, with room for `cap` in all. */
  datatype Slice = Slice(arr: array<byte>, off: nat, len: nat, cap: nat) {
    ghost predicate Valid() {
      len <= cap && off + cap <= arr.Length
    }

    ghost function Content(): (s: seq<byte>)
      requires Valid()
      reads arr
      ensures |s| == len
    {
      arr[..][off..off + len]
    }

    /** The room behind the content that appending may write to. */
    function Spare(): int {
      cap - len
    }
  }

  /** `whole` with `part` in the place of the octets from `off` on. */
  ghost function Overwrite(whole: seq<byte>, off: nat, part: seq<byte>): (r: seq<byte>)
    requires off + |part| <= |whole|
    ensures |r| == |whole| && r[off..off + |part|] == part
  {
    whole[..off] + part + whole[off + |part|..]
  }

  lemma OverwriteTwice(whole: seq<byte>, off: nat, first: seq<byte>, second: seq<byte>)
    requires off + |first| <= |whole| && |second| == |first|
    ensures Overwrite(Overwrite(whole, off, first), off, second) == Overwrite(whole, off, second)
  {
  }

  lemma SliceOfSlice(whole: seq<byte>, off: nat, len: nat, lo: nat, hi: nat)
    requires off + len <= |whole| && lo <= hi <= len
    ensures whole[off..off + len][lo..hi] == whole[off + lo..off + hi]
  {
    var part := whole[off..off + len];
    forall i | lo <= i < hi ensures part[i] == whole[off + i] {
    }
  }

  method Octets(s: Slice) returns (r: seq<byte>)
    requires s.Valid()
    ensures r == s.Content()
  {
    r := s.arr[s.off..s.off + s.len];
  }

  /** A slice over a fresh array with the given content and some room behind it. */
  method FreshSlice(s: seq<byte>, room: nat) returns (r: Slice)
    ensures r.Valid() && fresh(r.arr) && r.Content() == s && r.Spare() == room
  {
    var a := new byte[|s| + room];
    for i := 0 to |s|
      invariant a[..i] == s[..i]
    {
      a[i] := s[i];
    }
    r := Slice(a, 0, |s|, |s| + room);
    assert a[..|s|] == s;
  }

  /** Overwrites a stretch of an array. */
  method Store(a: array<byte>, off: nat, s: seq<byte>)
    requires off + |s| <= a.Length
    modifies a
    ensures a[..] == Overwrite(old(a[..]), off, s)
  {
    for i := 0 to |s|
      invariant forall j :: 0 <= j < i ==> a[off + j] == s[j]
      invariant forall j :: 0 <= j < a.Length && !(off <= j < off + i) ==> a[j] == old(a[j])
    {
      a[off + i] := s[i];
    }
  }

  /** Appends the padding: in the backing array where there is room for it, in a new
      array otherwise. */
  method PadSlice(src: Slice) returns (r: Slice)
    requires src.Valid()
    modifies src.arr
    ensures r.Valid() && r.Content() == Pad(old(src.Content()))
    ensures src.Spare() < PadLength(src.len) ==> fresh(r.arr) && src.arr[..] == old(src.arr[..])
    ensures src.Spare() >= PadLength(src.len) ==>
              && r == src.(len := src.len + PadLength(src.len))
              && src.arr[..] == Overwrite(old(src.arr[..]), src.off, r.Content())
  {
    var k := PadLength(src.len);
    if src.Spare() < k {
      var content := Octets(src);
      r := FreshSlice(Pad(content), 0);
    } else {
      ghost var whole := src.arr[..];
      Store(src.arr, src.off + src.len, Repeat(k, k));
      r := src.(len := src.len + k);
      assert r.Content() == whole[src.off..src.off + src.len] + Repeat(k, k);
    }
  }

  /** Pads and encrypts. With room for the padding, all of it happens in the array
      of the slice; otherwise that array stays as it is. */
  method Seal(c: Crypto, key: seq<byte>, src: Slice) returns (r: Slice)
    requires src.Valid()
    modifies src.arr
    ensures r.Valid() && r.Content() == Encrypt(c, AesKey(c, key), AesIV(c, key), Pad(old(src.Content())))
    ensures src.Spare() < PadLength(src.len) ==> src.arr[..] == old(src.arr[..])
    ensures src.Spare() >= PadLength(src.len) ==>
              src.off + r.len <= src.arr.Length && src.arr[..] == Overwrite(old(src.arr[..]), src.off, r.Content())
  {
    ghost var whole := src.arr[..];
    r := PadSlice(src);
    ghost var padded := r.Content();
    ghost var cipher := Encrypt(c, AesKey(c, key), AesIV(c, key), padded);
    var plain := Octets(r);
    Store(r.arr, r.off, Encrypt(c, AesKey(c, key), AesIV(c, key), plain));
    if src.Spare() >= PadLength(src.len) {
      OverwriteTwice(whole, src.off, padded, cipher);
    }
  }

  /** The extent of a sequence without its leading and its trailing NULs. */
  method TrimBounds(s: seq<byte>) returns (lo: nat, hi: nat)
    ensures lo <= hi <= |s| && s[lo..hi] == Trim(s)
  {
    lo := 0;
    while lo < |s| && s[lo] == 0
      invariant lo <= |s| && SkipNuls(s, lo) == SkipNuls(s, 0)
    {
      lo := lo + 1;
    }
    hi := |s|;
    while hi > lo && s[hi - 1] == 0
      invariant lo <= hi <= |s| && DropNuls(s, lo, hi) == DropNuls(s, lo, |s|)
    {
      hi := hi - 1;
    }
  }

  /** The part of a slice between its leading and its trailing NULs. */
  method TrimSlice(s: Slice) returns (r: Slice)
    requires s.Valid()
    ensures r.Valid() && r.arr == s.arr && r.Content() == Trim(s.Content())
    ensures NoEdgeNuls(s.Content()) ==> r == s
  {
    var content := Octets(s);
    var lo, hi := TrimBounds(content);
    r := Slice(s.arr, s.off + lo, hi - lo, s.cap - lo);
    SliceOfSlice(s.arr[..], s.off, s.len, lo, hi);
    TrimFixed(content);
  }

  /** Keeps the first `len` octets; the rest becomes spare room. */
  method Shorten(s: Slice, len: nat) returns (r: Slice)
    requires s.Valid() && len <= s.len
    ensures r == s.(len := len) && r.Valid() && r.Content() == s.Content()[..len]
  {
    r := s.(len := len);
    SliceOfSlice(s.arr[..], s.off, s.len, 0, len);
  }

  /** Unpads and trims a slice that holds `plain`. Unpadding leaves the padding
      behind as spare room. */
  method StripPadding(src: Slice, plain: seq<byte>) returns (ok: bool, r: Slice)
    requires src.Valid() && src.Content() == plain && plain != []
    ensures r.Valid() && r.arr == src.arr
    ensures ok == Unpad(plain).Unpadded?
    ensures r.Content() == if ok then Trim(Unpad(plain).content) else []
    ensures ok && NoEdgeNuls(Unpad(plain).content) ==> r == src.(len := |Unpad(plain).content|)
  {
    var k := plain[|plain| - 1];
    ok := k <= |plain|;
    r := Shorten(src, if ok then src.len - k else 0);
    if ok {
      assert r.Content() == Unpad(plain).content;
      r := TrimSlice(r);
    }
  }

  lemma LosslessSpare(plain: seq<byte>, cap: nat)
    requires Lossless(plain) && cap >= |plain|
    ensures Unpad(plain).Unpadded? && Unpad(plain).content != []
    ensures cap - |Unpad(plain).content| >= PadLength(|Unpad(plain).content|)
  {
    PadOfUnpad(plain);
  }

  /** Decrypts, unpads and trims. `ok` says whether unpadding went through. */
  method Open(c: Crypto, key: seq<byte>, src: Slice) returns (ok: bool, r: Slice)
    requires src.Valid() && src.len > 0 && src.len % 16 == 0
    modifies src.arr
    ensures r.Valid() && r.arr == src.arr
    ensures var u := Unpad(Decrypt(c, AesKey(c, key), AesIV(c, key), old(src.Content())));
            && ok == u.Unpadded?
            && r.Content() == (if ok then Trim(u.content) else [])
    ensures Lossless(Decrypt(c, AesKey(c, key), AesIV(c, key), old(src.Content()))) ==>
              r.len > 0 && r.Spare() >= PadLength(r.len)
  {
    var cipher := Octets(src);
    var plain := Decrypt(c, AesKey(c, key), AesIV(c, key), cipher);
    Store(src.arr, src.off, plain);
    ok, r := StripPadding(src, plain);
    if Lossless(plain) {
      LosslessSpare(plain, src.cap);
    }
  }

  class CloudMessage {
    var header: Header
    var body: Slice

    ghost predicate Valid()
      reads this
    {
      body.Valid()
    }

    ghost function View(): Message
      requires Valid()
      reads this, body.arr
    {
      Message(header, body.Content())
    }

    constructor (header: Header, content: seq<byte>)
      ensures Valid() && fresh(body.arr) && View() == Message(header, content)
    {
      var b := FreshSlice(content, 0);
      this.header := header;
      body := b;
    }

    /** Writes the packet. Neither the header nor the extent of the body changes, but
        the octets of the body do when its backing array has room for the padding:
        the ciphertext then replaces them. */
    method Write(c: Crypto, key: seq<byte>) returns (packet: seq<byte>)
      requires Valid()
      modifies body.arr
      ensures Valid()
      ensures packet == Written(c, old(View()), key)
      ensures body.len == 0 || body.Spare() < PadLength(body.len) ==> body.arr[..] == old(body.arr[..])
      ensures body.len > 0 && body.Spare() >= PadLength(body.len) ==>
                && body.off + |packet| - HEADER_SIZE <= body.arr.Length
                && body.arr[..] == Overwrite(old(body.arr[..]), body.off, packet[HEADER_SIZE..])
    {
      var h := header;
      var b := body;
      if body.len > 0 {
        b := Seal(c, key, body);
      }
      h := h.(length := WrappedLength(b.len));
      var octets := Octets(b);
      if body.len > 0 {
        h := h.(checksum := Checksum(c, h, key, octets));
      }
      packet := EncodeHeader(h) + octets;
      assert packet[HEADER_SIZE..] == octets;
    }

    /** Reads a packet into the message. */
    method Read(c: Crypto, reader: seq<byte>, key: seq<byte>) returns (error: ReadError)
      requires Valid()
      modifies this
      ensures Valid()
      ensures Reading(View(), error) == Decoded(c, old(View()), reader, key)
      ensures error == ShortHeader || fresh(body.arr)
      ensures error == NoError && header.length != HEADER_SIZE ==>
                && |reader| > HEADER_SIZE && (|reader| - HEADER_SIZE) % 16 == 0
                && (Lossless(Plaintext(c, reader, key)) ==> body.len > 0 && body.Spare() >= PadLength(body.len))
    {
      if |reader| < HEADER_SIZE {
        return ShortHeader;
      }
      var room: nat := *;
      header := DecodeHeader(reader[..HEADER_SIZE]);
      var b := FreshSlice(reader[HEADER_SIZE..], room);
      body := b;
      error := Check(c, key);
      if error == NoError && header.length != HEADER_SIZE {
        var ok, plain := Open(c, key, body);
        body := plain;
        error := if ok then NoError else BadPadding;
      }
    }

    /** The checks between reading a packet and decrypting it. */
    method Check(c: Crypto, key: seq<byte>) returns (error: ReadError)
      requires Valid()
      ensures error == Checked(c, View(), key)
    {
      if header.length != WrappedLength(body.len) {
        return SizeMismatch;
      }
      if header.length == HEADER_SIZE {
        return NoError;
      }
      var octets := Octets(body);
      if header.checksum != Checksum(c, header, key, octets) {
        return ChecksumMismatch;
      }
      return if body.len % 16 != 0 then PartialBlocks else NoError;
    }
  }

  /** Decoding a packet and encoding the message again, as the repository's own test
      does after clearing the length and the checksum. On losslessly decoded packets
      this gives the packet back; but the padding just removed is spare room, so
      encoding leaves the start of the ciphertext behind as the message's body. */
  method Reencode(c: Crypto, m: CloudMessage, packet: seq<byte>, key: seq<byte>) returns (again: seq<byte>)
    requires c.Permutation()
    requires m.Valid()
    requires var r := Decoded(c, m.View(), packet, key);
             r.error == NoError && r.message.header.length != HEADER_SIZE
    modifies m
    ensures m.Valid()
    ensures again == packet <==> Lossless(Plaintext(c, packet, key))
    ensures again == packet ==>
              m.View().body != [] && m.View().body <= again[HEADER_SIZE..]
  {
    ghost var before := m.View();
    var error := m.Read(c, packet, key);
    m.header := m.header.(length := 0, checksum := Repeat(0, 16));
    WriteOfRead(c, packet, key, before, 0, Repeat(0, 16));
    again := m.Write(c, key);
  }
}
