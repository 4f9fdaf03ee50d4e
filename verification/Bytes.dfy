/** Octets, fixed-width integers and the little- and big-endian layouts that the
    cloud packets and the map files are written in. */
module Bytes {

  type byte = b: int | 0 <= b < 256
  type uint16 = n: int | 0 <= n < 0x1_0000
  type uint32 = n: int | 0 <= n < 0x1_0000_0000

  type Bytes2 = s: seq<byte> | |s| == 2 witness [0, 0]
  type Bytes4 = s: seq<byte> | |s| == 4 witness [0, 0, 0, 0]
  type CipherBlock = s: seq<byte> | |s| == 16 witness [0, 0, 0, 0, 0, 0, 0, 0, 0, 0, 0, 0, 0, 0, 0, 0]

  /** The number of values that `width` octets can hold. */
  function Range(width: nat): (r: nat)
    ensures r >= 1
  {
    if width == 0 then 1 else 256 * Range(width - 1)
  }

  lemma RangeValues()
    ensures Range(2) == 0x1_0000 && Range(4) == 0x1_0000_0000
  {
    assert Range(1) == 256 * Range(0);
    assert Range(2) == 256 * Range(1);
    assert Range(3) == 256 * Range(2);
    assert Range(4) == 256 * Range(3);
  }

  /** Least significant octet first. */
  function LE(n: nat, width: nat): (s: seq<byte>)
    ensures |s| == width
  {
    if width == 0 then [] else [n % 256] + LE(n / 256, width - 1)
  }

  function FromLE(s: seq<byte>): (n: nat)
    ensures n < Range(|s|)
  {
    if s == [] then 0 else s[0] + 256 * FromLE(s[1..])
  }

  /** Most significant octet first. */
  function BE(n: nat, width: nat): (s: seq<byte>)
    ensures |s| == width
  {
    if width == 0 then [] else BE(n / 256, width - 1) + [n % 256]
  }

  function FromBE(s: seq<byte>): (n: nat)
    ensures n < Range(|s|)
  {
    if s == [] then 0 else 256 * FromBE(s[..|s| - 1]) + s[|s| - 1]
  }

  lemma {:induction false} FromLEOfLE(n: nat, width: nat)
    requires n < Range(width)
    ensures FromLE(LE(n, width)) == n
  {
    if width > 0 {
      FromLEOfLE(n / 256, width - 1);
      assert LE(n, width)[1..] == LE(n / 256, width - 1);
    }
  }

  lemma {:induction false} LEOfFromLE(s: seq<byte>)
    ensures LE(FromLE(s), |s|) == s
  {
    if s != [] {
      LEOfFromLE(s[1..]);
      assert FromLE(s) % 256 == s[0] && FromLE(s) / 256 == FromLE(s[1..]);
    }
  }

  lemma {:induction false} FromBEOfBE(n: nat, width: nat)
    requires n < Range(width)
    ensures FromBE(BE(n, width)) == n
  {
    if width > 0 {
      FromBEOfBE(n / 256, width - 1);
      assert BE(n, width)[..width - 1] == BE(n / 256, width - 1);
    }
  }

  lemma {:induction false} BEOfFromBE(s: seq<byte>)
    ensures BE(FromBE(s), |s|) == s
  {
    if s != [] {
      BEOfFromBE(s[..|s| - 1]);
      var last := s[|s| - 1];
      assert FromBE(s) % 256 == last && FromBE(s) / 256 == FromBE(s[..|s| - 1]);
    }
  }

  lemma QuotientsOf(m: uint32)
    ensures m / 256 / 256 == m / 0x1_0000 && m / 256 / 256 / 256 == m / 0x100_0000 && m / 0x100_0000 < 256
  {
  }

  lemma BEOf4(m: uint32)
    ensures BE(m, 4) == [m / 256 / 256 / 256 % 256, m / 256 / 256 % 256, m / 256 % 256, m % 256]
  {
    var q := m / 256;
    var r := q / 256;
    assert BE(m, 4) == BE(q, 3) + [m % 256] && BE(q, 3) == BE(r, 2) + [q % 256];
    assert BE(r, 2) == BE(r / 256, 1) + [r % 256] && BE(r / 256, 1) == [r / 256 % 256];
  }

  lemma LEOf4(m: uint32)
    ensures LE(m, 4) == [m % 256, m / 256 % 256, m / 256 / 256 % 256, m / 256 / 256 / 256 % 256]
  {
    var q := m / 256;
    var r := q / 256;
    assert LE(m, 4) == [m % 256] + LE(q, 3) && LE(q, 3) == [q % 256] + LE(r, 2);
    assert LE(r, 2) == [r % 256] + LE(r / 256, 1) && LE(r / 256, 1) == [r / 256 % 256];
  }

  /** The two layouts octet by octet. */
  lemma OctetOrder(n: uint16, m: uint32)
    ensures BE(n, 2) == [n / 0x100, n % 0x100]
    ensures LE(n, 2) == [n % 0x100, n / 0x100]
    ensures BE(m, 4) == [m / 0x100_0000, m / 0x1_0000 % 0x100, m / 0x100 % 0x100, m % 0x100]
    ensures LE(m, 4) == [m % 0x100, m / 0x100 % 0x100, m / 0x1_0000 % 0x100, m / 0x100_0000]
  {
    assert LE(n, 2) == [n % 256] + LE(n / 256, 1) && BE(n, 2) == BE(n / 256, 1) + [n % 256];
    assert LE(n / 256, 1) == [n / 256] + LE(0, 0) && BE(n / 256, 1) == BE(0, 0) + [n / 256];
    QuotientsOf(m);
    BEOf4(m);
    LEOf4(m);
  }
}
