/** The padding of section 6.3 of RFC 5652 for 16-octet blocks, as the packet codec
    adds and removes it, and the removal of NUL octets at both ends. */
module Padding {
  import opened Bytes

  function PadLength(n: nat): (k: nat)
    ensures 1 <= k <= 16 && (n + k) % 16 == 0
  {
    16 - n % 16
  }

  function Repeat(b: byte, k: nat): (r: seq<byte>)
    ensures |r| == k && forall i :: 0 <= i < k ==> r[i] == b
  {
    seq(k, i => b)
  }

  function Pad(s: seq<byte>): (r: seq<byte>)
    ensures |r| == 16 * (|s| / 16 + 1)
  {
    s + Repeat(PadLength(|s|), PadLength(|s|))
  }

  datatype Unpadded = Unpadded(content: seq<byte>) | TooShort

  /** Only the last octet is looked at: neither its range nor the octets before it
      are checked. */
  function Unpad(s: seq<byte>): Unpadded
    requires s != []
  {
    var k := s[|s| - 1];
    if k > |s| then TooShort else Unpadded(s[..|s| - k])
  }

  /** What section 6.3 of RFC 5652 lets a padded message end with. */
  predicate Canonical(s: seq<byte>) {
    && s != [] && |s| % 16 == 0
    && 1 <= s[|s| - 1] <= 16
    && forall i :: |s| - s[|s| - 1] <= i < |s| ==> s[i] == s[|s| - 1]
  }

  lemma UnpadOfPad(s: seq<byte>)
    ensures Canonical(Pad(s)) && Unpad(Pad(s)) == Unpadded(s)
  {
    assert Pad(s)[..|s|] == s;
  }

  lemma PadOfUnpad(p: seq<byte>)
    requires Canonical(p)
    ensures Unpad(p).Unpadded? && Pad(Unpad(p).content) == p
  {
    var k := p[|p| - 1];
    var s := p[..|p| - k];
    assert PadLength(|s|) == k;
    assert p == s + p[|p| - k..];
    assert p[|p| - k..] == Repeat(k, k);
  }

  /** The first position from `i` on that does not hold a NUL. */
  function SkipNuls(s: seq<byte>, i: nat): (lo: nat)
    requires i <= |s|
    ensures i <= lo <= |s|
    ensures lo < |s| ==> s[lo] != 0
    decreases |s| - i
  {
    if i < |s| && s[i] == 0 then SkipNuls(s, i + 1) else i
  }

  /** The end of `s[lo..hi]` without its trailing NULs. */
  function DropNuls(s: seq<byte>, lo: nat, hi: nat): (end: nat)
    requires lo <= hi <= |s|
    ensures lo <= end <= hi
    ensures lo < end ==> s[end - 1] != 0
    decreases hi
  {
    if lo < hi && s[hi - 1] == 0 then DropNuls(s, lo, hi - 1) else hi
  }

  function Trim(s: seq<byte>): (r: seq<byte>)
    ensures |r| <= |s|
  {
    var lo := SkipNuls(s, 0);
    s[lo..DropNuls(s, lo, |s|)]
  }

  predicate NoEdgeNuls(s: seq<byte>) {
    s != [] ==> s[0] != 0 && s[|s| - 1] != 0
  }

  lemma {:induction false} SkippedAreNuls(s: seq<byte>, i: nat)
    requires i <= |s|
    ensures forall k :: i <= k < SkipNuls(s, i) ==> s[k] == 0
    decreases |s| - i
  {
    if i < |s| && s[i] == 0 {
      SkippedAreNuls(s, i + 1);
    }
  }

  lemma {:induction false} DroppedAreNuls(s: seq<byte>, lo: nat, hi: nat)
    requires lo <= hi <= |s|
    ensures forall k :: DropNuls(s, lo, hi) <= k < hi ==> s[k] == 0
    decreases hi
  {
    if lo < hi && s[hi - 1] == 0 {
      DroppedAreNuls(s, lo, hi - 1);
    }
  }

  /** Trimming takes NULs from both ends and nothing else, and takes them all. */
  lemma TrimSpec(s: seq<byte>) returns (lo: nat, hi: nat)
    ensures lo <= hi <= |s| && Trim(s) == s[lo..hi]
    ensures forall i :: 0 <= i < lo || hi <= i < |s| ==> s[i] == 0
    ensures NoEdgeNuls(Trim(s))
  {
    lo := SkipNuls(s, 0);
    hi := DropNuls(s, lo, |s|);
    SkippedAreNuls(s, 0);
    DroppedAreNuls(s, lo, |s|);
  }

  lemma TrimFixed(s: seq<byte>)
    ensures Trim(s) == s <==> NoEdgeNuls(s)
  {
    var lo, hi := TrimSpec(s);
    if s != [] && NoEdgeNuls(s) {
      assert lo == 0 && hi == |s|;
      assert s[0..|s|] == s;
    }
  }
}
