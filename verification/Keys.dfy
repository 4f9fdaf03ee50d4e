/** The keys of the incoming queues: decimal identifiers and the fixed method names
    of pkg/rockrobo/local_connection.go. */
module Keys {

  const DIGITS := "0123456789"

  /** A natural number in decimal. */
  function Digits(n: nat): (s: string)
    ensures s != []
  {
    if n < 10 then [DIGITS[n]] else Digits(n / 10) + [DIGITS[n % 10]]
  }

  function Decimal(n: int): string {
    if n < 0 then "-" + Digits(-n) else Digits(n)
  }

  /** The key of a request identifier. */
  function IdKey(id: int): string {
    "id=" + Decimal(id)
  }

  function DigitValue(c: char): int {
    c as int - '0' as int
  }

  function Value(s: string): int {
    if s == [] then 0 else 10 * Value(s[..|s| - 1]) + DigitValue(s[|s| - 1])
  }

  lemma DigitRoundTrip(d: nat)
    requires d < 10
    ensures DigitValue(DIGITS[d]) == d && DIGITS[d] != '-'
  {
    assert d == 0 || d == 1 || d == 2 || d == 3 || d == 4 || d == 5 || d == 6 || d == 7 || d == 8 || d == 9;
  }

  lemma {:induction false} ValueOfDigits(n: nat)
    ensures Value(Digits(n)) == n && Digits(n)[0] != '-'
  {
    DigitRoundTrip(n % 10);
    if n >= 10 {
      ValueOfDigits(n / 10);
      assert Digits(n)[..|Digits(n)| - 1] == Digits(n / 10);
    } else {
      assert Digits(n)[..0] == [];
    }
  }

  /** Different identifiers have different keys. */
  lemma IdKeyInjective(a: int, b: int)
    ensures IdKey(a) == IdKey(b) <==> a == b
  {
    if IdKey(a) == IdKey(b) {
      assert IdKey(a)[3..] == Decimal(a) && IdKey(b)[3..] == Decimal(b);
      ValueOfDigits(if a < 0 then -a else a);
      ValueOfDigits(if b < 0 then -b else b);
      assert a < 0 ==> Decimal(a)[1..] == Digits(-a);
      assert b < 0 ==> Decimal(b)[1..] == Digits(-b);
    }
  }

  lemma {:induction false} OnlyDigits(n: nat)
    ensures forall k :: 0 <= k < |Digits(n)| ==> '0' <= Digits(n)[k] <= '9'
    ensures Digits(n)[0] == '0' <==> n == 0
  {
    DigitRoundTrip(n % 10);
    if n >= 10 {
      OnlyDigits(n / 10);
    }
  }

  /** The text of a key: "id=" and the identifier in decimal, with a sign exactly when it is
      negative, digits alone and no leading zeros. */
  lemma IdKeyText(id: int) returns (digits: string)
    ensures IdKey(id) == (if id < 0 then "id=-" else "id=") + digits
    ensures digits != [] && forall k :: 0 <= k < |digits| ==> '0' <= digits[k] <= '9'
    ensures digits[0] == '0' <==> id == 0
    ensures Value(digits) == if id < 0 then -id else id
  {
    var n: nat := if id < 0 then -id else id;
    digits := Digits(n);
    OnlyDigits(n);
    ValueOfDigits(n);
    assert "id=" + ("-" + digits) == "id=-" + digits;
  }

  const HELLO := "_internal.hello"
  const CLOUD := "cloud"
  const INTERNAL_INFO := "_internal.info"

  /** The method names under which internal requests wait for their response. */
  const RESPONSE_NAMES := {
    INTERNAL_INFO,
    "_internal.response_dinfo",
    "_internal.response_dtoken",
    "_internal.res_wifi_conf_status"
  }

  /** The three kinds of keys do not meet. */
  lemma KeysApart(name: string, id: int)
    requires name in RESPONSE_NAMES
    ensures name != IdKey(id) && name != CLOUD && IdKey(id) != CLOUD && name != ""
  {
    assert IdKey(id)[0] == 'i' && CLOUD[0] == 'c' && name[0] == '_';
  }
}
