/** Header lines and decimal numbers as text. A `string` is a byte string; a `char`
    above 127 stands for a byte with its high bit set. */
module HttpText {
  datatype Header = Header(name: string, value: string)

  const CRLF: string := "\r\n"

  function HeaderLine(h: Header): string {
    h.name + ": " + h.value
  }

  /** The header lines in order, then an empty line. */
  function HeaderBlock(hs: seq<Header>): string {
    if hs == [] then CRLF else HeaderLine(hs[0]) + CRLF + HeaderBlock(hs[1..])
  }

  predicate IsDigit(c: char) {
    '0' <= c <= '9'
  }

  lemma DigitCharacters(c: char)
    ensures IsDigit(c) <==> c in "0123456789"
  {
    var digits := "0123456789";
    assert digits[0] == '0' && digits[1] == '1' && digits[2] == '2' && digits[3] == '3' && digits[4] == '4';
    assert digits[5] == '5' && digits[6] == '6' && digits[7] == '7' && digits[8] == '8' && digits[9] == '9';
  }

  predicate Digits(s: string) {
    forall i :: 0 <= i < |s| ==> IsDigit(s[i])
  }

  function DigitOf(n: nat): (c: char)
    requires n < 10
    ensures IsDigit(c) && (c as int) - ('0' as int) == n
  {
    ('0' as int + n) as char
  }

  function Decimal(n: nat): (s: string)
    ensures s != [] && Digits(s)
  {
    if n < 10 then [DigitOf(n)] else Decimal(n / 10) + [DigitOf(n % 10)]
  }

  /** The number that a string of digits denotes. */
  function NumberOf(s: string): nat
    requires Digits(s)
  {
    if s == [] then 0 else 10 * NumberOf(s[..|s| - 1]) + (s[|s| - 1] as int - '0' as int)
  }

  lemma {:induction false} DecimalRoundTrip(n: nat)
    ensures NumberOf(Decimal(n)) == n
  {
    if n < 10 {
      assert [DigitOf(n)][..0] == [];
      assert NumberOf([]) == 0;
    } else {
      DecimalRoundTrip(n / 10);
      assert Decimal(n)[..|Decimal(n)| - 1] == Decimal(n / 10);
    }
  }

  /** The value of the first header of that name, or a default. */
  function ValueOr(hs: seq<Header>, name: string, default: string): string {
    if hs == [] then default
    else if hs[0].name == name then hs[0].value
    else ValueOr(hs[1..], name, default)
  }

  predicate FirstOf(hs: seq<Header>, name: string, i: int) {
    0 <= i < |hs| && hs[i].name == name && forall j :: 0 <= j < i ==> hs[j].name != name
  }

  /** By index: of several headers of that name the first counts. */
  lemma {:induction false} FirstHeaderCounts(hs: seq<Header>, name: string, default: string)
    ensures forall i :: FirstOf(hs, name, i) ==> ValueOr(hs, name, default) == hs[i].value
    ensures (forall i :: 0 <= i < |hs| ==> hs[i].name != name) ==> ValueOr(hs, name, default) == default
    ensures (exists i :: FirstOf(hs, name, i)) || (forall i :: 0 <= i < |hs| ==> hs[i].name != name)
  {
    if hs != [] {
      var rest := hs[1..];
      FirstHeaderCounts(rest, name, default);
      if hs[0].name == name {
        assert FirstOf(hs, name, 0);
      } else {
        forall i | FirstOf(hs, name, i) ensures i > 0 && FirstOf(rest, name, i - 1) {
          assert forall j :: 0 <= j < i - 1 ==> rest[j] == hs[j + 1];
        }
        if k :| FirstOf(rest, name, k) {
          assert forall j :: 0 < j < k + 1 ==> hs[j] == rest[j - 1];
          assert FirstOf(hs, name, k + 1);
        } else {
          assert forall j :: 0 < j < |hs| ==> hs[j] == rest[j - 1];
        }
      }
    }
  }
}
