/** The uninstall address: a fixed page with the percent-encoded version, and the length that the browser accepts. */
module UninstallUrl {
  import opened Bytes

  const BASE_URL := "https://jstorrent.com/uninstall.html"
  const MAX_LENGTH := 1023

  /** How many 16-bit units a character takes in the strings of the source. */
  function Units(s: string): (n: nat)
    ensures |s| <= n <= 2 * |s|
  {
    if s == "" then 0 else (if s[0] as int < 0x1_0000 then 1 else 2) + Units(s[1..])
  }

  predicate IsAscii(s: string) {
    forall i :: 0 <= i < |s| ==> s[i] as int < 0x80
  }

  /** The octets of a character in UTF-8. */
  function Utf8(c: char): (octets: seq<byte>)
    ensures 1 <= |octets| <= 4
  {
    var n := c as int;
    if n < 0x80 then [n]
    else if n < 0x800 then [0xc0 + n / 0x40, 0x80 + n % 0x40]
    else if n < 0x1_0000 then [0xe0 + n / 0x1000, 0x80 + n / 0x40 % 0x40, 0x80 + n % 0x40]
    else [0xf0 + n / 0x4_0000, 0x80 + n / 0x1000 % 0x40, 0x80 + n / 0x40 % 0x40, 0x80 + n % 0x40]
  }

  function HexDigit(n: int): char
    requires 0 <= n < 16
  {
    if n < 10 then '0' + n as char else 'A' + (n - 10) as char
  }

  /** Letters, digits and four marks stand for themselves in a form-encoded value. */
  predicate IsPlain(c: char) {
    'a' <= c <= 'z' || 'A' <= c <= 'Z' || '0' <= c <= '9' || c == '*' || c == '-' || c == '.' || c == '_'
  }

  function Percent(octets: seq<byte>): (s: string)
    ensures |s| == 3 * |octets|
  {
    if octets == [] then ""
    else ['%', HexDigit(octets[0] / 16), HexDigit(octets[0] % 16)] + Percent(octets[1..])
  }

  function EncodedChar(c: char): string {
    if IsPlain(c) then [c] else if c == ' ' then "+" else Percent(Utf8(c))
  }

  /** The form encoding of a value. */
  function FormEncoded(s: string): string {
    if s == "" then "" else EncodedChar(s[0]) + FormEncoded(s[1..])
  }

  function Url(version: string): string {
    BASE_URL + "?v=" + FormEncoded(version)
  }

  /** The address stays within the browser's limit. */
  predicate UrlFits(version: string) {
    |Url(version)| <= MAX_LENGTH
  }

  lemma {:induction false} AsciiEncodedLength(s: string)
    requires IsAscii(s)
    ensures |FormEncoded(s)| <= 3 * |s|
  {
    if s != "" {
      assert |EncodedChar(s[0])| <= 3;
      assert IsAscii(s[1..]);
      AsciiEncodedLength(s[1..]);
    }
  }

  /** A unit encodes to at most nine characters. */
  lemma {:induction false} EncodedLength(s: string)
    ensures |FormEncoded(s)| <= 9 * Units(s)
  {
    if s != "" {
      EncodedLength(s[1..]);
    }
  }

  /** A form-encoded character is itself, a plus sign for the space, or three characters for each octet of its UTF-8. */
  lemma EncodedWidth(c: char)
    ensures var n := c as int;
            |EncodedChar(c)|
            == if IsPlain(c) || c == ' ' then 1
               else if n < 0x80 then 3 else if n < 0x800 then 6 else if n < 0x1_0000 then 9 else 12
  {}

  /** The length of an encoding is the sum of the widths. */
  lemma {:induction false} EncodedSum(s: string, t: string)
    ensures |FormEncoded(s + t)| == |FormEncoded(s)| + |FormEncoded(t)|
    ensures forall c: char :: |FormEncoded([c])| == |EncodedChar(c)|
  {
    forall c: char
      ensures |FormEncoded([c])| == |EncodedChar(c)|
    {
      assert [c][1..] == "" && FormEncoded("") == "";
    }
    if s == "" {
      assert s + t == t;
    } else {
      assert (s + t)[1..] == s[1..] + t && (s + t)[0] == s[0];
      EncodedSum(s[1..], t);
    }
  }

  lemma BaseLength()
    ensures |BASE_URL + "?v="| == 39
  {}

  /** The address fits exactly if the encoded version has at most 984 characters. */
  lemma FitsIff(version: string)
    ensures UrlFits(version) <==> |FormEncoded(version)| <= 984
  {
    BaseLength();
  }

  /** Every ASCII version of an accepted length fits. */
  lemma AsciiFits(version: string)
    requires IsAscii(version) && Units(version) <= 128
    ensures UrlFits(version)
  {
    BaseLength();
    AsciiEncodedLength(version);
  }

  /** So does every version of at most 109 units, whatever it consists of. */
  lemma ShortFits(version: string)
    requires Units(version) <= 109
    ensures UrlFits(version)
  {
    BaseLength();
    EncodedLength(version);
  }

  /** `n` times a character of three octets. */
  function Wide(n: nat): (s: string)
    ensures |s| == n && forall i :: 0 <= i < n ==> s[i] == '\U{4e2d}'
  {
    if n == 0 then "" else ['\U{4e2d}'] + Wide(n - 1)
  }

  lemma {:induction false} WideLength(n: nat)
    ensures Units(Wide(n)) == n && |FormEncoded(Wide(n))| == 9 * n
  {
    if n > 0 {
      assert Wide(n)[0] == '\U{4e2d}' && Wide(n)[1..] == Wide(n - 1);
      WideLength(n - 1);
    }
  }

  /** The bound is sharp: with 110 units a version need not fit. */
  lemma WideDoesNotFit(n: nat)
    ensures UrlFits(Wide(n)) <==> n <= 109
  {
    BaseLength();
    WideLength(n);
  }
}
