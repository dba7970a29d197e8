/**
 * Identifiers and their text form.
 *
 * A task identifier is a 128-bit GUID. Error messages interpolate it with its
 * standard text form: 32 lower-case hexadecimal digits, most significant
 * first, grouped 8-4-4-4-12 and separated by hyphens. The round-trip lemma
 * below shows that this text determines the identifier.
 */
module GuidText {

  /** A GUID, as the 128-bit number its 32 hexadecimal digits spell. */
  type Guid = g: nat | g < Pow16(32)

  /** Length of the hyphenated text form. */
  const GuidTextLength: nat := 36

  function Pow16(k: nat): (p: nat)
    ensures p > 0
  {
    if k == 0 then 1 else 16 * Pow16(k - 1)
  }

  function HexChar(d: nat): (c: char)
    requires d < 16
  {
    if d < 10 then ('0' as int + d) as char else ('a' as int + d - 10) as char
  }

  function HexValue(c: char): nat
  {
    if '0' <= c <= '9' then c as int - '0' as int
    else if 'a' <= c <= 'f' then c as int - 'a' as int + 10
    else 0
  }

  predicate IsHexDigit(c: char)
  {
    '0' <= c <= '9' || 'a' <= c <= 'f'
  }

  /** The k lowest hexadecimal digits of n, most significant first. */
  function HexDigits(n: nat, k: nat): (s: seq<char>)
    requires n < Pow16(k)
    ensures |s| == k
    ensures forall i :: 0 <= i < |s| ==> IsHexDigit(s[i])
  {
    if k == 0 then []
    else HexDigits(n / 16, k - 1) + [HexChar(n % 16)]
  }

  /** The number a string of hexadecimal digits spells. */
  function ParseHex(s: seq<char>): nat
  {
    if s == [] then 0 else 16 * ParseHex(s[..|s| - 1]) + HexValue(s[|s| - 1])
  }

  /** The hyphenated 8-4-4-4-12 text of a GUID. */
  function FormatGuid(g: Guid): (s: string)
    ensures |s| == GuidTextLength
  {
    var d := HexDigits(g, 32);
    d[..8] + "-" + d[8..12] + "-" + d[12..16] + "-" + d[16..20] + "-" + d[20..]
  }

  /** Reads a GUID back from its 36-character text (hyphens are skipped). */
  function ParseGuid(s: string): nat
    requires |s| == GuidTextLength
  {
    ParseHex(s[..8] + s[9..13] + s[14..18] + s[19..23] + s[24..])
  }

  lemma {:induction false} ParseHexDigits(n: nat, k: nat)
    requires n < Pow16(k)
    ensures ParseHex(HexDigits(n, k)) == n
  {
    if k > 0 {
      var s := HexDigits(n, k);
      assert s[..|s| - 1] == HexDigits(n / 16, k - 1);
      assert s[|s| - 1] == HexChar(n % 16);
      ParseHexDigits(n / 16, k - 1);
    }
  }

  /** Parsing the text of a GUID gives back that GUID. */
  lemma ParseFormatGuid(g: Guid)
    ensures ParseGuid(FormatGuid(g)) == g
  {
    var d := HexDigits(g, 32);
    var s := FormatGuid(g);
    assert s[..8] == d[..8] && s[9..13] == d[8..12] && s[14..18] == d[12..16];
    assert s[19..23] == d[16..20] && s[24..] == d[20..];
    assert d[..8] + d[8..12] + d[12..16] + d[16..20] + d[20..] == d;
    ParseHexDigits(g, 32);
  }

  /** Distinct GUIDs have distinct texts. */
  lemma FormatGuidInjective(g1: Guid, g2: Guid)
    ensures FormatGuid(g1) == FormatGuid(g2) ==> g1 == g2
  {
    ParseFormatGuid(g1);
    ParseFormatGuid(g2);
  }
}
