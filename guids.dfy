/**
 * `System.Guid` as a 128-bit number, with the 36-character "D" text form
 * (`xxxxxxxx-xxxx-xxxx-xxxx-xxxxxxxxxxxx`) that `Guid.ToString()` writes and
 * JSON carries, and the part of `Guid.Parse` that reads it back.
 */
module Guids {
  import opened Wrappers

  function Pow16(n: nat): (r: nat)
    ensures r >= 1
  {
    if n == 0 then 1 else 16 * Pow16(n - 1)
  }

  type Guid = x: nat | x < Pow16(32)

  /** `Guid.Empty`. */
  const Empty: Guid := 0

  predicate IsHexDigit(c: char) {
    ('0' <= c <= '9') || ('a' <= c <= 'f') || ('A' <= c <= 'F')
  }

  function DigitValue(c: char): (d: nat)
    requires IsHexDigit(c)
    ensures d < 16
  {
    if '0' <= c <= '9' then c as nat - '0' as nat
    else if 'a' <= c <= 'f' then c as nat - 'a' as nat + 10
    else c as nat - 'A' as nat + 10
  }

  function HexChar(d: nat): (c: char)
    requires d < 16
    ensures IsHexDigit(c) && DigitValue(c) == d
  {
    "0123456789abcdef"[d]
  }

  /** The `n` lower-case hex digits of `x`, most significant first. */
  function HexDigits(x: nat, n: nat): (s: string)
    ensures |s| == n
    ensures forall i :: 0 <= i < n ==> IsHexDigit(s[i])
  {
    if n == 0 then "" else HexDigits(x / 16, n - 1) + [HexChar(x % 16)]
  }

  predicate AllHex(s: string) {
    forall i :: 0 <= i < |s| ==> IsHexDigit(s[i])
  }

  /** The number a string of hex digits denotes, most significant first. */
  function HexValue(s: string): (v: nat)
    requires AllHex(s)
    ensures v < Pow16(|s|)
  {
    if s == [] then 0 else HexValue(s[..|s| - 1]) * 16 + DigitValue(s[|s| - 1])
  }

  /** "D" format: 32 digits grouped 8-4-4-4-12 by hyphens. */
  function FormatGuid(g: Guid): (s: string)
    ensures |s| == 36
  {
    var d := HexDigits(g, 32);
    d[..8] + "-" + d[8..12] + "-" + d[12..16] + "-" + d[16..20] + "-" + d[20..]
  }

  /** The 32 digits of a "D"-format string, hyphens removed. */
  function DigitsOf(s: string): string
    requires |s| == 36
  {
    s[..8] + s[9..13] + s[14..18] + s[19..23] + s[24..]
  }

  predicate IsGuidText(s: string) {
    && |s| == 36
    && s[8] == '-' && s[13] == '-' && s[18] == '-' && s[23] == '-'
    && AllHex(DigitsOf(s))
  }

  /** `Guid.Parse`, for "D"-format text only; `None` is the `FormatException`. */
  function ParseGuid(s: string): (r: Option<Guid>)
    ensures r.Some? <==> IsGuidText(s)
  {
    if IsGuidText(s) then Some(HexValue(DigitsOf(s))) else None
  }

  /** Dropping the last hex digit of a number below `16 * p` leaves one below `p`. */
  lemma DivideBy16(x: nat, p: nat)
    requires x < 16 * p
    ensures x / 16 < p
    ensures x == (x / 16) * 16 + x % 16
  {
  }

  lemma {:induction false} HexRoundTrip(x: nat, n: nat)
    requires x < Pow16(n)
    ensures HexValue(HexDigits(x, n)) == x
  {
    if n > 0 {
      var s := HexDigits(x, n);
      var init := HexDigits(x / 16, n - 1);
      assert s == init + [HexChar(x % 16)];
      assert s[..|s| - 1] == init;
      DivideBy16(x, Pow16(n - 1));
      HexRoundTrip(x / 16, n - 1);
      assert HexValue(s) == HexValue(init) * 16 + DigitValue(HexChar(x % 16));
    }
  }

  /** The "D" text of `g` has its hyphens in place and, without them, is the 32 digits of `g`. */
  lemma FormatLayout(g: Guid)
    ensures FormatGuid(g)[8] == '-' && FormatGuid(g)[13] == '-' && FormatGuid(g)[18] == '-' && FormatGuid(g)[23] == '-'
    ensures DigitsOf(FormatGuid(g)) == HexDigits(g, 32)
  {
    var d := HexDigits(g, 32);
    var s := FormatGuid(g);
    assert s[..8] == d[..8];
    assert s[9..13] == d[8..12];
    assert s[14..18] == d[12..16];
    assert s[19..23] == d[16..20];
    assert s[24..] == d[20..];
    assert d == d[..8] + d[8..12] + d[12..16] + d[16..20] + d[20..];
  }

  /** Parsing what `Guid.ToString()` wrote gives the same GUID back. */
  lemma ParseFormat(g: Guid)
    ensures ParseGuid(FormatGuid(g)) == Some(g)
  {
    FormatLayout(g);
    var d := HexDigits(g, 32);
    assert AllHex(d);
    assert IsGuidText(FormatGuid(g));
    HexRoundTrip(g, 32);
  }

  /** Distinct GUIDs have distinct text. */
  lemma FormatInjective(g: Guid, h: Guid)
    requires FormatGuid(g) == FormatGuid(h)
    ensures g == h
  {
    ParseFormat(g);
    ParseFormat(h);
  }
}
