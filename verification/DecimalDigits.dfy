/** The digits that `\d` matches and `int` reads: the decimal digits of every script in
    version 15.0 of the Unicode Character Database, which Python 3.12 uses. */
module DecimalDigits {
  import opened Wrappers

  function ValueIn(zeros: seq<int>, c: char): (r: Option<nat>)
    ensures r.Some? ==> r.value < 10
  {
    if zeros == [] then None
    else if zeros[0] <= c as int < zeros[0] + 10 then Some(c as int - zeros[0])
    else ValueIn(zeros[1..], c)
  }

  /** The list holds the code points of the zeros after the ASCII one, in order; the other
      nine digits of a script follow its zero. */
  function ScriptValue(c: char): (r: Option<nat>)
    ensures r.Some? ==> r.value < 10
  {
    ValueIn(
      [0x660, 0x6F0, 0x7C0, 0x966, 0x9E6, 0xA66, 0xAE6, 0xB66, 0xBE6, 0xC66, 0xCE6, 0xD66, 0xDE6, 0xE50, 0xED0,
       0xF20, 0x1040, 0x1090, 0x17E0, 0x1810, 0x1946, 0x19D0, 0x1A80, 0x1A90, 0x1B50, 0x1BB0, 0x1C40, 0x1C50, 0xA620,
       0xA8D0, 0xA900, 0xA9D0, 0xA9F0, 0xAA50, 0xABF0, 0xFF10, 0x104A0, 0x10D30, 0x11066, 0x110F0, 0x11136, 0x111D0,
       0x112F0, 0x11450, 0x114D0, 0x11650, 0x116C0, 0x11730, 0x118E0, 0x11950, 0x11C50, 0x11D50, 0x11DA0, 0x11F50,
       0x16A60, 0x16AC0, 0x16B50, 0x1D7CE, 0x1D7D8, 0x1D7E2, 0x1D7EC, 0x1D7F6, 0x1E140, 0x1E2F0, 0x1E4F0, 0x1E950,
       0x1FBF0],
      c)
  }

  function DigitValue(c: char): (r: Option<nat>)
    ensures r.Some? ==> r.value < 10
  {
    if '0' <= c <= '9' then Some(c as int - 48)
    else if c as int < 0x660 then None
    else ScriptValue(c)
  }

  predicate IsDigit(c: char) { DigitValue(c).Some? }

  /** int(s) for a run of digits. */
  function Number(s: string): nat
    requires forall i :: 0 <= i < |s| ==> IsDigit(s[i])
  {
    if s == [] then 0 else
      assert IsDigit(s[|s| - 1]);
      Number(s[..|s| - 1]) * 10 + DigitValue(s[|s| - 1]).value
  }
}
