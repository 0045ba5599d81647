/** The list-view sorter that orders cells holding whole numbers: each cell text
    becomes an `int` key, and two rows compare by the difference of their keys. */
module Sorters {
  import opened Wrappers
  import opened TextHelpers

  const INT32_MIN: int := -0x8000_0000
  const INT32_MAX: int := 0x7FFF_FFFF

  predicate IsInt32(x: int) {
    INT32_MIN <= x <= INT32_MAX
  }

  /** C#'s unchecked `int` arithmetic: the value modulo 2^32, in the `int` range. */
  function Wrap32(x: int): (r: int)
    ensures IsInt32(r)
    ensures IsInt32(x) ==> r == x
    ensures (x - r) % 0x1_0000_0000 == 0
  {
    (x - INT32_MIN) % 0x1_0000_0000 + INT32_MIN
  }

  // ---------------------------------------------------------------------------
  // Convert.ToInt32(string): optional white space, an optional sign, decimal digits

  /** The white space integer parsing skips: U+0009 to U+000D and the space. */
  predicate IsNumberWhite(c: char) {
    ('\t' <= c <= '\r') || c == ' '
  }

  predicate IsDigit(c: char) {
    '0' <= c <= '9'
  }

  predicate AllDigits(s: string) {
    forall i :: 0 <= i < |s| ==> IsDigit(s[i])
  }

  function TrimStart(s: string): string
    decreases |s|
  {
    if s != [] && IsNumberWhite(s[0]) then TrimStart(s[1..]) else s
  }

  function TrimEnd(s: string): string
    decreases |s|
  {
    if s != [] && IsNumberWhite(s[|s| - 1]) then TrimEnd(s[..|s| - 1]) else s
  }

  /** The text without its trailing NUL characters, which integer parsing
      accepts after the number and its trailing white space. */
  function TrimTrailingNuls(s: string): string
    decreases |s|
  {
    if s != [] && s[|s| - 1] == '\0' then TrimTrailingNuls(s[..|s| - 1]) else s
  }

  /** The value of a string of decimal digits. */
  function DigitsValue(s: string): nat
    requires AllDigits(s)
    decreases |s|
  {
    if s == [] then 0 else DigitsValue(s[..|s| - 1]) * 10 + (s[|s| - 1] as int - '0' as int)
  }

  /** `Convert.ToInt32(value)` (invariant-culture signs): white space, an optional
      sign, decimal digits, white space and then only NUL characters; the number,
      or nothing where it throws for a malformed text or one outside the `int` range. */
  function ToInt32(value: string): (r: Option<int>)
    ensures r.Some? ==> IsInt32(r.value)
  {
    var t := TrimEnd(TrimStart(TrimTrailingNuls(value)));
    var signed := t != [] && (t[0] == '-' || t[0] == '+');
    var digits := if signed then t[1..] else t;
    if digits == [] || !AllDigits(digits) then None
    else
      var v: int := if signed && t[0] == '-' then 0 - (DigitsValue(digits) as int) else DigitsValue(digits);
      if IsInt32(v) then Some(v) else None
  }

  // ---------------------------------------------------------------------------
  // Decimal text, as a reference for the parser

  function DigitChar(d: nat): char
    requires d < 10
  {
    ('0' as int + d) as char
  }

  /** The shortest decimal digits of `k`. */
  function NatText(k: nat): (s: string)
    ensures s != [] && AllDigits(s)
    decreases k
  {
    if k < 10 then [DigitChar(k)] else NatText(k / 10) + [DigitChar(k % 10)]
  }

  /** The decimal text of `n`, with a `-` when negative. */
  function DecimalText(n: int): string {
    if n < 0 then "-" + NatText(-n) else NatText(n)
  }

  lemma {:induction false} NatTextValue(k: nat)
    ensures DigitsValue(NatText(k)) == k
    decreases k
  {
    if k >= 10 {
      NatTextValue(k / 10);
      var s := NatText(k);
      assert s[..|s| - 1] == NatText(k / 10);
    }
  }

  lemma {:induction false} TrimStartSkipsWhite(pad: string, t: string)
    requires forall i :: 0 <= i < |pad| ==> IsNumberWhite(pad[i])
    requires t != [] && !IsNumberWhite(t[0])
    ensures TrimStart(pad + t) == t
    decreases |pad|
  {
    if pad != [] {
      assert (pad + t)[1..] == pad[1..] + t;
      TrimStartSkipsWhite(pad[1..], t);
    }
  }

  lemma {:induction false} TrimEndSkipsWhite(t: string, pad: string)
    requires forall i :: 0 <= i < |pad| ==> IsNumberWhite(pad[i])
    requires t != [] && !IsNumberWhite(t[|t| - 1])
    ensures TrimEnd(t + pad) == t
    decreases |pad|
  {
    if pad != [] {
      assert (t + pad)[..|t + pad| - 1] == t + pad[..|pad| - 1];
      TrimEndSkipsWhite(t, pad[..|pad| - 1]);
    } else {
      assert t + pad == t;
    }
  }

  lemma {:induction false} TrimTrailingNulsSkips(t: string, k: nat)
    requires t == [] || t[|t| - 1] != '\0'
    ensures TrimTrailingNuls(t + seq(k, _ => '\0')) == t
    decreases k
  {
    if k == 0 {
      assert t + seq(k, _ => '\0') == t;
    } else {
      var u := t + seq(k, _ => '\0');
      assert u[..|u| - 1] == t + seq(k - 1, _ => '\0');
      TrimTrailingNulsSkips(t, k - 1);
    }
  }

  /** `Convert.ToInt32` reads back the decimal text of every `int`, with any
      surrounding white space and any NUL characters after it. */
  lemma ToInt32RoundTrip(n: int, lead: string, trail: string, nuls: nat)
    requires IsInt32(n)
    requires forall i :: 0 <= i < |lead| ==> IsNumberWhite(lead[i])
    requires forall i :: 0 <= i < |trail| ==> IsNumberWhite(trail[i])
    ensures ToInt32(lead + DecimalText(n) + trail + seq(nuls, _ => '\0')) == Some(n)
  {
    var t := DecimalText(n);
    var k: nat := if n < 0 then -n else n;
    NatTextValue(k);
    var body := lead + t + trail;
    assert body[|body| - 1] == if trail == [] then t[|t| - 1] else trail[|trail| - 1];
    TrimTrailingNulsSkips(body, nuls);
    TrimStartSkipsWhite(lead, t + trail);
    assert lead + t + trail == lead + (t + trail);
    TrimEndSkipsWhite(t, trail);
    if n < 0 {
      assert t[1..] == NatText(k);
    }
  }

  /** Decimal text of a number outside the `int` range does not parse. */
  lemma ToInt32OutOfRange(n: int)
    requires !IsInt32(n)
    ensures ToInt32(DecimalText(n)) == None
  {
    var t := DecimalText(n);
    var k: nat := if n < 0 then -n else n;
    NatTextValue(k);
    assert TrimTrailingNuls(t) == t;
    assert TrimStart(t) == t;
    assert TrimEnd(t) == t;
    if n < 0 {
      assert t[1..] == NatText(k);
    }
  }

  /** A number followed by a character that is neither a digit, white space nor
      NUL does not parse. */
  lemma ToInt32RejectsTrailingText(n: int, c: char)
    requires !IsDigit(c) && !IsNumberWhite(c) && c != '\0'
    ensures ToInt32(DecimalText(n) + [c]) == None
  {
    var t := DecimalText(n) + [c];
    assert TrimTrailingNuls(t) == t;
    assert TrimStart(t) == t;
    assert TrimEnd(t) == t;
    assert t[|t| - 1] == c;
  }

  // ---------------------------------------------------------------------------
  // The sort key and the comparison

  /** `ParseAsInt`: a missing or blank cell is -1, the specials label is 0, a
      number is its value, and any other text is 0. */
  function ParseAsInt(text: Option<string>, specialsListViewName: string): (r: int)
    ensures IsInt32(r)
    ensures !HasValue(text) ==> r == -1
    ensures HasValue(text) && text.value == specialsListViewName ==> r == 0
    ensures HasValue(text) && text.value != specialsListViewName ==> r == ToInt32(text.value).GetOr(0)
  {
    if !HasValue(text) then -1
    else if text.value == specialsListViewName then 0
    else match ToInt32(text.value)
      case Some(v) => v
      case None => 0
  }

  /** A cell holding the decimal text of an `int` (other than the specials label)
      sorts by that number. */
  lemma ParseAsIntOfNumber(n: int, specialsListViewName: string)
    requires IsInt32(n) && DecimalText(n) != specialsListViewName
    ensures ParseAsInt(Some(DecimalText(n)), specialsListViewName) == n
  {
    var t := DecimalText(n);
    ToInt32RoundTrip(n, "", "", 0);
    assert "" + t + "" + seq(0, _ => '\0') == t;
    assert ToInt32(t) == Some(n);
    assert !IsWhiteSpace(t[|t| - 1]);
  }

  /** `CompareListViewItem` as written: the keys' difference in unchecked 32-bit
      arithmetic. */
  function CompareListViewItem(x: Option<string>, y: Option<string>, specialsListViewName: string): (r: int)
    ensures IsInt32(r)
    ensures x == y ==> r == 0
  {
    Wrap32(ParseAsInt(x, specialsListViewName) - ParseAsInt(y, specialsListViewName))
  }

  /** Where the keys' difference does not overflow, the comparison as written has
      the sign of the key order and is antisymmetric. */
  lemma CompareWithoutOverflow(x: Option<string>, y: Option<string>, specialsListViewName: string)
    requires -INT32_MAX <= ParseAsInt(x, specialsListViewName) - ParseAsInt(y, specialsListViewName) <= INT32_MAX
    ensures CompareListViewItem(x, y, specialsListViewName) == ParseAsInt(x, specialsListViewName) - ParseAsInt(y, specialsListViewName)
    ensures CompareListViewItem(x, y, specialsListViewName) == -CompareListViewItem(y, x, specialsListViewName)
  {
  }

  /** The decimal text of `int.MaxValue`. */
  lemma MaxValueText()
    ensures DecimalText(INT32_MAX) == "2147483647"
  {
    assert NatText(2) == "2";
    assert NatText(21) == "21";
    assert NatText(214) == "214";
    assert NatText(2147) == "2147";
    assert NatText(21474) == "21474";
    assert NatText(214748) == "214748";
    assert NatText(2147483) == "2147483";
    assert NatText(21474836) == "21474836";
    assert NatText(214748364) == "214748364";
    assert NatText(2147483647) == "2147483647";
  }

  /** The comparison as written overflows: a cell holding "2147483647" and an
      empty cell each compare as less than the other. */
  lemma CompareOverflowCounterexample(specialsListViewName: string)
    requires specialsListViewName != "2147483647"
    ensures ParseAsInt(Some("2147483647"), specialsListViewName) > ParseAsInt(Some(""), specialsListViewName)
    ensures CompareListViewItem(Some("2147483647"), Some(""), specialsListViewName) < 0
    ensures CompareListViewItem(Some(""), Some("2147483647"), specialsListViewName) < 0
  {
    MaxValueText();
    ParseAsIntOfNumber(INT32_MAX, specialsListViewName);
  }

  /** The comparison the sorter evidently intends: the order of the keys, as
      `ParseAsInt(x).CompareTo(ParseAsInt(y))`. */
  function CompareByKey(x: Option<string>, y: Option<string>, specialsListViewName: string): (r: int)
    ensures r < 0 <==> ParseAsInt(x, specialsListViewName) < ParseAsInt(y, specialsListViewName)
    ensures r == 0 <==> ParseAsInt(x, specialsListViewName) == ParseAsInt(y, specialsListViewName)
    ensures r > 0 <==> ParseAsInt(x, specialsListViewName) > ParseAsInt(y, specialsListViewName)
  {
    var kx := ParseAsInt(x, specialsListViewName);
    var ky := ParseAsInt(y, specialsListViewName);
    if kx < ky then -1 else if kx == ky then 0 else 1
  }

  /** The intended comparison is a consistent ordering: antisymmetric and transitive. */
  lemma CompareByKeyIsOrdering(x: Option<string>, y: Option<string>, z: Option<string>, sp: string)
    ensures CompareByKey(x, y, sp) == -CompareByKey(y, x, sp)
    ensures CompareByKey(x, y, sp) <= 0 && CompareByKey(y, z, sp) <= 0 ==> CompareByKey(x, z, sp) <= 0
  {
  }

  /** Where the written comparison does not overflow it agrees in sign with the
      intended one. */
  lemma CompareAgreesWithoutOverflow(x: Option<string>, y: Option<string>, sp: string)
    requires -INT32_MAX <= ParseAsInt(x, sp) - ParseAsInt(y, sp) <= INT32_MAX
    ensures CompareListViewItem(x, y, sp) < 0 <==> CompareByKey(x, y, sp) < 0
    ensures CompareListViewItem(x, y, sp) == 0 <==> CompareByKey(x, y, sp) == 0
  {
  }
}
