/** What everything else is written in: options, ids, 64-bit integers, and trimming, splitting and searching text. */
module Text {

  datatype Option<+T> = None | Some(value: T)

  /** A Discord id is text. */
  type Id = string

  const I64_MIN: int := -0x8000_0000_0000_0000
  const I64_MAX: int := 0x7fff_ffff_ffff_ffff

  predicate IsI64(n: int) {
    I64_MIN <= n <= I64_MAX
  }

  function Pow2(n: nat): nat {
    if n == 0 then 1 else 2 * Pow2(n - 1)
  }

  lemma {:induction false} Pow2Positive(n: nat)
    ensures Pow2(n) > 0
  {
    if n > 0 {
      Pow2Positive(n - 1);
    }
  }

  // ---- white space ----

  /** The Unicode White_Space property, which `str::trim` strips. */
  predicate IsSpace(c: char) {
    var n := c as int;
    || 0x09 <= n <= 0x0d || n == 0x20 || n == 0x85 || n == 0xa0 || n == 0x1680
    || 0x2000 <= n <= 0x200a || n == 0x2028 || n == 0x2029 || n == 0x202f || n == 0x205f || n == 0x3000
  }

  function TrimStart(s: string): string {
    if s != "" && IsSpace(s[0]) then TrimStart(s[1..]) else s
  }

  function TrimEnd(s: string): string {
    if s != "" && IsSpace(s[|s| - 1]) then TrimEnd(s[..|s| - 1]) else s
  }

  function Trim(s: string): string {
    TrimEnd(TrimStart(s))
  }

  predicate IsBlank(s: string) {
    Trim(s) == ""
  }

  /** Text that neither begins nor ends with white space is left alone. */
  lemma TrimIsIdentity(s: string)
    requires s == "" || (!IsSpace(s[0]) && !IsSpace(s[|s| - 1]))
    ensures Trim(s) == s
  {
  }

  // ---- splitting and joining ----

  /** `s.split(c)`: always at least one piece. */
  function Split(s: string, c: char): (pieces: seq<string>)
    ensures pieces != []
  {
    if s == "" then [""]
    else
      var rest := Split(s[1..], c);
      if s[0] == c then [""] + rest else [[s[0]] + rest[0]] + rest[1..]
  }

  /** `s.splitn(n, c)`: at most `n` pieces, the last one holding whatever is left. */
  function SplitN(s: string, c: char, n: nat): (pieces: seq<string>)
    requires n > 0
    decreases n
  {
    if n == 1 || c !in s then [s]
    else
      var k := IndexOf(s, c);
      [s[..k]] + SplitN(s[k + 1..], c, n - 1)
  }

  function IndexOf(s: string, c: char): (k: nat)
    requires c in s
    ensures k < |s| && s[k] == c && c !in s[..k]
  {
    if s[0] == c then 0
    else
      var k := IndexOf(s[1..], c);
      assert s[..k + 1] == [s[0]] + s[1..][..k];
      k + 1
  }

  /** A separator-free head is exactly what `IndexOf` finds in front of the first separator. */
  lemma IndexOfHead(head: string, c: char, tail: string)
    requires c !in head
    ensures c in head + [c] + tail
    ensures IndexOf(head + [c] + tail, c) == |head|
  {
    var s := head + [c] + tail;
    assert s[|head|] == c;
    assert forall j :: 0 <= j < |head| ==> s[j] == head[j];
  }

  lemma SplitNHead(head: string, c: char, tail: string, n: nat)
    requires n > 1 && c !in head
    ensures SplitN(head + [c] + tail, c, n) == [head] + SplitN(tail, c, n - 1)
  {
    IndexOfHead(head, c, tail);
    var s := head + [c] + tail;
    assert s[..|head|] == head && s[|head| + 1..] == tail;
  }

  // ---- substrings ----

  predicate Contains(text: string, needle: string) {
    exists i: nat :: i <= |text| && needle <= text[i..]
  }

  // ---- decimal integers ----

  predicate IsDigit(c: char) {
    '0' <= c <= '9'
  }

  function DigitChar(d: nat): (c: char)
    requires d < 10
    ensures IsDigit(c) && DigitValue(c) == d
  {
    '0' + d as char
  }

  function DigitValue(c: char): nat
    requires IsDigit(c)
  {
    c as nat - '0' as nat
  }

  predicate AllDigits(s: string) {
    forall i :: 0 <= i < |s| ==> IsDigit(s[i])
  }

  /** Decimal print of a natural number, as `format!("{n}")`. */
  function ShowNat(n: nat): (s: string)
    ensures s != "" && AllDigits(s)
    ensures NatValue(s) == n && (s[0] == '0' <==> n == 0)
  {
    if n < 10 then [DigitChar(n)] else ShowNat(n / 10) + [DigitChar(n % 10)]
  }

  function NatValue(s: string): nat
    requires AllDigits(s)
  {
    if s == "" then 0 else 10 * NatValue(s[..|s| - 1]) + DigitValue(s[|s| - 1])
  }

  function ShowInt(n: int): string {
    if n < 0 then "-" + ShowNat(-n) else ShowNat(n)
  }

  /** `str::parse::<i64>()`: one optional sign, at least one digit, within range. */
  function ParseI64(s: string): Option<int> {
    var signed := s != "" && (s[0] == '-' || s[0] == '+');
    var digits := if signed then s[1..] else s;
    if digits == "" || !AllDigits(digits) then None
    else
      var n: int := if signed && s[0] == '-' then 0 - NatValue(digits) else NatValue(digits);
      if IsI64(n) then Some(n) else None
  }

  /** A printed integer is a bare word. */
  lemma ShowIntBare(n: int)
    ensures ':' !in ShowInt(n) && !IsBlank(ShowInt(n))
  {
  }

  /** Every 64-bit integer survives being printed and parsed. */
  lemma ShowParse(n: int)
    requires IsI64(n)
    ensures ParseI64(ShowInt(n)) == Some(n)
    // a minus sign and leading zeros only where they belong
    ensures var s := ShowInt(n); (s[0] == '-' <==> n < 0) && (n > 0 ==> s[0] != '0') && (n < 0 ==> s[1] != '0')
  {
  }
}
