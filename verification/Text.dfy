/** The string operations of the SCRAM messages: comma-separated fields, last occurrence of
    a pattern, and decimal numbers. */
module Text {
  import opened EngineTypes

  predicate NoComma(s: string) {
    forall i :: 0 <= i < |s| ==> s[i] != ','
  }

  // ----- Fields -----

  /** `str::split(',')`. */
  function Split(s: string): (parts: seq<string>)
    ensures |parts| >= 1
  {
    if s == "" then [""]
    else
      var rest := Split(s[1..]);
      if s[0] == ',' then [""] + rest else [[s[0]] + rest[0]] + rest[1..]
  }

  lemma {:induction false} SplitOne(a: string)
    requires NoComma(a)
    ensures Split(a) == [a]
  {
    if a != "" {
      SplitOne(a[1..]);
      assert a == [a[0]] + a[1..];
    }
  }

  lemma {:induction false} SplitCons(a: string, b: string)
    requires NoComma(a)
    ensures Split(a + "," + b) == [a] + Split(b)
  {
    if a == "" {
      assert a + "," + b == "," + b;
      assert ("," + b)[1..] == b;
    } else {
      SplitCons(a[1..], b);
      assert (a + "," + b)[1..] == a[1..] + "," + b;
      assert a == [a[0]] + a[1..];
    }
  }

  /** The fields again, with commas between them. */
  function Join(parts: seq<string>): string
    requires parts != []
  {
    if |parts| == 1 then parts[0] else parts[0] + "," + Join(parts[1..])
  }

  /** Splitting undoes joining. */
  lemma {:induction false} SplitJoin(parts: seq<string>)
    requires parts != [] && forall i :: 0 <= i < |parts| ==> NoComma(parts[i])
    ensures Split(Join(parts)) == parts
  {
    hide Split;
    if |parts| == 1 {
      SplitOne(parts[0]);
    } else {
      SplitJoin(parts[1..]);
      SplitCons(parts[0], Join(parts[1..]));
      assert parts == [parts[0]] + parts[1..];
    }
  }

  lemma {:induction false} JoinConcat(a: seq<string>, b: seq<string>)
    requires a != [] && b != []
    ensures Join(a + b) == Join(a) + "," + Join(b)
  {
    if |a| == 1 {
      assert (a + b)[1..] == b;
    } else {
      JoinConcat(a[1..], b);
      assert (a + b)[1..] == a[1..] + b;
      Associative(a[0] + ",", Join(a[1..]), "," + Join(b));
    }
  }

  lemma Associative(a: string, b: string, c: string)
    ensures a + b + c == a + (b + c)
  {
  }

  lemma JoinTwo(a: string, b: string)
    ensures Join([a, b]) == a + "," + b
  {
    assert [a, b][1..] == [b];
  }

  lemma JoinThree(a: string, b: string, c: string)
    ensures Join([a, b, c]) == a + "," + (b + "," + c)
  {
    assert [a, b, c][1..] == [b, c];
    JoinTwo(b, c);
  }

  predicate HasKey(part: string, key: char) {
    |part| >= 2 && part[0] == key && part[1] == '='
  }

  /** The last field that starts with `key=`, without that prefix. */
  function LastField(parts: seq<string>, key: char): Option<string> {
    if parts == [] then None
    else
      var last := parts[|parts| - 1];
      if HasKey(last, key) then Some(last[2..]) else LastField(parts[..|parts| - 1], key)
  }

  lemma {:induction false} LastFieldCons(p: string, parts: seq<string>, key: char)
    ensures LastField([p] + parts, key) ==
      if LastField(parts, key).Some? then LastField(parts, key)
      else if HasKey(p, key) then Some(p[2..]) else None
  {
    if parts == [] {
      assert [p] + parts == [p];
      assert [p][..0] == [];
    } else {
      var k := |parts| - 1;
      LastFieldCons(p, parts[..k], key);
      assert ([p] + parts)[..k + 1] == [p] + parts[..k];
    }
  }

  lemma LastFieldTwo(a: string, b: string, key: char)
    ensures LastField([a, b], key) ==
      if HasKey(b, key) then Some(b[2..]) else if HasKey(a, key) then Some(a[2..]) else None
  {
    assert [a, b] == [a] + [b];
    LastFieldCons(a, [b], key);
    assert [b] == [b] + [];
    LastFieldCons(b, [], key);
  }

  lemma LastFieldThree(a: string, b: string, c: string, key: char)
    ensures LastField([a, b, c], key) ==
      if HasKey(c, key) then Some(c[2..]) else if HasKey(b, key) then Some(b[2..])
      else if HasKey(a, key) then Some(a[2..]) else None
  {
    assert [a, b, c] == [a] + [b, c];
    LastFieldCons(a, [b, c], key);
    LastFieldTwo(b, c, key);
  }

  // ----- Last occurrence -----

  predicate OccursAt(s: string, pat: string, i: nat) {
    i + |pat| <= |s| && s[i..i + |pat|] == pat
  }

  /** `str::rfind`: the last occurrence of `pat` that starts at or before `i`. */
  function RFind(s: string, pat: string, i: nat): (r: Option<nat>)
    ensures r.Some? ==> OccursAt(s, pat, r.value) && r.value <= i
    ensures forall j :: (if r.Some? then r.value else -1) < j <= i ==> !OccursAt(s, pat, j)
  {
    if OccursAt(s, pat, i) then Some(i) else if i == 0 then None else RFind(s, pat, i - 1)
  }

  /** The proof field is found even though it may itself contain `p=`. */
  lemma ProofFieldFound(a: string, b: string)
    requires NoComma(b)
    ensures RFind(a + ",p=" + b, ",p=", |a + ",p=" + b|) == Some(|a|)
  {
    var s := a + ",p=" + b;
    assert OccursAt(s, ",p=", |a|);
    forall j | |a| < j <= |s|
      ensures !OccursAt(s, ",p=", j)
    {
      assert j + 3 <= |s| ==> s[j..j + 3][0] == s[j];
    }
  }

  // ----- Decimal numbers -----

  function Digit(n: nat): char
    requires n < 10
  {
    ['0', '1', '2', '3', '4', '5', '6', '7', '8', '9'][n]
  }

  predicate IsDigit(c: char) {
    '0' <= c <= '9'
  }

  function DigitValue(c: char): (d: nat)
    requires IsDigit(c)
    ensures d < 10
  {
    c as nat - '0' as nat
  }

  function Decimal(n: nat): (s: string)
    ensures |s| > 0 && forall i :: 0 <= i < |s| ==> IsDigit(s[i])
  {
    if n < 10 then [Digit(n)] else Decimal(n / 10) + [Digit(n % 10)]
  }

  function DigitsValue(s: string): nat
    requires forall i :: 0 <= i < |s| ==> IsDigit(s[i])
  {
    if s == "" then 0 else 10 * DigitsValue(s[..|s| - 1]) + DigitValue(s[|s| - 1])
  }

  lemma {:induction false} DecimalValue(n: nat)
    ensures DigitsValue(Decimal(n)) == n
  {
    if n >= 10 {
      DecimalValue(n / 10);
      assert (Decimal(n / 10) + [Digit(n % 10)])[..|Decimal(n / 10)|] == Decimal(n / 10);
    }
  }

  const U32_MAX: nat := 0xFFFF_FFFF

  /** `str::parse::<u32>`: an optional plus sign, then digits that fit 32 bits. */
  function ParseU32(s: string): Option<nat> {
    var digits := if |s| > 1 && s[0] == '+' then s[1..] else s;
    if digits == "" || (exists i :: 0 <= i < |digits| && !IsDigit(digits[i])) then None
    else if DigitsValue(digits) > U32_MAX then None
    else Some(DigitsValue(digits))
  }

  lemma DecimalRoundTrip(n: nat)
    requires n <= U32_MAX
    ensures ParseU32(Decimal(n)) == Some(n) && NoComma(Decimal(n))
  {
    DecimalValue(n);
    assert IsDigit(Decimal(n)[0]);
  }

  // ----- Hexadecimal numbers -----

  const HEX_DIGITS := "0123456789abcdef"

  /** `{:x}` formatting. */
  function Hex(n: nat): (s: string)
    ensures |s| > 0
  {
    if n < 16 then [HEX_DIGITS[n]] else Hex(n / 16) + [HEX_DIGITS[n % 16]]
  }

  lemma HexDigitsDiffer(i: nat, j: nat)
    requires i < 16 && j < 16 && HEX_DIGITS[i] == HEX_DIGITS[j]
    ensures i == j
  {
  }

  lemma {:induction false} HexInjective(m: nat, n: nat)
    requires Hex(m) == Hex(n)
    ensures m == n
    decreases m
  {
    var a, b := Hex(m), Hex(n);
    assert a[|a| - 1] == HEX_DIGITS[m % 16] && b[|b| - 1] == HEX_DIGITS[n % 16];
    HexDigitsDiffer(m % 16, n % 16);
    if m >= 16 && n >= 16 {
      assert a[..|a| - 1] == Hex(m / 16) && b[..|b| - 1] == Hex(n / 16);
      HexInjective(m / 16, n / 16);
    }
  }
}
