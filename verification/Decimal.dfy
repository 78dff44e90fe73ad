/** Reading and printing decimal numbers: `myAtoi` of atoi/atoi.cpp against `index_string` and
    `add_commas` of param_pack/param_pack.cpp.

    `myAtoi` never overflows and returns the unbounded value clamped to an int; the printed
    number is the one string without leading zeros that reads back; the commas stand before
    every third digit from the right and taking them out restores the string.
    */
module Decimal {
  import opened Basics

  const INT_MAX := 0x7fff_ffff
  const INT_MIN := -0x8000_0000

  predicate IsDigit(c: char)
  {
    '0' <= c <= '9'
  }

  /** `std::isspace` in the C locale. */
  predicate IsSpace(c: char)
  {
    c == ' ' || '\t' <= c <= '\r'
  }

  function DigitValue(c: char): int
    requires IsDigit(c)
  {
    c as int - '0' as int
  }

  function DigitChar(d: int): (c: char)
    requires 0 <= d < 10
    ensures IsDigit(c) && DigitValue(c) == d
  {
    (d + '0' as int) as char
  }

  predicate AllDigits(s: string)
  {
    forall i | 0 <= i < |s| :: IsDigit(s[i])
  }

  // ---------- The value of a string ----------

  /** The unbounded value of a string of digits. */
  function Value(s: string): nat
    requires AllDigits(s)
  {
    if s == [] then 0 else 10 * Value(s[..|s|-1]) + DigitValue(s[|s|-1])
  }

  function SkipSpaces(s: string): (r: string)
    ensures |r| <= |s|
  {
    if s != [] && IsSpace(s[0]) then SkipSpaces(s[1..]) else s
  }

  /** The longest prefix of digits. */
  function DigitPrefix(s: string): (r: string)
    ensures AllDigits(r) && r <= s && (|r| < |s| ==> !IsDigit(s[|r|]))
  {
    if s != [] && IsDigit(s[0]) then [s[0]] + DigitPrefix(s[1..]) else []
  }

  /** Spaces, at most one sign, digits; whatever follows is ignored. */
  function Meaning(s: string): int
  {
    var t := SkipSpaces(s);
    if t != [] && t[0] == '-' then 0 - Value(DigitPrefix(t[1..]))
    else if t != [] && t[0] == '+' then Value(DigitPrefix(t[1..]))
    else Value(DigitPrefix(t))
  }

  function Clamp(x: int): int
  {
    if x < INT_MIN then INT_MIN else if x > INT_MAX then INT_MAX else x
  }

  // ---------- What the value is ----------

  const DIGITS := "0123456789"

  /** Where a character first stands in a string. */
  function PlaceIn(c: char, s: string): (k: nat)
    ensures k <= |s|
  {
    if s == "" || s[0] == c then 0 else 1 + PlaceIn(c, s[1..])
  }

  lemma {:induction false} PlaceOf(s: string, k: nat)
    requires k < |s| && forall j | 0 <= j < k :: s[j] != s[k]
    ensures PlaceIn(s[k], s) == k
  {
    if k > 0 {
      assert s[0] != s[k];
      assert s[1..][k - 1] == s[k];
      PlaceOf(s[1..], k - 1);
    }
  }

  /** A digit is worth its place in "0123456789", and nothing else is a digit. */
  lemma DigitIsPlace(c: char)
    ensures IsDigit(c) <==> c in "0123456789"
    ensures IsDigit(c) ==> DigitValue(c) == PlaceIn(c, "0123456789") && "0123456789"[DigitValue(c)] == c
  {
    if IsDigit(c) {
      var d := DigitValue(c);
      assert forall i | 0 <= i < 10 :: DIGITS[i] as int == '0' as int + i;
      assert DIGITS[d] as int == c as int;
      PlaceOf(DIGITS, d);
    }
  }

  lemma DigitsInOrder(d: int)
    requires 0 <= d < 10
    ensures DigitChar(d) == "0123456789"[d] && DigitValue("0123456789"[d]) == d
  {
    DigitIsPlace(DigitChar(d));
  }

  function Power(b: nat, k: nat): nat
  {
    if k == 0 then 1 else b * Power(b, k - 1)
  }

  /** What a digit is worth. */
  function Worth(c: char): nat
  {
    PlaceIn(c, "0123456789")
  }

  /** Each digit counts for its worth times the power of ten of its position. */
  function Positional(s: string): nat
  {
    if s == "" then 0 else Worth(s[0]) * Power(10, |s| - 1) + Positional(s[1..])
  }

  lemma Shift(d: nat, p: nat, rest: nat, x: nat)
    ensures d * (10 * p) + (10 * rest + x) == 10 * (d * p + rest) + x
  {
  }

  lemma {:induction false} PositionalAppend(s: string, c: char)
    ensures Positional(s + [c]) == 10 * Positional(s) + Worth(c)
  {
    if s == "" {
      assert (s + [c])[1..] == "" && Power(10, 0) == 1;
      assert Positional([c]) == Worth(c) * 1 + Positional("");
    } else {
      assert (s + [c])[1..] == s[1..] + [c];
      PositionalAppend(s[1..], c);
      assert Power(10, |s|) == 10 * Power(10, |s| - 1);
      Shift(Worth(s[0]), Power(10, |s| - 1), Positional(s[1..]), Worth(c));
    }
  }

  /** The digit loop computes the positional value. */
  lemma {:induction false} ValueIsPositional(s: string)
    requires AllDigits(s)
    ensures Value(s) == Positional(s)
  {
    if s != "" {
      var front, c := s[..|s|-1], s[|s|-1];
      ValueIsPositional(front);
      DigitIsWorth(c);
      PositionalAppend(front, c);
      assert s == front + [c];
    }
  }

  lemma DigitIsWorth(c: char)
    requires IsDigit(c)
    ensures DigitValue(c) == Worth(c)
  {
    DigitIsPlace(c);
  }

  predicate OnlyOf(s: string, cs: string)
  {
    forall i | 0 <= i < |s| :: s[i] in cs
  }

  /** The characters `isspace` accepts. */
  const BLANKS := [' ', '\t', '\n', '\U{000B}', '\U{000C}', '\r']

  /** White space, a sign or none, digits, and a rest that continues none of them. */
  predicate PartsOf(blanks: string, sign: string, digits: string, rest: string)
  {
    && OnlyOf(blanks, BLANKS) && sign in ["", "+", "-"] && OnlyOf(digits, "0123456789")
    && (rest != "" ==> rest[0] !in "0123456789")
    && (rest != "" && sign == "" && digits == "" ==> rest[0] !in BLANKS && rest[0] !in "+-")
  }

  lemma SpaceIsBlank(c: char)
    ensures IsSpace(c) <==> c in BLANKS
  {
  }

  lemma OnlyBlanks(s: string)
    requires OnlyOf(s, BLANKS)
    ensures forall i | 0 <= i < |s| :: IsSpace(s[i])
  {
    forall i | 0 <= i < |s| ensures IsSpace(s[i]) {
      SpaceIsBlank(s[i]);
    }
  }

  lemma OnlyDigits(s: string)
    requires OnlyOf(s, "0123456789")
    ensures AllDigits(s)
  {
    forall i | 0 <= i < |s| ensures IsDigit(s[i]) {
      DigitIsPlace(s[i]);
    }
  }

  lemma {:induction false} SkipBlanks(blanks: string, t: string)
    requires forall i | 0 <= i < |blanks| :: IsSpace(blanks[i])
    requires t != "" ==> !IsSpace(t[0])
    ensures SkipSpaces(blanks + t) == t
  {
    if blanks == "" {
      assert blanks + t == t;
    } else {
      assert (blanks + t)[1..] == blanks[1..] + t;
      SkipBlanks(blanks[1..], t);
    }
  }

  lemma {:induction false} PrefixOfDigits(digits: string, rest: string)
    requires AllDigits(digits) && (rest != "" ==> !IsDigit(rest[0]))
    ensures DigitPrefix(digits + rest) == digits
  {
    if digits == "" {
      assert digits + rest == rest;
    } else {
      assert (digits + rest)[1..] == digits[1..] + rest;
      PrefixOfDigits(digits[1..], rest);
    }
  }

  /** The parts as the scan sees them. */
  predicate Scans(blanks: string, sign: string, digits: string, rest: string)
  {
    && (forall i | 0 <= i < |blanks| :: IsSpace(blanks[i])) && AllDigits(digits)
    && (rest != "" ==> !IsDigit(rest[0]))
    && (if sign == "" then rest != "" && digits == "" ==> !IsSpace(rest[0]) && rest[0] != '-' && rest[0] != '+'
        else sign == ['+'] || sign == ['-'])
  }

  lemma PartsScan(blanks: string, sign: string, digits: string, rest: string)
    requires PartsOf(blanks, sign, digits, rest)
    ensures Scans(blanks, sign, digits, rest)
  {
    if rest != "" {
      DigitIsPlace(rest[0]);
      SpaceIsBlank(rest[0]);
      assert rest[0] in "+-" <==> rest[0] == '+' || rest[0] == '-';
    }
    OnlyBlanks(blanks);
    OnlyDigits(digits);
  }

  lemma {:induction false} MeaningOfScan(blanks: string, sign: string, digits: string, rest: string)
    requires Scans(blanks, sign, digits, rest)
    ensures Meaning(blanks + (sign + (digits + rest))) == if sign == ['-'] then 0 - Value(digits) else Value(digits)
  {
    var tail := digits + rest;
    var t := sign + tail;
    if sign == "" {
      assert t == tail;
    } else {
      assert t[1..] == tail;
    }
    SkipBlanks(blanks, t);
    PrefixOfDigits(digits, rest);
  }

  /** What a string means: the positional value of its digits, negative after a minus sign. */
  lemma MeaningOfParts(blanks: string, sign: string, digits: string, rest: string)
    requires PartsOf(blanks, sign, digits, rest)
    ensures Meaning(blanks + (sign + (digits + rest))) == if sign == "-" then 0 - Positional(digits) else Positional(digits)
  {
    PartsScan(blanks, sign, digits, rest);
    MeaningOfScan(blanks, sign, digits, rest);
    ValueIsPositional(digits);
  }

  lemma {:induction false} SplitBlanks(s: string) returns (blanks: string, t: string)
    ensures s == blanks + t && OnlyOf(blanks, BLANKS) && (t != "" ==> t[0] !in BLANKS)
  {
    if s == "" || s[0] !in BLANKS {
      blanks, t := "", s;
    } else {
      blanks, t := SplitBlanks(s[1..]);
      blanks := [s[0]] + blanks;
    }
  }

  lemma {:induction false} SplitDigits(s: string) returns (digits: string, rest: string)
    ensures s == digits + rest && OnlyOf(digits, "0123456789") && (rest != "" ==> rest[0] !in "0123456789")
  {
    if s == "" || s[0] !in "0123456789" {
      digits, rest := "", s;
    } else {
      digits, rest := SplitDigits(s[1..]);
      digits := [s[0]] + digits;
    }
  }

  /** Every string is made of such parts. */
  lemma EveryStringHasParts(s: string) returns (blanks: string, sign: string, digits: string, rest: string)
    ensures s == blanks + (sign + (digits + rest)) && PartsOf(blanks, sign, digits, rest)
  {
    var t;
    blanks, t := SplitBlanks(s);
    sign := if t != "" && t[0] == '+' then "+" else if t != "" && t[0] == '-' then "-" else "";
    var tail := t[|sign|..];
    digits, rest := SplitDigits(tail);
    assert t == sign + tail;
  }

  /** Reading on, left to right, from the value so far. */
  function ReadOn(acc: nat, s: string): (r: nat)
    ensures r >= acc
    decreases |s|
  {
    if s != [] && IsDigit(s[0]) then ReadOn(10 * acc + DigitValue(s[0]), s[1..]) else acc
  }

  lemma AppendDigit(p: string, c: char)
    requires AllDigits(p) && IsDigit(c)
    ensures AllDigits(p + [c]) && Value(p + [c]) == 10 * Value(p) + DigitValue(c)
  {
    assert (p + [c])[..|p|] == p;
  }

  lemma {:induction false} ReadOnIsValue(p: string, s: string)
    requires AllDigits(p)
    ensures ReadOn(Value(p), s) == Value(p + DigitPrefix(s))
    decreases |s|
  {
    if s != [] && IsDigit(s[0]) {
      var c, rest := s[0], s[1..];
      AppendDigit(p, c);
      ReadOnIsValue(p + [c], rest);
      ConcatAssociative(p, [c], DigitPrefix(rest));
    } else {
      assert p + DigitPrefix(s) == p;
    }
  }

  lemma ReadAll(s: string)
    ensures ReadOn(0, s) == Value(DigitPrefix(s))
  {
    ReadOnIsValue("", s);
    assert "" + DigitPrefix(s) == DigitPrefix(s);
  }

  lemma ReadStep(acc: nat, s: string, i: nat)
    requires i < |s| && IsDigit(s[i])
    ensures ReadOn(acc, s[i..]) == ReadOn(10 * acc + DigitValue(s[i]), s[i + 1..])
  {
    assert s[i..][1..] == s[i + 1..];
  }

  lemma SignStep(s: string, i: nat)
    requires i <= |s| && SkipSpaces(s) == s[i..]
    ensures i < |s| && s[i] == '-' ==> Meaning(s) == 0 - ReadOn(0, s[i + 1..])
    ensures i < |s| && s[i] == '+' ==> Meaning(s) == ReadOn(0, s[i + 1..])
    ensures i == |s| || (s[i] != '-' && s[i] != '+') ==> Meaning(s) == ReadOn(0, s[i..])
  {
    if i < |s| {
      assert s[i..][1..] == s[i + 1..];
      ReadAll(s[i + 1..]);
    }
    ReadAll(s[i..]);
  }

  /** The digits from `start` on; every value `res` takes is an int. */
  method ReadDigits(s: string, start: nat) returns (res: int, overflow: bool)
    requires start <= |s|
    ensures overflow <==> ReadOn(0, s[start..]) > INT_MAX
    ensures !overflow ==> res == ReadOn(0, s[start..])
  {
    var i := start;
    res := 0;
    while i < |s| && IsDigit(s[i])
      invariant start <= i <= |s| && 0 <= res <= INT_MAX && ReadOn(res, s[i..]) == ReadOn(0, s[start..])
    {
      var d := DigitValue(s[i]);
      ReadStep(res, s, i);
      if res > INT_MAX / 10 || (res == INT_MAX / 10 && d > INT_MAX % 10) {
        return res, true;
      }
      res := res * 10 + d;
      i := i + 1;
    }
    overflow := false;
  }

  /** `myAtoi` */
  method MyAtoi(s: string) returns (r: int)
    ensures r == Clamp(Meaning(s))
    ensures -2147483648 <= r <= 2147483647
    ensures -2147483648 <= Meaning(s) <= 2147483647 ==> r == Meaning(s)
    ensures Meaning(s) > 2147483647 ==> r == 2147483647
    ensures Meaning(s) < -2147483648 ==> r == -2147483648
  {
    var i, n := 0, |s|;
    while i < n && IsSpace(s[i])
      invariant 0 <= i <= n && SkipSpaces(s[i..]) == SkipSpaces(s)
    {
      assert s[i..][1..] == s[i + 1..];
      i := i + 1;
    }
    SignStep(s, i);
    var sign := 1;
    if i < n && (s[i] == '+' || s[i] == '-') {
      sign := if s[i] == '-' then -1 else 1;
      i := i + 1;
    }
    var res, overflow := ReadDigits(s, i);
    if overflow {
      return if sign == 1 then INT_MAX else INT_MIN;
    }
    return sign * res;
  }

  // ---------- Printing ----------

  /** `index_string`: the digits come off the end and go on the front. */
  function IndexString(n: nat, cs: string): string
  {
    if n < 10 then [DigitChar(n)] + cs else IndexString(n / 10, [DigitChar(n % 10)] + cs)
  }

  /** The digits of a number, most significant first, without leading zeros. */
  predicate Canonical(s: string)
  {
    s != [] && AllDigits(s) && (|s| > 1 ==> s[0] != '0')
  }

  lemma {:induction false} IndexStringAppends(n: nat, cs: string)
    ensures IndexString(n, cs) == IndexString(n, "") + cs
    decreases n
  {
    if n < 10 {
      assert [DigitChar(n)] + cs == ([DigitChar(n)] + "") + cs;
    } else {
      var d := [DigitChar(n % 10)];
      IndexStringAppends(n / 10, d + cs);
      IndexStringAppends(n / 10, d + "");
      assert d + "" == d;
      assert (IndexString(n / 10, "") + d) + cs == IndexString(n / 10, "") + (d + cs);
    }
  }

  lemma {:induction false} PrintedIsCanonical(n: nat)
    ensures Canonical(IndexString(n, "")) && Value(IndexString(n, "")) == n
    ensures n > 0 ==> IndexString(n, "")[0] != '0'
    decreases n
  {
    var s := IndexString(n, "");
    if n < 10 {
      assert s == [DigitChar(n)] && s[..0] == [];
    } else {
      var front, d := IndexString(n / 10, ""), DigitChar(n % 10);
      PrintedIsCanonical(n / 10);
      assert [d] + "" == [d];
      IndexStringAppends(n / 10, [d]);
      assert s[..|s|-1] == front;
    }
  }

  /** What is printed, character by character: counted from the right, the j-th is the digit of
      n / 10^j modulo 10. */
  lemma {:induction false} PrintedDigit(n: nat, j: nat)
    ensures IndexString(n, "") != "" && (n < 10 ==> |IndexString(n, "")| == 1)
    ensures j < |IndexString(n, "")| ==>
              Power(10, j) > 0 && IndexString(n, "")[|IndexString(n, "")| - 1 - j] == "0123456789"[n / Power(10, j) % 10]
  {
    PowerIsPositive(j);
    if n < 10 {
      DigitsInOrder(n);
      assert IndexString(n, "") == [DigitChar(n)];
    } else {
      var front, d := IndexString(n / 10, ""), DigitChar(n % 10);
      DigitsInOrder(n % 10);
      assert [d] + "" == [d];
      IndexStringAppends(n / 10, [d]);
      PrintedDigit(n / 10, if j > 0 then j - 1 else 0);
      assert IndexString(n, "") == front + [d];
      if j > 0 {
        ShiftedPlace(n, j);
      }
    }
  }

  lemma ShiftedPlace(n: nat, j: nat)
    requires j > 0
    ensures Power(10, j - 1) > 0 && Power(10, j) > 0 && n / 10 / Power(10, j - 1) == n / Power(10, j)
  {
    PowerIsPositive(j - 1);
    DivideTwice(n, 10, Power(10, j - 1));
  }

  lemma {:induction false} PowerIsPositive(j: nat)
    ensures Power(10, j) > 0
  {
    if j > 0 {
      PowerIsPositive(j - 1);
    }
  }

  lemma {:induction false} CanonicalIsPrinted(s: string)
    requires Canonical(s)
    ensures IndexString(Value(s), "") == s
    decreases |s|
  {
    var front, d := s[..|s|-1], s[|s|-1];
    assert DigitChar(DigitValue(d)) == d;
    if |s| == 1 {
      assert front == [] && s == [d];
      assert Value(s) == DigitValue(d);
      assert [d] + "" == s;
    } else {
      CanonicalIsPrinted(front);
      LeadingDigitCounts(front);
      assert Value(s) / 10 == Value(front) && Value(s) % 10 == DigitValue(d);
      assert [d] + "" == [d];
      IndexStringAppends(Value(front), [d]);
      assert s == front + [d];
    }
  }

  lemma {:induction false} LeadingDigitCounts(s: string)
    requires s != [] && AllDigits(s) && s[0] != '0'
    ensures Value(s) >= 1
  {
    if |s| == 1 {
      assert s[..0] == [];
    } else {
      LeadingDigitCounts(s[..|s|-1]);
    }
  }

  lemma {:induction false} AllOfIt(s: string)
    requires AllDigits(s)
    ensures DigitPrefix(s) == s
  {
    if s != [] {
      AllOfIt(s[1..]);
    }
  }

  /** Reading a printed number gives it back if it is an int, and INT_MAX otherwise. */
  lemma ReadPrinted(n: nat)
    ensures Clamp(Meaning(IndexString(n, ""))) == if n <= INT_MAX then n else INT_MAX
  {
    var s := IndexString(n, "");
    PrintedIsCanonical(n);
    assert SkipSpaces(s) == s;
    AllOfIt(s);
  }

  // ---------- Commas ----------

  /** `add_commas` */
  function AddCommas(s: string, out: string): string
    decreases |s|
  {
    if s == [] then out
    else if (|s| - 1) % 3 == 0 && |s| - 1 > 0 then AddCommas(s[1..], out + [s[0], ','])
    else AddCommas(s[1..], out + [s[0]])
  }

  function RemoveCommas(s: string): string
  {
    if s == [] then [] else RemoveCommas(s[..|s|-1]) + if s[|s|-1] == ',' then [] else [s[|s|-1]]
  }

  lemma {:induction false} AddCommasAppends(s: string, out: string)
    ensures AddCommas(s, out) == out + AddCommas(s, "")
    decreases |s|
  {
    if s == [] {
      assert out + "" == out;
    } else {
      var piece := if (|s| - 1) % 3 == 0 && |s| - 1 > 0 then [s[0], ','] else [s[0]];
      AddCommasAppends(s[1..], out + piece);
      AddCommasAppends(s[1..], "" + piece);
      assert "" + piece == piece;
      assert (out + piece) + AddCommas(s[1..], "") == out + (piece + AddCommas(s[1..], ""));
    }
  }

  /** The first character, with a comma if a multiple of three follow. */
  function Piece(s: string): string
    requires s != []
  {
    if (|s| - 1) % 3 == 0 && |s| - 1 > 0 then [s[0], ','] else [s[0]]
  }

  lemma Peel(s: string)
    requires s != []
    ensures AddCommas(s, "") == Piece(s) + AddCommas(s[1..], "")
  {
    assert "" + Piece(s) == Piece(s);
    AddCommasAppends(s[1..], Piece(s));
  }

  /** How long `n` digits with their commas are. */
  function Spread(n: nat): nat
  {
    if n == 0 then 0 else Spread(n - 1) + if n > 1 && (n - 1) % 3 == 0 then 2 else 1
  }

  /** The number of digits among the `j` characters from the right. */
  function Place(j: nat): nat
  {
    j - j / 4
  }

  lemma Thirds(m: nat)
    ensures (3 * m) % 3 == 0 && (3 * m + 1) % 3 == 1 && (3 * m + 2) % 3 == 2
  {
  }

  lemma {:induction false} SpreadAt(m: nat)
    ensures Spread(3 * m + 1) == 4 * m + 1 && Spread(3 * m + 2) == 4 * m + 2 && Spread(3 * m + 3) == 4 * m + 3
  {
    if m == 0 {
      assert Spread(1) == 1 && Spread(2) == 2 && Spread(3) == 3;
    } else {
      SpreadAt(m - 1);
      assert 3 * (m - 1) + 3 == 3 * m;
      Thirds(m);
      assert Spread(3 * m + 1) == Spread(3 * m) + 2;
      assert Spread(3 * m + 2) == Spread(3 * m + 1) + 1;
      assert Spread(3 * m + 3) == Spread(3 * m + 2) + 1;
    }
  }

  lemma {:induction false} SpreadIs(n: nat)
    requires n > 0
    ensures Spread(n) == n + (n - 1) / 3
  {
    var m := (n - 1) / 3;
    SpreadAt(m);
    assert n == 3 * m + 1 || n == 3 * m + 2 || n == 3 * m + 3;
  }

  lemma {:induction false} Places(n: nat)
    ensures n > 0 && n % 3 == 0 ==> Spread(n) % 4 == 3 && Place(Spread(n) + 1) == n && (Spread(n) + 1) % 4 != 3
    ensures n == 0 || n % 3 != 0 ==> Spread(n) % 4 != 3 && Place(Spread(n)) == n
  {
    if n > 0 {
      var m := (n - 1) / 3;
      SpreadAt(m);
      assert n == 3 * m + 1 || n == 3 * m + 2 || n == 3 * m + 3;
      QuarterOf(m);
    }
  }

  lemma QuarterOf(m: nat)
    ensures (4 * m + 1) % 4 == 1 && (4 * m + 1) / 4 == m && (4 * m + 2) % 4 == 2 && (4 * m + 2) / 4 == m
    ensures (4 * m + 3) % 4 == 3 && (4 * m + 4) % 4 == 0 && (4 * m + 4) / 4 == m + 1
  {
  }

  lemma {:induction false} SpreadLength(s: string)
    ensures |AddCommas(s, "")| == Spread(|s|)
    decreases |s|
  {
    if s != [] {
      Peel(s);
      SpreadLength(s[1..]);
    }
  }

  /** What stands `j` places from the right. */
  predicate StandsThere(r: string, s: string, j: nat)
    requires j < |r|
  {
    Place(j) < |s| && r[|r| - 1 - j] == if j % 4 == 3 then ',' else s[|s| - 1 - Place(j)]
  }

  lemma {:induction false} FirstPiece(s: string, rest: string, j: nat)
    requires s != [] && |rest| == Spread(|s| - 1) && |rest| <= j < |Piece(s) + rest|
    ensures StandsThere(Piece(s) + rest, s, j)
  {
    Places(|s| - 1);
  }

  lemma {:induction false} LaterPiece(s: string, piece: string, rest: string, j: nat)
    requires s != [] && j < |rest| && StandsThere(rest, s[1..], j)
    ensures StandsThere(piece + rest, s, j)
  {
    assert (piece + rest)[|piece + rest| - 1 - j] == rest[|rest| - 1 - j];
    assert s[|s| - 1 - Place(j)] == s[1..][|s| - 2 - Place(j)];
  }

  /** One comma for every three digits after the first; counted from the right, every fourth
      character is a comma and the others are the digits in order. */
  lemma {:induction false} CommasEveryThree(s: string, j: nat)
    requires s != []
    ensures |AddCommas(s, "")| == |s| + (|s| - 1) / 3
    ensures j < |AddCommas(s, "")| ==> StandsThere(AddCommas(s, ""), s, j)
    decreases |s|
  {
    var rest := AddCommas(s[1..], "");
    Peel(s);
    SpreadLength(s);
    SpreadLength(s[1..]);
    SpreadIs(|s|);
    if j < |rest| {
      CommasEveryThree(s[1..], j);
      LaterPiece(s, Piece(s), rest, j);
    } else if j < |AddCommas(s, "")| {
      FirstPiece(s, rest, j);
    }
  }

  lemma {:induction false} RemoveLast(s: string, c: char)
    ensures RemoveCommas(s + [c]) == RemoveCommas(s) + if c == ',' then [] else [c]
  {
    assert (s + [c])[..|s|] == s;
  }

  lemma {:induction false} RemoveFromParts(a: string, b: string)
    ensures RemoveCommas(a + b) == RemoveCommas(a) + RemoveCommas(b)
    decreases |b|
  {
    if b == [] {
      assert a + b == a;
    } else {
      var front, c := b[..|b|-1], b[|b|-1];
      RemoveFromParts(a, front);
      RemoveLast(front, c);
      RemoveLast(a + front, c);
      assert b == front + [c];
      ConcatAssociative(a, front, [c]);
      ConcatAssociative(RemoveCommas(a), RemoveCommas(front), if c == ',' then [] else [c]);
    }
  }

  lemma {:induction false} AddedCommasComeOut(s: string)
    ensures RemoveCommas(AddCommas(s, "")) == RemoveCommas(s)
    decreases |s|
  {
    if s != [] {
      var first, rest := [s[0]], s[1..];
      Peel(s);
      AddedCommasComeOut(rest);
      RemoveFromParts(Piece(s), AddCommas(rest, ""));
      RemoveFromOne(s[0]);
      RemoveFromParts(first, rest);
      assert s == first + rest;
    }
  }

  /** Taking the commas out leaves what they were put into, which is the string itself exactly
      when it had none. */
  lemma CommasComeOut(s: string)
    ensures RemoveCommas(AddCommas(s, "")) == RemoveCommas(s)
    ensures RemoveCommas(AddCommas(s, "")) == s <==> ',' !in s
  {
    AddedCommasComeOut(s);
    NoneLeft(s);
  }

  lemma RemoveFromOne(c: char)
    ensures RemoveCommas([c]) == RemoveCommas([c, ',']) == if c == ',' then "" else [c]
  {
    assert [c][..0] == "" && [c, ','][..1] == [c];
    assert RemoveCommas("") == "";
  }

  lemma {:induction false} NoneLeft(s: string)
    ensures ',' !in RemoveCommas(s)
    ensures ',' !in s ==> RemoveCommas(s) == s
  {
    if s != [] {
      var front, c := s[..|s|-1], s[|s|-1];
      NoneLeft(front);
      assert s == front + [c];
    }
  }
}
