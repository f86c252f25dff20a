// The texts that carry the pipeline's values from one stage to the next: decimal
// integers, and the integer list printed by `str(factor_list)` (Python) or
// `JSON.stringify(factorList)` (TypeScript) and read back by the persist stage.
module Wire {
  import opened Wrappers
  import opened Sequences

  predicate IsDigit(c: char) {
    '0' <= c <= '9'
  }

  predicate Digits(s: string) {
    forall i :: 0 <= i < |s| ==> IsDigit(s[i])
  }

  // Python's `s.isdigit()` and the pattern /^\d+$/, on ASCII text.
  predicate IsDigitText(s: string) {
    |s| > 0 && Digits(s)
  }

  function DigitValue(c: char): (d: nat)
    requires IsDigit(c)
    ensures d < 10
  {
    c as int - '0' as int
  }

  function DigitChar(d: nat): (c: char)
    requires d < 10
    ensures IsDigit(c) && DigitValue(c) == d
  {
    (d + '0' as int) as char
  }

  function PrintNat(n: nat): string {
    if n < 10 then [DigitChar(n)] else PrintNat(n / 10) + [DigitChar(n % 10)]
  }

  function PrintInt(i: int): string {
    if i < 0 then "-" + PrintNat(-i) else PrintNat(i)
  }

  // The number that the digits of a text make up.
  function Value(s: string): (v: int)
    ensures v >= 0
  {
    if s == "" then 0
    else
      var before, last := Value(s[..|s| - 1]), s[|s| - 1];
      if IsDigit(last) then before * 10 + DigitValue(last) else before
  }

  // ---------------------------------------------------------------------
  // Reading an integer
  // ---------------------------------------------------------------------

  // The two families of stages: Python, and TypeScript with its JSON texts.
  datatype Dialect = Python | Json

  // What `int` or `parseInt` returns; only `parseInt` returns NaN.
  datatype Numeral = Number(value: int) | NaN

  // str(n) and String(n).
  function PrintNumeral(n: Numeral): string {
    if n.Number? then PrintInt(n.value) else "NaN"
  }

  // The ASCII white space that both `int` and `parseInt` skip.
  predicate IsBlank(c: char) {
    c == ' ' || '\t' <= c <= '\r'
  }

  predicate Blank(s: string) {
    forall i :: 0 <= i < |s| ==> IsBlank(s[i])
  }

  function SkipBlanks(s: string): (r: string)
    ensures |r| <= |s|
  {
    SkipWhile(IsBlank, s)
  }

  function CutBlanks(s: string): string {
    CutWhile(IsBlank, s)
  }

  // The length of the longest prefix of digits.
  function DigitPrefix(s: string): (k: nat)
    ensures k <= |s| && Digits(s[..k])
  {
    if |s| > 0 && IsDigit(s[0]) then
      var k := 1 + DigitPrefix(s[1..]);
      assert s[..k] == [s[0]] + s[1..][..k - 1];
      k
    else 0
  }

  predicate DigitAt(s: string, k: nat) {
    k < |s| && IsDigit(s[k])
  }

  predicate GroupedAt(s: string, i: nat) {
    DigitAt(s, i) || (i < |s| && s[i] == '_' && i > 0 && DigitAt(s, i - 1) && DigitAt(s, i + 1))
  }

  // Digits, with single underscores between them.
  predicate Grouped(s: string) {
    s != "" && forall i: nat :: i < |s| ==> GroupedAt(s, i)
  }

  predicate IsSign(c: char) {
    c == '-' || c == '+'
  }

  function Signed(negative: bool, n: int): int {
    if negative then -n else n
  }

  // The text after the sign.
  function ReadUnsigned(d: Dialect, body: string, negative: bool): Option<Numeral> {
    match d
    case Python =>
      var digits := CutBlanks(body);
      if Grouped(digits) then Some(Number(Signed(negative, Value(digits)))) else None
    case Json =>
      var k := DigitPrefix(body);
      Some(if k == 0 then NaN else Number(Signed(negative, Value(body[..k]))))
  }

  // `int(s)`, where None is its ValueError, and `parseInt(s, 10)`, which never raises.
  function ReadInt(d: Dialect, s: string): Option<Numeral> {
    var t := SkipBlanks(s);
    if t != "" && IsSign(t[0]) then ReadUnsigned(d, t[1..], t[0] == '-')
    else ReadUnsigned(d, t, false)
  }

  predicate LeadingBlanks(s: string, k: nat) {
    k <= |s| && forall i :: 0 <= i < k ==> IsBlank(s[i])
  }

  predicate SignAt(s: string, k: nat) {
    k < |s| && IsSign(s[k])
  }

  predicate NumberAt(s: string, k: nat) {
    DigitAt(s, k) || (SignAt(s, k) && DigitAt(s, k + 1))
  }

  // After white space and at most one sign comes a digit.
  ghost predicate StartsWithNumber(s: string) {
    exists k: nat :: LeadingBlanks(s, k) && NumberAt(s, k)
  }

  // SkipBlanks cuts off exactly the leading white space.
  lemma {:induction false} SkipBlanksExact(s: string, k: nat)
    requires LeadingBlanks(s, k) && (k < |s| ==> !IsBlank(s[k]))
    ensures SkipBlanks(s) == s[k..]
  {
    if k > 0 {
      assert forall i :: 0 <= i < k - 1 ==> s[1..][i] == s[i + 1];
      SkipBlanksExact(s[1..], k - 1);
      assert s[1..][k - 1..] == s[k..];
    }
  }

  lemma {:induction false} SkipBlanksSkips(s: string) returns (k: nat)
    ensures LeadingBlanks(s, k) && SkipBlanks(s) == s[k..]
  {
    k := 0;
    if s != "" && IsBlank(s[0]) {
      var j := SkipBlanksSkips(s[1..]);
      k := j + 1;
      assert forall i :: 0 < i < k ==> s[i] == s[1..][i - 1];
      assert s[1..][j..] == s[k..];
    }
  }

  lemma ReadsNumberAt(s: string, k: nat)
    requires k <= |s| && SkipBlanks(s) == s[k..]
    ensures ReadInt(Json, s).Some?
    ensures ReadInt(Json, s).value.Number? <==> NumberAt(s, k)
  {
    var t := s[k..];
    if t != "" && IsSign(t[0]) {
      assert t[1..] == s[k + 1..];
      assert DigitPrefix(t[1..]) > 0 <==> DigitAt(s, k + 1);
    }
  }

  lemma NumberIsNotBlank(s: string, k: nat)
    requires NumberAt(s, k)
    ensures !IsBlank(s[k])
  {
  }

  // The texts that `parseInt` reads as a number, without reference to how it reads them.
  lemma JsonReadsNumberIff(s: string)
    ensures ReadInt(Json, s).Some?
    ensures ReadInt(Json, s).value.Number? <==> StartsWithNumber(s)
  {
    var j := SkipBlanksSkips(s);
    ReadsNumberAt(s, j);
    if StartsWithNumber(s) {
      var k: nat :| LeadingBlanks(s, k) && NumberAt(s, k);
      NumberIsNotBlank(s, k);
      SkipBlanksExact(s, k);
      ReadsNumberAt(s, k);
    }
  }

  lemma {:induction false} ValueOfPrintNat(n: nat)
    ensures IsDigitText(PrintNat(n)) && Value(PrintNat(n)) == n
  {
    if n < 10 {
      assert PrintNat(n)[..0] == "";
    } else {
      ValueOfPrintNat(n / 10);
      var s := PrintNat(n);
      assert s[..|s| - 1] == PrintNat(n / 10);
    }
  }

  lemma {:induction false} DigitPrefixExact(a: string, rest: string)
    requires Digits(a)
    requires rest == "" || !IsDigit(rest[0])
    ensures DigitPrefix(a + rest) == |a|
  {
    if a == "" {
      assert a + rest == rest;
    } else {
      assert (a + rest)[1..] == a[1..] + rest;
      DigitPrefixExact(a[1..], rest);
    }
  }

  lemma {:induction false} CutBlanksExact(s: string, blanks: string)
    requires Blank(blanks) && s != "" && !IsBlank(s[|s| - 1])
    ensures CutBlanks(s + blanks) == s
  {
    if blanks == "" {
      assert s + blanks == s;
    } else {
      var n := |blanks| - 1;
      assert (s + blanks)[..|s| + n] == s + blanks[..n];
      CutBlanksExact(s, blanks[..n]);
    }
  }

  lemma ReadDigits(d: Dialect, digits: string, rest: string, negative: bool)
    requires IsDigitText(digits)
    requires d.Python? ==> Blank(rest)
    requires d.Json? && rest != "" ==> !IsDigit(rest[0])
    ensures ReadUnsigned(d, digits + rest, negative) == Some(Number(Signed(negative, Value(digits))))
  {
    if d.Python? {
      CutBlanksExact(digits, rest);
      assert forall i :: 0 <= i < |digits| ==> GroupedAt(digits, i);
    } else {
      DigitPrefixExact(digits, rest);
      assert (digits + rest)[..|digits|] == digits;
    }
  }

  predicate SignOrNone(sign: string) {
    sign == "" || (|sign| == 1 && IsSign(sign[0]))
  }

  lemma SkipBefore(before: string, t: string)
    requires Blank(before) && t != "" && !IsBlank(t[0])
    ensures SkipBlanks(before + t) == t
  {
    var s := before + t;
    assert s[|before|..] == t && s[|before|] == t[0];
    SkipBlanksExact(s, |before|);
  }

  lemma ReadSigned(d: Dialect, t: string, sign: string, body: string)
    requires SkipBlanks(t) == sign + body && SignOrNone(sign) && DigitAt(body, 0)
    ensures ReadInt(d, t) == ReadUnsigned(d, body, sign == "-")
  {
    if sign == "" {
      assert sign + body == body;
    } else {
      assert (sign + body)[1..] == body && sign == [sign[0]];
    }
  }

  lemma ReadAfter(d: Dialect, before: string, sign: string, body: string)
    requires Blank(before) && SignOrNone(sign) && DigitAt(body, 0)
    ensures ReadInt(d, before + (sign + body)) == ReadUnsigned(d, body, sign == "-")
  {
    assert (sign + body)[0] == (if sign == "" then body[0] else sign[0]);
    SkipBefore(before, sign + body);
    ReadSigned(d, before + (sign + body), sign, body);
  }

  function SignOf(i: int): string {
    if i < 0 then "-" else ""
  }

  function Magnitude(i: int): nat {
    if i < 0 then -i else i
  }

  lemma PrintedParts(i: int, rest: string)
    ensures PrintInt(i) + rest == SignOf(i) + (PrintNat(Magnitude(i)) + rest)
    ensures DigitAt(PrintNat(Magnitude(i)) + rest, 0) && IsDigitText(PrintNat(Magnitude(i)))
    ensures Signed(SignOf(i) == "-", Value(PrintNat(Magnitude(i)))) == i
  {
    ValueOfPrintNat(Magnitude(i));
  }

  // A printed integer reads back as itself, after any white space; what may follow it is white
  // space in Python, and any text that does not go on with a digit in TypeScript.
  lemma ReadPadded(d: Dialect, blanks: string, i: int, rest: string)
    requires Blank(blanks)
    requires d.Python? ==> Blank(rest)
    requires d.Json? && rest != "" ==> !IsDigit(rest[0])
    ensures ReadInt(d, blanks + (PrintInt(i) + rest)) == Some(Number(i))
  {
    PrintedParts(i, rest);
    ReadAfter(d, blanks, SignOf(i), PrintNat(Magnitude(i)) + rest);
    ReadDigits(d, PrintNat(Magnitude(i)), rest, SignOf(i) == "-");
  }

  // White space, a sign or none, grouped digits, white space.
  ghost predicate PythonParts(s: string, before: string, sign: string, digits: string, after: string) {
    && s == before + (sign + (digits + after))
    && Blank(before) && Blank(after) && SignOrNone(sign) && Grouped(digits)
  }

  lemma {:induction false} CutBlanksCuts(s: string) returns (blanks: string)
    ensures Blank(blanks) && s == CutBlanks(s) + blanks
  {
    blanks := "";
    if s != "" && IsBlank(s[|s| - 1]) {
      var n := |s| - 1;
      blanks := CutBlanksCuts(s[..n]);
      assert s == CutBlanks(s) + (blanks + [s[n]]);
      blanks := blanks + [s[n]];
    }
  }

  lemma GroupedEnds(digits: string)
    requires Grouped(digits)
    ensures IsDigit(digits[0]) && IsDigit(digits[|digits| - 1])
  {
    assert GroupedAt(digits, 0) && GroupedAt(digits, |digits| - 1);
  }

  lemma PythonPartsRead(s: string, before: string, sign: string, digits: string, after: string)
    requires PythonParts(s, before, sign, digits, after)
    ensures ReadInt(Python, s) == Some(Number(Signed(sign == "-", Value(digits))))
  {
    GroupedEnds(digits);
    ReadAfter(Python, before, sign, digits + after);
    CutBlanksExact(digits, after);
  }

  lemma PythonReadsParts(s: string) returns (before: string, sign: string, digits: string, after: string)
    requires ReadInt(Python, s).Some?
    ensures PythonParts(s, before, sign, digits, after)
  {
    var k := SkipBlanksSkips(s);
    var t := s[k..];
    before, sign := s[..k], if t != "" && IsSign(t[0]) then [t[0]] else "";
    digits := CutBlanks(t[|sign|..]);
    after := CutBlanksCuts(t[|sign|..]);
    assert t == sign + t[|sign|..] && s == before + t;
  }

  ghost predicate Spells(s: string, i: int) {
    exists before, sign, digits, after ::
      PythonParts(s, before, sign, digits, after) && i == Signed(sign == "-", Value(digits))
  }

  // The texts that `int` reads, and their values, without reference to how it reads them.
  lemma PythonReadsIff(s: string, i: int)
    ensures ReadInt(Python, s) == Some(Number(i)) <==> Spells(s, i)
  {
    if ReadInt(Python, s).Some? {
      var before, sign, digits, after := PythonReadsParts(s);
      PythonPartsRead(s, before, sign, digits, after);
    }
    if Spells(s, i) {
      var before, sign, digits, after :|
        PythonParts(s, before, sign, digits, after) && i == Signed(sign == "-", Value(digits));
      PythonPartsRead(s, before, sign, digits, after);
    }
  }

  lemma ReadPrinted(d: Dialect, i: int)
    ensures ReadInt(d, PrintInt(i)) == Some(Number(i))
  {
    ReadPadded(d, "", i, "");
    assert "" + (PrintInt(i) + "") == PrintInt(i);
  }

  // ---------------------------------------------------------------------
  // Integer lists
  // ---------------------------------------------------------------------

  // Python prints "[1, 2]"; JSON.stringify prints "[1,2]".
  function Separator(d: Dialect): string {
    if d.Python? then ", " else ","
  }

  function PrintItems(d: Dialect, xs: seq<int>): string
    requires xs != []
    decreases |xs|, 0
  {
    PrintInt(xs[0]) + PrintTail(d, xs[1..])
  }

  function PrintTail(d: Dialect, xs: seq<int>): string
    decreases |xs|, 1
  {
    if xs == [] then "]" else Separator(d) + PrintItems(d, xs)
  }

  function PrintList(d: Dialect, xs: seq<int>): string {
    if xs == [] then "[]" else "[" + PrintItems(d, xs)
  }

  predicate IsSpace(c: char) {
    c == ' ' || c == '\t' || c == '\n' || c == '\r'
  }

  function SkipSpace(s: string): (r: string)
    ensures |r| <= |s|
    ensures |r| > 0 ==> !IsSpace(r[0])
  {
    SkipWhile(IsSpace, s)
  }

  // Neither grammar allows a superfluous leading zero; Python lets zero itself be
  // written with several.
  predicate Canonical(d: Dialect, s: string)
    requires IsDigitText(s)
  {
    |s| == 1 || s[0] != '0' || (d.Python? && Value(s) == 0)
  }

  function ReadNumber(d: Dialect, s: string): (r: Option<(int, string)>)
    ensures r.Some? ==> |r.value.1| < |s|
  {
    var negative := |s| > 0 && s[0] == '-';
    var body := if negative then s[1..] else s;
    var k := DigitPrefix(body);
    if k == 0 || !Canonical(d, body[..k]) then None
    else Some((if negative then -Value(body[..k]) else Value(body[..k]), body[k..]))
  }

  // After the closing bracket only white space may follow.
  function ReadEnd(s: string): Option<seq<int>> {
    if SkipSpace(s) == "" then Some([]) else None
  }

  // What may follow an element: a closing bracket, or a comma and more elements.
  // A comma before the bracket is Python only.
  function ReadTail(d: Dialect, s: string): Option<seq<int>>
    decreases |s|
  {
    var t := SkipSpace(s);
    if t == "" then None
    else if t[0] == ']' then ReadEnd(t[1..])
    else if t[0] != ',' then None
    else
      var u := SkipSpace(t[1..]);
      if d.Python? && u != "" && u[0] == ']' then ReadEnd(u[1..]) else ReadItems(d, u)
  }

  function ReadItems(d: Dialect, s: string): Option<seq<int>>
    decreases |s|
  {
    match ReadNumber(d, s)
    case None => None
    case Some((x, rest)) =>
      match ReadTail(d, rest)
      case None => None
      case Some(xs) => Some([x] + xs)
  }

  // `literal_eval` / `JSON.parse` on a list of decimal integers; None is the
  // exception they raise on malformed text.
  function ReadList(d: Dialect, s: string): Option<seq<int>> {
    var t := SkipSpace(s);
    if t == "" || t[0] != '[' then None
    else
      var u := SkipSpace(t[1..]);
      if u != "" && u[0] == ']' then ReadEnd(u[1..]) else ReadItems(d, u)
  }

  lemma {:induction false} PrintNatCanonical(n: nat)
    ensures |PrintNat(n)| == 1 || (|PrintNat(n)| > 1 && PrintNat(n)[0] != '0')
  {
    if n >= 10 {
      PrintNatCanonical(n / 10);
      if n / 10 < 10 {
        assert DigitValue(PrintNat(n)[0]) == n / 10;
      }
    }
  }

  // The digits of a printed number, up to what follows them.
  lemma PrintedDigits(d: Dialect, n: nat, rest: string)
    requires rest != "" && !IsDigit(rest[0])
    ensures var digits, body := PrintNat(n), PrintNat(n) + rest;
      && DigitPrefix(body) == |digits| > 0 && body[..|digits|] == digits && body[|digits|..] == rest
      && IsDigitText(digits) && Canonical(d, digits) && Value(digits) == n
      && body[0] != '-'
  {
    ValueOfPrintNat(n);
    DigitPrefixExact(PrintNat(n), rest);
    PrintNatCanonical(n);
  }

  lemma ReadNatPrinted(d: Dialect, n: nat, rest: string)
    requires rest != "" && !IsDigit(rest[0])
    ensures ReadNumber(d, PrintNat(n) + rest) == Some((n, rest))
  {
    PrintedDigits(d, n, rest);
  }

  lemma ReadNegativePrinted(d: Dialect, n: int, rest: string)
    requires n >= 0 && rest != "" && !IsDigit(rest[0])
    ensures ReadNumber(d, "-" + (PrintNat(n) + rest)) == Some((-n, rest))
  {
    PrintedDigits(d, n, rest);
    assert ("-" + (PrintNat(n) + rest))[1..] == PrintNat(n) + rest;
  }

  lemma ReadNumberPrinted(d: Dialect, i: int, rest: string)
    requires rest != "" && !IsDigit(rest[0])
    ensures ReadNumber(d, PrintInt(i) + rest) == Some((i, rest))
  {
    if i < 0 {
      ReadNegativePrinted(d, -i, rest);
      Regroup("-", PrintNat(-i), rest);
    } else {
      ReadNatPrinted(d, i, rest);
    }
  }

  lemma PrintIntStart(i: int)
    ensures |PrintInt(i)| > 0 && (IsDigit(PrintInt(i)[0]) || PrintInt(i)[0] == '-')
  {
    ValueOfPrintNat(if i < 0 then -i else i);
  }

  lemma {:induction false} ReadItemsPrinted(d: Dialect, xs: seq<int>)
    requires xs != []
    ensures ReadItems(d, PrintItems(d, xs)) == Some(xs)
    decreases |xs|, 1
  {
    var rest := PrintTail(d, xs[1..]);
    ReadTailPrinted(d, xs[1..]);
    ReadNumberPrinted(d, xs[0], rest);
    assert [xs[0]] + xs[1..] == xs;
  }

  lemma ItemsStart(d: Dialect, xs: seq<int>)
    requires xs != []
    ensures var s := PrintItems(d, xs);
      s != "" && SkipSpace(s) == s && SkipSpace(" " + s) == s && s[0] != ']'
  {
    PrintIntStart(xs[0]);
    assert (" " + PrintItems(d, xs))[1..] == PrintItems(d, xs);
  }

  lemma ReadTailComma(d: Dialect, s: string, items: string)
    requires s != "" && s[0] == ',' && SkipSpace(s[1..]) == items
    requires items != "" && items[0] != ']'
    ensures ReadTail(d, s) == ReadItems(d, items)
  {
    assert SkipSpace(s) == s;
  }

  lemma PrintTailComma(d: Dialect, xs: seq<int>)
    requires xs != []
    ensures var s := PrintTail(d, xs);
      s != "" && s[0] == ',' && SkipSpace(s[1..]) == PrintItems(d, xs)
  {
    var s, items := PrintTail(d, xs), PrintItems(d, xs);
    ItemsStart(d, xs);
    if d.Json? {
      assert s[1..] == items;
    } else {
      assert s[1..] == " " + items;
    }
  }

  lemma {:induction false} ReadTailPrinted(d: Dialect, xs: seq<int>)
    ensures PrintTail(d, xs) != "" && !IsDigit(PrintTail(d, xs)[0])
    ensures ReadTail(d, PrintTail(d, xs)) == Some(xs)
    decreases |xs|, 2
  {
    var s := PrintTail(d, xs);
    if xs == [] {
      assert s[1..] == "";
    } else {
      PrintTailComma(d, xs);
      ItemsStart(d, xs);
      ReadTailComma(d, s, PrintItems(d, xs));
      ReadItemsPrinted(d, xs);
    }
  }

  // The persist stage reads back exactly the list that the process stage printed.
  lemma ListRoundTrip(d: Dialect, xs: seq<int>)
    ensures ReadList(d, PrintList(d, xs)) == Some(xs)
  {
    var s := PrintList(d, xs);
    if xs == [] {
      assert s[1..] == "]" && s[1..][1..] == "";
    } else {
      assert s[1..] == PrintItems(d, xs);
      ItemsStart(d, xs);
      ReadItemsPrinted(d, xs);
    }
  }

  // Different lists never travel as the same text.
  lemma PrintListInjective(d: Dialect, xs: seq<int>, ys: seq<int>)
    requires PrintList(d, xs) == PrintList(d, ys)
    ensures xs == ys
  {
    ListRoundTrip(d, xs);
    ListRoundTrip(d, ys);
  }

  lemma PrintIntInjective(i: int, j: int)
    requires PrintInt(i) == PrintInt(j)
    ensures i == j
  {
    ReadPrinted(Python, i);
    ReadPrinted(Python, j);
  }

  // A printed natural number takes the all-digits branch and reads back as itself.
  lemma PrintedNatIsDigitText(n: nat)
    ensures IsDigitText(PrintInt(n)) && Value(PrintInt(n)) == n && PrintInt(n) != ""
  {
    ValueOfPrintNat(n);
  }
}
