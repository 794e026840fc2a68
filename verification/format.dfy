/** kernel/vsprintf.c: integers as text, and back. */
module Format {

  const WORD := 0x1_0000_0000

  newtype Int = n: int | -0x8000_0000 <= n <= 0x7fff_ffff

  /** The flag bits of number(). */
  datatype Flags = Flags(zeropad: bool, sign: bool, plus: bool, space: bool, left: bool, special: bool, small: bool)

  function Unsigned(n: int): nat {
    n % WORD
  }

  /** digits[d], of "0123456789ABC...Z" or of "0123456789abc...z" */
  function DigitChar(d: nat, small: bool): char
    requires d < 36
  {
    if d < 10 then (d + '0' as int) as char else (d - 10 + (if small then 'a' else 'A') as int) as char
  }

  /** The value of a digit, or 36 for any other character. */
  function DigitValue(c: char): (d: nat)
    ensures d <= 36
  {
    if '0' <= c <= '9' then c as int - '0' as int
    else if 'A' <= c <= 'Z' then c as int - 'A' as int + 10
    else if 'a' <= c <= 'z' then c as int - 'a' as int + 10
    else 36
  }

  lemma DigitRead(d: nat, small: bool)
    requires d < 36
    ensures DigitValue(DigitChar(d, small)) == d
  {
  }

  /** do_div divides unsigned words. */
  function Quot(u: nat, base: nat): nat
    requires 2 <= base
  {
    u / base
  }

  function Rem(u: nat, base: nat): nat
    requires 2 <= base
  {
    u % base
  }

  lemma QuotRem(u: nat, base: nat)
    requires 2 <= base
    ensures Quot(u, base) * base + Rem(u, base) == u && Rem(u, base) < base
    ensures 2 * Quot(u, base) <= u && (u > 0 ==> Quot(u, base) < u)
    ensures u < base <==> Quot(u, base) == 0
  {
    var q := u / base;
    QuotBounds(u, base);
    MulGrows(q, base);
  }

  lemma QuotBounds(u: nat, base: nat)
    requires base >= 1
    ensures u == u / base * base + u % base && u % base < base
  {
  }

  lemma MulGrows(q: nat, base: nat)
    requires 2 <= base
    ensures 2 * q <= q * base && (q >= 1 ==> base <= q * base)
  {
  }

  /** The digits of u without leading zeros; none for 0. */
  function Digits(u: nat, base: nat, small: bool): string
    requires 2 <= base <= 36
  {
    QuotRem(u, base);
    if u == 0 then "" else Digits(Quot(u, base), base, small) + [DigitChar(Rem(u, base), small)]
  }

  /** What number() puts into tmp, the right way round. */
  function Shown(u: nat, base: nat, small: bool): (s: string)
    requires 2 <= base <= 36
    ensures s != ""
  {
    if u == 0 then "0" else Digits(u, base, small)
  }

  function Repeat(n: int, c: char): (s: string)
    ensures |s| == (if n > 0 then n else 0) && forall i :: 0 <= i < |s| ==> s[i] == c
  {
    if n > 0 then seq(n, _ => c) else ""
  }

  function SignText(n: Int, f: Flags): string {
    if f.sign && n < 0 then "-" else if f.plus then "+" else if f.space then " " else ""
  }

  /** The number whose digits are shown. The most negative int is its own negation, and 2^31 unsigned. */
  function Magnitude(n: Int, f: Flags): nat {
    if f.sign && n < 0 then Unsigned(-(n as int)) else Unsigned(n as int)
  }

  /** Octal numbers get their 0 even if they have one. */
  function Prefix(base: nat, f: Flags): string {
    if f.special && base == 8 then "0"
    else if f.special && base == 16 then (if f.small then "0x" else "0X")
    else ""
  }

  /** Leading zeros up to the precision, and the digits. */
  function Figures(n: Int, base: nat, precision: int, f: Flags): string
    requires 2 <= base <= 36
  {
    var digits := Shown(Magnitude(n, f), base, f.small);
    Repeat(precision - |digits|, '0') + digits
  }

  function Formatted(n: Int, base: nat, size: int, precision: int, f: Flags): string
    requires 2 <= base <= 36
  {
    var sign, prefix, figures := SignText(n, f), Prefix(base, f), Figures(n, base, precision, f);
    var pad := size - |sign| - |prefix| - |figures|;
    if f.left then sign + prefix + figures + Repeat(pad, ' ')
    else if f.zeropad then sign + prefix + Repeat(pad, '0') + figures
    else Repeat(pad, ' ') + sign + prefix + figures
  }

  /** The three places where the field may be filled up. */
  function LeftPad(f: Flags, pad: int): string {
    if f.left || f.zeropad then "" else Repeat(pad, ' ')
  }

  function ZeroPad(f: Flags, pad: int): string {
    if f.left || !f.zeropad then "" else Repeat(pad, '0')
  }

  function RightPad(f: Flags, pad: int): string {
    if f.left then Repeat(pad, ' ') else ""
  }

  function Max(a: int, b: int): int {
    if a > b then a else b
  }

  /** The text fills the field, and exceeds it only if sign, prefix, digits and precision need more. */
  lemma FormattedLength(n: Int, base: nat, size: int, precision: int, f: Flags)
    requires 2 <= base <= 36
    ensures |Formatted(n, base, size, precision, f)|
         == Max(size, |SignText(n, f)| + |Prefix(base, f)| + Max(precision, |Shown(Magnitude(n, f), base, f.small)|))
  {
  }

  lemma Unpadded(n: Int, base: nat, precision: int, f: Flags)
    requires 2 <= base <= 36
    ensures Formatted(n, base, 0, precision, f) == SignText(n, f) + Prefix(base, f) + Figures(n, base, precision, f)
  {
    hide SignText, Prefix, Figures;
  }

  lemma MoreZeros(n: Int, base: nat, width: int, precision: int, f: Flags)
    requires 2 <= base <= 36
    ensures Repeat(width - |Figures(n, base, precision, f)|, '0') + Figures(n, base, precision, f)
         == Figures(n, base, Max(precision, width), f)
  {
    hide Shown, Magnitude;
    var digits := Shown(Magnitude(n, f), base, f.small);
    var zeros, more := Repeat(precision - |digits|, '0'), Repeat(width - |digits| - |Repeat(precision - |digits|, '0')|, '0');
    assert more + zeros == Repeat(Max(precision, width) - |digits|, '0');
    assert more + (zeros + digits) == (more + zeros) + digits;
  }

  /** A wider field adds spaces, on the right or on the left, or zeros where a greater precision would. */
  lemma FieldFilled(n: Int, base: nat, size: int, precision: int, f: Flags)
    requires 2 <= base <= 36
    ensures var bare := Formatted(n, base, 0, precision, f); var text := Formatted(n, base, size, precision, f);
      && (f.left ==> text == bare + Repeat(size - |bare|, ' '))
      && (!f.left && !f.zeropad ==> text == Repeat(size - |bare|, ' ') + bare)
      && (!f.left && f.zeropad ==>
            text == Formatted(n, base, 0, Max(precision, size - |SignText(n, f)| - |Prefix(base, f)|), f))
  {
    hide SignText, Prefix, Figures, Repeat, Max;
    var sign, prefix, figures := SignText(n, f), Prefix(base, f), Figures(n, base, precision, f);
    Unpadded(n, base, precision, f);
    if f.zeropad && !f.left {
      var width := size - |sign| - |prefix|;
      Unpadded(n, base, Max(precision, width), f);
      MoreZeros(n, base, width, precision, f);
      var pad := Repeat(width - |figures|, '0');
      assert sign + prefix + pad + figures == sign + prefix + (pad + figures);
    } else if !f.left {
      var pad := Repeat(size - |sign| - |prefix| - |figures|, ' ');
      assert pad + sign + prefix + figures == pad + (sign + prefix + figures);
    }
  }

  /** Without a field, the text is a sign, the prefix of the base, and figures: as many digits as the precision asks for. */
  lemma BareText(n: Int, base: nat, precision: int, f: Flags)
    requires 2 <= base <= 36
    ensures var figures := Figures(n, base, precision, f);
      && |figures| >= precision && AllDigits(figures, base) && ValueOf(figures, base) == Magnitude(n, f)
      && (|figures| > precision && |figures| > 1 ==> DigitValue(figures[0]) > 0)
      && Formatted(n, base, 0, precision, f)
           == (if f.sign && n < 0 then "-" else if f.plus then "+" else if f.space then " " else "")
            + (if !f.special then "" else if base == 8 then "0" else if base == 16 && f.small then "0x" else if base == 16 then "0X" else "")
            + figures
  {
    hide ValueOf, Formatted, Digits, DigitValue, Figures, Magnitude, SignText, Prefix, IsDigit;
    Unpadded(n, base, precision, f);
    SignLooks(n, f);
    PrefixLooks(base, f);
    FiguresRead(n, base, precision, f);
  }

  lemma PrefixLooks(base: nat, f: Flags)
    ensures Prefix(base, f) == (if !f.special then "" else if base == 8 then "0" else if base == 16 && f.small then "0x" else if base == 16 then "0X" else "")
  {
  }

  lemma FiguresRead(n: Int, base: nat, precision: int, f: Flags)
    requires 2 <= base <= 36
    ensures var figures := Figures(n, base, precision, f);
      && |figures| >= precision && AllDigits(figures, base) && ValueOf(figures, base) == Magnitude(n, f)
      && (|figures| > precision && |figures| > 1 ==> DigitValue(figures[0]) > 0)
  {
    hide ValueOf, Digits, DigitValue, Magnitude, IsDigit;
    var u, digits := Magnitude(n, f), Shown(Magnitude(n, f), base, f.small);
    ReadsShown(u, base, f.small, Repeat(precision - |digits|, '0'));
    DigitsRead(u, base, f.small);
  }

  /** A blank, a decimal digit or a letter of the case asked for. */
  predicate Plain(c: char, small: bool) {
    c == ' ' || '0' <= c <= '9' || if small then 'a' <= c <= 'z' else 'A' <= c <= 'Z'
  }

  predicate AllPlain(s: string, small: bool) {
    forall i :: 0 <= i < |s| ==> Plain(s[i], small)
  }

  lemma {:induction false} DigitsPlain(u: nat, base: nat, small: bool)
    requires 2 <= base <= 36
    ensures AllPlain(Digits(u, base, small), small)
    decreases u
  {
    if u > 0 {
      QuotRem(u, base);
      DigitsPlain(Quot(u, base), base, small);
      DigitsUnfold(u, base, small);
    }
  }

  /** In every field: a minus sign for negative numbers shown signed, a plus sign for the others if asked for, and
      letters in the case asked for only. */
  lemma Looks(n: Int, base: nat, size: int, precision: int, f: Flags)
    requires 2 <= base <= 36
    ensures var text := Formatted(n, base, size, precision, f);
      && ('-' in text <==> f.sign && n < 0)
      && ('+' in text <==> f.plus && !(f.sign && n < 0))
      && forall c :: c in text ==> Plain(c, f.small) || c == '-' || c == '+'
  {
    hide *;
    var sign, prefix, digits := SignText(n, f), Prefix(base, f), Shown(Magnitude(n, f), base, f.small);
    var pad := size - |sign| - |prefix| - Max(precision, |digits|);
    FormattedInOrder(n, base, size, precision, f);
    PlainParts(n, base, precision, pad, f);
    SignLooks(n, f);
    Mixed(LeftPad(f, pad), sign, prefix, ZeroPad(f, pad), Repeat(precision - |digits|, '0') + digits, RightPad(f, pad), f.small);
  }

  lemma PlainParts(n: Int, base: nat, precision: int, pad: int, f: Flags)
    requires 2 <= base <= 36
    ensures AllPlain(LeftPad(f, pad), f.small) && AllPlain(ZeroPad(f, pad), f.small) && AllPlain(RightPad(f, pad), f.small)
    ensures AllPlain(Prefix(base, f), f.small)
    ensures var digits := Shown(Magnitude(n, f), base, f.small); AllPlain(Repeat(precision - |digits|, '0') + digits, f.small)
  {
    hide Digits, Magnitude;
    DigitsPlain(Magnitude(n, f), base, f.small);
  }

  lemma SignLooks(n: Int, f: Flags)
    ensures SignText(n, f) == (if f.sign && n < 0 then "-" else if f.plus then "+" else if f.space then " " else "")
  {
  }

  lemma Mixed(a: string, sign: string, prefix: string, fill: string, figures: string, z: string, small: bool)
    requires AllPlain(a, small) && AllPlain(prefix, small) && AllPlain(fill, small) && AllPlain(figures, small) && AllPlain(z, small)
    requires sign == "-" || sign == "+" || sign == " " || sign == ""
    ensures var text := a + (sign + prefix) + fill + figures + z;
      && ('-' in text <==> sign == "-") && ('+' in text <==> sign == "+")
      && forall c :: c in text ==> Plain(c, small) || c == '-' || c == '+'
  {
    var text := a + (sign + prefix) + fill + figures + z;
    assert sign != "" ==> text[|a|] == sign[0];
    forall c | c in text ensures Plain(c, small) || (sign != "" && c == sign[0]) {
      assert c in a || c in sign || c in prefix || c in fill || c in figures || c in z;
    }
  }

  function Pow2(k: nat): nat {
    if k == 0 then 1 else 2 * Pow2(k - 1)
  }

  /** A number below 2^k has at most k digits, so tmp has room for any word. */
  lemma {:induction false} DigitsFit(u: nat, base: nat, small: bool, k: nat)
    requires 2 <= base <= 36 && u < Pow2(k)
    ensures |Digits(u, base, small)| <= k
    decreases u
  {
    if u > 0 {
      QuotRem(u, base);
      DigitsFit(Quot(u, base), base, small, k - 1);
    }
  }

  lemma WordDigits(u: nat, base: nat, small: bool)
    requires 2 <= base <= 36 && u < WORD
    ensures |Digits(u, base, small)| <= 32
  {
    assert Pow2(8) == 256 && Pow2(16) == 256 * Pow2(8) && Pow2(24) == 256 * Pow2(16) && Pow2(32) == 256 * Pow2(24);
    DigitsFit(u, base, small, 32);
  }

  // Reading it back

  predicate IsDigit(c: char, base: nat) {
    DigitValue(c) < base
  }

  /** The value of a string of digits. */
  function ValueOf(s: string, base: nat): nat
    requires base <= 36
  {
    if s == "" then 0 else ValueOf(s[..|s| - 1], base) * base + DigitValue(s[|s| - 1])
  }

  lemma ValueAppend(t: string, c: char, base: nat)
    requires base <= 36
    ensures ValueOf(t + [c], base) == ValueOf(t, base) * base + DigitValue(c)
  {
    assert (t + [c])[..|t|] == t;
  }

  predicate AllDigits(s: string, base: nat) {
    forall i :: 0 <= i < |s| ==> IsDigit(s[i], base)
  }

  /** The digits read back as the number, and a positive number has no leading zero. */
  lemma {:induction false} DigitsRead(u: nat, base: nat, small: bool)
    requires 2 <= base <= 36
    ensures var s := Digits(u, base, small);
      && ValueOf(s, base) == u && AllDigits(s, base)
      && (u > 0 ==> s != "" && DigitValue(s[0]) > 0)
    decreases u
  {
    hide *;
    if u > 0 {
      QuotRem(u, base);
      DigitsRead(Quot(u, base), base, small);
      DigitsUnfold(u, base, small);
      AppendRead(Digits(Quot(u, base), base, small), DigitChar(Rem(u, base), small), Quot(u, base), Rem(u, base), base);
    } else {
      NoDigits(base, small);
      NothingRead(base);
    }
  }

  lemma DigitsUnfold(u: nat, base: nat, small: bool)
    requires 2 <= base <= 36 && u > 0
    ensures Rem(u, base) < 36 && Digits(u, base, small) == Digits(Quot(u, base), base, small) + [DigitChar(Rem(u, base), small)]
    ensures DigitValue(DigitChar(Rem(u, base), small)) == Rem(u, base)
    ensures u < base ==> Digits(Quot(u, base), base, small) == ""
  {
    hide Quot, Rem, DigitChar, DigitValue;
    QuotRem(u, base);
    DigitRead(Rem(u, base), small);
  }

  lemma NothingRead(base: nat)
    requires base <= 36
    ensures ValueOf("", base) == 0 && AllDigits("", base)
  {
  }

  lemma AppendRead(t: string, c: char, q: nat, r: nat, base: nat)
    requires 2 <= base <= 36 && DigitValue(c) == r < base && q * base + r > 0
    requires ValueOf(t, base) == q && AllDigits(t, base)
    requires q > 0 ==> t != "" && DigitValue(t[0]) > 0
    requires q == 0 ==> t == ""
    ensures ValueOf(t + [c], base) == q * base + r && AllDigits(t + [c], base) && DigitValue((t + [c])[0]) > 0
  {
    hide ValueOf, DigitValue;
    ValueAppend(t, c, base);
    if q == 0 {
      assert (t + [c])[0] == c;
    } else {
      assert (t + [c])[0] == t[0];
    }
  }

  lemma NoDigits(base: nat, small: bool)
    requires 2 <= base <= 36
    ensures Digits(0, base, small) == ""
  {
  }

  lemma {:induction false} LeadingZeros(zeros: string, s: string, base: nat)
    requires base <= 36 && AllAre(zeros, '0')
    ensures ValueOf(zeros + s, base) == ValueOf(s, base)
    decreases |zeros| + |s|
  {
    var t := zeros + s;
    if s != "" {
      assert t[..|t| - 1] == zeros + s[..|s| - 1];
      LeadingZeros(zeros, s[..|s| - 1], base);
    } else if zeros != "" {
      assert t[..|t| - 1] == zeros[..|zeros| - 1] + "";
      LeadingZeros(zeros[..|zeros| - 1], "", base);
    }
  }

  function SkipSpaces(s: string): string {
    if s != "" && s[0] == ' ' then SkipSpaces(s[1..]) else s
  }

  function LeadingDigits(s: string, base: nat): string {
    if s != "" && IsDigit(s[0], base) then [s[0]] + LeadingDigits(s[1..], base) else ""
  }

  /** How a reader understands a number: spaces, a sign, the prefix of hexadecimal numbers, digits. */
  function Read(text: string, base: nat, special: bool): int
    requires 2 <= base <= 36
  {
    var s := SkipSpaces(text);
    var t := if s != "" && (s[0] == '-' || s[0] == '+') then s[1..] else s;
    var u := if special && base == 16 && |t| >= 2 then t[2..] else t;
    var value := ValueOf(LeadingDigits(u, base), base);
    if s != "" && s[0] == '-' then 0 - value else value
  }

  lemma {:induction false} SpacesSkipped(spaces: string, s: string)
    requires AllAre(spaces, ' ') && s != "" && s[0] != ' '
    ensures SkipSpaces(spaces + s) == s
  {
    if spaces == "" {
      assert spaces + s == s;
    } else {
      assert (spaces + s)[1..] == spaces[1..] + s;
      SpacesSkipped(spaces[1..], s);
    }
  }

  lemma {:induction false} DigitsTaken(digits: string, rest: string, base: nat)
    requires AllDigits(digits, base)
    requires rest == "" || !IsDigit(rest[0], base)
    ensures LeadingDigits(digits + rest, base) == digits
  {
    if digits == "" {
      assert digits + rest == rest;
    } else {
      assert (digits + rest)[0] == digits[0] && (digits + rest)[1..] == digits[1..] + rest;
      DigitsTaken(digits[1..], rest, base);
    }
  }

  /** The text after the padding spaces, when it is zeros and digits that come after sign and prefix. */
  lemma ReadPlain(spaces: string, sign: string, prefix: string, digits: string, rest: string, base: nat, special: bool)
    requires 2 <= base <= 36
    requires AllAre(spaces, ' ') && AllAre(rest, ' ')
    requires sign == "" || sign == "-" || sign == "+"
    requires if special && base == 16 then |prefix| == 2 && prefix[0] == '0' else prefix == ""
    requires digits != "" && AllDigits(digits, base)
    ensures Read(spaces + (sign + (prefix + (digits + rest))), base, special)
         == if sign == "-" then 0 - ValueOf(digits, base) else ValueOf(digits, base)
  {
    var u := digits + rest;
    var t := prefix + u;
    var s := sign + t;
    assert t[0] != ' ' && t[0] != '-' && t[0] != '+';
    SpacesSkipped(spaces, s);
    DigitsTaken(digits, rest, base);
    assert sign != "" ==> s[1..] == t;
    assert sign == "" ==> s == t;
    assert t[|prefix|..] == u;
  }

  /** The field, its text put together in the order of the code. */
  lemma FormattedInOrder(n: Int, base: nat, size: int, precision: int, f: Flags)
    requires 2 <= base <= 36
    ensures var sign, prefix, digits := SignText(n, f), Prefix(base, f), Shown(Magnitude(n, f), base, f.small);
      var pad := size - |sign| - |prefix| - Max(precision, |digits|);
      Formatted(n, base, size, precision, f)
        == LeftPad(f, pad) + (sign + prefix) + ZeroPad(f, pad) + (Repeat(precision - |digits|, '0') + digits) + RightPad(f, pad)
  {
    hide SignText, Shown, Magnitude, Prefix, Repeat;
    var sign, prefix, figures := SignText(n, f), Prefix(base, f), Figures(n, base, precision, f);
    var pad := size - |sign| - |prefix| - |figures|;
    FiguresLength(n, base, precision, f);
    NothingAround(sign + prefix, Repeat(pad, ' '), figures);
    NothingAround(sign + prefix, Repeat(pad, '0'), figures);
  }

  lemma FiguresLength(n: Int, base: nat, precision: int, f: Flags)
    requires 2 <= base <= 36
    ensures |Figures(n, base, precision, f)| == Max(precision, |Shown(Magnitude(n, f), base, f.small)|)
  {
    hide Shown, Magnitude;
  }

  lemma NothingAround(head: string, fill: string, figures: string)
    ensures "" + head + fill + figures + "" == head + fill + figures
    ensures fill + head + "" + figures + "" == fill + head + figures
    ensures "" + head + "" + figures + fill == head + figures + fill
  {
  }

  /** Formatted as spaces, sign, prefix of hexadecimal numbers, zeros, digits and spaces. */
  lemma FormattedParts(n: Int, base: nat, size: int, precision: int, f: Flags)
      returns (spaces: string, hex: string, zeros: string, rest: string)
    requires 2 <= base <= 36
    ensures var text := Formatted(n, base, size, precision, f);
      text == (spaces + SignText(n, f)) + (hex + ((zeros + Shown(Magnitude(n, f), base, f.small)) + rest))
    ensures hex == if base == 8 then "" else Prefix(base, f)
    ensures AllAre(spaces, ' ') && AllAre(zeros, '0') && AllAre(rest, ' ')
  {
    hide Formatted, SignText, Shown, Magnitude, Prefix, Repeat;
    FormattedInOrder(n, base, size, precision, f);
    OctalPrefix(base, f);
    var digits := Shown(Magnitude(n, f), base, f.small);
    var sign, prefix := SignText(n, f), Prefix(base, f);
    var pad := size - |sign| - |prefix| - Max(precision, |digits|);
    hex := if base == 8 then "" else prefix;
    var octal := if base == 8 then prefix else "";
    var fill := ZeroPad(f, pad);
    var more := Repeat(precision - |digits|, '0');
    zeros := octal + fill + more;
    spaces := LeftPad(f, pad);
    rest := RightPad(f, pad);
    Regroup(spaces, sign, octal, hex, fill, more, digits, rest);
    assert sign + prefix == sign + (octal + hex);
  }

  predicate AllAre(s: string, c: char) {
    forall i :: 0 <= i < |s| ==> s[i] == c
  }

  lemma OctalPrefix(base: nat, f: Flags)
    ensures base == 8 ==> AllAre(Prefix(base, f), '0')
  {
  }

  lemma Regroup(a: string, sign: string, octal: string, hex: string, fill: string, more: string, digits: string, rest: string)
    requires octal == "" || hex == ""
    ensures a + (sign + (octal + hex)) + fill + (more + digits) + rest
         == (a + sign) + (hex + (((octal + fill + more) + digits) + rest))
  {
    if octal == "" {
      assert octal + hex == hex && octal + fill == fill;
    } else {
      assert octal + hex == octal;
    }
  }

  lemma SignAndMagnitude(n: Int, f: Flags)
    ensures SignText(n, f) in {"", "-", "+", " "}
    ensures SignText(n, f) == "-" <==> f.sign && n < 0
    ensures Magnitude(n, f) == if SignText(n, f) == "-" then 0 - n as int else Unsigned(n as int)
    ensures Magnitude(n, f) < WORD && (f.sign && n >= 0 ==> Magnitude(n, f) == n as int)
  {
  }

  lemma HexPrefix(base: nat, f: Flags)
    ensures if f.special && base == 16 then |Prefix(base, f)| == 2 && Prefix(base, f)[0] == '0' else base == 8 || Prefix(base, f) == ""
  {
  }

  /** Whatever the width, precision and flags, the text reads as the number: signed for the
      conversions that ask for a sign, unsigned for the others. */
  lemma FormattedReads(n: Int, base: nat, size: int, precision: int, f: Flags)
    requires 2 <= base <= 36
    ensures Read(Formatted(n, base, size, precision, f), base, f.special)
         == if f.sign || n >= 0 then n as int else n as int + 0x1_0000_0000
  {
    hide *;
    SignAndMagnitude(n, f);
    UnsignedIs(n);
    HexPrefix(base, f);
    var u := Magnitude(n, f);
    var sign := SignText(n, f);
    var spaces, hex, zeros, rest := FormattedParts(n, base, size, precision, f);
    ReadsShown(u, base, f.small, zeros);
    var digits := zeros + Shown(u, base, f.small);
    if sign == " " {
      var blanks := spaces + sign;
      BlanksAppend(spaces, sign);
      assert "" + (hex + (digits + rest)) == hex + (digits + rest);
      ReadPlain(blanks, "", hex, digits, rest, base, f.special);
    } else {
      assert (spaces + sign) + (hex + (digits + rest)) == spaces + (sign + (hex + (digits + rest)));
      ReadPlain(spaces, sign, hex, digits, rest, base, f.special);
    }
  }

  lemma UnsignedIs(n: Int)
    ensures Unsigned(n as int) == if n >= 0 then n as int else n as int + 0x1_0000_0000
  {
  }

  lemma BlanksAppend(spaces: string, sign: string)
    requires AllAre(spaces, ' ') && sign == " "
    ensures AllAre(spaces + sign, ' ')
  {
  }

  lemma ReadsShown(u: nat, base: nat, small: bool, zeros: string)
    requires 2 <= base <= 36 && AllAre(zeros, '0')
    ensures var s := zeros + Shown(u, base, small);
      s != "" && ValueOf(s, base) == u && AllDigits(s, base)
  {
    hide ValueOf, DigitValue;
    ShownRead(u, base, small);
    LeadingZeros(zeros, Shown(u, base, small), base);
    ZeroDigit(base);
  }

  lemma ShownRead(u: nat, base: nat, small: bool)
    requires 2 <= base <= 36
    ensures ValueOf(Shown(u, base, small), base) == u && AllDigits(Shown(u, base, small), base)
  {
    hide Digits, ValueOf, DigitValue;
    DigitsRead(u, base, small);
    ZeroDigit(base);
    NothingRead(base);
    ValueAppend("", '0', base);
    assert "" + ['0'] == "0";
  }

  lemma ZeroDigit(base: nat)
    requires 2 <= base
    ensures DigitValue('0') == 0 && IsDigit('0', base)
  {
  }

  // skip_atoi

  /** int arithmetic wraps around. */
  function WrapInt(n: int): int {
    (n + 0x8000_0000) % WORD - 0x8000_0000
  }

  predicate IsDecimal(c: char) {
    '0' <= c <= '9'
  }

  lemma DigitsEnd(s: string, pos: nat, end: nat)
    requires pos <= end <= |s| && (forall k :: pos <= k < end ==> IsDecimal(s[k]))
    requires end == |s| || !IsDecimal(s[end])
    ensures LeadingDigits(s[pos..], 10) == s[pos..end]
  {
    assert s[pos..] == s[pos..end] + s[end..];
    assert forall c :: IsDecimal(c) <==> IsDigit(c, 10);
    DigitsTaken(s[pos..end], s[end..], 10);
  }

  /** skip_atoi: the value of the decimal digits from pos on, as an int, and where they end. */
  method SkipAtoi(s: string, pos: nat) returns (i: int, end: nat)
    requires pos <= |s|
    ensures pos <= end <= |s| && s[pos..end] == LeadingDigits(s[pos..], 10)
    ensures i == WrapInt(ValueOf(LeadingDigits(s[pos..], 10), 10))
    ensures -0x8000_0000 <= i <= 0x7fff_ffff && (i - ValueOf(LeadingDigits(s[pos..], 10), 10)) % 0x1_0000_0000 == 0
  {
    i, end := 0, pos;
    while end < |s| && IsDecimal(s[end])
      invariant pos <= end <= |s| && forall k :: pos <= k < end ==> IsDecimal(s[k])
      invariant i == WrapInt(ValueOf(s[pos..end], 10))
    {
      ghost var v := ValueOf(s[pos..end], 10);
      var d := s[end] as int - '0' as int;
      assert s[pos..end + 1][..end - pos] == s[pos..end];
      WrapNext(v, d);
      i := WrapInt(i * 10 + d);
      end := end + 1;
    }
    DigitsEnd(s, pos, end);
    WrapCongruent(ValueOf(s[pos..end], 10));
  }

  lemma WrapCongruent(n: int)
    ensures -0x8000_0000 <= WrapInt(n) <= 0x7fff_ffff && (WrapInt(n) - n) % 0x1_0000_0000 == 0
  {
    var q := (n + 0x8000_0000) / WORD;
    assert WrapInt(n) - n == 0 - q * WORD;
    ModShift(0, q);
  }

  lemma WrapNext(v: int, d: int)
    ensures WrapInt(WrapInt(v) * 10 + d) == WrapInt(v * 10 + d)
  {
    var q := (v + 0x8000_0000) / WORD;
    assert WrapInt(v) == v - q * WORD;
    assert WrapInt(v) * 10 + d + 0x8000_0000 == v * 10 + d + 0x8000_0000 - q * 10 * WORD;
    ModShift(v * 10 + d + 0x8000_0000, q * 10);
  }

  lemma ModShift(a: int, k: int)
    ensures (a - k * WORD) % WORD == a % WORD
  {
  }

  /** skip_atoi undoes the plain decimal text of any number from 0 to the largest int, and stops
      right behind it. */
  lemma SkipAtoiInverts(n: Int, f: Flags, rest: string)
    requires n >= 0 && !f.plus && !f.space && (rest == "" || !IsDecimal(rest[0]))
    ensures var text := Formatted(n, 10, -1, -1, f);
      LeadingDigits(text + rest, 10) == text && WrapInt(ValueOf(text, 10)) == n as int
  {
    PlainDecimal(n, f);
    hide *;
    var digits := Shown(n as int, 10, f.small);
    ReadsShown(n as int, 10, f.small, "");
    assert "" + digits == digits;
    SmallInt(n as int);
    TenDigits(rest);
    DigitsTaken(digits, rest, 10);
  }

  lemma TenDigits(rest: string)
    requires rest == "" || !IsDecimal(rest[0])
    ensures rest == "" || !IsDigit(rest[0], 10)
  {
  }

  lemma SmallInt(n: int)
    requires 0 <= n <= 0x7fff_ffff
    ensures WrapInt(n) == n
  {
  }

  lemma PlainDecimal(n: Int, f: Flags)
    requires n >= 0 && !f.plus && !f.space
    ensures Formatted(n, 10, -1, -1, f) == Shown(n as int, 10, f.small)
  {
    assert Magnitude(n, f) == n as int && SignText(n, f) == "" && Prefix(10, f) == "";
    assert Figures(n, 10, -1, f) == Shown(n as int, 10, f.small);
  }

  // The code

  /** The characters written so far: *str++ = c appends one. */
  class Output {
    const data: array<char>
    var at: nat

    constructor (size: nat)
      ensures fresh(data) && data.Length == size && at == 0
    {
      data := new char[size](_ => '\0');
      at := 0;
    }

    ghost function Written(): string
      requires at <= data.Length
      reads this, data
    {
      data[..at]
    }

    method Put(c: char)
      requires at < data.Length
      modifies this, data
      ensures at == old(at) + 1 && Written() == old(Written()) + [c]
    {
      data[at] := c;
      at := at + 1;
    }

    /** while (size-- > 0) *str++ = c; */
    method Pad(size: int, c: char) returns (left: int)
      requires at + |Repeat(size, c)| <= data.Length
      modifies this, data
      ensures at == old(at) + |Repeat(size, c)| && Written() == old(Written()) + Repeat(size, c)
      ensures left == if size > 0 then -1 else size - 1
    {
      left := size;
      ghost var w := Written();
      while left > 0
        invariant left <= size && (size > 0 ==> left >= 0) && (size <= 0 ==> left == size)
        invariant at == old(at) + |Repeat(size - left, c)| <= data.Length
        invariant Written() == w + Repeat(size - left, c)
      {
        assert Repeat(size - left, c) + [c] == Repeat(size - left + 1, c);
        Put(c);
        left := left - 1;
      }
      left := left - 1;
    }
  }

  function Reversed(s: string): (r: string)
    ensures |r| == |s|
  {
    if s == "" then "" else Reversed(s[1..]) + [s[0]]
  }

  lemma {:induction false} ReversedAppend(s: string, c: char)
    ensures Reversed(s + [c]) == [c] + Reversed(s)
  {
    if s != "" {
      assert (s + [c])[1..] == s[1..] + [c];
      ReversedAppend(s[1..], c);
    } else {
      assert (s + [c])[1..] == "";
    }
  }

  lemma DigitsStep(u: nat, base: nat, small: bool, t: string, c: char)
    requires 2 <= base <= 36 && u > 0 && Rem(u, base) < 36 && c == DigitChar(Rem(u, base), small)
    ensures |Digits(u, base, small)| == |Digits(Quot(u, base), base, small)| + 1
    ensures Digits(Quot(u, base), base, small) + Reversed(t + [c]) == Digits(u, base, small) + Reversed(t)
  {
    hide *;
    DigitsUnfold(u, base, small);
    ReversedAppend(t, c);
  }

  lemma ZeroShown(base: nat, small: bool)
    requires 2 <= base <= 36
    ensures Shown(0, base, small) == "0" == Reversed("0") && Reversed("") == ""
  {
    assert "0"[1..] == "";
  }

  lemma PositiveShown(u: nat, base: nat, small: bool)
    requires 2 <= base <= 36 && u > 0
    ensures Shown(u, base, small) == Digits(u, base, small)
  {
  }

  /** The division loop: the digits of num, last one first. */
  method Divide(num: nat, base: nat, small: bool, tmp: array<char>) returns (i: nat)
    requires 2 <= base <= 36 && num < WORD && tmp.Length == 36
    modifies tmp
    ensures 1 <= i <= 32 && Reversed(tmp[..i]) == Shown(num, base, small)
  {
    hide *;
    WordDigits(num, base, small);
    NoDigits(base, small);
    ZeroShown(base, small);
    i := 0;
    if num == 0 {
      tmp[0] := '0';
      i := 1;
      assert tmp[..1] == "0";
      return;
    }
    PositiveShown(num, base, small);
    var u: nat := num;
    assert tmp[..i] == "";
    assert Digits(u, base, small) + "" == Digits(u, base, small);
    while u != 0
      invariant i + |Digits(u, base, small)| == |Digits(num, base, small)|
      invariant Digits(u, base, small) + Reversed(tmp[..i]) == Digits(num, base, small)
    {
      ghost var t := tmp[..i];
      QuotRem(u, base);
      var c := DigitChar(Rem(u, base), small);
      DigitsStep(u, base, small, t, c);
      tmp[i] := c;
      assert tmp[..i + 1] == t + [c];
      u, i := Quot(u, base), i + 1;
    }
    assert "" + Reversed(tmp[..i]) == Reversed(tmp[..i]);
  }

  /** while (i-- > 0) *str++ = tmp[i]; */
  method PutDigits(out: Output, tmp: array<char>, digits: nat)
    requires digits <= tmp.Length && out.at + digits <= out.data.Length && tmp != out.data
    modifies out, out.data
    ensures out.at == old(out.at) + digits && out.Written() == old(out.Written()) + Reversed(tmp[..digits])
  {
    ghost var w, all := out.Written(), tmp[..digits];
    var i := digits;
    assert all[digits..] == "" && w + Reversed("") == w;
    while i > 0
      invariant 0 <= i <= digits && out.at == old(out.at) + digits - i && tmp[..digits] == all
      invariant out.Written() == w + Reversed(all[i..])
    {
      i := i - 1;
      assert all[i..] == [all[i]] + all[i + 1..];
      assert all[i..][1..] == all[i + 1..];
      out.Put(tmp[i]);
    }
    assert all[0..] == all;
  }

  /** The sign and the prefix. */
  method PutPrefix(out: Output, base: nat, sign: string, f: Flags)
    requires |sign| <= 1 && out.at + |sign| + |Prefix(base, f)| <= out.data.Length
    modifies out, out.data
    ensures out.at == old(out.at) + |sign| + |Prefix(base, f)|
    ensures out.Written() == old(out.Written()) + sign + Prefix(base, f)
  {
    ghost var w := out.Written();
    if sign != "" {
      out.Put(sign[0]);
    }
    assert out.Written() == w + sign;
    if f.special {
      if base == 8 {
        out.Put('0');
      } else if base == 16 {
        out.Put('0');
        out.Put(DigitChar(33, f.small));
      }
    }
  }

  /** number(). A base that is not supported writes nothing and returns no position. */
  method Number(out: Output, num: Int, base: int, size: int, precision: int, f: Flags) returns (ok: bool)
    requires out.at <= out.data.Length
    requires 2 <= base <= 36 ==> out.at + |Formatted(num, base, size, precision, f)| <= out.data.Length
    modifies out, out.data
    ensures ok <==> 2 <= base <= 36
    ensures ok ==> out.at <= out.data.Length && out.Written() == old(out.Written()) + Formatted(num, base, size, precision, f)
    ensures !ok ==> out.at == old(out.at) && out.data[..] == old(out.data[..])
  {
    if base < 2 || base > 36 {
      return false;
    }
    ok := true;
    var zeropad := f.zeropad && !f.left;
    var c := if zeropad then '0' else ' ';
    var width := size;
    var sign, magnitude := "", Unsigned(num as int);
    if f.sign && num < 0 {
      sign, magnitude := "-", Unsigned(0 - num as int);
    } else {
      sign := if f.plus then "+" else if f.space then " " else "";
    }
    if sign != "" {
      width := width - 1;
    }
    if f.special {
      if base == 16 {
        width := width - 2;
      } else if base == 8 {
        width := width - 1;
      }
    }
    assert sign == SignText(num, f) && magnitude == Magnitude(num, f) && width == size - |sign| - |Prefix(base, f)|;
    PutFields(out, num, base, size, precision, f, sign, magnitude, width, zeropad, c);
  }

  /** The second half of number(): division, padding and digits. */
  method PutFields(out: Output, ghost num: Int, base: nat, ghost size: int, precision: int, f: Flags,
                   sign: string, magnitude: nat, room: int, zeropad: bool, c: char)
    requires 2 <= base <= 36 && out.at + |Formatted(num, base, size, precision, f)| <= out.data.Length
    requires sign == SignText(num, f) && magnitude == Magnitude(num, f) && room == size - |sign| - |Prefix(base, f)|
    requires zeropad == (f.zeropad && !f.left) && c == if zeropad then '0' else ' '
    modifies out, out.data
    ensures out.at <= out.data.Length && out.Written() == old(out.Written()) + Formatted(num, base, size, precision, f)
  {
    hide *;
    FormattedInOrder(num, base, size, precision, f);
    SignAndMagnitude(num, f);
    MaxIs(precision);
    var tmp := new char[36];
    var i := Divide(magnitude, base, f.small, tmp);
    var p := precision;
    if i > p {
      p := i;
    }
    ghost var pad := room - p;
    ghost var before, fill, rest := LeftPad(f, pad), ZeroPad(f, pad), RightPad(f, pad);
    ghost var digits := Reversed(tmp[..i]);
    assert Formatted(num, base, size, precision, f)
        == before + (sign + Prefix(base, f)) + fill + (Repeat(precision - i, '0') + digits) + rest;
    ghost var w, front, figures := out.Written(), before + (sign + Prefix(base, f)) + fill, Repeat(precision - i, '0') + digits;
    Joined(w, front, figures, rest);
    var width := PutFront(out, base, f, sign, room - p, zeropad, c);
    PutBack(out, tmp, i, precision, p, width);
    assert out.Written() == (w + front) + (figures + rest);
  }

  lemma Joined(w: string, front: string, figures: string, rest: string)
    ensures (w + front) + (figures + rest) == w + (front + figures + rest)
  {
  }

  /** Padding on the left, sign and prefix. */
  method PutFront(out: Output, base: nat, f: Flags, sign: string, pad: int, zeropad: bool, c: char) returns (width: int)
    requires zeropad == (f.zeropad && !f.left) && c == (if zeropad then '0' else ' ') && |sign| <= 1
    requires out.at + |LeftPad(f, pad)| + |sign| + |Prefix(base, f)| + |ZeroPad(f, pad)| <= out.data.Length
    modifies out, out.data
    ensures out.at == old(out.at) + |LeftPad(f, pad)| + |sign| + |Prefix(base, f)| + |ZeroPad(f, pad)| <= out.data.Length
    ensures out.Written() == old(out.Written()) + (LeftPad(f, pad) + (sign + Prefix(base, f)) + ZeroPad(f, pad))
    ensures Repeat(width, ' ') == RightPad(f, pad)
  {
    hide Prefix, Repeat;
    width := pad;
    if !zeropad && !f.left {
      width := out.Pad(width, ' ');
    }
    PutPrefix(out, base, sign, f);
    if !f.left {
      width := out.Pad(width, c);
    }
  }

  /** Leading zeros, digits and padding on the right. */
  method PutBack(out: Output, tmp: array<char>, i: nat, ghost precision: int, p: int, width: int)
    requires i <= tmp.Length && tmp != out.data && p == if i > precision then i else precision
    requires out.at + |Repeat(precision - i, '0')| + i + |Repeat(width, ' ')| <= out.data.Length
    modifies out, out.data
    ensures out.at <= out.data.Length
    ensures out.Written() == old(out.Written()) + ((Repeat(precision - i, '0') + Reversed(old(tmp[..i]))) + Repeat(width, ' '))
  {
    hide *;
    assert Repeat(p - i, '0') == Repeat(precision - i, '0');
    var left := out.Pad(p - i, '0');
    PutDigits(out, tmp, i);
    left := out.Pad(width, ' ');
  }

  lemma MaxIs(a: int)
    ensures forall b :: Max(a, b) == if a > b then a else b
  {
  }
}
