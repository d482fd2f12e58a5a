/** Small string utilities shared by both halves of the model: Python's
    `str.replace`, decimal and hexadecimal digit strings (C's `std::to_string`,
    `%x`, `%04x`, Python's `f"{i}"`), C's `atoi`, and the comma tokeniser
    `strtok(s, ",")`. */
module Text {

  /** Python's `s.replace(pat, rep)`: a left-to-right scan replacing
      non-overlapping occurrences of `pat`. */
  function Replace(s: string, pat: string, rep: string): string
    requires |pat| > 0
    decreases |s|
  {
    if |s| == 0 then []
    else if |pat| <= |s| && s[..|pat|] == pat then rep + Replace(s[|pat|..], pat, rep)
    else [s[0]] + Replace(s[1..], pat, rep)
  }

  /** A prefix that cannot start an occurrence of `pat` is copied unchanged. */
  lemma {:induction false} ReplaceSkip(x: string, rest: string, pat: string, rep: string)
    requires |pat| > 0
    requires forall i | 0 <= i < |x| :: x[i] != pat[0]
    ensures Replace(x + rest, pat, rep) == x + Replace(rest, pat, rep)
    decreases |x|
  {
    if |x| > 0 {
      var s := x + rest;
      assert |pat| <= |s| ==> s[..|pat|][0] == x[0];
      assert s[1..] == x[1..] + rest;
      ReplaceSkip(x[1..], rest, pat, rep);
    } else {
      assert x + rest == rest;
    }
  }

  /** An occurrence of `pat` at the front is replaced, and the scan resumes after it. */
  lemma ReplaceHit(pat: string, rest: string, rep: string)
    requires |pat| > 0
    ensures Replace(pat + rest, pat, rep) == rep + Replace(rest, pat, rep)
  {
    var s := pat + rest;
    assert s[..|pat|] == pat;
    assert s[|pat|..] == rest;
  }

  // ---------------------------------------------------------------------
  // Digits in base 10 and 16

  /** The digit character for `d`, lower-case as `%x` prints it. */
  function DigitChar(d: nat): char
    requires d < 16
  {
    if d < 10 then ('0' as int + d) as char else ('a' as int + d - 10) as char
  }

  /** The value of a digit character; 16 for anything that is not one. */
  function DigitValue(c: char): nat
  {
    if '0' <= c <= '9' then c as int - '0' as int
    else if 'a' <= c <= 'f' then c as int - 'a' as int + 10
    else 16
  }

  predicate IsDigitIn(c: char, base: nat)
  {
    DigitValue(c) < base
  }

  predicate AllDigitsIn(s: string, base: nat)
  {
    forall i | 0 <= i < |s| :: IsDigitIn(s[i], base)
  }

  /** The two radixes the program prints in: decimal and hexadecimal. */
  predicate IsBase(base: nat)
  {
    base == 10 || base == 16
  }

  /** `v * base`, with the radix spelled out so that the arithmetic stays linear. */
  function Shift(v: nat, base: nat): nat
    requires IsBase(base)
  {
    if base == 10 then v * 10 else v * 16
  }

  function Quot(n: nat, base: nat): nat
    requires IsBase(base)
  {
    if base == 10 then n / 10 else n / 16
  }

  function Rem(n: nat, base: nat): (d: nat)
    requires IsBase(base)
    ensures d < base
    ensures n == Shift(Quot(n, base), base) + d
    ensures n >= base ==> Quot(n, base) < n
  {
    if base == 10 then n % 10 else n % 16
  }

  /** Digits of `n` in `base`, most significant first, without leading zeros. */
  function ToBase(n: nat, base: nat): (r: string)
    requires IsBase(base)
    ensures 0 < |r|
    ensures AllDigitsIn(r, base)
    decreases n
  {
    (if n < base then [] else ToBase(Quot(n, base), base)) + [DigitChar(Rem(n, base))]
  }

  /** The value of an all-digit string in `base`. */
  function FromBase(s: string, base: nat): nat
    requires IsBase(base)
    requires AllDigitsIn(s, base)
    decreases |s|
  {
    if |s| == 0 then 0 else Shift(FromBase(s[..|s| - 1], base), base) + DigitValue(s[|s| - 1])
  }

  lemma DigitRoundTrip(d: nat)
    requires d < 16
    ensures DigitValue(DigitChar(d)) == d
  {
  }

  /** Reading back the digits of `n` gives `n`. */
  lemma {:induction false} FromToBase(n: nat, base: nat)
    requires IsBase(base)
    ensures FromBase(ToBase(n, base), base) == n
    decreases n
  {
    var s := ToBase(n, base);
    var d := Rem(n, base);
    DigitRoundTrip(d);
    var init: string := if n < base then [] else ToBase(Quot(n, base), base);
    assert s == init + [DigitChar(d)];
    assert s[..|s| - 1] == init;
    assert s[|s| - 1] == DigitChar(d);
    if n < base {
      assert Quot(n, base) == 0;
      assert FromBase(init, base) == 0;
    } else {
      FromToBase(Quot(n, base), base);
    }
    assert FromBase(s, base) == Shift(FromBase(init, base), base) + d;
  }

  function Repeat(c: char, k: nat): (r: string)
    ensures |r| == k
    ensures forall i | 0 <= i < k :: r[i] == c
  {
    if k == 0 then [] else Repeat(c, k - 1) + [c]
  }

  /** Zeros in front of a digit string leave it a digit string. */
  lemma ZerosDigits(k: nat, s: string, base: nat)
    requires IsBase(base)
    requires AllDigitsIn(s, base)
    ensures AllDigitsIn(Repeat('0', k) + s, base)
  {
    var t := Repeat('0', k) + s;
    forall i | 0 <= i < |t| ensures IsDigitIn(t[i], base) {
      if i < k { assert t[i] == '0'; } else { assert t[i] == s[i - k]; }
    }
  }

  /** A string of zeros is worth zero. */
  lemma {:induction false} ZerosValue(k: nat, base: nat)
    requires IsBase(base)
    ensures AllDigitsIn(Repeat('0', k), base)
    ensures FromBase(Repeat('0', k), base) == 0
    decreases k
  {
    ZerosDigits(k, [], base);
    assert Repeat('0', k) + [] == Repeat('0', k);
    if k > 0 {
      var z := Repeat('0', k);
      assert z[..k - 1] == Repeat('0', k - 1);
      ZerosValue(k - 1, base);
    }
  }

  /** Leading zeros do not change the value of a digit string. */
  lemma {:induction false} FromBaseLeadingZeros(k: nat, s: string, base: nat)
    requires IsBase(base)
    requires AllDigitsIn(s, base)
    ensures AllDigitsIn(Repeat('0', k) + s, base)
    ensures FromBase(Repeat('0', k) + s, base) == FromBase(s, base)
    decreases |s|
  {
    var z := Repeat('0', k);
    var t := z + s;
    ZerosDigits(k, s, base);
    if |s| > 0 {
      var init := s[..|s| - 1];
      assert t[..|t| - 1] == z + init;
      assert t[|t| - 1] == s[|s| - 1];
      FromBaseLeadingZeros(k, init, base);
    } else {
      assert t == z;
      ZerosValue(k, base);
    }
  }

  function Pow(b: nat, e: nat): nat
    requires IsBase(b)
  {
    if e == 0 then 1 else Shift(Pow(b, e - 1), b)
  }

  /** `n` below `base^w` needs at most `w` digits. */
  lemma {:induction false} ToBaseLength(n: nat, base: nat, w: nat)
    requires IsBase(base)
    requires 1 <= w
    requires n < Pow(base, w)
    ensures |ToBase(n, base)| <= w
    decreases w
  {
    if n >= base {
      assert Pow(base, 1) == base;
      assert w > 1;
      assert Quot(n, base) < Pow(base, w - 1);
      ToBaseLength(Quot(n, base), base, w - 1);
    }
  }

  /** `printf`'s zero padding to a minimum field width. */
  function PadZeros(s: string, width: nat): (r: string)
    ensures |r| == if |s| < width then width else |s|
  {
    if |s| < width then Repeat('0', width - |s|) + s else s
  }

  /** The `%0<width>x` field of `n` reads back as `n`, and is exactly `width`
      characters when `n` fits. */
  lemma PaddedHexRoundTrip(n: nat, width: nat)
    requires 1 <= width
    requires n < Pow(16, width)
    ensures |PadZeros(ToBase(n, 16), width)| == width
    ensures AllDigitsIn(PadZeros(ToBase(n, 16), width), 16)
    ensures FromBase(PadZeros(ToBase(n, 16), width), 16) == n
  {
    var h := ToBase(n, 16);
    ToBaseLength(n, 16, width);
    FromToBase(n, 16);
    if |h| < width {
      FromBaseLeadingZeros(width - |h|, h, 16);
      var z := Repeat('0', width - |h|) + h;
      assert PadZeros(h, width) == z;
      assert |z| == width;
      assert AllDigitsIn(z, 16);
      assert FromBase(z, 16) == n;
    } else {
      assert PadZeros(h, width) == h;
      assert |h| == width;
    }
  }

  // ---------------------------------------------------------------------
  // Decimal rendering and C's atoi

  /** `std::to_string` of an `int`, and Python's `str` of an `int`. */
  function IntToString(i: int): (r: string)
    ensures 0 < |r|
  {
    if i < 0 then "-" + ToBase(-i, 10) else ToBase(i, 10)
  }

  /** The `isspace` characters that `atoi` skips. */
  predicate IsSpace(c: char)
  {
    c == ' ' || c == '\t' || c == '\n' || c == '\r' || c == '\U{C}' || c == '\U{B}'
  }

  function SkipSpaces(s: string): (r: string)
    ensures |r| <= |s| && r == s[|s| - |r|..]
    ensures |r| == 0 || !IsSpace(r[0])
  {
    if |s| > 0 && IsSpace(s[0]) then SkipSpaces(s[1..]) else s
  }

  /** Length of the longest prefix of decimal digits. */
  function DigitRun(s: string): (n: nat)
    ensures n <= |s|
    ensures AllDigitsIn(s[..n], 10)
    ensures n < |s| ==> !IsDigitIn(s[n], 10)
  {
    if |s| > 0 && IsDigitIn(s[0], 10) then
      var k := DigitRun(s[1..]);
      assert s[..1 + k] == [s[0]] + s[1..][..k];
      1 + k
    else 0
  }

  /** C's `atoi`: optional white space, an optional sign, then the longest run
      of decimal digits; no digits gives 0. The value is not reduced to 32 bits. */
  function Atoi(s: string): int
  {
    var t := SkipSpaces(s);
    if |t| > 0 && t[0] == '-' then -(DecimalPrefix(t[1..]) as int)
    else if |t| > 0 && t[0] == '+' then DecimalPrefix(t[1..])
    else DecimalPrefix(t)
  }

  /** The value of the leading run of decimal digits of `s`. */
  function DecimalPrefix(s: string): nat
  {
    FromBase(s[..DigitRun(s)], 10)
  }

  lemma {:induction false} DigitRunAll(s: string)
    requires AllDigitsIn(s, 10)
    ensures DigitRun(s) == |s|
    decreases |s|
  {
    if |s| > 0 {
      assert AllDigitsIn(s[1..], 10) by {
        forall i | 0 <= i < |s[1..]| ensures IsDigitIn(s[1..][i], 10) {
          assert s[1..][i] == s[i + 1];
        }
      }
      DigitRunAll(s[1..]);
    }
  }

  /** `atoi` reads back every decimal rendering of an integer. */
  lemma DecimalDigitIsPlain(c: char)
    requires IsDigitIn(c, 10)
    ensures !IsSpace(c) && c != '-' && c != '+'
  {
    assert '0' <= c <= '9';
  }

  lemma SkipSpacesNoop(s: string)
    requires |s| == 0 || !IsSpace(s[0])
    ensures SkipSpaces(s) == s
  {
  }

  /** `atoi` of a digit string, with or without a leading minus sign. */
  lemma AtoiOfDigits(digits: string)
    requires 0 < |digits| && AllDigitsIn(digits, 10)
    ensures Atoi(digits) == FromBase(digits, 10)
    ensures Atoi("-" + digits) == -(FromBase(digits, 10) as int)
  {
    DigitRunAll(digits);
    assert digits[..DigitRun(digits)] == digits;
    assert IsDigitIn(digits[0], 10);
    DecimalDigitIsPlain(digits[0]);
    SkipSpacesNoop(digits);
    var s := "-" + digits;
    assert s[0] == '-';
    SkipSpacesNoop(s);
    assert s[1..] == digits;
  }

  lemma AtoiIntToString(i: int)
    ensures Atoi(IntToString(i)) == i
  {
    var n: nat := if i < 0 then -i else i;
    FromToBase(n, 10);
    AtoiOfDigits(ToBase(n, 10));
  }

  // ---------------------------------------------------------------------
  // strtok(s, ",")

  predicate NoComma(t: string)
  {
    forall i | 0 <= i < |t| :: t[i] != ','
  }

  /** Length of the leading run of non-comma characters. */
  function FieldLength(s: string): (n: nat)
    ensures n <= |s|
    ensures NoComma(s[..n])
    ensures n < |s| ==> s[n] == ','
  {
    if |s| > 0 && s[0] != ',' then
      var k := FieldLength(s[1..]);
      assert s[..1 + k] == [s[0]] + s[1..][..k];
      1 + k
    else 0
  }

  /** The successive results of `strtok(s, ",")`: the non-empty, comma-free
      fields of `s`; empty fields between adjacent commas are dropped. */
  function CommaTokens(s: string): (ts: seq<string>)
    decreases |s|
  {
    if |s| == 0 then []
    else if s[0] == ',' then CommaTokens(s[1..])
    else
      var n := FieldLength(s);
      [s[..n]] + CommaTokens(s[n..])
  }

  /** `s` with its commas removed. */
  function DropCommas(s: string): string
  {
    if |s| == 0 then [] else (if s[0] == ',' then [] else [s[0]]) + DropCommas(s[1..])
  }

  function Concat(ts: seq<string>): string
  {
    if |ts| == 0 then [] else ts[0] + Concat(ts[1..])
  }

  /** Joins `ts` with `sep` between neighbours, as Python's `sep.join`. */
  function Join(ts: seq<string>, sep: string): string
  {
    if |ts| == 0 then [] else if |ts| == 1 then ts[0] else ts[0] + sep + Join(ts[1..], sep)
  }

  lemma {:induction false} DropCommasAppend(a: string, b: string)
    ensures DropCommas(a + b) == DropCommas(a) + DropCommas(b)
    decreases |a|
  {
    if |a| == 0 {
      assert a + b == b;
    } else {
      assert (a + b)[1..] == a[1..] + b;
      DropCommasAppend(a[1..], b);
    }
  }

  lemma {:induction false} DropCommasOfNoComma(t: string)
    requires NoComma(t)
    ensures DropCommas(t) == t
    decreases |t|
  {
    if |t| > 0 {
      DropCommasOfNoComma(t[1..]);
    }
  }

  /** Every token is non-empty and comma-free, and together, in order, the
      tokens hold exactly the non-comma characters of `s`. */
  lemma {:induction false} CommaTokensSound(s: string)
    ensures forall j | 0 <= j < |CommaTokens(s)| :: 0 < |CommaTokens(s)[j]| && NoComma(CommaTokens(s)[j])
    ensures Concat(CommaTokens(s)) == DropCommas(s)
  {
    CommaTokensClean(s);
    CommaTokensConcat(s);
  }

  lemma {:induction false} CommaTokensClean(s: string)
    ensures forall j | 0 <= j < |CommaTokens(s)| :: 0 < |CommaTokens(s)[j]| && NoComma(CommaTokens(s)[j])
    decreases |s|
  {
    if |s| == 0 {
    } else if s[0] == ',' {
      CommaTokensClean(s[1..]);
    } else {
      var n := FieldLength(s);
      var ts, rest := CommaTokens(s), CommaTokens(s[n..]);
      CommaTokensClean(s[n..]);
      assert ts == [s[..n]] + rest;
      forall j | 0 <= j < |ts| ensures 0 < |ts[j]| && NoComma(ts[j]) {
        if j > 0 { assert ts[j] == rest[j - 1]; }
      }
    }
  }

  lemma {:induction false} CommaTokensConcat(s: string)
    ensures Concat(CommaTokens(s)) == DropCommas(s)
    decreases |s|
  {
    if |s| == 0 {
    } else if s[0] == ',' {
      CommaTokensConcat(s[1..]);
    } else {
      var n := FieldLength(s);
      var ts, rest := CommaTokens(s), CommaTokens(s[n..]);
      CommaTokensConcat(s[n..]);
      assert ts == [s[..n]] + rest;
      assert ts[1..] == rest;
      assert s == s[..n] + s[n..];
      DropCommasAppend(s[..n], s[n..]);
      DropCommasOfNoComma(s[..n]);
    }
  }

  /** Splitting a comma-joined list of non-empty comma-free fields gives the fields back. */
  lemma {:induction false} CommaTokensJoin(ts: seq<string>)
    requires forall j | 0 <= j < |ts| :: 0 < |ts[j]| && NoComma(ts[j])
    ensures CommaTokens(Join(ts, ",")) == ts
    decreases |ts|
  {
    if |ts| == 0 {
    } else {
      var t := ts[0];
      var rest := if |ts| == 1 then [] else "," + Join(ts[1..], ",");
      var s := t + rest;
      assert s == Join(ts, ",");
      FieldRunOf(t, rest);
      assert s[..|t|] == t;
      assert s[|t|..] == rest;
      if |ts| == 1 {
        assert ts == [t];
      } else {
        assert rest[0] == ',';
        assert rest[1..] == Join(ts[1..], ",");
        CommaTokensJoin(ts[1..]);
        assert CommaTokens(rest) == CommaTokens(rest[1..]);
        assert ts == [t] + ts[1..];
      }
    }
  }

  lemma {:induction false} FieldRunOf(t: string, rest: string)
    requires NoComma(t)
    requires |rest| == 0 || rest[0] == ','
    ensures FieldLength(t + rest) == |t|
    decreases |t|
  {
    if |t| > 0 {
      assert (t + rest)[1..] == t[1..] + rest;
      FieldRunOf(t[1..], rest);
    } else {
      assert t + rest == rest;
    }
  }

  /** A field that ends inside `x`, or at a comma just after it, is not lengthened by what follows. */
  lemma {:induction false} FieldLengthAppend(x: string, rest: string)
    requires FieldLength(x) < |x| || (|rest| > 0 && rest[0] == ',')
    ensures FieldLength(x + rest) == FieldLength(x)
    decreases |x|
  {
    if |x| > 0 && x[0] != ',' {
      assert (x + rest)[1..] == x[1..] + rest;
      FieldLengthAppend(x[1..], rest);
    }
  }

  /** A comma separates: the tokens of `x + "," + y` are those of `x`
      followed by those of `y`. So empty fields between adjacent commas
      yield no token. */
  lemma {:induction false} CommaTokensSplit(x: string, y: string)
    ensures CommaTokens(x + "," + y) == CommaTokens(x) + CommaTokens(y)
    decreases |x|
  {
    var s := x + "," + y;
    if |x| == 0 {
      assert s == "," + y;
      assert s[1..] == y;
    } else if x[0] == ',' {
      assert s[1..] == x[1..] + "," + y;
      CommaTokensSplit(x[1..], y);
    } else {
      var m := FieldLength(x);
      FieldLengthAppend(x, "," + y);
      assert s == x + ("," + y);
      assert FieldLength(s) == m;
      assert s[..m] == x[..m];
      assert s[m..] == x[m..] + "," + y;
      CommaTokensSplit(x[m..], y);
    }
  }

  /** A decimal rendering is one non-empty token, and starts with a digit when the number is not negative. */
  lemma DecimalToken(n: int)
    ensures 0 < |IntToString(n)| && NoComma(IntToString(n))
    ensures n >= 0 ==> IntToString(n)[0] != '-'
  {
    var digits := ToBase(if n < 0 then -n else n, 10);
    assert forall i | 0 <= i < |digits| :: IsDigitIn(digits[i], 10);
    assert forall i | 0 <= i < |digits| :: digits[i] != ',' && digits[i] != '-';
  }
}
