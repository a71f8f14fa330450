/** The JavaScript string primitives the application relies on, over `seq<char>`:
    white space and `trim`, ASCII case mapping, decimal digits, `Number(...)` on a
    field, `String(n)`, `padStart`, `split`/`join` on one character, and the
    code-point order that `sort()`/`localeCompare` reduce to on canonical dates. */
module Text {

  // ---------------------------------------------------------------- white space

  /** ECMAScript WhiteSpace and LineTerminator: what `trim()` removes and `\s` matches. */
  predicate IsSpace(c: char) {
    c == '\t' || c == '\n' || c == '\U{B}' || c == '\U{C}' || c == '\r' || c == ' ' ||
    c == '\U{A0}' || c == '\U{1680}' || ('\U{2000}' <= c <= '\U{200A}') ||
    c == '\U{2028}' || c == '\U{2029}' || c == '\U{202F}' || c == '\U{205F}' ||
    c == '\U{3000}' || c == '\U{FEFF}'
  }

  predicate IsBlank(s: string) {
    forall i :: 0 <= i < |s| ==> IsSpace(s[i])
  }

  /** `s.trimEnd()`: the prefix left after every trailing white-space character. */
  function TrimEnd(s: string): (r: string)
    ensures |r| <= |s| && r == s[..|r|]
    ensures IsBlank(s[|r|..])
    ensures r == [] || !IsSpace(r[|r| - 1])
  {
    if s != [] && IsSpace(s[|s| - 1]) then TrimEnd(s[..|s| - 1]) else s
  }

  /** `s.trim()`: the leading white space dropped one character at a time, then the
      trailing white space. */
  function Trim(s: string): (r: string)
    ensures |r| <= |s|
    ensures r == [] || (!IsSpace(r[0]) && !IsSpace(r[|r| - 1]))
    ensures r == [] <==> IsBlank(s)
  {
    if s != [] && IsSpace(s[0]) then
      BlankTail(s);
      Trim(s[1..])
    else
      assert s != [] ==> s[0..] == s;
      TrimEnd(s)
  }

  lemma BlankTail(s: string)
    requires s != [] && IsSpace(s[0])
    ensures IsBlank(s) <==> IsBlank(s[1..])
  {
    if IsBlank(s[1..]) {
      forall i | 0 <= i < |s| ensures IsSpace(s[i]) {
        if i > 0 { assert s[i] == s[1..][i - 1]; }
      }
    }
  }

  lemma {:induction false} TrimOfTrimmed(s: string)
    requires s == [] || (!IsSpace(s[0]) && !IsSpace(s[|s| - 1]))
    ensures Trim(s) == s
  {
  }

  // ---------------------------------------------------------------- ASCII case

  function LowerChar(c: char): char {
    if 'A' <= c <= 'Z' then (c as int + 32) as char else c
  }

  function UpperChar(c: char): char {
    if 'a' <= c <= 'z' then (c as int - 32) as char else c
  }

  /** `toLowerCase()` / `toLocaleLowerCase()`, restricted to the ASCII letters. */
  function Lower(s: string): (r: string)
    ensures |r| == |s| && forall i :: 0 <= i < |s| ==> r[i] == LowerChar(s[i])
  {
    seq(|s|, i requires 0 <= i < |s| => LowerChar(s[i]))
  }

  /** A string without upper-case ASCII letters is its own lower case. */
  lemma LowerOfLowerCase(s: string)
    requires forall i :: 0 <= i < |s| ==> !('A' <= s[i] <= 'Z')
    ensures Lower(s) == s
  {
  }

  /** `toUpperCase()` / `toLocaleUpperCase()`, restricted to the ASCII letters. */
  function Upper(s: string): (r: string)
    ensures |r| == |s| && forall i :: 0 <= i < |s| ==> r[i] == UpperChar(s[i])
  {
    seq(|s|, i requires 0 <= i < |s| => UpperChar(s[i]))
  }

  /** Every character is ASCII. */
  predicate IsAscii(s: string) {
    forall i :: 0 <= i < |s| ==> s[i] as int < 0x80
  }

  predicate IsAsciiLetter(c: char) { ('a' <= c <= 'z') || ('A' <= c <= 'Z') }

  /** `s.startsWith(prefix)` */
  predicate StartsWith(s: string, prefix: string) {
    |prefix| <= |s| && s[..|prefix|] == prefix
  }

  // ---------------------------------------------------------------- digits and numbers

  predicate IsDigit(c: char) { '0' <= c <= '9' }

  /** The regular expression `^\d+$` (JavaScript's `\d` is ASCII only). */
  predicate AllDigits(s: string) {
    |s| > 0 && forall i :: 0 <= i < |s| ==> IsDigit(s[i])
  }

  /** A digit string with no superfluous leading zero, as `String(n)` prints it. */
  predicate Canonical(s: string) {
    AllDigits(s) && (s[0] != '0' || |s| == 1)
  }

  function DigitValue(c: char): nat
    requires IsDigit(c)
  {
    c as int - '0' as int
  }

  function DigitChar(d: nat): (c: char)
    requires d < 10
    ensures IsDigit(c) && DigitValue(c) == d
  {
    ('0' as int + d) as char
  }

  /** The value of a decimal digit string, most significant digit first. */
  function DigitsValue(s: string): nat
    requires forall i :: 0 <= i < |s| ==> IsDigit(s[i])
  {
    if s == [] then 0 else DigitsValue(s[..|s| - 1]) * 10 + DigitValue(s[|s| - 1])
  }

  /** `String(n)` for a non-negative integer. */
  function NatToString(n: nat): (r: string)
    ensures Canonical(r)
  {
    if n < 10 then [DigitChar(n)] else NatToString(n / 10) + [DigitChar(n % 10)]
  }

  /** `String(i)` for an integer. */
  function IntToString(i: int): string {
    if i < 0 then "-" + NatToString(-i) else NatToString(i)
  }

  lemma {:induction false} DigitsOfNatToString(n: nat)
    ensures DigitsValue(NatToString(n)) == n
  {
    if n >= 10 {
      var p := NatToString(n / 10);
      var s := p + [DigitChar(n % 10)];
      assert s[..|s| - 1] == p;
      DigitsOfNatToString(n / 10);
    }
  }

  lemma {:induction false} LeadingDigitBound(s: string)
    requires AllDigits(s)
    ensures DigitsValue(s) >= DigitValue(s[0])
  {
    if |s| > 1 {
      var p := s[..|s| - 1];
      assert p[0] == s[0];
      LeadingDigitBound(p);
    }
  }

  /** `String(Number(s))` gives `s` back exactly when `s` is canonical. */
  lemma {:induction false} NatToStringOfDigits(s: string)
    requires Canonical(s)
    ensures NatToString(DigitsValue(s)) == s
  {
    if |s| > 1 {
      var p := s[..|s| - 1];
      var c := s[|s| - 1];
      assert p[0] == s[0];
      LeadingDigitBound(p);
      NatToStringOfDigits(p);
      var v := DigitsValue(p);
      assert DigitsValue(s) == v * 10 + DigitValue(c);
      LastDigit(v, DigitValue(c));
      assert DigitChar(DigitValue(c)) == c;
      assert s == p + [c];
    } else {
      assert DigitChar(DigitValue(s[0])) == s[0];
    }
  }

  /** Appending a digit multiplies by ten and adds it. */
  lemma LastDigit(v: nat, d: nat)
    requires d < 10 && v >= 1
    ensures (v * 10 + d) / 10 == v && (v * 10 + d) % 10 == d && v * 10 + d >= 10
  {
  }

  /** `NatToString` is injective: distinct numbers print differently. */
  lemma NatToStringInjective(m: nat, n: nat)
    requires NatToString(m) == NatToString(n)
    ensures m == n
  {
    DigitsOfNatToString(m);
    DigitsOfNatToString(n);
  }

  /** The non-negative integers and NaN: what `Number(...)` yields on a date field. */
  datatype JsNum = Finite(value: nat) | NaN {
    /** Truthiness: `0` and `NaN` are falsy. */
    predicate Truthy() { Finite? && value != 0 }
  }

  /** `Number(s)`: blank is 0, a digit string is its value, anything else is NaN. */
  function ToNumber(s: string): JsNum {
    var t := Trim(s);
    if t == [] then Finite(0)
    else if AllDigits(t) then Finite(DigitsValue(t))
    else NaN
  }

  lemma ToNumberOfDigits(s: string)
    requires AllDigits(s)
    ensures ToNumber(s) == Finite(DigitsValue(s))
  {
    assert !IsSpace(s[0]) && !IsSpace(s[|s| - 1]);
    TrimOfTrimmed(s);
  }

  /** `String(x)` of a number: NaN prints as "NaN". */
  function NumToString(x: JsNum): string {
    match x
    case Finite(v) => NatToString(v)
    case NaN => "NaN"
  }

  /** `s.padStart(n, c)` */
  function PadStart(s: string, n: nat, c: char): (r: string)
    ensures |r| == if |s| >= n then |s| else n
    ensures r[|r| - |s|..] == s
    ensures forall i :: 0 <= i < |r| - |s| ==> r[i] == c
  {
    if |s| >= n then s else seq(n - |s|, _ => c) + s
  }

  /** `s.includes(t)` */
  predicate Contains(s: string, t: string) {
    |t| <= |s| && (s[..|t|] == t || Contains(s[1..], t))
  }

  // ---------------------------------------------------------------- split and join

  /** `s.split(sep)` for a one-character separator: "" splits into [""]. */
  function Split(s: string, sep: char): (r: seq<string>)
    ensures |r| >= 1
    ensures forall i :: 0 <= i < |r| ==> sep !in r[i]
  {
    if s == [] then [""]
    else
      var rest := Split(s[1..], sep);
      if s[0] == sep then [""] + rest else [[s[0]] + rest[0]] + rest[1..]
  }

  /** `parts.join(sep)` */
  function Join(parts: seq<string>, sep: string): string {
    if |parts| == 0 then ""
    else if |parts| == 1 then parts[0]
    else parts[0] + sep + Join(parts[1..], sep)
  }

  /** Joining the pieces with the separator gives the original string back. */
  lemma {:induction false} JoinSplit(s: string, sep: char)
    ensures Join(Split(s, sep), [sep]) == s
  {
    if s != [] {
      var rest := Split(s[1..], sep);
      JoinSplit(s[1..], sep);
      if s[0] == sep {
        JoinEmptyHead(rest, [sep]);
      } else {
        JoinPrependChar(s[0], rest, [sep]);
      }
      assert s == [s[0]] + s[1..];
    }
  }

  /** An empty first piece contributes only its separator. */
  lemma JoinEmptyHead(parts: seq<string>, sep: string)
    requires |parts| >= 1
    ensures Join([""] + parts, sep) == sep + Join(parts, sep)
  {
    var p := [""] + parts;
    assert p[0] == "" && p[1..] == parts;
  }

  /** A character put in front of the first piece comes first in the joined string. */
  lemma JoinPrependChar(c: char, parts: seq<string>, sep: string)
    requires |parts| >= 1
    ensures Join([[c] + parts[0]] + parts[1..], sep) == [c] + Join(parts, sep)
  {
    var p := [[c] + parts[0]] + parts[1..];
    assert p[0] == [c] + parts[0] && p[1..] == parts[1..];
    if |parts| > 1 {
      assert ([c] + parts[0]) + sep + Join(parts[1..], sep) == [c] + (parts[0] + sep + Join(parts[1..], sep));
    }
  }

  lemma {:induction false} SplitWithoutSeparator(s: string, sep: char)
    requires sep !in s
    ensures Split(s, sep) == [s]
  {
    if s != [] {
      SplitWithoutSeparator(s[1..], sep);
      assert s == [s[0]] + s[1..];
    }
  }

  /** A separator splits off everything before it as one piece. */
  lemma {:induction false} SplitAtSeparator(a: string, b: string, sep: char)
    requires sep !in a
    ensures Split(a + [sep] + b, sep) == [a] + Split(b, sep)
  {
    if a != [] {
      SplitAtSeparator(a[1..], b, sep);
      assert (a + [sep] + b)[1..] == a[1..] + [sep] + b;
      assert a == [a[0]] + a[1..];
    } else {
      assert a + [sep] + b == [sep] + b;
    }
  }

  /** Joining prepends to the first piece what is prepended to the whole. */
  lemma JoinPrepend(x: string, a: string, rest: seq<string>, sep: string)
    ensures Join([x + a] + rest, sep) == x + Join([a] + rest, sep)
  {
    if rest != [] {
      assert ([x + a] + rest)[1..] == rest;
      assert ([a] + rest)[1..] == rest;
    }
  }

  // ---------------------------------------------------------------- order

  /** Code-point lexicographic order: what `sort()` and, on ASCII dates, `localeCompare` use. */
  predicate LexLe(a: string, b: string) {
    if a == [] then true
    else if b == [] then false
    else if a[0] != b[0] then a[0] < b[0]
    else LexLe(a[1..], b[1..])
  }

  lemma {:induction false} LexLeReflexive(a: string)
    ensures LexLe(a, a)
  {
    if a != [] { LexLeReflexive(a[1..]); }
  }

  lemma {:induction false} LexLeTotal(a: string, b: string)
    ensures LexLe(a, b) || LexLe(b, a)
  {
    if a != [] && b != [] && a[0] == b[0] { LexLeTotal(a[1..], b[1..]); }
  }

  lemma {:induction false} LexLeAntisymmetric(a: string, b: string)
    requires LexLe(a, b) && LexLe(b, a)
    ensures a == b
  {
    if a != [] && b != [] {
      LexLeAntisymmetric(a[1..], b[1..]);
      assert a == [a[0]] + a[1..] && b == [b[0]] + b[1..];
    }
  }

  lemma {:induction false} LexLeTransitive(a: string, b: string, c: string)
    requires LexLe(a, b) && LexLe(b, c)
    ensures LexLe(a, c)
  {
    if a != [] && b != [] && c != [] && a[0] == b[0] && b[0] == c[0] {
      LexLeTransitive(a[1..], b[1..], c[1..]);
    }
  }
}
