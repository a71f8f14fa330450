/** `src/lib/utils.ts`: the display form of a location slug, and the normalised
    `YYYY-MM-DD` of a local date or of a hyphenated date string. */
module Utils {
  import opened Common
  import opened Text
  import opened Uri
  import opened Dates

  // ---------------------------------------------------------------- normalizeLocationTitle

  predicate IsSeparator(c: char) { c == '-' || c == '_' }

  /** `s.replace(/[C]+/g, ' ')` for the character class `inClass`: every maximal run of
      class characters becomes one space. `inRun` says that the character before `s`
      was in the class. */
  function CollapseRuns(s: string, inClass: char -> bool, inRun: bool): string {
    if s == [] then []
    else if inClass(s[0]) then (if inRun then [] else " ") + CollapseRuns(s[1..], inClass, true)
    else [s[0]] + CollapseRuns(s[1..], inClass, false)
  }

  /** One word: lower-cased, then its first character upper-cased; "" stays "". */
  function Capitalize(word: string): string {
    var lower := Lower(word);
    if lower == [] then word else [UpperChar(lower[0])] + lower[1..]
  }

  function CapitalizeAll(words: seq<string>): seq<string> {
    seq(|words|, i requires 0 <= i < |words| => Capitalize(words[i]))
  }

  /** `normalized.split(' ').map(capitalize).join(' ')` */
  function TitleCase(normalized: string): string {
    Join(CapitalizeAll(Split(normalized, ' ')), " ")
  }

  /** Trim, then separator runs to one space, then white-space runs to one space. */
  function NormalizeSpacing(decoded: string): string {
    CollapseRuns(CollapseRuns(Trim(decoded), IsSeparator, false), IsSpace, false)
  }

  /** The decoded slug, or the raw one when decoding throws. */
  function DecodeOrRaw(location: string): string {
    match DecodeComponent(location)
    case Some(d) => d
    case None => location
  }

  function NormalizeLocationTitle(location: string): string {
    if location == "" then ""
    else
      var normalized := NormalizeSpacing(DecodeOrRaw(location));
      if normalized == "" then "" else TitleCase(normalized)
  }

  // ---- properties of the collapsing step

  /** Every character of `r` is a space or a character of `s` outside the class. */
  predicate KeptOutsideClass(r: string, s: string, inClass: char -> bool) {
    forall i :: 0 <= i < |r| ==> r[i] == ' ' || (!inClass(r[i]) && r[i] in s)
  }

  /** No two white-space characters are adjacent. */
  predicate SingleSpaced(r: string) {
    forall i :: 0 <= i < |r| - 1 ==> !(IsSpace(r[i]) && IsSpace(r[i + 1]))
  }

  lemma {:induction false} CollapseRunsChars(s: string, inClass: char -> bool, inRun: bool)
    ensures KeptOutsideClass(CollapseRuns(s, inClass, inRun), s, inClass)
  {
    if s != [] {
      CollapseRunsChars(s[1..], inClass, inClass(s[0]));
    }
  }

  /** After collapsing white space no two white-space characters are adjacent, and a
      string continuing a run does not start with one. */
  lemma {:induction false} CollapseSpacesSingle(s: string, inRun: bool)
    ensures SingleSpaced(CollapseRuns(s, IsSpace, inRun))
    ensures inRun && CollapseRuns(s, IsSpace, inRun) != [] ==> !IsSpace(CollapseRuns(s, IsSpace, inRun)[0])
  {
    if s != [] {
      CollapseSpacesSingle(s[1..], IsSpace(s[0]));
      var rest := CollapseRuns(s[1..], IsSpace, IsSpace(s[0]));
      var r := CollapseRuns(s, IsSpace, inRun);
      var head := if IsSpace(s[0]) then (if inRun then [] else " ") else [s[0]];
      assert r == head + rest;
      forall i | 0 <= i < |r| - 1 ensures !(IsSpace(r[i]) && IsSpace(r[i + 1])) {
        if i >= |head| {
          var j := i - |head|;
          assert r[i] == rest[j] && r[i + 1] == rest[j + 1];
        } else if IsSpace(s[0]) {
          assert head == " " && i == 0 && r[1] == rest[0];
        } else {
          assert r[i] == s[0];
        }
      }
    }
  }

  /** A string with no class character is left as it is. */
  lemma {:induction false} CollapseOutsideClass(s: string, inClass: char -> bool)
    requires forall i :: 0 <= i < |s| ==> !inClass(s[i])
    ensures CollapseRuns(s, inClass, false) == s
  {
    if s != [] {
      CollapseOutsideClass(s[1..], inClass);
      assert s == [s[0]] + s[1..];
    }
  }

  /** Collapsing outside a run keeps a non-empty string non-empty. */
  lemma CollapseRunsNonEmpty(s: string, inClass: char -> bool)
    ensures CollapseRuns(s, inClass, false) == [] <==> s == []
  {
  }

  // ---- properties of the title-casing step

  /** The title-cased form of position `i`: spaces stay, a character after a space (or at
      the start, when `first`) is upper-cased, every other one lower-cased. */
  function TitleChar(s: string, i: nat, first: bool): char
    requires i < |s|
  {
    if s[i] == ' ' then ' '
    else if (i == 0 && first) || (i > 0 && s[i - 1] == ' ') then UpperChar(LowerChar(s[i]))
    else LowerChar(s[i])
  }

  /** `TitleCase` with the first word lower-cased instead when `first` is false. */
  function TitleCaseFrom(s: string, first: bool): string {
    var words := Split(s, ' ');
    Join([if first then Capitalize(words[0]) else Lower(words[0])] + CapitalizeAll(words[1..]), " ")
  }

  lemma CapitalizeCons(c: char, w: string)
    ensures Capitalize([c] + w) == [UpperChar(LowerChar(c))] + Lower(w)
    ensures Lower([c] + w) == [LowerChar(c)] + Lower(w)
  {
    assert Lower([c] + w) == [LowerChar(c)] + Lower(w);
  }

  lemma CapitalizeAllCons(words: seq<string>)
    requires words != []
    ensures CapitalizeAll(words) == [Capitalize(words[0])] + CapitalizeAll(words[1..])
  {
  }

  lemma {:induction false} TitleCaseFromAt(s: string, first: bool)
    ensures var r := TitleCaseFrom(s, first);
      |r| == |s| && forall i :: 0 <= i < |s| ==> r[i] == TitleChar(s, i, first)
  {
    if s != [] {
      var c, s' := s[0], s[1..];
      assert s == [c] + s';
      TitleCaseFromAt(s', c == ' ');
      if c == ' ' {
        TitleCaseFromSpace(s', first);
      } else {
        TitleCaseFromWordChar(c, s', first);
      }
      TitleCons(s, first, TitleCaseFrom(s, first), TitleCaseFrom(s', c == ' '));
    }
  }

  /** The first character title-cased, then the rest as continuing after it. */
  lemma TitleCons(s: string, first: bool, r: string, r': string)
    requires s != [] && r == [TitleChar(s, 0, first)] + r'
    requires |r'| == |s| - 1 && forall i :: 0 <= i < |s| - 1 ==> r'[i] == TitleChar(s[1..], i, s[0] == ' ')
    ensures |r| == |s| && forall i :: 0 <= i < |s| ==> r[i] == TitleChar(s, i, first)
  {
    forall i | 0 < i < |s| ensures r[i] == TitleChar(s, i, first) {
      assert r[i] == r'[i - 1];
      assert s[1..][i - 1] == s[i];
      assert i - 1 > 0 ==> s[1..][i - 2] == s[i - 1];
    }
  }

  /** A leading space is kept and the next word starts a new word. */
  lemma TitleCaseFromSpace(t: string, first: bool)
    ensures TitleCaseFrom([' '] + t, first) == " " + TitleCaseFrom(t, true)
  {
    var s := [' '] + t;
    var w' := Split(t, ' ');
    var head := if first then Capitalize("") else Lower("");
    assert head == "";
    assert s[1..] == t;
    assert Split(s, ' ') == [""] + w';
    var parts := [head] + CapitalizeAll(w');
    assert parts[1..] == CapitalizeAll(w');
    CapitalizeAllCons(w');
  }

  /** A leading word character is upper-cased when it starts the first word and
      lower-cased otherwise; the rest continues the same word. */
  lemma TitleCaseFromWordChar(c: char, t: string, first: bool)
    requires c != ' '
    ensures TitleCaseFrom([c] + t, first) ==
            [if first then UpperChar(LowerChar(c)) else LowerChar(c)] + TitleCaseFrom(t, false)
  {
    var s := [c] + t;
    var w' := Split(t, ' ');
    assert s[1..] == t;
    CapitalizeCons(c, w'[0]);
    var words := Split(s, ' ');
    assert words == [[c] + w'[0]] + w'[1..];
    var x := if first then UpperChar(LowerChar(c)) else LowerChar(c);
    JoinPrepend([x], Lower(w'[0]), CapitalizeAll(w'[1..]), " ");
  }

  /** Title-casing works character by character: the result has the same length, the
      same spaces, and each word's first character upper-cased and the rest lower-cased. */
  lemma TitleCaseAt(s: string)
    ensures var r := TitleCase(s);
      |r| == |s| && forall i :: 0 <= i < |s| ==> r[i] == TitleChar(s, i, true)
  {
    CapitalizeAllCons(Split(s, ' '));
    TitleCaseFromAt(s, true);
  }

  // ---- what the source promises of normalizeLocationTitle

  /** The result is "" exactly when the input is "" or decodes to white space only. */
  lemma NormalizeEmpty(location: string)
    ensures NormalizeLocationTitle(location) == "" <==>
            (location == "" || IsBlank(DecodeOrRaw(location)))
  {
    var t := Trim(DecodeOrRaw(location));
    CollapseRunsNonEmpty(t, IsSeparator);
    CollapseRunsNonEmpty(CollapseRuns(t, IsSeparator, false), IsSpace);
    TitleCaseAt(NormalizeSpacing(DecodeOrRaw(location)));
  }

  /** The normalised slug holds no separator, and its only white space is single. */
  lemma NormalizeSpacingShape(decoded: string)
    ensures forall i :: 0 <= i < |NormalizeSpacing(decoded)| ==> !IsSeparator(NormalizeSpacing(decoded)[i])
    ensures SingleSpaced(NormalizeSpacing(decoded))
  {
    var t := Trim(decoded);
    var a := CollapseRuns(t, IsSeparator, false);
    var n := CollapseRuns(a, IsSpace, false);
    CollapseRunsChars(t, IsSeparator, false);
    CollapseRunsChars(a, IsSpace, false);
    CollapseSpacesSingle(a, false);
    forall i | 0 <= i < |n| ensures !IsSeparator(n[i]) {
      if n[i] != ' ' {
        var k :| 0 <= k < |a| && a[k] == n[i];
      }
    }
  }

  /** Title-casing neither creates a separator nor changes which characters are white space. */
  lemma TitleCaseKeepsShape(n: string)
    ensures var r := TitleCase(n);
      |r| == |n| &&
      (forall i :: 0 <= i < |n| ==> (IsSeparator(r[i]) <==> IsSeparator(n[i]))) &&
      (forall i :: 0 <= i < |n| ==> (IsSpace(r[i]) <==> IsSpace(n[i])))
  {
    TitleCaseAt(n);
  }

  /** The result holds no '-' or '_', and no two adjacent white-space characters. */
  lemma NormalizeShape(location: string)
    ensures var r := NormalizeLocationTitle(location);
      (forall i :: 0 <= i < |r| ==> !IsSeparator(r[i])) &&
      (forall i :: 0 <= i < |r| - 1 ==> !(IsSpace(r[i]) && IsSpace(r[i + 1])))
  {
    var n := NormalizeSpacing(DecodeOrRaw(location));
    NormalizeSpacingShape(DecodeOrRaw(location));
    TitleCaseKeepsShape(n);
  }

  /** Each word of the result is the word of the normalised slug, capitalised. */
  lemma NormalizeWords(location: string)
    requires NormalizeSpacing(DecodeOrRaw(location)) != ""
    ensures Split(NormalizeLocationTitle(location), ' ') ==
            CapitalizeAll(Split(NormalizeSpacing(DecodeOrRaw(location)), ' '))
  {
    var n := NormalizeSpacing(DecodeOrRaw(location));
    var ws := CapitalizeAll(Split(n, ' '));
    forall i | 0 <= i < |ws| ensures ' ' !in ws[i] {
      var w := Split(n, ' ')[i];
      assert ws[i] == Capitalize(w);
      if w != [] {
        CapitalizeCons(w[0], w[1..]);
        assert w == [w[0]] + w[1..];
      }
    }
    SplitJoin(ws, ' ');
    assert location != "" by {
      if location == "" { DecodeWithoutPercent(location); }
    }
  }

  /** Splitting a join of pieces without the separator gives the pieces back. */
  lemma {:induction false} SplitJoin(parts: seq<string>, sep: char)
    requires parts != []
    requires forall i :: 0 <= i < |parts| ==> sep !in parts[i]
    ensures Split(Join(parts, [sep]), sep) == parts
  {
    if |parts| == 1 {
      SplitWithoutSeparator(parts[0], sep);
    } else {
      SplitJoin(parts[1..], sep);
      SplitAtSeparator(parts[0], Join(parts[1..], [sep]), sep);
    }
  }

  predicate PlainWord(w: string) {
    w != [] && forall i :: 0 <= i < |w| ==> w[i] != '%' && !IsSpace(w[i]) && !IsSeparator(w[i])
  }

  /** A plain word (no escape, white space or separator) is capitalised, as in
      "barcelona" to "Barcelona". */
  lemma NormalizePlainWord(w: string)
    requires PlainWord(w)
    ensures NormalizeLocationTitle(w) == Capitalize(w)
  {
    DecodeWithoutPercent(w);
    TrimOfTrimmed(w);
    CollapseOutsideClass(w, IsSeparator);
    CollapseOutsideClass(w, IsSpace);
    SplitWithoutSeparator(w, ' ');
  }

  /** Two plain words joined by one separator become two capitalised words joined by a
      space, as in "new-york" to "New York" and "SAN_SEBASTIAN" to "San Sebastian". */
  lemma NormalizeTwoWords(a: string, sep: char, b: string)
    requires PlainWord(a) && PlainWord(b) && IsSeparator(sep)
    ensures NormalizeLocationTitle(a + [sep] + b) == Capitalize(a) + " " + Capitalize(b)
  {
    var l := a + [sep] + b;
    assert '%' !in l;
    DecodeWithoutPercent(l);
    SpacingTwoWords(a, sep, b);
    TitleCaseTwoWords(a, b);
  }

  lemma SpacingTwoWords(a: string, sep: char, b: string)
    requires PlainWord(a) && PlainWord(b) && IsSeparator(sep)
    ensures NormalizeSpacing(a + [sep] + b) == a + " " + b
  {
    TrimOfTrimmed(a + [sep] + b);
    CollapseAroundSeparator(a, sep, b);
    CollapseAroundSpace(a, b);
  }

  lemma TitleCaseTwoWords(a: string, b: string)
    requires PlainWord(a) && PlainWord(b)
    ensures TitleCase(a + " " + b) == Capitalize(a) + " " + Capitalize(b)
  {
    assert a + " " + b == a + [' '] + b;
    SplitAtSeparator(a, b, ' ');
    SplitWithoutSeparator(b, ' ');
    assert Split(a + " " + b, ' ') == [a, b];
    var ws := [Capitalize(a), Capitalize(b)];
    assert CapitalizeAll([a, b]) == ws;
    assert ws[1..] == [Capitalize(b)];
    assert Join(ws, " ") == Capitalize(a) + " " + Capitalize(b);
  }

  lemma CollapseAroundSeparator(a: string, sep: char, b: string)
    requires PlainWord(a) && PlainWord(b) && IsSeparator(sep)
    ensures CollapseRuns(a + [sep] + b, IsSeparator, false) == a + " " + b
  {
    CollapseAfter(a, [sep] + b, IsSeparator);
    CollapseOutsideClass(b, IsSeparator);
    assert ([sep] + b)[1..] == b;
    assert a + [sep] + b == a + ([sep] + b);
  }

  lemma CollapseAroundSpace(a: string, b: string)
    requires PlainWord(a) && PlainWord(b)
    ensures CollapseRuns(a + " " + b, IsSpace, false) == a + " " + b
  {
    CollapseAfter(a, " " + b, IsSpace);
    CollapseOutsideClass(b, IsSpace);
    assert (" " + b)[1..] == b;
    assert a + " " + b == a + (" " + b);
  }

  /** A prefix with no class character passes through unchanged. */
  lemma {:induction false} CollapseAfter(a: string, rest: string, inClass: char -> bool)
    requires forall i :: 0 <= i < |a| ==> !inClass(a[i])
    ensures CollapseRuns(a + rest, inClass, false) == a + CollapseRuns(rest, inClass, false)
  {
    if a != [] {
      CollapseAfter(a[1..], rest, inClass);
      assert (a + rest)[1..] == a[1..] + rest;
      assert CollapseRuns(a + rest, inClass, false) == [a[0]] + CollapseRuns(a[1..] + rest, inClass, false);
      var x := CollapseRuns(rest, inClass, false);
      assert [a[0]] + (a[1..] + x) == ([a[0]] + a[1..]) + x;
      assert a == [a[0]] + a[1..];
    } else {
      assert a + rest == rest;
    }
  }

  /** The capitalised words of the documented examples. */
  lemma CapitalizeExamples()
    ensures Capitalize("barcelona") == "Barcelona"
    ensures Capitalize("new") == "New" && Capitalize("york") == "York"
    ensures Capitalize("SAN") == "San" && Capitalize("SEBASTIAN") == "Sebastian"
  {
    CapitalizeWord("barcelona", "Barcelona");
    CapitalizeWord("new", "New");
    CapitalizeWord("york", "York");
    CapitalizeWord("SAN", "San");
    CapitalizeWord("SEBASTIAN", "Sebastian");
  }

  /** A word is capitalised character by character: the first letter upper-cased after
      lower-casing, the others lower-cased. */
  lemma CapitalizeWord(w: string, expected: string)
    requires |w| == |expected| > 0
    requires UpperChar(LowerChar(w[0])) == expected[0]
    requires forall i :: 1 <= i < |w| ==> LowerChar(w[i]) == expected[i]
    ensures Capitalize(w) == expected
  {
  }

  /** A malformed escape does not throw: the raw slug is normalised instead. */
  lemma NormalizeMalformed(location: string)
    requires location != "" && DecodeComponent(location).None?
    ensures NormalizeLocationTitle(location) ==
            var n := NormalizeSpacing(location); if n == "" then "" else TitleCase(n)
  {
  }

  /** This one's percent sign starts no escape, so it is kept. */
  lemma NormalizeMalformedExample()
    ensures NormalizeLocationTitle("50%") == "50%"
  {
    assert DecodeComponent("50%") == None;
    TrimOfTrimmed("50%");
    CollapseOutsideClass("50%", IsSeparator);
    CollapseOutsideClass("50%", IsSpace);
    SplitWithoutSeparator("50%", ' ');
    assert Lower("50%") == "50%";
  }

  // ---------------------------------------------------------------- toLocalYMD

  /** `String(x).padStart(2, '0')` */
  function Pad2(x: string): string { PadStart(x, 2, '0') }

  /** `toLocalYMD(d)` for a `Date`: its local year, then month and day padded to two
      digits. An Invalid Date prints its fields as NaN. */
  function ToLocalYmdOfDate(d: Option<LocalDate>): string {
    match d
    case Some(ld) => IntToString(ld.year) + "-" + Pad2(NatToString(ld.month)) + "-" + Pad2(NatToString(ld.day))
    case None => "NaN-NaN-NaN"
  }

  /** `${x}` of the `i`-th piece passed through `Number`; a missing piece is `undefined`. */
  function FieldText(parts: seq<string>, i: nat): string {
    if i < |parts| then NumToString(ToNumber(parts[i])) else "undefined"
  }

  /** `toLocalYMD(s)` for a string: split on '-', each piece through `Number`, month and
      day padded to two digits. */
  function ToLocalYmdOfString(s: string): string {
    YmdOfParts(Split(s, '-'))
  }

  function YmdOfParts(parts: seq<string>): string {
    FieldText(parts, 0) + "-" + Pad2(FieldText(parts, 1)) + "-" + Pad2(FieldText(parts, 2))
  }

  lemma FieldOfDigits(t: string)
    requires AllDigits(t)
    ensures NumToString(ToNumber(t)) == NatToString(DigitsValue(t))
  {
    ToNumberOfDigits(t);
  }

  lemma Pad2OfOneChar(c: char)
    ensures Pad2([c]) == ['0', c]
  {
  }

  lemma Pad2OfTwoDigits(t: string)
    requires |t| == 2 && IsDigit(t[0]) && IsDigit(t[1])
    ensures Pad2(NumToString(ToNumber(t))) == t
  {
    FieldOfDigits(t);
    if t[0] == '0' {
      assert t[..1] == [t[0]] && t[..1][..0] == [];
      assert DigitsValue(t[..1]) == 0;
      var v := DigitsValue(t);
      assert v == DigitValue(t[1]);
      assert NatToString(v) == [t[1]];
      Pad2OfOneChar(t[1]);
      assert t == ['0', t[1]];
    } else {
      NatToStringOfDigits(t);
    }
  }

  lemma CanonicalField(t: string)
    requires Canonical(t)
    ensures NumToString(ToNumber(t)) == t
  {
    FieldOfDigits(t);
    NatToStringOfDigits(t);
  }

  lemma Pad2OfOneDigit(c: char)
    requires IsDigit(c)
    ensures Pad2(NumToString(ToNumber([c]))) == "0" + [c]
  {
    CanonicalField([c]);
    Pad2OfOneChar(c);
  }

  lemma YmdOfThree(y: string, m: string, d: string)
    ensures YmdOfParts([y, m, d]) ==
            NumToString(ToNumber(y)) + "-" + Pad2(NumToString(ToNumber(m))) + "-" + Pad2(NumToString(ToNumber(d)))
  {
  }

  /** A `YYYY-MM-DD` string whose year has no leading zero (years 1000-9999) comes back
      unchanged. */
  lemma ToLocalYmdOfCanonical(s: string)
    requires IsYmdShape(s) && s[0] != '0'
    ensures ToLocalYmdOfString(s) == s
  {
    var y, m, d := s[..4], s[5..7], s[8..];
    assert s == y + "-" + m + "-" + d;
    YmdRoundTrip(y, m, d);
  }

  lemma YmdRoundTrip(y: string, m: string, d: string)
    requires Canonical(y)
    requires |m| == 2 && IsDigit(m[0]) && IsDigit(m[1])
    requires |d| == 2 && IsDigit(d[0]) && IsDigit(d[1])
    ensures ToLocalYmdOfString(y + "-" + m + "-" + d) == y + "-" + m + "-" + d
  {
    SplitOfThree(y, m, d);
    YmdOfCanonicalParts(y, m, d);
  }

  lemma SplitOfThree(y: string, m: string, d: string)
    requires '-' !in y && '-' !in m && '-' !in d
    ensures Split(y + "-" + m + "-" + d, '-') == [y, m, d]
  {
    assert y + "-" + m + "-" + d == y + ['-'] + (m + "-" + d);
    SplitAtSeparator(y, m + "-" + d, '-');
    assert m + "-" + d == m + ['-'] + d;
    SplitAtSeparator(m, d, '-');
    SplitWithoutSeparator(d, '-');
  }

  lemma YmdOfCanonicalParts(y: string, m: string, d: string)
    requires Canonical(y)
    requires |m| == 2 && IsDigit(m[0]) && IsDigit(m[1])
    requires |d| == 2 && IsDigit(d[0]) && IsDigit(d[1])
    ensures YmdOfParts([y, m, d]) == y + "-" + m + "-" + d
  {
    CanonicalField(y);
    Pad2OfTwoDigits(m);
    Pad2OfTwoDigits(d);
    YmdOfThree(y, m, d);
  }

  /** One-digit month and day fields are padded with a zero ("2024-1-5" becomes
      "2024-01-05"). */
  lemma ToLocalYmdPadsFields(y: string, m: char, d: char)
    requires Canonical(y) && IsDigit(m) && IsDigit(d)
    ensures ToLocalYmdOfString(y + "-" + [m] + "-" + [d]) == y + "-" + ("0" + [m]) + "-" + ("0" + [d])
  {
    SplitOfThree(y, [m], [d]);
    YmdOfPaddedParts(y, m, d);
  }

  lemma YmdOfPaddedParts(y: string, m: char, d: char)
    requires Canonical(y) && IsDigit(m) && IsDigit(d)
    ensures YmdOfParts([y, [m], [d]]) == y + "-" + ("0" + [m]) + "-" + ("0" + [d])
  {
    CanonicalField(y);
    Pad2OfOneDigit(m);
    Pad2OfOneDigit(d);
    YmdOfThree(y, [m], [d]);
  }

  /** A local date with a four-digit year and a valid month and day prints as a
      `YYYY-MM-DD` string that the string form reads back unchanged. */
  lemma ToLocalYmdOfDateShape(ld: LocalDate)
    requires 1000 <= ld.year <= 9999 && 1 <= ld.month <= 12 && 1 <= ld.day <= 31
    ensures IsYmdShape(ToLocalYmdOfDate(Some(ld)))
    ensures ToLocalYmdOfString(ToLocalYmdOfDate(Some(ld))) == ToLocalYmdOfDate(Some(ld))
  {
    var y := NatToString(ld.year);
    DigitsOfNatToString(ld.year);
    YearDigits(ld.year);
    var m, d := NatToString(ld.month), NatToString(ld.day);
    PaddedField(ld.month);
    PaddedField(ld.day);
    var r := ToLocalYmdOfDate(Some(ld));
    assert r == y + "-" + Pad2(m) + "-" + Pad2(d);
    YmdShapeOfFields(y, Pad2(m), Pad2(d));
    ToLocalYmdOfCanonical(r);
  }

  /** A month or a day prints as two digits once padded. */
  lemma PaddedField(n: nat)
    requires 1 <= n <= 31
    ensures var p := Pad2(NatToString(n)); |p| == 2 && IsDigit(p[0]) && IsDigit(p[1])
  {
    if n >= 10 {
      assert NatToString(n) == [DigitChar(n / 10), DigitChar(n % 10)];
    }
  }

  lemma YmdShapeOfFields(y: string, m: string, d: string)
    requires |y| == 4 && AllDigits(y)
    requires |m| == 2 && IsDigit(m[0]) && IsDigit(m[1])
    requires |d| == 2 && IsDigit(d[0]) && IsDigit(d[1])
    ensures IsYmdShape(y + "-" + m + "-" + d)
  {
    var r := y + "-" + m + "-" + d;
    assert r[0] == y[0] && r[1] == y[1] && r[2] == y[2] && r[3] == y[3];
    assert r[5] == m[0] && r[6] == m[1] && r[8] == d[0] && r[9] == d[1];
  }

  lemma TwoDigitsAtMost(n: nat)
    requires 1 <= n <= 31
    ensures |NatToString(n)| <= 2
  {
  }

  lemma YearDigits(y: nat)
    requires 1000 <= y <= 9999
    ensures |NatToString(y)| == 4 && NatToString(y)[0] != '0'
  {
    assert NatToString(y) == NatToString(y / 10) + [DigitChar(y % 10)];
    assert NatToString(y / 10) == NatToString(y / 100) + [DigitChar((y / 10) % 10)];
    assert NatToString(y / 100) == NatToString(y / 1000) + [DigitChar((y / 100) % 10)];
  }
}
