/** The two small string grammars the converter applies to column names:
    the leading run of ASCII letters (`re.match(r'^([a-zA-Z]+)', s)`) and the
    first run of decimal digits read as a number (`float(re.search(r'\d+', s).group())`),
    plus the case folding used to compare role names. */
module Strings {
  import opened Common

  predicate IsLetter(c: char) {
    'a' <= c <= 'z' || 'A' <= c <= 'Z'
  }

  predicate IsDigit(c: char) {
    '0' <= c <= '9'
  }

  predicate AllDigits(s: string) {
    forall i | 0 <= i < |s| :: IsDigit(s[i])
  }

  predicate NoDigits(s: string) {
    forall i | 0 <= i < |s| :: !IsDigit(s[i])
  }

  function LowerChar(c: char): char {
    if 'A' <= c <= 'Z' then (c as int - 'A' as int + 'a' as int) as char else c
  }

  /** Case folding of a name, as `str.lower()` does for ASCII letters. */
  function Lower(s: string): string {
    seq(|s|, i requires 0 <= i < |s| => LowerChar(s[i]))
  }

  /** The longest prefix of `s` made of ASCII letters (possibly empty). */
  function LeadingLetters(s: string): string {
    if s != [] && IsLetter(s[0]) then [s[0]] + LeadingLetters(s[1..]) else []
  }

  /** The group prefix of a depth selector: its maximal leading run of ASCII
      letters, or None when the selector does not start with a letter (the
      regular expression does not match). */
  function LetterPrefix(s: string): (r: Option<string>)
    ensures r.Some? ==> r.value != [] && r.value <= s && forall i | 0 <= i < |r.value| :: IsLetter(r.value[i])
  {
    var p := LeadingLetters(s);
    LeadingLettersSpec(s);
    if p == [] then None else Some(p)
  }

  lemma {:induction false} LeadingLettersSpec(s: string)
    ensures var p := LeadingLetters(s);
      && p <= s
      && (forall i | 0 <= i < |p| :: IsLetter(p[i]))
      && (|p| == |s| || !IsLetter(s[|p|]))
  {
    if s != [] && IsLetter(s[0]) {
      LeadingLettersSpec(s[1..]);
    }
  }

  /** The prefix is present exactly when the selector starts with a letter;
      it is then a non-empty run of letters that starts the selector and cannot
      be extended. */
  lemma LetterPrefixSpec(s: string)
    ensures LetterPrefix(s).None? <==> (s == [] || !IsLetter(s[0]))
    ensures LetterPrefix(s).Some? ==>
      var p := LetterPrefix(s).value;
      && p != [] && p <= s
      && (forall i | 0 <= i < |p| :: IsLetter(p[i]))
      && (|p| == |s| || !IsLetter(s[|p|]))
  {
    LeadingLettersSpec(s);
  }

  function DigitValue(c: char): nat
    requires IsDigit(c)
  {
    c as int - '0' as int
  }

  /** The number written by a string of decimal digits, most significant first. */
  function DigitsValue(ds: string): nat
    requires AllDigits(ds)
  {
    if ds == [] then 0
    else DigitsValue(ds[..|ds| - 1]) * 10 + DigitValue(ds[|ds| - 1])
  }

  /** The longest prefix of `s` made of decimal digits (possibly empty). */
  function LeadingDigits(s: string): (r: string)
    ensures AllDigits(r)
  {
    if s != [] && IsDigit(s[0]) then [s[0]] + LeadingDigits(s[1..]) else []
  }

  /** The value of the first maximal run of digits in `s`, or None when `s`
      holds no digit (the search finds no match). */
  function FirstDigitRun(s: string): Option<nat> {
    if s == [] then None
    else if IsDigit(s[0]) then Some(DigitsValue(LeadingDigits(s)))
    else FirstDigitRun(s[1..])
  }

  /** The parse fails exactly on names without any digit. */
  lemma {:induction false} FirstDigitRunNone(s: string)
    ensures FirstDigitRun(s).None? <==> NoDigits(s)
  {
    if s != [] && !IsDigit(s[0]) {
      FirstDigitRunNone(s[1..]);
      assert forall i | 1 <= i < |s| :: s[i] == s[1..][i - 1];
    }
  }

  lemma {:induction false} LeadingDigitsOf(ds: string, q: string)
    requires AllDigits(ds)
    requires q == [] || !IsDigit(q[0])
    ensures LeadingDigits(ds + q) == ds
  {
    if ds == [] {
    } else {
      assert (ds + q)[1..] == ds[1..] + q;
      LeadingDigitsOf(ds[1..], q);
    }
  }

  /** Any name that contains a digit splits into a digit-free head, a maximal
      digit run and a tail that does not start with a digit; the parse reads
      exactly that run. */
  lemma {:induction false} FirstDigitRunSplit(p: string, ds: string, q: string)
    requires NoDigits(p)
    requires ds != [] && AllDigits(ds)
    requires q == [] || !IsDigit(q[0])
    ensures FirstDigitRun(p + ds + q) == Some(DigitsValue(ds))
  {
    if p == [] {
      assert p + ds + q == ds + q;
      LeadingDigitsOf(ds, q);
    } else {
      assert (p + ds + q)[1..] == p[1..] + ds + q;
      FirstDigitRunSplit(p[1..], ds, q);
    }
  }

  function DigitChar(d: nat): char
    requires d < 10
  {
    ('0' as int + d) as char
  }

  /** The decimal numeral of `n`, without leading zeros. */
  function Decimal(n: nat): string {
    if n < 10 then [DigitChar(n)] else Decimal(n / 10) + [DigitChar(n % 10)]
  }

  /** Reading back the numeral written for `n` gives `n`. */
  lemma {:induction false} DecimalRoundTrip(n: nat)
    ensures Decimal(n) != [] && AllDigits(Decimal(n))
    ensures DigitsValue(Decimal(n)) == n
  {
    if n >= 10 {
      DecimalRoundTrip(n / 10);
      var ds := Decimal(n);
      assert ds[..|ds| - 1] == Decimal(n / 10);
    }
  }

  /** A column named by a letter group followed by a numeral, such as `depth10`,
      parses to that number. */
  lemma DepthOfNumberedName(prefix: string, n: nat, suffix: string)
    requires NoDigits(prefix)
    requires suffix == [] || !IsDigit(suffix[0])
    ensures FirstDigitRun(prefix + Decimal(n) + suffix) == Some(n)
  {
    DecimalRoundTrip(n);
    FirstDigitRunSplit(prefix, Decimal(n), suffix);
  }
}
