/** Receipt parsing: the merchant, the total and the line items read off the
    text an OCR engine produced. Each regular expression of the parser is a
    hand-written matcher here; all of them are case-insensitive on ASCII
    letters only, `\s` is JavaScript white space, `\w` and `\d` are ASCII,
    and `.` stops at line terminators. Amounts are cents. */
module Ocr {
  import opened Wrappers
  import opened Types
  import opened Seqs
  import Text

  // ---------------------------------------------------------------------------
  // Characters and runs

  /** How many leading characters of `s` satisfy `p`. */
  function Run(s: string, p: char -> bool): (n: nat)
    ensures n <= |s|
    ensures forall k :: 0 <= k < n ==> p(s[k])
    ensures n < |s| ==> !p(s[n])
  {
    if s == [] || !p(s[0]) then 0 else 1 + Run(s[1..], p)
  }

  /** A run is determined by where it stops. */
  lemma {:induction false} RunStops(s: string, p: char -> bool, n: nat)
    requires n <= |s|
    requires forall k :: 0 <= k < n ==> p(s[k])
    requires n < |s| ==> !p(s[n])
    ensures Run(s, p) == n
  {
    if n > 0 {
      RunStops(s[1..], p, n - 1);
    }
  }

  predicate IsColonOrSpace(ch: char)
  {
    ch == ':' || Text.IsSpace(ch)
  }

  predicate IsLetter(ch: char)
  {
    ('a' <= ch <= 'z') || ('A' <= ch <= 'Z')
  }

  /** `s` starts with `word` (written in lower case), ignoring the case of
      ASCII letters. */
  predicate LiteralAt(s: string, word: string)
  {
    |word| <= |s| && forall k :: 0 <= k < |word| ==> Text.LowerChar(s[k]) == word[k]
  }

  function DigitValue(ch: char): int
  {
    ch as int - '0' as int
  }

  predicate AllDigits(s: string)
  {
    forall k :: 0 <= k < |s| ==> Text.IsDigit(s[k])
  }

  /** The number a string of decimal digits denotes. */
  function DigitsValue(s: string): (r: nat)
    requires AllDigits(s)
  {
    if s == [] then 0 else DigitsValue(s[..|s| - 1]) * 10 + DigitValue(s[|s| - 1])
  }

  function Digit(d: int): (ch: char)
    requires 0 <= d < 10
    ensures Text.IsDigit(ch) && DigitValue(ch) == d
  {
    ('0' as int + d) as char
  }

  /** The decimal digits of `n`, without leading zeros. */
  function DigitsOf(n: nat): (r: string)
    ensures |r| >= 1 && AllDigits(r)
    ensures DigitsValue(r) == n
  {
    if n < 10 then [Digit(n)]
    else
      var r := DigitsOf(n / 10) + [Digit(n % 10)];
      assert r[..|r| - 1] == DigitsOf(n / 10);
      r
  }

  /** A non-negative amount of cents as the receipt prints it: whole units,
      a point and two digits. */
  function Format(c: Cents): (r: string)
    requires c >= 0
    ensures |r| >= 4 && r[|r| - 3] == '.'
  {
    DigitsOf(c / 100) + ['.', Digit(c % 100 / 10), Digit(c % 100 % 10)]
  }

  // ---------------------------------------------------------------------------
  // Numbers: `\d+[.,]\d{2}`

  /** The parts of a money-shaped number at the start of a string: its whole
      units, whether the separator is a comma, its two fraction digits, and
      how many characters it (with a `$` the pattern allowed) covers. */
  datatype Number = Number(whole: nat, comma: bool, fraction: nat, len: nat)

  /** `\d+[.,]\d{2}` matches the first `j + 3` characters of `s` with `j`
      digits before the separator. */
  predicate NumberShape(s: string, j: int)
  {
    0 < j && j + 3 <= |s| && AllDigits(s[..j]) && (s[j] == '.' || s[j] == ',')
    && Text.IsDigit(s[j + 1]) && Text.IsDigit(s[j + 2])
  }

  /** The number at the start of `s`. The pattern's digit run can only end
      at the separator, so there is at most one way it matches. */
  function NumberAt(s: string): (r: Option<Number>)
    ensures r.Some? <==> exists j :: NumberShape(s, j)
    ensures r.Some? ==> var j := r.value.len - 3;
                        NumberShape(s, j)
                        && r.value.whole == DigitsValue(s[..j])
                        && r.value.comma == (s[j] == ',')
                        && r.value.fraction == DigitsValue(s[j + 1..j + 3])
  {
    var j := Run(s, Text.IsDigit);
    if NumberShape(s, j) then
      Some(Number(DigitsValue(s[..j]), s[j] == ',', DigitsValue(s[j + 1..j + 3]), j + 3))
    else None
  }

  /** The number a keyword match captures, in cents: a comma is read as the
      decimal point. */
  function KeywordCents(n: Number): (r: Cents)
    ensures n.fraction < 100 ==> r / 100 == n.whole && r % 100 == n.fraction
  {
    n.whole * 100 + n.fraction
  }

  /** The number a fallback match yields, in cents: '$' and ',' are deleted
      before parsing, so with a comma the fraction digits become units. */
  function FallbackCents(n: Number): (r: Cents)
    ensures !n.comma ==> r == KeywordCents(n)
    ensures n.comma ==> r == KeywordCents(n) * 100
  {
    if n.comma then (n.whole * 100 + n.fraction) * 100 else n.whole * 100 + n.fraction
  }

  /** A number read off a printed amount is worth that amount. */
  lemma CentsOfParts(c: Cents, len: nat)
    requires c >= 0
    ensures KeywordCents(Number(c / 100, false, c % 100, len)) == c
    ensures FallbackCents(Number(c / 100, false, c % 100, len)) == c
  {
  }

  /** Two digits read back as the number below 100 they spell. */
  lemma TwoDigits(m: int)
    requires 0 <= m < 100
    ensures DigitsValue([Digit(m / 10), Digit(m % 10)]) == m
  {
    var one := [Digit(m / 10)];
    var two := one + [Digit(m % 10)];
    assert one[..0] == [];
    assert DigitsValue(one) == m / 10;
    assert two[..1] == one;
    assert DigitsValue(two) == DigitsValue(one) * 10 + DigitValue(Digit(m % 10));
    assert two == [Digit(m / 10), Digit(m % 10)];
  }

  /** A printed amount reads back as itself, whatever follows it. */
  lemma NumberOfFormat(c: Cents, rest: string)
    requires c >= 0
    ensures NumberAt(Format(c) + rest) == Some(Number(c / 100, false, c % 100, |Format(c)|))
  {
    var ds := DigitsOf(c / 100);
    var m := c % 100;
    var f := Format(c);
    assert f == ds + ['.', Digit(m / 10), Digit(m % 10)];
    var s := f + rest;
    var j := |ds|;
    assert s[..j] == ds;
    assert s[j] == '.' && s[j + 1] == Digit(m / 10) && s[j + 2] == Digit(m % 10);
    assert NumberShape(s, j);
    RunStops(s, Text.IsDigit, j);
    assert s[j + 1..j + 3] == [Digit(m / 10), Digit(m % 10)];
    TwoDigits(m);
  }

  // ---------------------------------------------------------------------------
  // The total

  /** The five keyword patterns, tried in this order:
      `total[:\s]*\$?\s*N`, `grand\s*total[:\s]*\$?\s*N`,
      `amount\s*due[:\s]*\$?\s*N`, `balance\s*due[:\s]*\$?\s*N` and
      `\btotal\b.*?N`, where N is the captured number. */
  datatype Pattern = TotalLabel | GrandTotal | AmountDue | BalanceDue | TotalWord

  const Patterns: seq<Pattern> := [TotalLabel, GrandTotal, AmountDue, BalanceDue, TotalWord]

  /** `[:\s]*\$?\s*N` at the start of `s`. Each part can only take its
      longest run, so the captured number is determined. */
  function LabelTail(s: string): (r: Option<Number>)
  {
    var t := s[Run(s, IsColonOrSpace)..];
    var u := if t != [] && t[0] == '$' then t[1..] else t;
    NumberAt(u[Run(u, Text.IsSpace)..])
  }

  /** `first\s*second` at the start of `s`, and what follows it. */
  function TwoWords(s: string, first: string, second: string): (r: Option<string>)
    ensures r.Some? ==> LiteralAt(s, first)
  {
    if !LiteralAt(s, first) then None
    else
      var t := s[|first|..];
      var u := t[Run(t, Text.IsSpace)..];
      if LiteralAt(u, second) then Some(u[|second|..]) else None
  }

  /** `.*?N`: the number at the least index where one starts, among the
      indices up to the first line terminator (`Run` stops there). */
  function LazyNumber(s: string): (r: Option<Number>)
    ensures r.Some? ==> exists k :: 0 <= k <= Run(s, NotLineTerminator) && NumberAt(s[k..]) == r
                                   && forall j :: 0 <= j < k ==> NumberAt(s[j..]).None?
    ensures r.None? ==> forall k :: 0 <= k <= Run(s, NotLineTerminator) ==> NumberAt(s[k..]).None?
  {
    match MatchFrom(s, 0, Run(s, NotLineTerminator), NumberAt)
    case Some(m) => Some(m.price)
    case None => None
  }

  /** Whether `pat` matches at the start of `s`, and the number it captures;
      `before` is the character preceding `s`, if any, for `\b`. */
  function MatchAt(pat: Pattern, before: Option<char>, s: string): (r: Option<Number>)
    ensures r.Some? && pat == TotalLabel ==> LiteralAt(s, "total")
    ensures r.Some? && pat == GrandTotal ==> LiteralAt(s, "grand")
    ensures r.Some? && pat == AmountDue ==> LiteralAt(s, "amount")
    ensures r.Some? && pat == BalanceDue ==> LiteralAt(s, "balance")
    ensures r.Some? && pat == TotalWord ==> LiteralAt(s, "total")
                                            && (before.None? || !Text.IsWordChar(before.value))
                                            && (|s| == 5 || !Text.IsWordChar(s[5]))
  {
    match pat
    case TotalLabel => if LiteralAt(s, "total") then LabelTail(s[5..]) else None
    case GrandTotal => (match TwoWords(s, "grand", "total") case Some(t) => LabelTail(t) case None => None)
    case AmountDue => (match TwoWords(s, "amount", "due") case Some(t) => LabelTail(t) case None => None)
    case BalanceDue => (match TwoWords(s, "balance", "due") case Some(t) => LabelTail(t) case None => None)
    case TotalWord =>
      if (before.None? || !Text.IsWordChar(before.value)) && LiteralAt(s, "total")
         && (|s| == 5 || !Text.IsWordChar(s[5]))
      then LazyNumber(s[5..])
      else None
  }

  /** Whether `pat` matches in `text` at index `q`. */
  function MatchAtIndex(pat: Pattern, text: string, q: nat): Option<Number>
    requires q <= |text|
  {
    MatchAt(pat, if q == 0 then None else Some(text[q - 1]), text[q..])
  }

  /** The match of `pat` at each index of `text`, end included. */
  function MatchesOf(pat: Pattern, text: string): (r: seq<Option<Number>>)
    ensures |r| == |text| + 1
    ensures forall i :: 0 <= i <= |text| ==> r[i] == MatchAtIndex(pat, text, i)
  {
    seq(|text| + 1, i requires 0 <= i <= |text| => MatchAtIndex(pat, text, i))
  }

  /** `text.match(pat)`: the match at the leftmost index where there is
      one. */
  function FirstMatch(pat: Pattern, text: string): (r: Option<Number>)
    ensures r.Some? ==> exists i :: 0 <= i <= |text| && MatchAtIndex(pat, text, i) == r
                                   && forall i' :: 0 <= i' < i ==> MatchAtIndex(pat, text, i').None?
    ensures r.None? ==> forall i :: 0 <= i <= |text| ==> MatchAtIndex(pat, text, i).None?
  {
    var ms := MatchesOf(pat, text);
    var r := FirstSome(ms, 0);
    r
  }

  /** The value of the first match of `pat` in `text`, when it is positive. */
  function PositiveMatch(pat: Pattern, text: string): (r: Option<Cents>)
    ensures r.Some? ==> r.value > 0
  {
    match FirstMatch(pat, text)
    case Some(n) => if KeywordCents(n) > 0 then Some(KeywordCents(n)) else None
    case None => None
  }

  /** The first of `pats` whose first match in `text` is positive. */
  function KeywordTotal(pats: seq<Pattern>, text: string): (r: Option<Cents>)
    ensures r.Some? ==> exists i :: 0 <= i < |pats| && PositiveMatch(pats[i], text) == r
                                   && forall j :: 0 <= j < i ==> PositiveMatch(pats[j], text).None?
    ensures r.None? ==> forall i :: 0 <= i < |pats| ==> PositiveMatch(pats[i], text).None?
  {
    FirstOf(pats, (pat: Pattern) => PositiveMatch(pat, text))
  }

  /** `\$?N` at the start of `s`: the `$` is taken when a number follows it. */
  function MoneyAt(s: string): (r: Option<Number>)
    ensures r.Some? ==> 0 < r.value.len <= |s|
  {
    if s != [] && s[0] == '$' && NumberAt(s[1..]).Some? then
      var n := NumberAt(s[1..]).value;
      Some(n.(len := n.len + 1))
    else NumberAt(s)
  }

  /** The values of all matches of `/\$?N/g`, left to right, each match
      resuming the scan where the previous one ended. */
  function FallbackValues(s: string): (r: seq<Cents>)
    decreases |s|
  {
    if s == [] then []
    else match MoneyAt(s)
      case Some(n) => [FallbackCents(n)] + FallbackValues(s[n.len..])
      case None => FallbackValues(s[1..])
  }

  /** The largest positive value of `vs`, if it has one. */
  function LargestPositive(vs: seq<Cents>): (r: Option<Cents>)
    ensures r.Some? ==> r.value > 0 && r.value in vs && forall v <- vs :: v <= r.value
    ensures r.None? ==> forall v <- vs :: v <= 0
  {
    if vs == [] then None
    else
      var rest := LargestPositive(vs[1..]);
      assert forall v <- vs :: v == vs[0] || v in vs[1..];
      if vs[0] <= 0 then rest
      else if rest.Some? && rest.value >= vs[0] then rest
      else Some(vs[0])
  }

  /** The receipt's total: the first keyword pattern whose first match is
      positive, otherwise the largest positive money-shaped number anywhere,
      otherwise nothing. */
  function ExtractTotal(text: string): (r: Option<Cents>)
    ensures r.Some? ==> r.value > 0
    ensures KeywordTotal(Patterns, text).Some? ==> r == KeywordTotal(Patterns, text)
    ensures KeywordTotal(Patterns, text).None? && r.Some? ==>
              r.value in FallbackValues(text) && forall v <- FallbackValues(text) :: v <= r.value
    ensures KeywordTotal(Patterns, text).None? && r.None? ==> forall v <- FallbackValues(text) :: v <= 0
  {
    match KeywordTotal(Patterns, text)
    case Some(v) => Some(v)
    case None => LargestPositive(FallbackValues(text))
  }

  /** `[:\s]*\$?\s*N` reads a printed amount after a label separator. */
  lemma LabelTailOfFormat(sep: string, dollar: bool, c: Cents, rest: string)
    requires c >= 0
    requires forall k :: 0 <= k < |sep| ==> IsColonOrSpace(sep[k])
    ensures LabelTail(sep + (if dollar then "$" else "") + Format(c) + rest)
            == Some(Number(c / 100, false, c % 100, |Format(c)|))
  {
    var v := Format(c) + rest;
    var d := if dollar then "$" else "";
    FormatStartsWithDigit(c);
    assert v[0] == Format(c)[0];
    assert sep + d + Format(c) + rest == sep + (d + v);
    LabelTailAfterSeparator(sep, d + v);
    if dollar {
      LabelTailOfDollar(v);
    } else {
      assert d + v == v;
      LabelTailOfDigits(v);
    }
    NumberOfFormat(c, rest);
  }

  lemma FormatStartsWithDigit(c: Cents)
    requires c >= 0
    ensures Text.IsDigit(Format(c)[0])
  {
    var ds := DigitsOf(c / 100);
    assert Format(c) == ds + ['.', Digit(c % 100 / 10), Digit(c % 100 % 10)];
    assert Format(c)[0] == ds[0];
  }

  /** The separator run stops where the separator ends. */
  lemma LabelTailAfterSeparator(sep: string, t: string)
    requires forall k :: 0 <= k < |sep| ==> IsColonOrSpace(sep[k])
    requires t != [] && (t[0] == '$' || Text.IsDigit(t[0]))
    ensures LabelTail(sep + t) == LabelTail(t)
  {
    var s := sep + t;
    RunStops(s, IsColonOrSpace, |sep|);
    assert s[|sep|..] == t;
    RunStops(t, IsColonOrSpace, 0);
  }

  /** An optional '$' is taken before a number. */
  lemma LabelTailOfDollar(v: string)
    requires v != [] && Text.IsDigit(v[0])
    ensures LabelTail("$" + v) == NumberAt(v)
  {
    var t := "$" + v;
    RunStops(t, IsColonOrSpace, 0);
    assert t[0..] == t && t[1..] == v;
    RunStops(v, Text.IsSpace, 0);
  }

  lemma LabelTailOfDigits(v: string)
    requires v != [] && Text.IsDigit(v[0])
    ensures LabelTail(v) == NumberAt(v)
  {
    RunStops(v, IsColonOrSpace, 0);
    assert v[0..] == v;
    RunStops(v, Text.IsSpace, 0);
  }

  /** The keyword search settles on the leftmost index where the pattern
      matches. */
  lemma FirstMatchAt(pat: Pattern, text: string, i: nat)
    requires i <= |text|
    requires MatchAtIndex(pat, text, i).Some?
    requires forall i' :: 0 <= i' < i ==> MatchAtIndex(pat, text, i').None?
    ensures FirstMatch(pat, text) == MatchAtIndex(pat, text, i)
  {
    var ms := MatchesOf(pat, text);
    FirstSomeAt(ms, 0, i);
  }

  /** A positive match of the first pattern decides the total. */
  lemma FirstPatternDecides(text: string, n: Number)
    requires FirstMatch(TotalLabel, text) == Some(n)
    requires KeywordCents(n) > 0
    ensures ExtractTotal(text) == Some(KeywordCents(n))
  {
    assert Patterns[0] == TotalLabel;
    assert PositiveMatch(TotalLabel, text) == Some(KeywordCents(n));
  }

  /** A labelled total at the start of the text is the total, whatever
      follows. */
  lemma LabelledTotal(c: Cents, rest: string)
    requires c > 0
    ensures ExtractTotal("Total: $" + Format(c) + rest) == Some(c)
  {
    var text := "Total: $" + Format(c) + rest;
    var n := Number(c / 100, false, c % 100, |Format(c)|);
    LabelledMatch(c, rest);
    assert MatchAtIndex(TotalLabel, text, 0) == Some(n);
    FirstMatchAt(TotalLabel, text, 0);
    assert FirstMatch(TotalLabel, text) == Some(n);
    FirstPatternDecides(text, n);
    assert ExtractTotal(text) == Some(KeywordCents(n));
    assert KeywordCents(n) == c;
  }

  lemma LabelledMatch(c: Cents, rest: string)
    requires c >= 0
    ensures MatchAtIndex(TotalLabel, "Total: $" + Format(c) + rest, 0)
            == Some(Number(c / 100, false, c % 100, |Format(c)|))
  {
    var x := ": " + "$" + Format(c) + rest;
    LabelledSplit(Format(c) + rest);
    assert "Total: $" + Format(c) + rest == "Total" + x;
    CapitalTotal(x);
    assert ("Total" + x)[0..] == "Total" + x;
    assert ("Total" + x)[5..] == x;
    LabelTailOfFormat(": ", true, c, rest);
  }

  lemma LabelledSplit(y: string)
    ensures "Total: $" + y == "Total" + (": " + "$" + y)
  {
  }

  /** "Total" is the word "total" up to case. */
  lemma CapitalTotal(x: string)
    ensures LiteralAt("Total" + x, "total")
  {
    var t := "Total" + x;
    assert t[0] == 'T' && t[1] == 'o' && t[2] == 't' && t[3] == 'a' && t[4] == 'l';
  }

  /** The first pattern has no word boundary before "total", so a subtotal
      line above the total line is read as the total. */
  lemma SubtotalReadAsTotal(sub: Cents, total: Cents)
    requires sub > 0 && total >= 0
    ensures ExtractTotal("Subtotal " + Format(sub) + "\nTotal " + Format(total)) == Some(sub)
  {
    var rest := "\nTotal " + Format(total);
    var text := "Subtotal " + Format(sub) + "\nTotal " + Format(total);
    assert text == "Subtotal " + Format(sub) + rest;
    var n := Number(sub / 100, false, sub % 100, |Format(sub)|);
    SubtotalMatch(sub, rest);
    assert MatchAtIndex(TotalLabel, text, 3) == Some(n);
    FirstMatchAt(TotalLabel, text, 3);
    assert FirstMatch(TotalLabel, text) == Some(n);
    FirstPatternDecides(text, n);
    assert ExtractTotal(text) == Some(KeywordCents(n));
    assert KeywordCents(n) == sub;
  }

  lemma SubtotalMatch(sub: Cents, rest: string)
    requires sub >= 0
    ensures var text := "Subtotal " + Format(sub) + rest;
            MatchAtIndex(TotalLabel, text, 3) == Some(Number(sub / 100, false, sub % 100, |Format(sub)|))
            && forall i :: 0 <= i < 3 ==> MatchAtIndex(TotalLabel, text, i).None?
  {
    var text := "Subtotal " + Format(sub) + rest;
    SubtotalHead(Format(sub) + rest);
    assert text == "Subtotal " + (Format(sub) + rest);
    NoLabelAt(text, 0);
    NoLabelAt(text, 1);
    NoLabelAt(text, 2);
    SubtotalMatchAt(sub, rest);
  }

  lemma SubtotalMatchAt(sub: Cents, rest: string)
    requires sub >= 0
    ensures MatchAtIndex(TotalLabel, "Subtotal " + Format(sub) + rest, 3)
            == Some(Number(sub / 100, false, sub % 100, |Format(sub)|))
  {
    var x := Format(sub) + rest;
    var y := " " + x;
    assert "Subtotal " + Format(sub) + rest == "Subtotal " + x;
    SubtotalTail(x);
    LiteralPrefix("total", y);
    assert ("total" + y)[5..] == y;
    assert y == " " + "" + Format(sub) + rest;
    LabelTailOfFormat(" ", false, sub, rest);
  }

  lemma SubtotalTail(x: string)
    ensures ("Subtotal " + x)[3..] == "total" + (" " + x)
  {
  }

  /** A lower-case word starts any text that begins with it. */
  lemma LiteralPrefix(word: string, x: string)
    requires forall k :: 0 <= k < |word| ==> Text.LowerChar(word[k]) == word[k]
    ensures LiteralAt(word + x, word)
  {
    assert forall k :: 0 <= k < |word| ==> (word + x)[k] == word[k];
  }

  lemma SubtotalHead(rest: string)
    ensures var text := "Subtotal " + rest;
            text[0] == 'S' && text[1] == 'u' && text[2] == 'b'
  {
  }

  /** The label pattern cannot match where the character is not a 't'. */
  lemma NoLabelAt(text: string, i: nat)
    requires i < |text| && Text.LowerChar(text[i]) != 't'
    ensures MatchAtIndex(TotalLabel, text, i).None?
  {
    assert text[i..][0] == text[i];
  }

  /** No keyword pattern matches a text without letters. */
  lemma NoLettersNoKeyword(pat: Pattern, text: string)
    requires forall k :: 0 <= k < |text| ==> !IsLetter(text[k])
    ensures FirstMatch(pat, text).None?
  {
    forall i | 0 <= i <= |text|
      ensures MatchAtIndex(pat, text, i).None?
    {
      if i < |text| {
        assert text[i..][0] == text[i];
      }
      NoMatchWithoutLetter(pat, if i == 0 then None else Some(text[i - 1]), text[i..]);
    }
  }

  /** Every keyword pattern starts with a letter. */
  lemma NoMatchWithoutLetter(pat: Pattern, before: Option<char>, s: string)
    requires s == [] || !IsLetter(s[0])
    ensures MatchAt(pat, before, s).None?
  {
    if s != [] {
      assert Text.LowerChar(s[0]) == s[0];
    }
  }

  /** A printed amount has no letters. */
  lemma FormatHasNoLetters(c: Cents)
    requires c >= 0
    ensures forall k :: 0 <= k < |Format(c)| ==> Text.IsDigit(Format(c)[k]) || Format(c)[k] == '.'
  {
    var ds := DigitsOf(c / 100);
    assert Format(c) == ds + ['.', Digit(c % 100 / 10), Digit(c % 100 % 10)];
  }

  /** A printed amount is one fallback value, and the scan resumes right
      after it. */
  lemma FallbackOfFormat(c: Cents, rest: string)
    requires c >= 0
    ensures FallbackValues(Format(c) + rest) == [c] + FallbackValues(rest)
  {
    var f := Format(c);
    var s := f + rest;
    var ds := DigitsOf(c / 100);
    assert f == ds + ['.', Digit(c % 100 / 10), Digit(c % 100 % 10)];
    assert s[0] == ds[0];
    assert s[0] != '$';
    NumberOfFormat(c, rest);
    var n := Number(c / 100, false, c % 100, |f|);
    assert MoneyAt(s) == Some(n);
    assert FallbackCents(n) == c;
    assert s[|f|..] == rest;
  }

  /** A character that neither starts a number nor is a '$' is skipped by the
      fallback scan. */
  lemma FallbackSkips(s: string)
    requires s != [] && s[0] != '$' && !Text.IsDigit(s[0])
    ensures FallbackValues(s) == FallbackValues(s[1..])
  {
    RunStops(s, Text.IsDigit, 0);
    assert !NumberShape(s, 0);
    assert MoneyAt(s).None?;
  }

  /** The fallback scan of two printed amounts separated by a space. */
  lemma FallbackOfTwo(a: Cents, b: Cents)
    requires a >= 0 && b >= 0
    ensures FallbackValues(Format(a) + " " + Format(b)) == [a, b]
  {
    var tail := " " + Format(b);
    assert Format(a) + " " + Format(b) == Format(a) + tail;
    FallbackOfFormat(a, tail);
    FallbackOfSpacedFormat(b);
    ConsTwo(a, b);
  }

  lemma FallbackOfSpacedFormat(b: Cents)
    requires b >= 0
    ensures FallbackValues(" " + Format(b)) == [b]
  {
    var tail := " " + Format(b);
    FallbackSkips(tail);
    assert tail[1..] == Format(b) + [];
    FallbackOfFormat(b, []);
  }

  /** Without any keyword the largest amount printed is the total. */
  lemma LargestAmountWithoutKeyword(a: Cents, b: Cents)
    requires a > 0 && b > 0
    ensures ExtractTotal(Format(a) + " " + Format(b)) == Some(if a >= b then a else b)
  {
    var text := Format(a) + " " + Format(b);
    TwoAmountsHaveNoLetters(a, b);
    NoKeywordWithoutLetters(text);
    FallbackOfTwo(a, b);
    LargestOfTwo(a, b);
  }

  lemma LargestOfTwo(a: Cents, b: Cents)
    requires a > 0 && b > 0
    ensures LargestPositive([a, b]) == Some(if a >= b then a else b)
  {
    assert [a, b][1..] == [b];
    assert LargestPositive([b]) == Some(b);
  }

  /** No keyword pattern finds a total in a text without letters. */
  lemma NoKeywordWithoutLetters(text: string)
    requires forall k :: 0 <= k < |text| ==> !IsLetter(text[k])
    ensures KeywordTotal(Patterns, text).None?
  {
    forall i | 0 <= i < |Patterns| ensures PositiveMatch(Patterns[i], text).None? {
      NoLettersNoKeyword(Patterns[i], text);
    }
  }

  lemma TwoAmountsHaveNoLetters(a: Cents, b: Cents)
    requires a >= 0 && b >= 0
    ensures var text := Format(a) + " " + Format(b);
            forall k :: 0 <= k < |text| ==> !IsLetter(text[k])
  {
    var text := Format(a) + " " + Format(b);
    FormatHasNoLetters(a);
    FormatHasNoLetters(b);
    forall k | 0 <= k < |text| ensures !IsLetter(text[k]) {
      if k < |Format(a)| {
        assert text[k] == Format(a)[k];
      } else if k > |Format(a)| {
        assert text[k] == Format(b)[k - |Format(a)| - 1];
      }
    }
  }

  // ---------------------------------------------------------------------------
  // The merchant

  /** `^\d{3}[-.]?\d{3}[-.]?\d{4}$`: a ten-digit phone number, its groups
      optionally separated by '-' or '.'. */
  predicate IsPhone(s: string)
  {
    |s| >= 3 && AllDigits(s[..3])
    && var t := SkipSeparator(s[3..]);
       |t| >= 3 && AllDigits(t[..3])
       && var u := SkipSeparator(t[3..]);
          |u| == 4 && AllDigits(u)
  }

  function SkipSeparator(s: string): string
  {
    if s != [] && (s[0] == '-' || s[0] == '.') then s[1..] else s
  }

  const StreetWords: seq<string> := ["st", "street", "ave", "avenue", "rd", "road", "blvd"]

  /** `^\d+\s+\w+\s+(st|street|ave|avenue|rd|road|blvd)`, ignoring case: a
      line that starts like a street address. */
  predicate IsAddress(s: string)
  {
    var d := Run(s, Text.IsDigit);
    d > 0
    && var t := s[d..];
       var w1 := Run(t, Text.IsSpace);
       w1 > 0
       && var u := t[w1..];
          var w := Run(u, Text.IsWordChar);
          w > 0
          && var v := u[w..];
             var w2 := Run(v, Text.IsSpace);
             w2 > 0 && exists word <- StreetWords :: LiteralAt(v[w2..], word)
  }

  /** A line the parser takes as the merchant's name once trimmed. */
  predicate IsMerchantLine(line: string)
  {
    var l := Text.Trim(line);
    |l| > 3 && !IsPhone(l) && !IsAddress(l)
  }

  /** A line with something other than white space on it. */
  predicate IsNonBlank(line: string)
  {
    Text.Trim(line) != []
  }

  /** The lines that are not blank. */
  function NonBlank(lines: seq<string>): (r: seq<string>)
    ensures |r| <= |lines|
    ensures forall l <- r :: l in lines && Text.Trim(l) != []
    ensures forall l <- lines :: Text.Trim(l) != [] ==> l in r
  {
    Keep(lines, IsNonBlank)
  }

  lemma NonBlankAppend(a: seq<string>, b: seq<string>)
    ensures NonBlank(a + b) == NonBlank(a) + NonBlank(b)
  {
    KeepAppend(a, b, IsNonBlank);
  }

  /** The first of `lines` that passes, trimmed. */
  function FirstMerchant(lines: seq<string>): (r: Option<string>)
    ensures r.Some? ==> exists i :: 0 <= i < |lines| && IsMerchantLine(lines[i]) && r.value == Text.Trim(lines[i])
                                   && forall j :: 0 <= j < i ==> !IsMerchantLine(lines[j])
    ensures r.None? ==> forall i :: 0 <= i < |lines| ==> !IsMerchantLine(lines[i])
  {
    match FirstIndex(lines, IsMerchantLine)
    case None => None
    case Some(i) => Some(Text.Trim(lines[i]))
  }

  /** The lines the merchant is looked for in: the first three non-blank
      lines of the text. */
  function Candidates(text: string): (r: seq<string>)
    ensures |r| == if |NonBlank(Text.Split(text, '\n'))| < 3 then |NonBlank(Text.Split(text, '\n'))| else 3
    ensures r == NonBlank(Text.Split(text, '\n'))[..|r|]
  {
    var lines := NonBlank(Text.Split(text, '\n'));
    lines[..if |lines| < 3 then |lines| else 3]
  }

  /** The merchant's name: the first of the first three non-blank lines
      that, trimmed, is longer than three characters and looks like neither
      a phone number nor an address. */
  function ExtractMerchant(text: string): (r: Option<string>)
    ensures r.Some? ==> exists i :: 0 <= i < |Candidates(text)| && IsMerchantLine(Candidates(text)[i])
                                   && r.value == Text.Trim(Candidates(text)[i])
                                   && forall j :: 0 <= j < i ==> !IsMerchantLine(Candidates(text)[j])
    ensures r.None? ==> forall i :: 0 <= i < |Candidates(text)| ==> !IsMerchantLine(Candidates(text)[i])
    ensures r.Some? ==> |r.value| > 3 && !IsPhone(r.value) && !IsAddress(r.value)
  {
    FirstMerchant(Candidates(text))
  }

  /** A phone number above the name is passed over. */
  lemma PhoneLineSkipped(phone: string, name: string)
    requires '\n' !in phone && '\n' !in name
    requires IsPhone(Text.Trim(phone)) && IsMerchantLine(name)
    ensures ExtractMerchant(phone + "\n" + name) == Some(Text.Trim(name))
  {
    assert !IsMerchantLine(phone);
    TwoCandidates(phone, name);
    MerchantSecond(phone, name);
  }

  /** Two non-blank lines are both candidates. */
  lemma TwoCandidates(a: string, b: string)
    requires '\n' !in a && '\n' !in b
    requires Text.Trim(a) != [] && Text.Trim(b) != []
    ensures Candidates(a + "\n" + b) == [a, b]
  {
    Text.SplitLine(a, b, '\n');
    Text.SplitSingle(b, '\n');
    ConsTwo(a, b);
    NonBlankOfTwo(a, b);
  }

  /** The second of two lines is the merchant when the first is not one. */
  lemma MerchantSecond(a: string, b: string)
    requires !IsMerchantLine(a) && IsMerchantLine(b)
    ensures FirstMerchant([a, b]) == Some(Text.Trim(b))
  {
    var lines := [a, b];
    assert lines[0] == a && lines[1] == b;
    var r := FirstMerchant(lines);
    assert r.Some?;
  }

  /** A non-blank line is kept at the front. */
  lemma NonBlankCons(x: string, rest: seq<string>)
    requires Text.Trim(x) != []
    ensures NonBlank([x] + rest) == [x] + NonBlank(rest)
  {
    KeepCons(x, rest, IsNonBlank);
  }

  lemma NonBlankOfTwo(a: string, b: string)
    requires Text.Trim(a) != [] && Text.Trim(b) != []
    ensures NonBlank([a, b]) == [a, b]
  {
    NonBlankCons(b, []);
    ConsTwo(a, b);
    NonBlankCons(a, [b]);
  }

  /** Only the first three non-blank lines are considered. */
  lemma FourthLineIgnored(a: string, b: string, c: string, rest: string)
    requires '\n' !in a && '\n' !in b && '\n' !in c
    requires Text.Trim(a) != [] && Text.Trim(b) != [] && Text.Trim(c) != []
    requires !IsMerchantLine(a) && !IsMerchantLine(b) && !IsMerchantLine(c)
    ensures ExtractMerchant(a + "\n" + b + "\n" + c + "\n" + rest) == None
  {
    var text := a + "\n" + b + "\n" + c + "\n" + rest;
    var rs := Text.Split(rest, '\n');
    ThreeLines(a, b, c, rest);
    var lines := NonBlank([a, b, c] + rs);
    NonBlankThenMore(a, b, c, rs);
    assert lines[..3] == [a, b, c];
    NoMerchantAmongThree(a, b, c);
  }

  lemma ThreeLines(a: string, b: string, c: string, rest: string)
    requires '\n' !in a && '\n' !in b && '\n' !in c
    ensures Text.Split(a + "\n" + b + "\n" + c + "\n" + rest, '\n') == [a, b, c] + Text.Split(rest, '\n')
  {
    var cr := c + "\n" + rest;
    var bcr := b + "\n" + cr;
    Regroup(a, b, c, rest, "\n");
    Text.SplitLine(a, bcr, '\n');
    Text.SplitLine(b, cr, '\n');
    Text.SplitLine(c, rest, '\n');
    ConsThreeAppend(a, b, c, Text.Split(rest, '\n'));
  }

  lemma NonBlankThenMore(a: string, b: string, c: string, rs: seq<string>)
    requires Text.Trim(a) != [] && Text.Trim(b) != [] && Text.Trim(c) != []
    ensures NonBlank([a, b, c] + rs) == [a, b, c] + NonBlank(rs)
  {
    NonBlankAppend([a, b, c], rs);
    NonBlankOfThree(a, b, c);
  }

  lemma NonBlankOfThree(a: string, b: string, c: string)
    requires Text.Trim(a) != [] && Text.Trim(b) != [] && Text.Trim(c) != []
    ensures NonBlank([a, b, c]) == [a, b, c]
  {
    NonBlankOfTwo(b, c);
    ConsThree(a, b, c);
    NonBlankCons(a, [b, c]);
  }

  lemma NoMerchantAmongThree(a: string, b: string, c: string)
    requires !IsMerchantLine(a) && !IsMerchantLine(b) && !IsMerchantLine(c)
    ensures FirstMerchant([a, b, c]).None?
  {
    NoneOfThree(IsMerchantLine, a, b, c);
  }

  // ---------------------------------------------------------------------------
  // Line items

  /** A purchased item: its description and price. */
  datatype Item = Item(description: string, amount: Cents)

  /** `\s+\$?N\s*$` over the whole of `s`: the price at the end of a line,
      with the number it captures. */
  function PriceTail(s: string): (r: Option<Number>)
    ensures r.Some? ==> Run(s, Text.IsSpace) > 0
  {
    var w := Run(s, Text.IsSpace);
    if w == 0 then None else DollarPrice(s[w..])
  }

  /** `\$?N\s*$` over the whole of `u`. */
  function DollarPrice(u: string): Option<Number>
  {
    EndingNumber(if u != [] && u[0] == '$' then u[1..] else u)
  }

  /** `N\s*$` over the whole of `v`. */
  function EndingNumber(v: string): Option<Number>
  {
    match NumberAt(v)
    case None => None
    case Some(n) => if Run(v[n.len..], Text.IsSpace) == |v| - n.len then Some(n) else None
  }

  /** Where a line's description ends and the price that follows it. */
  datatype LineMatch = LineMatch(cut: nat, price: Number)

  predicate NotLineTerminator(ch: char)
  {
    !Text.IsLineTerminator(ch)
  }

  /** The least `cut` from `cut` up to `last` at which `tail` matches the
      rest of the line. */
  function MatchFrom(line: string, cut: nat, last: nat, tail: string -> Option<Number>): (r: Option<LineMatch>)
    requires last <= |line|
    ensures r.Some? ==> cut <= r.value.cut <= last
                        && tail(line[r.value.cut..]) == Some(r.value.price)
                        && forall c :: cut <= c < r.value.cut ==> tail(line[c..]).None?
    ensures r.None? ==> forall c :: cut <= c <= last ==> tail(line[c..]).None?
    decreases last + 1 - cut
  {
    if cut > last then None
    else match tail(line[cut..])
      case Some(n) => Some(LineMatch(cut, n))
      case None => MatchFrom(line, cut + 1, last, tail)
  }

  /** `line.match(/^(.+?)\s+\$?(\d+[.,]\d{2})\s*$/)`: the lazy description
      is the shortest non-empty prefix without a line terminator that a
      price follows to the end of the line. */
  function MatchLine(line: string): (r: Option<LineMatch>)
    ensures r.Some? ==> 1 <= r.value.cut <= |line|
                        && (forall k :: 0 <= k < r.value.cut ==> !Text.IsLineTerminator(line[k]))
                        && PriceTail(line[r.value.cut..]) == Some(r.value.price)
                        && forall c :: 1 <= c < r.value.cut ==> PriceTail(line[c..]).None?
    ensures r.None? ==> forall c :: 1 <= c <= |line| && (forall k :: 0 <= k < c ==> !Text.IsLineTerminator(line[k]))
                                    ==> PriceTail(line[c..]).None?
  {
    var last := Run(line, NotLineTerminator);
    MatchFrom(line, 1, last, PriceTail)
  }

  const SkipWords: seq<string> := ["total", "subtotal", "tax", "tip", "change", "cash", "credit", "debit"]

  /** The description mentions a total, tax, tip or payment, in any case. */
  predicate HasSkipWord(description: string)
  {
    exists word <- SkipWords :: Text.Contains(Text.Lower(description), word)
  }

  /** The item a line lists, if it lists one the parser keeps. */
  function LineItem(line: string): (r: Option<Item>)
    ensures r.Some? ==> |r.value.description| > 1 && 0 < r.value.amount < 100000
    ensures r.Some? ==> !HasSkipWord(r.value.description)
    ensures r.Some? ==> Text.Trimmed(r.value.description)
    ensures MatchLine(line).None? ==> r.None?
    ensures MatchLine(line).Some? ==>
              var m := MatchLine(line).value;
              var d := Text.Trim(line[..m.cut]);
              var a := KeywordCents(m.price);
              && (r.Some? <==> !HasSkipWord(d) && |d| > 1 && 0 < a < 100000)
              && (r.Some? ==> r.value == Item(d, a))
  {
    match MatchLine(line)
    case None => None
    case Some(m) =>
      var description := Text.Trim(line[..m.cut]);
      var amount := KeywordCents(m.price);
      if !HasSkipWord(description) && |description| > 1 && 0 < amount < 100000
      then Some(Item(description, amount))
      else None
  }

  /** The items of `lines`, in line order. */
  function Items(lines: seq<string>): (r: seq<Item>)
    ensures |r| <= |lines|
    ensures forall it <- r :: exists l <- lines :: LineItem(l) == Some(it)
    ensures forall l <- lines :: LineItem(l).Some? ==> LineItem(l).value in r
  {
    Collect(lines, LineItem)
  }

  lemma ItemsAppend(a: seq<string>, b: seq<string>)
    ensures Items(a + b) == Items(a) + Items(b)
  {
    CollectAppend(a, b, LineItem);
  }

  /** The line items of a receipt, one per line that lists one. */
  function ExtractLineItems(text: string): (r: seq<Item>)
    ensures forall it <- r :: |it.description| > 1 && 0 < it.amount < 100000 && !HasSkipWord(it.description)
    ensures forall it <- r :: exists l <- Text.Split(text, '\n') :: LineItem(l) == Some(it)
    ensures forall l <- Text.Split(text, '\n') :: LineItem(l).Some? ==> LineItem(l).value in r
  {
    Items(Text.Split(text, '\n'))
  }

  /** Items keep the order of their lines: the items of two texts joined by
      a line break are the items of the first followed by those of the
      second. */
  lemma LineItemsInOrder(a: string, b: string)
    ensures ExtractLineItems(a + "\n" + b) == ExtractLineItems(a) + ExtractLineItems(b)
  {
    Text.SplitAppend(a, b, '\n');
    ItemsAppend(Text.Split(a, '\n'), Text.Split(b, '\n'));
  }

  /** An item printed as its description, a space, '$' and its price. */
  function ItemLine(it: Item): string
    requires it.amount >= 0
  {
    it.description + " $" + Format(it.amount)
  }

  /** A kept item printed on a line reads back as itself when its
      description has no white space. */
  lemma ItemRoundTrip(it: Item)
    requires |it.description| > 1 && 0 < it.amount < 100000 && !HasSkipWord(it.description)
    requires forall k :: 0 <= k < |it.description| ==> !Text.IsSpace(it.description[k])
    ensures LineItem(ItemLine(it)) == Some(it)
    ensures ExtractLineItems(ItemLine(it)) == [it]
  {
    var line := ItemLine(it);
    ItemLineReadsBack(it);
    ItemLineIsOneLine(it);
    Text.SplitSingle(line, '\n');
    assert [line][1..] == [];
  }

  lemma ItemLineReadsBack(it: Item)
    requires |it.description| > 1 && 0 < it.amount < 100000 && !HasSkipWord(it.description)
    requires forall k :: 0 <= k < |it.description| ==> !Text.IsSpace(it.description[k])
    ensures LineItem(ItemLine(it)) == Some(it)
  {
    var m := LineMatch(|it.description|, Number(it.amount / 100, false, it.amount % 100, |Format(it.amount)|));
    ItemLineMatches(it);
    ItemLineDescription(it);
    CentsOfParts(it.amount, |Format(it.amount)|);
    LineItemOf(ItemLine(it), m, it);
  }

  /** The text before an item line's price trims to the description. */
  lemma ItemLineDescription(it: Item)
    requires it.amount >= 0
    requires forall k :: 0 <= k < |it.description| ==> !Text.IsSpace(it.description[k])
    ensures |it.description| <= |ItemLine(it)|
    ensures Text.Trim(ItemLine(it)[..|it.description|]) == it.description
  {
    var d := it.description;
    var line := ItemLine(it);
    assert line == d + (" $" + Format(it.amount));
    assert line[..|d|] == d;
    TrimUnspaced(d);
  }

  /** A matched line whose trimmed description and price pass the filters is
      kept as that item. */
  lemma LineItemOf(line: string, m: LineMatch, it: Item)
    requires MatchLine(line) == Some(m) && m.cut <= |line|
    requires Text.Trim(line[..m.cut]) == it.description && KeywordCents(m.price) == it.amount
    requires |it.description| > 1 && 0 < it.amount < 100000 && !HasSkipWord(it.description)
    ensures LineItem(line) == Some(it)
  {
  }

  /** The lazy description of an item line stops at the item's own
      description. */
  lemma ItemLineMatches(it: Item)
    requires |it.description| > 1 && it.amount >= 0
    requires forall k :: 0 <= k < |it.description| ==> !Text.IsSpace(it.description[k])
    ensures MatchLine(ItemLine(it))
            == Some(LineMatch(|it.description|, Number(it.amount / 100, false, it.amount % 100, |Format(it.amount)|)))
  {
    var d := it.description;
    var line := ItemLine(it);
    var n := Number(it.amount / 100, false, it.amount % 100, |Format(it.amount)|);
    assert line == d + (" $" + Format(it.amount));
    assert line[|d|..] == " $" + Format(it.amount);
    PriceTailOfFormat(it.amount);
    forall c | 1 <= c < |d|
      ensures PriceTail(line[c..]).None?
    {
      assert line[c..][0] == d[c];
    }
    forall k | 0 <= k < |d|
      ensures !Text.IsLineTerminator(line[k])
    {
      assert line[k] == d[k];
    }
    MatchLineAt(line, |d|, n);
  }

  /** The line matches with the least cut a price follows. */
  lemma MatchLineAt(line: string, cut: nat, n: Number)
    requires 1 <= cut <= |line|
    requires forall k :: 0 <= k < cut ==> !Text.IsLineTerminator(line[k])
    requires PriceTail(line[cut..]) == Some(n)
    requires forall c :: 1 <= c < cut ==> PriceTail(line[c..]).None?
    ensures MatchLine(line) == Some(LineMatch(cut, n))
  {
    var r := MatchLine(line);
    assert r.Some?;
    assert r.value.cut <= cut;
  }

  /** `\s+\$?N\s*$` reads a price printed after a space and a '$'. */
  lemma PriceTailOfFormat(c: Cents)
    requires c >= 0
    ensures PriceTail(" $" + Format(c)) == Some(Number(c / 100, false, c % 100, |Format(c)|))
  {
    var f := Format(c);
    NumberOfFormat(c, []);
    assert f + [] == f;
    PriceTailOfDollar(f, Number(c / 100, false, c % 100, |f|));
  }

  /** A space and a '$' before a number that fills the rest of the text. */
  lemma PriceTailOfDollar(f: string, n: Number)
    requires NumberAt(f) == Some(n) && n.len == |f|
    ensures PriceTail(" $" + f) == Some(n)
  {
    assert " $" + f == " " + ("$" + f);
    PriceTailAfterSpace("$" + f);
    DollarPriceOf(f, n);
  }

  /** One space before text that does not start with white space. */
  lemma PriceTailAfterSpace(u: string)
    requires u != [] && !Text.IsSpace(u[0])
    ensures PriceTail(" " + u) == DollarPrice(u)
  {
    var t := " " + u;
    RunStops(t, Text.IsSpace, 1);
    assert t[1..] == u;
  }

  /** A '$' before a number that fills the rest of the text. */
  lemma DollarPriceOf(f: string, n: Number)
    requires NumberAt(f) == Some(n) && n.len == |f|
    ensures DollarPrice("$" + f) == Some(n)
  {
    assert ("$" + f)[1..] == f;
    assert f[|f|..] == [];
  }

  /** An item line has no line break: the printed price has only digits and
      a point, and the description no white space. */
  lemma ItemLineIsOneLine(it: Item)
    requires it.amount >= 0
    requires forall k :: 0 <= k < |it.description| ==> !Text.IsSpace(it.description[k])
    ensures '\n' !in ItemLine(it)
  {
    var f := Format(it.amount);
    FormatHasNoLetters(it.amount);
    assert ItemLine(it) == it.description + " $" + f;
    assert forall k :: 0 <= k < |f| ==> f[k] != '\n';
  }

  /** A string without white space trims to itself. */
  lemma TrimUnspaced(s: string)
    requires forall k :: 0 <= k < |s| ==> !Text.IsSpace(s[k])
    ensures Text.Trim(s) == s
  {
    if s != [] {
      assert !Text.IsSpace(s[0]);
      assert Text.TrimStart(s) == s;
      assert !Text.IsSpace(s[|s| - 1]);
    }
  }
}
