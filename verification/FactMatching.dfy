/** Exact comparison of raw fact strings. */
module FactMatching {
  import opened Wrappers
  import opened Strings

  const POUND: string := "\U{00A3}"
  const DOLLAR: string := "$"
  const EURO: string := "\U{20AC}"

  /** What `\s` and `strip` treat as white space. */
  predicate Space(c: char) {
    || '\t' <= c <= '\r' || '\U{001C}' <= c <= ' ' || c == '\U{0085}' || c == '\U{00A0}' || c == '\U{1680}'
    || '\U{2000}' <= c <= '\U{200A}' || c == '\U{2028}' || c == '\U{2029}' || c == '\U{202F}' || c == '\U{205F}'
    || c == '\U{3000}'
  }

  predicate Digit(c: char) {
    '0' <= c <= '9'
  }

  predicate Capital(c: char) {
    'A' <= c <= 'Z'
  }

  predicate AllDigits(s: string) {
    forall i | 0 <= i < |s| :: Digit(s[i])
  }

  predicate DigitsAndCommas(s: string) {
    forall i | 0 <= i < |s| :: Digit(s[i]) || s[i] == ','
  }

  function StripLeft(s: string): string {
    if s != "" && Space(s[0]) then StripLeft(s[1..]) else s
  }

  function StripRight(s: string): string {
    if s != "" && Space(s[|s| - 1]) then StripRight(s[..|s| - 1]) else s
  }

  function Strip(s: string): string {
    StripRight(StripLeft(s))
  }

  // ---- Numbers ----

  function DigitValue(c: char): nat
    requires Digit(c)
  {
    c as int - '0' as int
  }

  function DropCommas(s: string): string {
    if s == "" then "" else (if s[0] == ',' then "" else [s[0]]) + DropCommas(s[1..])
  }

  function IntegerValue(s: string): nat
    requires AllDigits(s)
  {
    if s == "" then 0 else 10 * IntegerValue(s[..|s| - 1]) + DigitValue(s[|s| - 1])
  }

  function FractionValue(s: string): real
    requires AllDigits(s)
  {
    if s == "" then 0.0 else (DigitValue(s[0]) as real + FractionValue(s[1..])) / 10.0
  }

  function IndexOf(s: string, c: char): (i: nat)
    ensures i <= |s|
    ensures i < |s| ==> s[i] == c
    ensures forall k | 0 <= k < i :: s[k] != c
  {
    if s == "" || s[0] == c then 0 else 1 + IndexOf(s[1..], c)
  }

  lemma {:induction false} DropCommasDigits(s: string)
    requires DigitsAndCommas(s)
    ensures AllDigits(DropCommas(s))
  {
    if s != "" { DropCommasDigits(s[1..]); }
  }

  /** `[\d,]+(?:\.\d+)?` over the whole string, then its exact decimal value. Commas alone are not a number. */
  function ReadNumber(s: string): Option<real> {
    var dot := IndexOf(s, '.');
    var whole := s[..dot];
    if whole == "" || !DigitsAndCommas(whole) then None
    else
      DropCommasDigits(whole);
      var digits := DropCommas(whole);
      if dot == |s| then (if digits == "" then None else Some(IntegerValue(digits) as real))
      else
        var fraction := s[dot + 1..];
        if fraction == "" || !AllDigits(fraction) then None
        else Some(IntegerValue(digits) as real + FractionValue(fraction))
  }

  // ---- Amounts ----

  /** ISO codes normalised onto their symbol. */
  function CanonicalCurrency(currency: string): string {
    if currency == "GBP" then POUND
    else if currency == "USD" then DOLLAR
    else if currency == "EUR" then EURO
    else currency
  }

  predicate Symbol(c: char) {
    [c] == POUND || [c] == DOLLAR || [c] == EURO
  }

  predicate Code(s: string) {
    |s| == 3 && Capital(s[0]) && Capital(s[1]) && Capital(s[2])
  }

  /** Skip the single optional space between currency and number. */
  function SkipOne(s: string): string {
    if s != "" && Space(s[0]) then s[1..] else s
  }

  function SkipOneRight(s: string): string {
    if s != "" && Space(s[|s| - 1]) then s[..|s| - 1] else s
  }

  function WithCurrency(currency: string, number: Option<real>): Option<(string, real)> {
    match number
    case None => None
    case Some(v) => Some((CanonicalCurrency(currency), v))
  }

  function ParseAmount(raw: string): Option<(string, real)> {
    var s := Strip(raw);
    if s != "" && Symbol(s[0]) then WithCurrency(s[..1], ReadNumber(SkipOne(s[1..])))
    else if |s| >= 3 && Code(s[..3]) then WithCurrency(s[..3], ReadNumber(SkipOne(s[3..])))
    else if |s| >= 3 && Code(s[|s| - 3..]) then WithCurrency(s[|s| - 3..], ReadNumber(SkipOneRight(s[..|s| - 3])))
    else None
  }

  /** Three-valued agreement: None when either side cannot be read, which is not disagreement. */
  function Compare<V(==)>(a: Option<V>, b: Option<V>): Option<bool> {
    if a.None? || b.None? then None else Some(a.value == b.value)
  }

  function AmountsMatch(a: string, b: string): Option<bool> {
    Compare(ParseAmount(a), ParseAmount(b))
  }

  /** Calendar parsing is left uninterpreted: `parse` maps a raw date to its day number, or to nothing. */
  function DeadlinesMatch(parse: string -> Option<int>, a: string, b: string): Option<bool> {
    Compare(parse(a), parse(b))
  }

  // ---- What spelling does not change ----

  lemma {:induction false} TrailingZeros(s: string, zeros: string)
    requires AllDigits(s) && forall i | 0 <= i < |zeros| :: zeros[i] == '0'
    ensures AllDigits(s + zeros) && FractionValue(s + zeros) == FractionValue(s)
    decreases |s| + |zeros|
  {
    if s != "" {
      assert (s + zeros)[1..] == s[1..] + zeros;
      TrailingZeros(s[1..], zeros);
    } else if zeros != "" {
      assert s + zeros == zeros && zeros[1..] == "" + zeros[1..];
      TrailingZeros("", zeros[1..]);
    } else {
      assert s + zeros == "";
    }
  }

  lemma {:induction false} FractionBelowOne(s: string)
    requires AllDigits(s)
    ensures 0.0 <= FractionValue(s) < 1.0
  {
    if s != "" { FractionBelowOne(s[1..]); }
  }

  // ---- What values do not forget ----

  function DropLeadingZeros(s: string): string {
    if s != "" && s[0] == '0' then DropLeadingZeros(s[1..]) else s
  }

  function DropTrailingZeros(s: string): string {
    if s != "" && s[|s| - 1] == '0' then DropTrailingZeros(s[..|s| - 1]) else s
  }

  lemma {:induction false} LeadingZero(s: string)
    requires AllDigits(s) && s != "" && s[0] == '0'
    ensures IntegerValue(s) == IntegerValue(s[1..])
  {
    if |s| > 1 {
      LeadingZero(s[..|s| - 1]);
      assert s[..|s| - 1][1..] == s[1..][..|s[1..]| - 1];
    } else {
      assert s == "0";
      assert IntegerValue(s[..0]) == 0;
    }
  }

  lemma {:induction false} LeadingZerosWorthless(s: string)
    requires AllDigits(s)
    ensures var t := DropLeadingZeros(s);
            AllDigits(t) && IntegerValue(t) == IntegerValue(s) && (t == "" || t[0] != '0')
  {
    if s != "" && s[0] == '0' {
      LeadingZero(s);
      LeadingZerosWorthless(s[1..]);
    }
  }

  lemma {:induction false} IntegerPositive(s: string)
    requires AllDigits(s) && s != "" && s[0] != '0'
    ensures IntegerValue(s) >= 1
  {
    if |s| > 1 { IntegerPositive(s[..|s| - 1]); }
  }

  lemma {:induction false} IntegerInjective(s: string, t: string)
    requires AllDigits(s) && AllDigits(t) && IntegerValue(s) == IntegerValue(t)
    requires (s == "" || s[0] != '0') && (t == "" || t[0] != '0')
    ensures s == t
  {
    if s != "" { IntegerPositive(s); }
    if t != "" { IntegerPositive(t); }
    if s != "" && t != "" {
      var a, b := s[|s| - 1], t[|t| - 1];
      assert IntegerValue(s) % 10 == DigitValue(a) && IntegerValue(t) % 10 == DigitValue(b);
      IntegerInjective(s[..|s| - 1], t[..|t| - 1]);
      assert s == s[..|s| - 1] + [a] && t == t[..|t| - 1] + [b];
    }
  }

  lemma {:induction false} TrailingZerosWorthless(s: string)
    requires AllDigits(s)
    ensures var t := DropTrailingZeros(s);
            AllDigits(t) && FractionValue(t) == FractionValue(s) && (t == "" || t[|t| - 1] != '0')
  {
    if s != "" && s[|s| - 1] == '0' {
      TrailingZeros(s[..|s| - 1], "0");
      assert s == s[..|s| - 1] + "0";
      TrailingZerosWorthless(s[..|s| - 1]);
    }
  }

  lemma {:induction false} FractionPositive(s: string)
    requires AllDigits(s) && s != "" && s[|s| - 1] != '0'
    ensures FractionValue(s) > 0.0
  {
    FractionBelowOne(s[1..]);
    if |s| > 1 { FractionPositive(s[1..]); }
  }

  lemma {:induction false} FractionInjective(s: string, t: string)
    requires AllDigits(s) && AllDigits(t) && FractionValue(s) == FractionValue(t)
    requires (s == "" || s[|s| - 1] != '0') && (t == "" || t[|t| - 1] != '0')
    ensures s == t
  {
    if s != "" { FractionPositive(s); }
    if t != "" { FractionPositive(t); }
    if s != "" && t != "" {
      FractionBelowOne(s[1..]);
      FractionBelowOne(t[1..]);
      assert DigitValue(s[0]) == DigitValue(t[0]);
      FractionInjective(s[1..], t[1..]);
      assert s == [s[0]] + s[1..] && t == [t[0]] + t[1..];
    }
  }

  /** Two decimal readings are equal exactly when the digits are, zeros at the outer ends aside. */
  lemma DecimalsEqualIff(s: string, f: string, t: string, g: string)
    requires AllDigits(s) && AllDigits(f) && AllDigits(t) && AllDigits(g)
    ensures IntegerValue(s) as real + FractionValue(f) == IntegerValue(t) as real + FractionValue(g) <==>
            DropLeadingZeros(s) == DropLeadingZeros(t) && DropTrailingZeros(f) == DropTrailingZeros(g)
  {
    LeadingZerosWorthless(s);
    LeadingZerosWorthless(t);
    TrailingZerosWorthless(f);
    TrailingZerosWorthless(g);
    FractionBelowOne(f);
    FractionBelowOne(g);
    if IntegerValue(s) as real + FractionValue(f) == IntegerValue(t) as real + FractionValue(g) {
      IntegerInjective(DropLeadingZeros(s), DropLeadingZeros(t));
      FractionInjective(DropTrailingZeros(f), DropTrailingZeros(g));
    }
  }

  lemma StripKeeps(s: string)
    requires s == "" || (!Space(s[0]) && !Space(s[|s| - 1]))
    ensures Strip(s) == s
  {
  }

  /** A code and the symbol it stands for. */
  predicate Alias(code: string, symbol: string) {
    (code == "GBP" && symbol == POUND) || (code == "USD" && symbol == DOLLAR) || (code == "EUR" && symbol == EURO)
  }

  /** One currency, by symbol or by code. */
  predicate SameCurrency(a: string, b: string) {
    a == b || Alias(a, b) || Alias(b, a)
  }

  lemma SameCurrencyIff(a: string, b: string)
    ensures CanonicalCurrency(a) == CanonicalCurrency(b) <==> SameCurrency(a, b)
  {
  }

  /** Dropping commas drops nothing else, and keeps the order. */
  lemma {:induction false} DropCommasKeeps(s: string) returns (at: seq<nat>)
    ensures Picked(DropCommas(s), s, at)
    ensures forall i | 0 <= i < |s| :: i in at <==> s[i] != ','
  {
    if s == "" {
      at := [];
    } else {
      var rest := DropCommasKeeps(s[1..]);
      at := InFront(s[0] != ',', rest);
      PickedInFront(DropCommas(s[1..]), s[1..], rest, s[0], s[0] != ',');
      assert s == [s[0]] + s[1..];
      forall i | 0 <= i < |s| ensures i in at <==> s[i] != ',' { InFrontHas(s[0] != ',', rest, i); }
    }
  }
}
