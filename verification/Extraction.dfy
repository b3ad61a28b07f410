/** Funding mentions: the extractor's grammar, its scan, and the comparator that reads what it emits. */
module Extraction {
  import opened Wrappers
  import opened Strings
  import opened FactMatching

  const CURRENCY_CODES: seq<string> :=
    ["GBP", "USD", "EUR", "CAD", "AUD", "NZD", "CHF", "JPY", "CNY", "INR", "ZAR", "SEK", "NOK", "DKK", "SGD"]

  const MORE_CURRENCY_CODES: seq<string> :=
    ["HKD", "NGN", "KES", "GHS", "TRY", "BRL", "MXN", "PLN", "CZK", "HUF", "RON", "AED", "SAR"]

  predicate KnownCode(c: string) {
    OneOf(c, CURRENCY_CODES) || OneOf(c, MORE_CURRENCY_CODES)
  }

  datatype Placement = SymbolBefore | CodeBefore | CodeAfter

  /** One string of the grammar, taken apart. `fraction` excludes its point. */
  datatype Mention = Mention(placement: Placement, currency: string, gap: string, digits: string,
                             fraction: Option<string>)

  predicate InGrammar(m: Mention) {
    && (m.placement == SymbolBefore ==> |m.currency| == 1 && Symbol(m.currency[0]))
    && (m.placement != SymbolBefore ==> KnownCode(m.currency))
    && (m.gap == "" || (|m.gap| == 1 && Space(m.gap[0])))
    && m.digits != "" && Digit(m.digits[0]) && DigitsAndCommas(m.digits)
    && (m.fraction.Some? ==> m.fraction.value != "" && AllDigits(m.fraction.value))
  }

  function Number(m: Mention): string {
    m.digits + (if m.fraction.Some? then "." + m.fraction.value else "")
  }

  function Render(m: Mention): string {
    if m.placement == CodeAfter then Number(m) + m.gap + m.currency else m.currency + m.gap + Number(m)
  }

  lemma {:induction false} DropCommasKeepsFirst(s: string)
    requires s != "" && Digit(s[0])
    ensures DropCommas(s) != ""
  {
  }

  /** The exact value a mention denotes. */
  function Value(m: Mention): real
    requires InGrammar(m)
  {
    DropCommasDigits(m.digits);
    IntegerValue(DropCommas(m.digits)) as real + (if m.fraction.Some? then FractionValue(m.fraction.value) else 0.0)
  }

  lemma NumberReads(m: Mention)
    requires InGrammar(m)
    ensures ReadNumber(Number(m)) == Some(Value(m))
  {
    var s := Number(m);
    var dot := IndexOf(s, '.');
    DropCommasKeepsFirst(m.digits);
    if m.fraction.Some? {
      assert s[|m.digits|] == '.';
      assert dot == |m.digits| by {
        assert forall k | 0 <= k < |m.digits| :: s[k] == m.digits[k];
      }
      assert s[..dot] == m.digits && s[dot + 1..] == m.fraction.value;
    } else {
      assert s == m.digits;
      assert dot == |s|;
      assert s[..dot] == m.digits;
    }
  }

  lemma NumberEdges(m: Mention)
    requires InGrammar(m)
    ensures Number(m) != ""
    ensures Digit(Number(m)[0])
    ensures var last := Number(m)[|Number(m)| - 1]; Digit(last) || last == ','
  {
  }

  lemma {:induction false} OneOfCodes(c: string, codes: seq<string>)
    requires OneOf(c, codes) && forall k | k in codes :: Code(k)
    ensures Code(c)
  {
    if c != codes[0] { OneOfCodes(c, codes[1..]); }
  }

  lemma FirstCodesAreCodes(c: string)
    requires OneOf(c, CURRENCY_CODES)
    ensures Code(c)
  {
    OneOfCodes(c, CURRENCY_CODES);
  }

  lemma MoreCodesAreCodes(c: string)
    requires OneOf(c, MORE_CURRENCY_CODES)
    ensures Code(c)
  {
    OneOfCodes(c, MORE_CURRENCY_CODES);
  }

  lemma CodesAreCodes(c: string)
    requires KnownCode(c)
    ensures Code(c)
  {
    if OneOf(c, CURRENCY_CODES) { FirstCodesAreCodes(c); } else { MoreCodesAreCodes(c); }
  }

  lemma SpaceIsNoDigit(gap: string, n: string)
    requires gap == "" || (|gap| == 1 && Space(gap[0]))
    requires n != "" && Digit(n[0])
    ensures SkipOne(gap + n) == n
  {
  }

  lemma SpaceIsNoDigitRight(n: string, gap: string)
    requires gap == "" || (|gap| == 1 && Space(gap[0]))
    requires n != "" && (Digit(n[|n| - 1]) || n[|n| - 1] == ',')
    ensures SkipOneRight(n + gap) == n
  {
    if gap == "" { assert n + gap == n; } else { assert (n + gap)[..|n|] == n; }
  }

  lemma SymbolFirst(symbol: string, gap: string, n: string)
    requires |symbol| == 1 && Symbol(symbol[0])
    requires gap == "" || (|gap| == 1 && Space(gap[0]))
    requires n != "" && Digit(n[0]) && (Digit(n[|n| - 1]) || n[|n| - 1] == ',')
    ensures ParseAmount(symbol + gap + n) == WithCurrency(symbol, ReadNumber(n))
  {
    var s := symbol + gap + n;
    assert s[0] == symbol[0] && s[|s| - 1] == n[|n| - 1];
    StripKeeps(s);
    assert s[..1] == symbol && s[1..] == gap + n;
    SpaceIsNoDigit(gap, n);
  }

  lemma CodeIsNoSymbol(s: string)
    requires |s| >= 3 && Code(s[..3])
    ensures !Symbol(s[0])
  {
    assert s[..3][0] == s[0];
  }

  lemma CodeReads(s: string)
    requires Strip(s) == s && |s| >= 3 && Code(s[..3])
    ensures ParseAmount(s) == WithCurrency(s[..3], ReadNumber(SkipOne(s[3..])))
  {
    CodeIsNoSymbol(s);
  }

  lemma CodeFirst(code: string, gap: string, n: string)
    requires Code(code)
    requires gap == "" || (|gap| == 1 && Space(gap[0]))
    requires n != "" && Digit(n[0]) && (Digit(n[|n| - 1]) || n[|n| - 1] == ',')
    ensures ParseAmount(code + gap + n) == WithCurrency(code, ReadNumber(n))
  {
    var s := code + gap + n;
    assert s[0] == code[0] && s[|s| - 1] == n[|n| - 1];
    StripKeeps(s);
    assert s[..3] == code && s[3..] == gap + n;
    CodeReads(s);
    SpaceIsNoDigit(gap, n);
  }

  lemma CodeLast(n: string, gap: string, code: string)
    requires Code(code)
    requires gap == "" || (|gap| == 1 && Space(gap[0]))
    requires n != "" && Digit(n[0]) && (Digit(n[|n| - 1]) || n[|n| - 1] == ',')
    ensures ParseAmount(n + gap + code) == WithCurrency(code, ReadNumber(n))
  {
    var s := n + gap + code;
    assert s[0] == n[0] && s[|s| - 1] == code[2];
    StripKeeps(s);
    assert s[|s| - 3..] == code && s[..|s| - 3] == n + gap;
    assert s[..3][0] == n[0];
    SpaceIsNoDigitRight(n, gap);
  }

  /** Everything the grammar can say, the comparator can read, at its exact value and canonical currency. */
  lemma EveryMentionReadable(m: Mention)
    requires InGrammar(m)
    ensures ParseAmount(Render(m)) == Some((CanonicalCurrency(m.currency), Value(m)))
  {
    NumberReads(m);
    NumberEdges(m);
    if m.placement == SymbolBefore {
      SymbolFirst(m.currency, m.gap, Number(m));
    } else {
      CodesAreCodes(m.currency);
      if m.placement == CodeBefore { CodeFirst(m.currency, m.gap, Number(m)); }
      else { CodeLast(Number(m), m.gap, m.currency); }
    }
  }

  lemma RenderIsText(m: Mention)
    requires InGrammar(m)
    ensures Render(m) != ""
  {
  }

  function FractionDigits(m: Mention): string {
    if m.fraction.Some? then m.fraction.value else ""
  }

  lemma ValueOfParts(m: Mention)
    requires InGrammar(m)
    ensures AllDigits(DropCommas(m.digits)) && AllDigits(FractionDigits(m))
    ensures Value(m) == IntegerValue(DropCommas(m.digits)) as real + FractionValue(FractionDigits(m))
  {
    DropCommasDigits(m.digits);
  }

  lemma VerdictOnValues(a: Mention, b: Mention)
    requires InGrammar(a) && InGrammar(b)
    ensures AmountsMatch(Render(a), Render(b)) ==
            Some(CanonicalCurrency(a.currency) == CanonicalCurrency(b.currency) && Value(a) == Value(b))
  {
    EveryMentionReadable(a);
    EveryMentionReadable(b);
  }

  /** One sum of money: the currencies are one currency and the digits are the same digits - commas, outer zeros,
      symbol or code, side and spacing aside. */
  predicate SameMoney(a: Mention, b: Mention) {
    && SameCurrency(a.currency, b.currency)
    && DropLeadingZeros(DropCommas(a.digits)) == DropLeadingZeros(DropCommas(b.digits))
    && DropTrailingZeros(FractionDigits(a)) == DropTrailingZeros(FractionDigits(b))
  }

  /** No tolerance and no spelling: two mentions always get a verdict, and it is agreement exactly when they are one
      sum of money. */
  lemma AgreeIff(a: Mention, b: Mention)
    requires InGrammar(a) && InGrammar(b)
    ensures AmountsMatch(Render(a), Render(b)) == Some(SameMoney(a, b))
  {
    SameCurrencyIff(a.currency, b.currency);
    ValueOfParts(a);
    ValueOfParts(b);
    DecimalsEqualIff(DropCommas(a.digits), FractionDigits(a), DropCommas(b.digits), FractionDigits(b));
    VerdictOnValues(a, b);
  }

  // ---- The scan ----

  /** Length of the leading run of digits and commas. */
  function DigitRun(s: string): (n: nat)
    ensures n <= |s| && DigitsAndCommas(s[..n])
    ensures n < |s| ==> !Digit(s[n]) && s[n] != ','
  {
    if s == "" || !(Digit(s[0]) || s[0] == ',') then 0
    else
      var n := 1 + DigitRun(s[1..]);
      assert forall i | 1 <= i < n :: s[i] == s[1..][..n - 1][i - 1];
      n
  }

  function FractionRun(s: string): (n: nat)
    ensures n <= |s| && AllDigits(s[..n])
    ensures n < |s| ==> !Digit(s[n])
  {
    if s == "" || !Digit(s[0]) then 0
    else
      var n := 1 + FractionRun(s[1..]);
      assert forall i | 1 <= i < n :: s[i] == s[1..][..n - 1][i - 1];
      n
  }

  /** The number at the front of `s`, longest first: digits and commas, then a point only if digits follow it. */
  function NumberAt(s: string): Option<(string, Option<string>)> {
    if s == "" || !Digit(s[0]) then None
    else
      var n := DigitRun(s);
      if n < |s| && s[n] == '.' && FractionRun(s[n + 1..]) > 0
      then Some((s[..n], Some(s[n + 1..][..FractionRun(s[n + 1..])])))
      else Some((s[..n], None))
  }

  function Gap(s: string): string {
    if s != "" && Space(s[0]) then s[..1] else ""
  }

  function CodeAt(s: string): Option<string> {
    if |s| >= 3 && KnownCode(s[..3]) then Some(s[..3]) else None
  }

  /** A boundary before position `i`, whose character is a word character. */
  predicate BoundaryBefore(word: char -> bool, text: string, i: nat)
    requires i <= |text|
  {
    i == 0 || !word(text[i - 1])
  }

  function Before(placement: Placement, currency: string, rest: string): Option<Mention> {
    var gap := Gap(rest);
    match NumberAt(rest[|gap|..])
    case None => None
    case Some(n) => Some(Mention(placement, currency, gap, n.0, n.1))
  }

  /** The third alternative at the front of `s`: number, gap, code, then a boundary. */
  function After(word: char -> bool, s: string): Option<Mention> {
    match NumberAt(s)
    case None => None
    case Some(n) =>
      var length := |n.0| + (if n.1.Some? then 1 + |n.1.value| else 0);
      var rest := if length <= |s| then s[length..] else "";
      var gap := Gap(rest);
      var after := rest[|gap|..];
      if CodeAt(after).Some? && (|after| == 3 || !word(after[3]))
      then Some(Mention(CodeAfter, after[..3], gap, n.0, n.1)) else None
  }

  /** The match the pattern makes at position `i`, if any. Its three alternatives start with different
      characters; the two with a code need a word boundary in front. */
  function MatchAt(word: char -> bool, text: string, i: nat): Option<Mention>
    requires i < |text|
  {
    var s := text[i..];
    if Symbol(s[0]) then Before(SymbolBefore, s[..1], s[1..])
    else if !BoundaryBefore(word, text, i) then None
    else if CodeAt(s).Some? then Before(CodeBefore, s[..3], s[3..])
    else After(word, s)
  }

  lemma NumberAtIsPrefix(s: string, placement: Placement, currency: string, gap: string)
    requires NumberAt(s).Some?
    ensures var n := NumberAt(s).value;
            var m := Mention(placement, currency, gap, n.0, n.1);
            && n.0 != "" && Digit(n.0[0]) && DigitsAndCommas(n.0)
            && (n.1.Some? ==> n.1.value != "" && AllDigits(n.1.value))
            && |Number(m)| <= |s| && s[..|Number(m)|] == Number(m) && Number(m) != ""
  {
    var n := DigitRun(s);
    if NumberAt(s).value.1.Some? {
      var f := FractionRun(s[n + 1..]);
      assert s[..n + 1 + f] == s[..n] + "." + s[n + 1..][..f];
    }
  }

  lemma BeforeSound(placement: Placement, currency: string, rest: string)
    requires Before(placement, currency, rest).Some?
    ensures var m := Before(placement, currency, rest).value;
            && m.placement == placement && m.currency == currency
            && (m.gap == "" || (|m.gap| == 1 && Space(m.gap[0])))
            && m.digits != "" && Digit(m.digits[0]) && DigitsAndCommas(m.digits)
            && (m.fraction.Some? ==> m.fraction.value != "" && AllDigits(m.fraction.value))
            && |m.gap + Number(m)| <= |rest| && rest[..|m.gap + Number(m)|] == m.gap + Number(m)
  {
    var m := Before(placement, currency, rest).value;
    NumberAtIsPrefix(rest[|m.gap|..], placement, currency, m.gap);
    assert rest == m.gap + rest[|m.gap|..];
  }

  /** `part` is what `s` starts with, and so what the text has at `i`. */
  lemma Located(text: string, i: nat, part: string)
    requires i <= |text| && |part| <= |text[i..]| && text[i..][..|part|] == part
    ensures i + |part| <= |text| && text[i..i + |part|] == part
  {
  }

  lemma Prefixed(s: string, head: string, tail: string)
    requires |head| <= |s| && s[..|head|] == head
    requires |tail| <= |s[|head|..]| && s[|head|..][..|tail|] == tail
    ensures |head + tail| <= |s| && s[..|head + tail|] == head + tail
  {
    assert s == head + s[|head|..];
  }

  predicate StandsAt(s: string, text: string, i: nat) {
    i + |s| <= |text| && text[i..i + |s|] == s
  }

  predicate Leads(m: Mention, s: string) {
    InGrammar(m) && 0 < |Render(m)| <= |s| && s[..|Render(m)|] == Render(m)
  }

  lemma RenderPrefix(m: Mention, s: string, k: nat)
    requires m.placement != CodeAfter && k <= |s| && m.currency == s[..k]
    requires |m.gap + Number(m)| <= |s[k..]| && s[k..][..|m.gap + Number(m)|] == m.gap + Number(m)
    ensures |Render(m)| <= |s| && s[..|Render(m)|] == Render(m)
  {
    Prefixed(s, s[..k], m.gap + Number(m));
    assert Render(m) == s[..k] + (m.gap + Number(m));
  }

  lemma SymbolLeads(s: string)
    requires s != "" && Symbol(s[0]) && Before(SymbolBefore, s[..1], s[1..]).Some?
    ensures Leads(Before(SymbolBefore, s[..1], s[1..]).value, s)
  {
    var m := Before(SymbolBefore, s[..1], s[1..]).value;
    BeforeSound(SymbolBefore, s[..1], s[1..]);
    RenderPrefix(m, s, 1);
  }

  lemma CodeLeads(s: string)
    requires CodeAt(s).Some? && Before(CodeBefore, s[..3], s[3..]).Some?
    ensures Leads(Before(CodeBefore, s[..3], s[3..]).value, s)
  {
    var m := Before(CodeBefore, s[..3], s[3..]).value;
    BeforeSound(CodeBefore, s[..3], s[3..]);
    RenderPrefix(m, s, 3);
  }

  lemma NumberLeads(word: char -> bool, s: string)
    requires After(word, s).Some?
    ensures Leads(After(word, s).value, s)
  {
    var m := After(word, s).value;
    NumberAtIsPrefix(s, CodeAfter, m.currency, m.gap);
    var n := Number(m);
    Prefixed(s, n, m.gap);
    Prefixed(s, n + m.gap, m.currency);
  }

  /** What is matched is the text itself, and is in the grammar. */
  lemma MatchSound(word: char -> bool, text: string, i: nat)
    requires i < |text| && MatchAt(word, text, i).Some?
    ensures var m := MatchAt(word, text, i).value;
            InGrammar(m) && Render(m) != "" && StandsAt(Render(m), text, i)
  {
    var s := text[i..];
    if Symbol(s[0]) { SymbolLeads(s); }
    else if CodeAt(s).Some? { CodeLeads(s); }
    else { NumberLeads(word, s); }
    var m := MatchAt(word, text, i).value;
    assert Leads(m, s);
    Located(text, i, Render(m));
  }

  // ---- `findall` over any matcher ----

  /** What a pattern matches at a position, if anything. */
  type Matcher = nat -> Option<string>

  /** Leftmost matches, each search resuming where the last match ended. */
  function FindAll(at: Matcher, n: nat, i: nat): seq<string>
    decreases n - i
  {
    if i >= n then []
    else match at(i)
      case None => FindAll(at, n, i + 1)
      case Some(m) => [m] + FindAll(at, n, if m == "" then i + 1 else i + |m|)
  }

  lemma {:induction false} FindAllSound(at: Matcher, n: nat, i: nat, m: string)
    requires m in FindAll(at, n, i)
    ensures exists k: nat | i <= k < n :: at(k) == Some(m)
    decreases n - i
  {
    match at(i) {
      case None => FindAllSound(at, n, i + 1, m);
      case Some(first) => if m != first { FindAllSound(at, n, if first == "" then i + 1 else i + |first|, m); }
    }
  }

  /** No earlier match reaches over position `i`. */
  ghost predicate ClearOf(at: Matcher, from: nat, i: nat) {
    forall k: nat | from <= k < i && at(k).Some? :: k + |at(k).value| <= i
  }

  lemma {:induction false} FindAllReaches(at: Matcher, n: nat, from: nat, i: nat)
    requires from <= i < n && ClearOf(at, from, i) && at(i).Some?
    ensures at(i).value in FindAll(at, n, from)
    decreases i - from
  {
    if from < i {
      match at(from) {
        case None => FindAllReaches(at, n, from + 1, i);
        case Some(m) => FindAllReaches(at, n, if m == "" then from + 1 else from + |m|, i);
      }
    }
  }

  // ---- The mentions of a text ----

  function MatcherOf(word: char -> bool, text: string): Matcher {
    (i: nat) =>
      if i >= |text| then None
      else match MatchAt(word, text, i)
        case None => None
        case Some(m) => Some(Render(m))
  }

  function FundingMentions(word: char -> bool, text: string): seq<string> {
    FindAll(MatcherOf(word, text), |text|, 0)
  }

  ghost predicate OccursIn(s: string, text: string) {
    exists i :: StandsAt(s, text, i)
  }

  lemma MatcherSound(word: char -> bool, text: string, i: nat, mention: string)
    requires MatcherOf(word, text)(i) == Some(mention)
    ensures mention != "" && StandsAt(mention, text, i) && ParseAmount(mention).Some?
  {
    MatchSound(word, text, i);
    EveryMentionReadable(MatchAt(word, text, i).value);
  }

  /** The extractor invents nothing and never hands over a figure the comparator cannot read: every mention of
      every text occurs in it literally and parses. */
  lemma MentionsSound(word: char -> bool, text: string, mention: string)
    requires mention in FundingMentions(word, text)
    ensures mention != "" && OccursIn(mention, text) && ParseAmount(mention).Some?
  {
    FindAllSound(MatcherOf(word, text), |text|, 0, mention);
    var i: nat :| i < |text| && MatcherOf(word, text)(i) == Some(mention);
    MatcherSound(word, text, i, mention);
  }

  // ---- Nothing is missed ----

  lemma {:induction false} RunAtLeast(s: string, k: nat)
    requires k <= |s| && DigitsAndCommas(s[..k])
    ensures DigitRun(s) >= k
    ensures k == |s| || !(Digit(s[k]) || s[k] == ',') ==> DigitRun(s) == k
  {
    if k > 0 {
      assert s[..k][0] == s[0];
      assert s[1..][..k - 1] == s[..k][1..];
      RunAtLeast(s[1..], k - 1);
    }
  }

  lemma {:induction false} FractionAtLeast(s: string, k: nat)
    requires k <= |s| && AllDigits(s[..k])
    ensures FractionRun(s) >= k
    ensures k == |s| || !Digit(s[k]) ==> FractionRun(s) == k
  {
    if k > 0 {
      assert s[..k][0] == s[0];
      assert s[1..][..k - 1] == s[..k][1..];
      FractionAtLeast(s[1..], k - 1);
    }
  }

  /** What may not come next if a number is to end where it does: more of the same, or a point. */
  predicate EndsNumber(s: string, k: nat)
    requires k <= |s|
  {
    k == |s| || !(Digit(s[k]) || s[k] == ',' || s[k] == '.')
  }

  lemma WholeNumberFound(s: string, digits: string)
    requires digits != "" && Digit(digits[0]) && DigitsAndCommas(digits) && digits <= s
    ensures NumberAt(s).Some? && digits <= NumberAt(s).value.0
    ensures EndsNumber(s, |digits|) ==> NumberAt(s) == Some((digits, None))
  {
    assert s[..|digits|] == digits && s[0] == digits[0];
    RunAtLeast(s, |digits|);
    assert digits <= s[..DigitRun(s)];
  }

  lemma DecimalFound(s: string, digits: string, f: string)
    requires digits != "" && Digit(digits[0]) && DigitsAndCommas(digits)
    requires f != "" && AllDigits(f) && digits + "." + f <= s
    ensures NumberAt(s).Some? && NumberAt(s).value.0 == digits
    ensures NumberAt(s).value.1.Some? && f <= NumberAt(s).value.1.value
    ensures EndsNumber(s, |digits| + 1 + |f|) ==> NumberAt(s) == Some((digits, Some(f)))
  {
    var n := |digits|;
    var head := digits + "." + f;
    assert s[..|head|] == head;
    assert s[..n] == head[..n] == digits && s[n] == head[n] == '.' && s[0] == digits[0];
    RunAtLeast(s, n);
    var rest := s[n + 1..];
    assert rest[..|f|] == s[..|head|][n + 1..] == head[n + 1..] == f;
    FractionAtLeast(rest, |f|);
    assert f <= rest[..FractionRun(rest)];
  }

  /** A number of the grammar at the front of `s` is found, at least as far as it goes. */
  lemma NumberFound(m: Mention, s: string)
    requires InGrammar(m) && Number(m) <= s
    ensures NumberAt(s).Some?
    ensures var n := NumberAt(s).value; Number(m) <= Number(m.(digits := n.0, fraction := n.1))
    ensures EndsNumber(s, |Number(m)|) ==> NumberAt(s) == Some((m.digits, m.fraction))
  {
    if m.fraction.Some? {
      assert Number(m) == m.digits + "." + m.fraction.value;
      DecimalFound(s, m.digits, m.fraction.value);
      var n := NumberAt(s).value;
      assert "." + m.fraction.value <= "." + n.1.value;
    } else {
      assert Number(m) == m.digits;
      WholeNumberFound(s, m.digits);
    }
  }

  /** Where the pattern's word boundaries stand around a grammar string at position `i`. */
  predicate Bounded(word: char -> bool, text: string, i: nat, m: Mention)
    requires i + |Render(m)| <= |text|
  {
    && (m.placement != SymbolBefore ==> BoundaryBefore(word, text, i))
    && (m.placement == CodeAfter ==> i + |Render(m)| == |text| || !word(text[i + |Render(m)|]))
  }

  lemma SplitPrefix(a: string, b: string, s: string)
    requires a + b <= s
    ensures a <= s && b <= s[|a|..]
  {
    assert s[..|a + b|] == a + b;
    assert s[..|a|] == s[..|a + b|][..|a|];
    assert s[|a|..][..|b|] == s[..|a + b|][|a|..];
  }

  lemma GapFound(gap: string, rest: string, s: string)
    requires gap == "" || (|gap| == 1 && Space(gap[0]))
    requires rest != "" && !Space(rest[0]) && gap + rest <= s
    ensures Gap(s) == gap && rest <= s[|gap|..]
  {
    SplitPrefix(gap, rest, s);
    if gap == "" {
      assert s[0..] == s && s[0] == rest[0];
    } else {
      assert s[0] == gap[0] && s[..1] == gap;
    }
  }

  /** Currency first: what is found starts as the given string does, and may only have a longer number. */
  lemma BeforeFound(m: Mention, s: string)
    requires InGrammar(m) && m.placement != CodeAfter && m.gap + Number(m) <= s
    ensures Before(m.placement, m.currency, s).Some?
    ensures Render(m) <= Render(Before(m.placement, m.currency, s).value)
  {
    NumberEdges(m);
    GapFound(m.gap, Number(m), s);
    NumberFound(m, s[|m.gap|..]);
    var n := NumberAt(s[|m.gap|..]).value;
    var longer := m.(digits := n.0, fraction := n.1);
    assert Render(longer) == m.currency + m.gap + Number(longer);
    PrefixAfter(m.currency + m.gap, Number(m), Number(longer));
  }

  lemma PrefixAfter(head: string, a: string, b: string)
    requires a <= b
    ensures head + a <= head + b
  {
  }

  lemma CodeIsNoSpace(code: string)
    requires Code(code)
    ensures code != "" && !Space(code[0]) && !Digit(code[0]) && code[0] != ',' && code[0] != '.'
  {
  }

  /** After the number the pattern reads an optional space, a code and a boundary. */
  lemma AfterIs(word: char -> bool, m: Mention, s: string, after: string)
    requires InGrammar(m) && m.placement == CodeAfter && NumberAt(s) == Some((m.digits, m.fraction))
    requires |Number(m)| <= |s| && Gap(s[|Number(m)|..]) == m.gap && |m.gap| <= |s[|Number(m)|..]|
    requires after == s[|Number(m)|..][|m.gap|..] && |m.currency| == 3 && m.currency <= after
    requires |after| == 3 || !word(after[3])
    ensures After(word, s) == Some(m)
  {
    assert after[..3] == m.currency;
  }

  lemma NumberEndsAtTail(m: Mention, s: string)
    requires InGrammar(m) && m.placement == CodeAfter && Number(m) <= s && m.gap + m.currency <= s[|Number(m)|..]
    ensures EndsNumber(s, |Number(m)|)
  {
    CodesAreCodes(m.currency);
    CodeIsNoSpace(m.currency);
    var tail := m.gap + m.currency;
    assert s[|Number(m)|] == s[|Number(m)|..][0] == tail[0];
  }

  /** Currency last: exactly the given string is found. */
  lemma AfterFound(word: char -> bool, m: Mention, s: string)
    requires InGrammar(m) && m.placement == CodeAfter && Render(m) <= s
    requires |Render(m)| == |s| || !word(s[|Render(m)|])
    ensures After(word, s) == Some(m)
  {
    var n, tail := Number(m), m.gap + m.currency;
    assert Render(m) == n + tail;
    SplitPrefix(n, tail, s);
    NumberEndsAtTail(m, s);
    NumberFound(m, s);
    CodesAreCodes(m.currency);
    CodeIsNoSpace(m.currency);
    GapFound(m.gap, m.currency, s[|n|..]);
    var after := s[|n|..][|m.gap|..];
    assert |after| > 3 ==> after[3] == s[|Render(m)|];
    AfterIs(word, m, s, after);
  }

  lemma CodeStartsCapital(s: string)
    requires |s| >= 3 && KnownCode(s[..3])
    ensures Capital(s[0])
  {
    CodesAreCodes(s[..3]);
    assert s[..3][0] == s[0];
  }

  lemma MatchIsAfter(word: char -> bool, text: string, i: nat)
    requires i < |text| && Digit(text[i]) && BoundaryBefore(word, text, i)
    ensures MatchAt(word, text, i) == After(word, text[i..])
  {
    var s := text[i..];
    assert s[0] == text[i];
    if |s| >= 3 && KnownCode(s[..3]) { CodeStartsCapital(s); }
  }

  lemma MatchIsBefore(word: char -> bool, text: string, i: nat, m: Mention)
    requires InGrammar(m) && m.placement != CodeAfter && i < |text| && m.currency <= text[i..]
    requires m.placement == CodeBefore ==> BoundaryBefore(word, text, i)
    ensures MatchAt(word, text, i) == Before(m.placement, m.currency, text[i..][|m.currency|..])
  {
    var s := text[i..];
    if m.placement == CodeBefore { CodesAreCodes(m.currency); }
    assert s[..|m.currency|] == m.currency && s[0] == m.currency[0];
    if m.placement == CodeBefore { CodeIsNoSymbol(s); }
  }

  lemma CodeAfterFound(word: char -> bool, text: string, i: nat, m: Mention)
    requires InGrammar(m) && m.placement == CodeAfter && StandsAt(Render(m), text, i) && Bounded(word, text, i, m)
    ensures i < |text| && MatchAt(word, text, i) == Some(m)
  {
    var s := text[i..];
    assert s[..|Render(m)|] == text[i..i + |Render(m)|];
    assert text[i] == s[0] == Render(m)[0] == m.digits[0];
    MatchIsAfter(word, text, i);
    assert |Render(m)| < |s| ==> s[|Render(m)|] == text[i + |Render(m)|];
    AfterFound(word, m, s);
  }

  lemma CurrencyFirstFound(word: char -> bool, text: string, i: nat, m: Mention)
    requires InGrammar(m) && m.placement != CodeAfter && StandsAt(Render(m), text, i) && Bounded(word, text, i, m)
    ensures i < |text| && MatchAt(word, text, i).Some? && Render(m) <= Render(MatchAt(word, text, i).value)
  {
    var s := text[i..];
    assert s[..|Render(m)|] == text[i..i + |Render(m)|];
    assert Render(m) == m.currency + (m.gap + Number(m));
    SplitPrefix(m.currency, m.gap + Number(m), s);
    MatchIsBefore(word, text, i, m);
    BeforeFound(m, s[|m.currency|..]);
  }

  /** Wherever a string of the grammar stands between its boundaries, the pattern matches there, and at least that
      much of the text. */
  lemma MatchFound(word: char -> bool, text: string, i: nat, m: Mention)
    requires InGrammar(m) && StandsAt(Render(m), text, i) && Bounded(word, text, i, m)
    ensures i < |text| && MatchAt(word, text, i).Some? && Render(m) <= Render(MatchAt(word, text, i).value)
  {
    if m.placement == CodeAfter { CodeAfterFound(word, text, i, m); } else { CurrencyFirstFound(word, text, i, m); }
  }

  /** The extractor misses nothing: a string of the grammar that stands between its boundaries, clear of earlier
      matches, is in a mention that starts where it starts and holds at least all of it. */
  lemma MentionsComplete(word: char -> bool, text: string, i: nat, m: Mention)
    requires InGrammar(m) && StandsAt(Render(m), text, i) && Bounded(word, text, i, m)
    requires ClearOf(MatcherOf(word, text), 0, i)
    ensures exists mention | mention in FundingMentions(word, text) ::
              Render(m) <= mention && StandsAt(mention, text, i)
  {
    MatchFound(word, text, i, m);
    var mention := Render(MatchAt(word, text, i).value);
    MatcherSound(word, text, i, mention);
    FindAllReaches(MatcherOf(word, text), |text|, 0, i);
  }
}
