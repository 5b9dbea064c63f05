/**
 * `utils.ExtractCreditCardInfo`: the regular-expression fallback that pulls
 * card variant, last digits, billing cycle, due date and balance out of a
 * statement's text.
 *
 * Each regular expression is an abstract matcher standing for
 * `(*regexp.Regexp).FindStringSubmatch`: it returns [] (Go's nil) when the
 * pattern does not match, and otherwise the whole match followed by one entry
 * per capture group. What the model relies on about each pattern is the
 * character class of its capture groups, stated as a predicate on the
 * matcher.
 */
module ExtractInfo {
  import opened Results
  import opened GoStrings
  import opened Models

  // ---------------------------------------------------------------------
  // Normalisation: ReplaceAll(`\s+`, " "), then TrimSpace
  // ---------------------------------------------------------------------

  /** `s` without its leading run of RE2 white space. */
  function DropRegexSpaces(s: Bytes): (r: Bytes)
    ensures |r| <= |s| && r == s[|s| - |r|..]
    ensures r == [] || !IsRegexSpace(r[0])
    ensures s != [] && IsRegexSpace(s[0]) ==> |r| < |s|
    ensures s == [] || !IsRegexSpace(s[0]) ==> r == s
  {
    if s != [] && IsRegexSpace(s[0]) then DropRegexSpaces(s[1..]) else s
  }

  /** `regexp.MustCompile(`\s+`).ReplaceAllString(s, " ")`: every maximal run of
      RE2 white space becomes one space. */
  function CollapseSpaces(s: Bytes): (r: Bytes)
    ensures s == [] <==> r == []
    ensures s != [] ==> r[0] == if IsRegexSpace(s[0]) then SP else s[0]
    decreases |s|
  {
    if s == [] then []
    else if IsRegexSpace(s[0]) then [SP] + CollapseSpaces(DropRegexSpaces(s))
    else [s[0]] + CollapseSpaces(s[1..])
  }

  /** Every RE2 white-space byte is a plain space and is not followed by another. */
  predicate SpacesCollapsed(s: Bytes) {
    forall i | 0 <= i < |s| && IsRegexSpace(s[i]) :: s[i] == SP && (i + 1 < |s| ==> !IsRegexSpace(s[i + 1]))
  }

  /** What the extractor's patterns are matched against. */
  predicate IsNormalized(s: Bytes) {
    SpacesCollapsed(s) && IsTrimmed(s)
  }

  function Normalize(text: Bytes): Bytes {
    TrimSpace(CollapseSpaces(text))
  }

  /** The bytes of `s` that are not RE2 white space, in order. */
  function NonSpace(s: Bytes): Bytes {
    if s == [] then []
    else if IsRegexSpace(s[0]) then NonSpace(s[1..])
    else [s[0]] + NonSpace(s[1..])
  }

  lemma {:induction false} NonSpaceOfDropped(s: Bytes)
    ensures NonSpace(DropRegexSpaces(s)) == NonSpace(s)
    decreases |s|
  {
    if s != [] && IsRegexSpace(s[0]) {
      NonSpaceOfDropped(s[1..]);
    }
  }

  /** Collapsing changes only white space: the other bytes are kept, in order. */
  lemma {:induction false} CollapseKeepsNonSpace(s: Bytes)
    ensures NonSpace(CollapseSpaces(s)) == NonSpace(s)
    decreases |s|
  {
    if s != [] {
      var r := CollapseSpaces(s);
      if IsRegexSpace(s[0]) {
        var d := DropRegexSpaces(s);
        CollapseKeepsNonSpace(d);
        NonSpaceOfDropped(s);
        assert r[1..] == CollapseSpaces(d);
      } else {
        CollapseKeepsNonSpace(s[1..]);
        assert r[1..] == CollapseSpaces(s[1..]);
      }
    }
  }

  /** After collapsing, no two RE2 white-space bytes are adjacent and each is a space. */
  lemma {:induction false} CollapseCollapses(s: Bytes)
    ensures SpacesCollapsed(CollapseSpaces(s))
    decreases |s|
  {
    if s != [] {
      var r := CollapseSpaces(s);
      var rest := if IsRegexSpace(s[0]) then DropRegexSpaces(s) else s[1..];
      var tail := CollapseSpaces(rest);
      CollapseCollapses(rest);
      assert r == [r[0]] + tail;
      assert IsRegexSpace(s[0]) && tail != [] ==> !IsRegexSpace(tail[0]);
      forall i | 0 <= i < |r| && IsRegexSpace(r[i])
        ensures r[i] == SP && (i + 1 < |r| ==> !IsRegexSpace(r[i + 1]))
      {
        if i > 0 {
          assert r[i] == tail[i - 1];
          assert i + 1 < |r| ==> r[i + 1] == tail[i];
        }
      }
    }
  }

  /** Every byte of `s` is RE2 white space. */
  predicate AllRegexSpace(s: Bytes) {
    forall i | 0 <= i < |s| :: IsRegexSpace(s[i])
  }

  /** A run of `\s` in front of a byte that is not `\s` is dropped whole. */
  lemma {:induction false} DropSpaceRun(ws: Bytes, y: Bytes)
    requires AllRegexSpace(ws)
    requires y == [] || !IsRegexSpace(y[0])
    ensures DropRegexSpaces(ws + y) == y
    decreases |ws|
  {
    if ws == [] {
      assert ws + y == y;
    } else {
      assert (ws + y)[0] == ws[0];
      assert (ws + y)[1..] == ws[1..] + y;
      DropSpaceRun(ws[1..], y);
    }
  }

  /** Dropping leading `\s` stops inside a text that ends in a byte that is not
      `\s`, and leaves such a text non-empty. */
  lemma {:induction false} DropBeforeNonSpace(x: Bytes, z: Bytes)
    requires x != [] && !IsRegexSpace(x[|x| - 1])
    ensures DropRegexSpaces(x + z) == DropRegexSpaces(x) + z
    ensures var d := DropRegexSpaces(x); d != [] && !IsRegexSpace(d[|d| - 1])
    decreases |x|
  {
    assert (x + z)[0] == x[0];
    if IsRegexSpace(x[0]) {
      var t := x[1..];
      assert t[|t| - 1] == x[|x| - 1];
      assert (x + z)[1..] == t + z;
      DropBeforeNonSpace(t, z);
    }
  }

  lemma ConcatAssoc(a: Bytes, b: Bytes, c: Bytes)
    ensures a + (b + c) == (a + b) + c
  {
  }

  /** No run of `\s` crosses the end of a text that does not end in `\s`, so
      such a text and what follows it collapse on their own. */
  lemma {:induction false} CollapseAppend(x: Bytes, z: Bytes)
    requires x == [] || !IsRegexSpace(x[|x| - 1])
    ensures CollapseSpaces(x + z) == CollapseSpaces(x) + CollapseSpaces(z)
    decreases |x|
  {
    if x == [] {
      assert x + z == z;
    } else if IsRegexSpace(x[0]) {
      var d := DropRegexSpaces(x);
      assert (x + z)[0] == x[0];
      assert CollapseSpaces(x + z) == [SP] + CollapseSpaces(DropRegexSpaces(x + z));
      DropBeforeNonSpace(x, z);
      CollapseAppend(d, z);
      assert CollapseSpaces(x) == [SP] + CollapseSpaces(d);
      ConcatAssoc([SP], CollapseSpaces(d), CollapseSpaces(z));
    } else {
      var t := x[1..];
      assert t == [] || t[|t| - 1] == x[|x| - 1];
      assert (x + z)[0] == x[0];
      assert (x + z)[1..] == t + z;
      assert CollapseSpaces(x + z) == [x[0]] + CollapseSpaces(t + z);
      CollapseAppend(t, z);
      assert CollapseSpaces(x) == [x[0]] + CollapseSpaces(t);
      ConcatAssoc([x[0]], CollapseSpaces(t), CollapseSpaces(z));
    }
  }

  /** A non-empty run of `\s` at the front collapses to one space. */
  lemma CollapseLeadingRun(ws: Bytes, y: Bytes)
    requires ws != [] && AllRegexSpace(ws)
    requires y == [] || !IsRegexSpace(y[0])
    ensures CollapseSpaces(ws + y) == [SP] + CollapseSpaces(y)
  {
    assert (ws + y)[0] == ws[0];
    DropSpaceRun(ws, y);
  }

  /** Each maximal run of `\s` becomes exactly one space: between a part that
      does not end in `\s` and a part that does not start with it, a non-empty
      run collapses to " " and the two parts collapse on their own. */
  lemma CollapseRun(x: Bytes, ws: Bytes, y: Bytes)
    requires x == [] || !IsRegexSpace(x[|x| - 1])
    requires ws != [] && AllRegexSpace(ws)
    requires y == [] || !IsRegexSpace(y[0])
    ensures CollapseSpaces(x + (ws + y)) == CollapseSpaces(x) + ([SP] + CollapseSpaces(y))
  {
    CollapseAppend(x, ws + y);
    CollapseLeadingRun(ws, y);
  }

  /** A byte that is not `\s` occurs in NonSpace as often as in the text. */
  lemma {:induction false} NonSpaceKeepsCount(s: Bytes, b: Byte)
    requires !IsRegexSpace(b)
    ensures Count(NonSpace(s), b) == Count(s, b)
    decreases |s|
  {
    if s != [] {
      NonSpaceKeepsCount(s[1..], b);
      if !IsRegexSpace(s[0]) {
        assert ([s[0]] + NonSpace(s[1..]))[1..] == NonSpace(s[1..]);
      }
    }
  }

  /** Collapsing keeps every occurrence of a byte that is not `\s`; in
      particular every vertical tab 0x0B, which TrimSpace can still remove at
      the two ends. */
  lemma CollapseKeepsCount(s: Bytes, b: Byte)
    requires !IsRegexSpace(b)
    ensures Count(CollapseSpaces(s), b) == Count(s, b)
  {
    CollapseKeepsNonSpace(s);
    NonSpaceKeepsCount(s, b);
    NonSpaceKeepsCount(CollapseSpaces(s), b);
  }

  /** On collapsed text, collapsing keeps the first byte and goes on with the rest. */
  lemma CollapseStep(s: Bytes)
    requires SpacesCollapsed(s) && s != []
    ensures CollapseSpaces(s) == [s[0]] + CollapseSpaces(s[1..])
  {
    if IsRegexSpace(s[0]) {
      var rest := s[1..];
      assert s[0] == SP && (|s| > 1 ==> !IsRegexSpace(s[1]));
      assert rest == [] || !IsRegexSpace(rest[0]) by {
        if rest != [] {
          assert rest[0] == s[1];
        }
      }
      assert DropRegexSpaces(s) == DropRegexSpaces(rest) == rest;
    }
  }

  /** A text whose white space is already collapsed is its own collapse. */
  lemma {:induction false} CollapseFixesCollapsed(s: Bytes)
    requires SpacesCollapsed(s)
    ensures CollapseSpaces(s) == s
    decreases |s|
  {
    if s != [] {
      CollapseStep(s);
      SliceKeepsCollapsed(s, 1, |s|);
      CollapseFixesCollapsed(s[1..]);
      assert s == [s[0]] + s[1..];
    }
  }

  lemma SliceKeepsCollapsed(s: Bytes, lo: nat, hi: nat)
    requires SpacesCollapsed(s) && lo <= hi <= |s|
    ensures SpacesCollapsed(s[lo..hi])
  {
    var t := s[lo..hi];
    forall i | 0 <= i < |t| && IsRegexSpace(t[i])
      ensures t[i] == SP && (i + 1 < |t| ==> !IsRegexSpace(t[i + 1]))
    {
      assert t[i] == s[lo + i];
      assert i + 1 < |t| ==> t[i + 1] == s[lo + i + 1];
    }
  }

  /** After normalisation, no two RE2 white-space bytes are adjacent, every one
      of them is a plain space, and there is no leading or trailing Unicode
      white space. */
  lemma NormalizeNormalizes(text: Bytes)
    ensures IsNormalized(Normalize(text))
  {
    var c := CollapseSpaces(text);
    CollapseCollapses(text);
    TrimSpaceIsSlice(c);
    var left := |c| - |TrimLeftSpace(c)|;
    SliceKeepsCollapsed(c, left, |c|);
    var r := Normalize(text);
    SliceKeepsCollapsed(c[left..], 0, |r|);
  }

  /** Normalisation keeps the part of the collapsed text between TrimSpace's two
      cuts, and what it cuts off at either end is white space. */
  lemma NormalizeKeepsText(text: Bytes)
    ensures var c := CollapseSpaces(text);
      && TrimStart(c) <= TrimEnd(c) <= |c|
      && Normalize(text) == c[TrimStart(c)..TrimEnd(c)]
      && IsLeadingSpaceRun(c[..TrimStart(c)])
      && IsTrailingSpaceRun(c[TrimEnd(c)..])
  {
    var c := CollapseSpaces(text);
    TrimSpaceBounds(c);
    TrimSpaceRemovesSpace(c);
  }

  /** Normalisation leaves normalised text as it is, so it is idempotent. */
  lemma NormalizeIdempotent(text: Bytes)
    ensures IsNormalized(text) ==> Normalize(text) == text
    ensures Normalize(Normalize(text)) == Normalize(text)
  {
    if IsNormalized(text) {
      CollapseFixesCollapsed(text);
    }
    var n := Normalize(text);
    NormalizeNormalizes(text);
    CollapseFixesCollapsed(n);
  }

  /** RE2's `\s` does not include the vertical tab, which TrimSpace does trim:
      a vertical tab inside the text survives normalisation next to a space. */
  lemma VerticalTabSurvives()
    ensures Normalize([0x61, SP, 0x0B, SP, 0x62]) == [0x61, SP, 0x0B, SP, 0x62]
  {
    var s: Bytes := [0x61, SP, 0x0B, SP, 0x62];
    assert SpacesCollapsed(s);
    assert IsTrimmed(s);
    CollapseFixesCollapsed(s);
  }

  // ---------------------------------------------------------------------
  // Matchers and the first match
  // ---------------------------------------------------------------------

  /** `(*regexp.Regexp).FindStringSubmatch`. */
  type Matcher = Bytes -> seq<Bytes>

  /** The first pattern, in list order, whose submatch slice has more than
      `groups` entries (`len(match) > groups`). */
  function FirstMatchIndex(patterns: seq<Matcher>, text: Bytes, groups: nat): (r: Option<nat>)
    ensures r.Some? ==> r.value < |patterns| && |patterns[r.value](text)| > groups
    ensures r.Some? ==> forall j | 0 <= j < r.value :: |patterns[j](text)| <= groups
    ensures r.None? <==> forall j | 0 <= j < |patterns| :: |patterns[j](text)| <= groups
    decreases |patterns|
  {
    if patterns == [] then None
    else if |patterns[0](text)| > groups then Some(0)
    else
      match FirstMatchIndex(patterns[1..], text, groups)
      case None => None
      case Some(k) => Some(k + 1)
  }

  /** The submatch slice of the first matching pattern. */
  function FirstMatch(patterns: seq<Matcher>, text: Bytes, groups: nat): (found: Option<seq<Bytes>>)
    ensures found.Some? ==> |found.value| > groups
  {
    match FirstMatchIndex(patterns, text, groups)
    case None => None
    case Some(k) => Some(patterns[k](text))
  }

  /** Once a pattern matches, the patterns after it are never consulted. */
  lemma {:induction false} LaterPatternsIgnored(patterns: seq<Matcher>, later: seq<Matcher>, text: Bytes, groups: nat)
    requires FirstMatchIndex(patterns, text, groups).Some?
    ensures FirstMatchIndex(patterns + later, text, groups) == FirstMatchIndex(patterns, text, groups)
    ensures FirstMatch(patterns + later, text, groups) == FirstMatch(patterns, text, groups)
    decreases |patterns|
  {
    var all := patterns + later;
    assert all[0] == patterns[0];
    if |patterns[0](text)| <= groups {
      assert all[1..] == patterns[1..] + later;
      LaterPatternsIgnored(patterns[1..], later, text, groups);
    }
    var k := FirstMatchIndex(patterns, text, groups).value;
    assert all[k] == patterns[k];
  }

  /** The loop `for _, pattern := range patterns { if match := ...; len(match) > groups { ...; break } }`. */
  method FindFirstMatch(patterns: seq<Matcher>, text: Bytes, groups: nat) returns (found: Option<seq<Bytes>>)
    ensures found == FirstMatch(patterns, text, groups)
  {
    for i := 0 to |patterns|
      invariant forall j | 0 <= j < i :: |patterns[j](text)| <= groups
    {
      var pattern := patterns[i];
      var m := pattern(text);
      if |m| > groups {
        return Some(m);
      }
    }
    return None;
  }

  // ---------------------------------------------------------------------
  // The patterns' capture groups
  // ---------------------------------------------------------------------

  const CardNames: seq<Bytes> :=
    [Ascii("VISA"), Ascii("MASTERCARD"), Ascii("AMEX"), Ascii("AMERICAN EXPRESS"), Ascii("DISCOVER"), Ascii("RUPAY")]

  /** `(visa|mastercard|amex|american express|discover|rupay)` under `(?i)`. */
  predicate IsCardName(g: Bytes) {
    exists name | name in CardNames :: EqualFold(g, name)
  }

  /** `\d{lo,hi}`. */
  predicate IsDigits(g: Bytes, lo: nat, hi: nat) {
    lo <= |g| <= hi && AllDigits(g)
  }

  /** A date group such as `\d{1,2}\s+[A-Za-z]{3,9}\s+\d{4}` or
      `\d{1,2}[\/\-]\d{1,2}[\/\-]\d{2,4}`: it starts and ends with a digit. */
  predicate IsDate(g: Bytes) {
    |g| >= 1 && IsDigit(g[0]) && IsDigit(g[|g| - 1])
  }

  /** `[0-9,]+\.?\d*`. */
  predicate IsAmount(g: Bytes) {
    && |g| >= 1
    && g[0] != DOT
    && (forall i | 0 <= i < |g| :: IsDigit(g[i]) || g[i] == COMMA || g[i] == DOT)
    && Count(g, DOT) <= 1
    && (forall i, j | 0 <= i < j < |g| && g[i] == DOT :: g[j] != COMMA)
  }

  ghost predicate CapturesCardName(p: Matcher) {
    forall t :: |p(t)| > 1 ==> IsCardName(p(t)[1])
  }

  ghost predicate CapturesDigits(p: Matcher, lo: nat, hi: nat) {
    forall t :: |p(t)| > 1 ==> IsDigits(p(t)[1], lo, hi)
  }

  ghost predicate CapturesDates(p: Matcher, groups: nat) {
    forall t :: |p(t)| > groups ==> forall g | 1 <= g <= groups :: IsDate(p(t)[g])
  }

  ghost predicate CapturesAmount(p: Matcher) {
    forall t :: |p(t)| > 1 ==> IsAmount(p(t)[1])
  }

  /** The five pattern lists of the extractor, in source order. */
  datatype Patterns = Patterns(
    cardVariant: seq<Matcher>,
    cardNumber: seq<Matcher>,
    billingCycle: seq<Matcher>,
    dueDate: seq<Matcher>,
    balance: seq<Matcher>)

  /** Variant patterns, each capturing a card name. */
  ghost predicate VariantPatternsOk(ps: seq<Matcher>) {
    forall i | 0 <= i < |ps| :: CapturesCardName(ps[i])
  }

  /** Card-number patterns: the first two capture `\d{2,4}`, the others `\d{4}`. */
  ghost predicate NumberPatternsOk(ps: seq<Matcher>) {
    && (forall i | 0 <= i < |ps| && i < 2 :: CapturesDigits(ps[i], 2, 4))
    && (forall i | 2 <= i < |ps| :: CapturesDigits(ps[i], 4, 4))
  }

  /** Billing-cycle patterns, each capturing two dates. */
  ghost predicate BillingPatternsOk(ps: seq<Matcher>) {
    forall i | 0 <= i < |ps| :: CapturesDates(ps[i], 2)
  }

  /** Due-date patterns, each capturing one date. */
  ghost predicate DueDatePatternsOk(ps: seq<Matcher>) {
    forall i | 0 <= i < |ps| :: CapturesDates(ps[i], 1)
  }

  /** Balance patterns, each capturing an amount. */
  ghost predicate BalancePatternsOk(ps: seq<Matcher>) {
    forall i | 0 <= i < |ps| :: CapturesAmount(ps[i])
  }

  /** The number of patterns in each list and what their groups capture. */
  ghost predicate PatternsWellFormed(p: Patterns) {
    && |p.cardVariant| == 2 && |p.cardNumber| == 6 && |p.billingCycle| == 3
    && |p.dueDate| == 4 && |p.balance| == 5
    && VariantPatternsOk(p.cardVariant)
    && NumberPatternsOk(p.cardNumber)
    && BillingPatternsOk(p.billingCycle)
    && DueDatePatternsOk(p.dueDate)
    && BalancePatternsOk(p.balance)
  }

  // ---------------------------------------------------------------------
  // Post-processing and the extracted record
  // ---------------------------------------------------------------------

  // The post-processing of each field's submatch.

  function VariantOf(m: seq<Bytes>): Bytes
    requires |m| > 1
  {
    ToUpper(m[1])
  }

  /** The separator of the billing cycle's two dates. */
  const To: Bytes := [SP, 0x74, 0x6F, SP]   // " to "

  /** `fmt.Sprintf("%s to %s", strings.TrimSpace(match[1]), strings.TrimSpace(match[2]))`. */
  function BillingCycleOf(m: seq<Bytes>): Bytes
    requires |m| > 2
  {
    TrimSpace(m[1]) + To + TrimSpace(m[2])
  }

  function DueDateOf(m: seq<Bytes>): Bytes
    requires |m| > 1
  {
    TrimSpace(m[1])
  }

  /** `strings.ReplaceAll(strings.TrimSpace(match[1]), ",", "")`. */
  function BalanceOf(m: seq<Bytes>): Bytes
    requires |m| > 1
  {
    RemoveAll(TrimSpace(m[1]), COMMA)
  }

  // Each field from the first match of its pattern list, "" when there is none.

  function VariantField(found: Option<seq<Bytes>>): Bytes
    requires found.Some? ==> |found.value| > 1
  {
    if found.Some? then VariantOf(found.value) else []
  }

  function DigitsField(found: Option<seq<Bytes>>): Bytes
    requires found.Some? ==> |found.value| > 1
  {
    if found.Some? then found.value[1] else []
  }

  function BillingCycleField(found: Option<seq<Bytes>>): Bytes
    requires found.Some? ==> |found.value| > 2
  {
    if found.Some? then BillingCycleOf(found.value) else []
  }

  function DueDateField(found: Option<seq<Bytes>>): Bytes
    requires found.Some? ==> |found.value| > 1
  {
    if found.Some? then DueDateOf(found.value) else []
  }

  function BalanceField(found: Option<seq<Bytes>>): Bytes
    requires found.Some? ==> |found.value| > 1
  {
    if found.Some? then BalanceOf(found.value) else []
  }

  /** The record the extractor builds from normalised text `t`. */
  function ExtractedInfo(t: Bytes, p: Patterns): CreditCardInfo {
    EmptyInfo.(
      cardVariant := VariantField(FirstMatch(p.cardVariant, t, 1)),
      cardLast4Digits := DigitsField(FirstMatch(p.cardNumber, t, 1)),
      billingCycle := BillingCycleField(FirstMatch(p.billingCycle, t, 2)),
      paymentDueDate := DueDateField(FirstMatch(p.dueDate, t, 1)),
      totalBalance := BalanceField(FirstMatch(p.balance, t, 1)))
  }

  // One method per field: the `for … range … break` loop and the assignment
  // it makes on a match. A field that no pattern matches keeps its zero value "".

  method FindCardVariant(t: Bytes, patterns: seq<Matcher>) returns (v: Bytes)
    ensures v == VariantField(FirstMatch(patterns, t, 1))
  {
    v := [];
    var m := FindFirstMatch(patterns, t, 1);
    if m.Some? {
      v := VariantOf(m.value);
    }
  }

  method FindCardLast4Digits(t: Bytes, patterns: seq<Matcher>) returns (v: Bytes)
    ensures v == DigitsField(FirstMatch(patterns, t, 1))
  {
    v := [];
    var m := FindFirstMatch(patterns, t, 1);
    if m.Some? {
      v := m.value[1];
    }
  }

  method FindBillingCycle(t: Bytes, patterns: seq<Matcher>) returns (v: Bytes)
    ensures v == BillingCycleField(FirstMatch(patterns, t, 2))
  {
    v := [];
    var m := FindFirstMatch(patterns, t, 2);
    if m.Some? {
      v := BillingCycleOf(m.value);
    }
  }

  method FindPaymentDueDate(t: Bytes, patterns: seq<Matcher>) returns (v: Bytes)
    ensures v == DueDateField(FirstMatch(patterns, t, 1))
  {
    v := [];
    var m := FindFirstMatch(patterns, t, 1);
    if m.Some? {
      v := DueDateOf(m.value);
    }
  }

  method FindTotalBalance(t: Bytes, patterns: seq<Matcher>) returns (v: Bytes)
    ensures v == BalanceField(FirstMatch(patterns, t, 1))
  {
    v := [];
    var m := FindFirstMatch(patterns, t, 1);
    if m.Some? {
      v := BalanceOf(m.value);
    }
  }

  /** How a call of ExtractCreditCardInfo ends. */
  datatype Extraction =
    | Returned(info: CreditCardInfo)
    | SliceOutOfRange   // the run-time panic of the debug print `text[:900]`

  /** ExtractCreditCardInfo: panics on the debug slice for byte lengths 501 to
      899, and otherwise returns the fields of the normalised text. */
  method ExtractCreditCardInfo(text: Bytes, p: Patterns) returns (r: Extraction)
    ensures r.SliceOutOfRange? <==> 500 < |text| < 900
    ensures r.Returned? ==> r.info == ExtractedInfo(Normalize(text), p)
  {
    var info := EmptyInfo;

    if |text| > 500 {
      // fmt.Println(text[:900])
      if |text| < 900 {
        return SliceOutOfRange;
      }
    }

    var t := Normalize(text);

    var v := FindCardVariant(t, p.cardVariant);
    info := info.(cardVariant := v);
    v := FindCardLast4Digits(t, p.cardNumber);
    info := info.(cardLast4Digits := v);
    v := FindBillingCycle(t, p.billingCycle);
    info := info.(billingCycle := v);
    v := FindPaymentDueDate(t, p.dueDate);
    info := info.(paymentDueDate := v);
    v := FindTotalBalance(t, p.balance);
    info := info.(totalBalance := v);

    return Returned(info);
  }

  // ---------------------------------------------------------------------
  // What the extracted fields look like
  // ---------------------------------------------------------------------

  /** The card names are upper case: letters A-Z and spaces. */
  predicate IsUpperName(name: Bytes) {
    forall i | 0 <= i < |name| :: 'A' as int <= name[i] <= 'Z' as int || name[i] == SP
  }

  lemma CardNamesAreUpper()
    ensures forall name | name in CardNames :: IsUpperName(name)
  {
  }

  /** Upper-casing a case variant of an upper-case name gives the name. */
  lemma UpperOfCaseVariant(g: Bytes, name: Bytes)
    requires EqualFold(g, name) && IsUpperName(name)
    ensures ToUpper(g) == name
  {
    forall i | 0 <= i < |g| ensures ToUpper(g)[i] == name[i] {
      assert LowerByte(g[i]) == LowerByte(name[i]);
    }
  }

  /** A non-empty card variant is one of VISA, MASTERCARD, AMEX, AMERICAN
      EXPRESS, DISCOVER, RUPAY; it is "" exactly when no pattern matches. */
  lemma VariantIsCardName(patterns: seq<Matcher>, t: Bytes)
    requires VariantPatternsOk(patterns)
    ensures var found := FirstMatch(patterns, t, 1);
      var v := VariantField(found);
      (v == [] <==> found.None?) && (v != [] ==> v in CardNames)
  {
    var r := FirstMatchIndex(patterns, t, 1);
    if r.Some? {
      var pattern := patterns[r.value];
      assert CapturesCardName(pattern);
      var g := pattern(t)[1];
      assert IsCardName(g);
      var name :| name in CardNames && EqualFold(g, name);
      CardNamesAreUpper();
      UpperOfCaseVariant(g, name);
    }
  }

  /** A non-empty card number is two to four ASCII digits, exactly four when it
      comes from one of the patterns after the first two; it is "" exactly when
      no pattern matches. */
  lemma LastDigitsAreDigits(patterns: seq<Matcher>, t: Bytes)
    requires NumberPatternsOk(patterns)
    ensures var d := DigitsField(FirstMatch(patterns, t, 1));
      var r := FirstMatchIndex(patterns, t, 1);
      && (d == [] <==> r.None?)
      && (d != [] ==> IsDigits(d, 2, 4))
      && (r.Some? && r.value >= 2 ==> IsDigits(d, 4, 4))
  {
    var r := FirstMatchIndex(patterns, t, 1);
    if r.Some? {
      var k := r.value;
      assert k < 2 ==> CapturesDigits(patterns[k], 2, 4);
      assert k >= 2 ==> CapturesDigits(patterns[k], 4, 4);
    }
  }

  /** A digit-delimited capture has nothing for TrimSpace to remove. */
  lemma DateIsTrimmed(g: Bytes)
    requires IsDate(g)
    ensures TrimSpace(g) == g
  {
    assert IsTrimmed(g);
  }

  lemma BillingCycleOfDates(m: seq<Bytes>)
    requires |m| > 2 && IsDate(m[1]) && IsDate(m[2])
    ensures BillingCycleOf(m) == m[1] + To + m[2]
    ensures IsDate(BillingCycleOf(m))
  {
    DateIsTrimmed(m[1]);
    DateIsTrimmed(m[2]);
    var b := m[1] + To + m[2];
    assert b[0] == m[1][0];
    assert b[|b| - 1] == m[2][|m[2]| - 1];
  }

  /** A non-empty billing cycle reads "A to B" for the two captured dates, and
      so starts and ends with a digit; it is "" exactly when no pattern matches. */
  lemma BillingCycleIsRange(patterns: seq<Matcher>, t: Bytes)
    requires BillingPatternsOk(patterns)
    ensures var found := FirstMatch(patterns, t, 2);
      var b := BillingCycleField(found);
      && (b == [] <==> found.None?)
      && (found.Some? ==> b == found.value[1] + To + found.value[2] && IsDate(b))
  {
    var r := FirstMatchIndex(patterns, t, 2);
    if r.Some? {
      var pattern := patterns[r.value];
      var m := pattern(t);
      assert FirstMatch(patterns, t, 2) == Some(m);
      assert CapturesDates(pattern, 2);
      assert IsDate(m[1]) && IsDate(m[2]);
      BillingCycleOfDates(m);
    }
  }

  /** A non-empty due date is the captured date itself, starting and ending
      with a digit; it is "" exactly when no pattern matches. */
  lemma DueDateIsDate(patterns: seq<Matcher>, t: Bytes)
    requires DueDatePatternsOk(patterns)
    ensures var found := FirstMatch(patterns, t, 1);
      var d := DueDateField(found);
      && (d == [] <==> found.None?)
      && (found.Some? ==> d == found.value[1] && IsDate(d))
  {
    var r := FirstMatchIndex(patterns, t, 1);
    if r.Some? {
      var pattern := patterns[r.value];
      assert CapturesDates(pattern, 1);
      var m := pattern(t);
      assert IsDate(m[1]);
      DateIsTrimmed(m[1]);
    }
  }

  /** Digits with at most one '.', and no comma. */
  predicate IsBalance(b: Bytes) {
    && COMMA !in b
    && (forall i | 0 <= i < |b| :: IsDigit(b[i]) || b[i] == DOT)
    && Count(b, DOT) <= 1
  }

  /** The balance is the capture without its commas: digits with at most one
      '.'; it is "" when no pattern matches (and also when the capture was
      commas only). */
  lemma BalanceIsNumber(patterns: seq<Matcher>, t: Bytes)
    requires BalancePatternsOk(patterns)
    ensures var found := FirstMatch(patterns, t, 1);
      var b := BalanceField(found);
      && IsBalance(b)
      && (found.None? ==> b == [])
      && (found.Some? ==> b == RemoveAll(found.value[1], COMMA))
  {
    var r := FirstMatchIndex(patterns, t, 1);
    if r.Some? {
      var pattern := patterns[r.value];
      assert CapturesAmount(pattern);
      var g := pattern(t)[1];
      assert IsAmount(g);
      assert IsTrimmed(g);
      var b := RemoveAll(g, COMMA);
      assert Count(b, DOT) == Count(g, DOT);
    }
  }

  /** What every record the extractor returns looks like. */
  predicate InfoWellFormed(info: CreditCardInfo) {
    && (info.cardVariant == [] || info.cardVariant in CardNames)
    && (info.cardLast4Digits == [] || IsDigits(info.cardLast4Digits, 2, 4))
    && (info.billingCycle == [] || IsDate(info.billingCycle))
    && (info.paymentDueDate == [] || IsDate(info.paymentDueDate))
    && IsBalance(info.totalBalance)
    && info.transactions == []
  }

  /** With the extractor's patterns, every field of the record is either "" or
      of the shape its patterns capture. */
  lemma ExtractedInfoWellFormed(t: Bytes, p: Patterns)
    requires PatternsWellFormed(p)
    ensures InfoWellFormed(ExtractedInfo(t, p))
  {
    VariantIsCardName(p.cardVariant, t);
    LastDigitsAreDigits(p.cardNumber, t);
    BillingCycleIsRange(p.billingCycle, t);
    DueDateIsDate(p.dueDate, t);
    BalanceIsNumber(p.balance, t);
  }

  lemma AllCommasGiveEmptyBalance()
    ensures RemoveAll(Ascii(",,"), COMMA) == []
    ensures IsAmount(Ascii(",,"))
  {
  }

  // ---------------------------------------------------------------------
  // getValueOrNA
  // ---------------------------------------------------------------------

  /** "N/A" for "", every other string unchanged. */
  function GetValueOrNA(value: Bytes): (r: Bytes)
    ensures value == [] ==> r == Ascii("N/A")
    ensures value != [] ==> r == value
    ensures r != []
  {
    if value == [] then Ascii("N/A") else value
  }
}
