/** Text handling of amounts: stripping everything but digits
    (limpiarNumero), inserting a '.' before every complete group of three
    digits counted from the right (formatearConSeparadores and the integer
    branch of formatearNumero), Math.round, and the key the table sort reads
    from a number cell. */
module NumberFormat {
  import opened Collections

  predicate IsDigit(c: char)
  {
    '0' <= c <= '9'
  }

  predicate AllDigits(s: string)
  {
    forall i :: 0 <= i < |s| ==> IsDigit(s[i])
  }

  /** limpiarNumero: `valor.toString().replace(/\D/g, '')`, every character
      that is not a decimal digit removed. */
  function LimpiarNumero(s: string): (r: string)
    ensures AllDigits(r)
    ensures |r| <= |s|
    ensures forall c :: c in r <==> c in s && IsDigit(c)
    ensures AllDigits(s) ==> r == s
    ensures IsSubsequence(r, s)
    ensures forall c :: multiset(r)[c] == if IsDigit(c) then multiset(s)[c] else 0
  {
    var r := Filter(s, IsDigit);
    FilterIsSubsequence(s, IsDigit);
    forall c ensures multiset(r)[c] == if IsDigit(c) then multiset(s)[c] else 0 {
      FilterMultiplicity(s, IsDigit, c);
    }
    assert AllDigits(s) ==> r == s by {
      if AllDigits(s) {
        FilterKeepsAll(s, IsDigit);
      }
    }
    r
  }

  // ---------------------------------------------------------------------
  // When parseFloat does not return NaN

  /** The characters ECMAScript's StrWhiteSpaceChar allows before a number. */
  predicate IsStrWhiteSpace(c: char)
  {
    c == ' ' || c == '\t' || c == '\n' || c == '\r' || c == '\U{000B}' || c == '\U{000C}'
    || c == '\U{00A0}' || c == '\U{1680}' || ('\U{2000}' <= c <= '\U{200A}')
    || c == '\U{2028}' || c == '\U{2029}' || c == '\U{202F}' || c == '\U{205F}'
    || c == '\U{3000}' || c == '\U{FEFF}'
  }

  function TrimStart(s: string): (r: string)
    ensures r == [] || !IsStrWhiteSpace(r[0])
  {
    if s != [] && IsStrWhiteSpace(s[0]) then TrimStart(s[1..]) else s
  }

  /** The text starts with an unsigned StrDecimalLiteral: a digit, a '.'
      followed by a digit, or "Infinity". */
  predicate StartsUnsignedNumber(t: string)
  {
    || (|t| > 0 && IsDigit(t[0]))
    || (|t| > 1 && t[0] == '.' && IsDigit(t[1]))
    || (|t| >= 8 && t[..8] == "Infinity")
  }

  /** `!isNaN(parseFloat(s))`: after leading white space and an optional
      sign, some prefix of `s` is a decimal literal. */
  predicate ParseFloatIsNumber(s: string)
  {
    var t := TrimStart(s);
    StartsUnsignedNumber(t) || (|t| > 0 && (t[0] == '+' || t[0] == '-') && StartsUnsignedNumber(t[1..]))
  }

  // ---------------------------------------------------------------------
  // The regular expression /\B(?=(\d{3})+(?!\d))/g

  /** A character that `\b` and `\B` count as part of a word. */
  predicate IsWordChar(c: char)
  {
    IsDigit(c) || ('a' <= c <= 'z') || ('A' <= c <= 'Z') || c == '_'
  }

  /** The number of consecutive digits of `s` starting at position `p`. */
  function DigitRun(s: string, p: nat): (n: nat)
    ensures p + n <= |s| || n == 0
    decreases |s| - p
  {
    if p < |s| && IsDigit(s[p]) then 1 + DigitRun(s, p + 1) else 0
  }

  /** The regular expression matches the empty string at position `p`:
      `p` is not a word boundary and a run of digits of a positive length
      divisible by three starts there and ends at a non-digit or at the end. */
  predicate SeparatorAt(s: string, p: nat)
  {
    0 < p < |s| && IsWordChar(s[p - 1]) && DigitRun(s, p) >= 3 && DigitRun(s, p) % 3 == 0
  }

  /** The characters of `s` from position `p` on, with a '.' inserted at
      every position where the regular expression matches. */
  function InsertSeparatorsFrom(s: string, p: nat): string
    decreases |s| - p
  {
    if p >= |s| then []
    else (if SeparatorAt(s, p) then "." else "") + [s[p]] + InsertSeparatorsFrom(s, p + 1)
  }

  /** `s.replace(/\B(?=(\d{3})+(?!\d))/g, '.')` */
  function InsertSeparators(s: string): string
  {
    InsertSeparatorsFrom(s, 0)
  }

  /** formatearConSeparadores on a string argument: empty for empty or
      non-numeric text, otherwise the text with thousands separators. */
  function FormatearConSeparadores(s: string): (r: string)
    ensures r == [] <==> s == [] || !ParseFloatIsNumber(s)
  {
    if s == [] || !ParseFloatIsNumber(s) then [] else InsertSeparators(s)
  }

  // ---------------------------------------------------------------------
  // Stripping what the formatter inserted

  lemma InsertSeparatorsStep(s: string, p: nat)
    requires p < |s|
    ensures InsertSeparatorsFrom(s, p)
         == (if SeparatorAt(s, p) then "." else "") + ([s[p]] + InsertSeparatorsFrom(s, p + 1))
  {
    var sep: string := if SeparatorAt(s, p) then "." else "";
    assert sep + [s[p]] + InsertSeparatorsFrom(s, p + 1) == sep + ([s[p]] + InsertSeparatorsFrom(s, p + 1));
  }

  /** A position where the expression does not match copies the character. */
  lemma InsertSeparatorsNoMatch(s: string, p: nat)
    requires p < |s| && !SeparatorAt(s, p)
    ensures InsertSeparatorsFrom(s, p) == [s[p]] + InsertSeparatorsFrom(s, p + 1)
  {
    InsertSeparatorsStep(s, p);
    assert "" + ([s[p]] + InsertSeparatorsFrom(s, p + 1)) == [s[p]] + InsertSeparatorsFrom(s, p + 1);
  }

  /** One position of FilterSeesThroughSeparators. */
  lemma FilterSeesThroughStep(s: string, p: nat, keep: char -> bool)
    requires !keep('.') && p < |s|
    requires Filter(InsertSeparatorsFrom(s, p + 1), keep) == Filter(s[p + 1..], keep)
    ensures Filter(InsertSeparatorsFrom(s, p), keep) == Filter(s[p..], keep)
  {
    InsertSeparatorsStep(s, p);
    var rest := InsertSeparatorsFrom(s, p + 1);
    var tail := [s[p]] + rest;
    if SeparatorAt(s, p) {
      FilterCons('.', tail, keep);
    } else {
      assert "" + tail == tail;
    }
    FilterCons(s[p], rest, keep);
    FilterCons(s[p], s[p + 1..], keep);
    assert [s[p]] + s[p + 1..] == s[p..];
  }

  /** Any filter that drops '.' sees through the separators. */
  lemma {:induction false} FilterSeesThroughSeparators(s: string, p: nat, keep: char -> bool)
    requires !keep('.')
    ensures Filter(InsertSeparatorsFrom(s, p), keep) == Filter(if p <= |s| then s[p..] else [], keep)
    decreases |s| - p
  {
    if p < |s| {
      FilterSeesThroughSeparators(s, p + 1, keep);
      FilterSeesThroughStep(s, p, keep);
    }
  }

  /** limpiarNumero undoes formatearConSeparadores: the digits survive,
      in order, whatever else the text holds. */
  lemma LimpiarUndoesSeparators(s: string)
    requires FormatearConSeparadores(s) != []
    ensures LimpiarNumero(FormatearConSeparadores(s)) == LimpiarNumero(s)
  {
    InsertSeparatorsKeepsDigits(s);
  }

  /** The replacement only inserts '.': the digits of the text stay as they
      were, in order. */
  lemma InsertSeparatorsKeepsDigits(s: string)
    ensures LimpiarNumero(InsertSeparators(s)) == LimpiarNumero(s)
  {
    FilterSeesThroughSeparators(s, 0, IsDigit);
    assert s[0..] == s;
  }

  /** The round trip the input fields rely on: a non-empty digit string
      formatted and then cleaned is the same digit string. */
  lemma FormatThenCleanDigits(d: string)
    requires d != [] && AllDigits(d)
    ensures FormatearConSeparadores(d) != []
    ensures LimpiarNumero(FormatearConSeparadores(d)) == d
  {
    assert TrimStart(d) == d;
    assert ParseFloatIsNumber(d);
    LimpiarUndoesSeparators(d);
  }

  // ---------------------------------------------------------------------
  // The grouping of a digit string

  lemma {:induction false} DigitRunOfDigits(d: string, p: nat)
    requires AllDigits(d) && p <= |d|
    ensures DigitRun(d, p) == |d| - p
    decreases |d| - p
  {
    if p < |d| {
      DigitRunOfDigits(d, p + 1);
    }
  }

  /** Every later group: a '.' then three digits. */
  function DottedTriples(t: string): string
    requires |t| % 3 == 0
  {
    if t == [] then [] else "." + t[..3] + DottedTriples(t[3..])
  }

  /** The length of the leading group of an `n`-digit number. */
  function LeadLength(n: nat): nat
  {
    if n % 3 == 0 then 3 else n % 3
  }

  /** Reference grouping: one to three leading digits, then dotted triples. */
  function Grouped(d: string): string
    requires |d| > 0
  {
    var h := LeadLength(|d|);
    d[..h] + DottedTriples(d[h..])
  }

  /** Past the leading group, the regular expression matches before every
      third digit and nowhere else. */
  lemma ThreeDigitsSeparators(d: string, p: nat)
    requires AllDigits(d) && 0 < p && p + 3 <= |d| && (|d| - p) % 3 == 0
    ensures SeparatorAt(d, p) && !SeparatorAt(d, p + 1) && !SeparatorAt(d, p + 2)
  {
    DigitRunOfDigits(d, p);
    DigitRunOfDigits(d, p + 1);
    DigitRunOfDigits(d, p + 2);
    var n := |d| - p;
    assert (n - 1) % 3 == 2 && (n - 2) % 3 == 1;
  }

  /** A matched position followed by two unmatched ones. */
  lemma DottedTriple(d: string, p: nat)
    requires p + 3 <= |d|
    requires SeparatorAt(d, p) && !SeparatorAt(d, p + 1) && !SeparatorAt(d, p + 2)
    ensures InsertSeparatorsFrom(d, p) == "." + d[p..p + 3] + InsertSeparatorsFrom(d, p + 3)
  {
    var r := InsertSeparatorsFrom(d, p + 3);
    InsertSeparatorsNoMatch(d, p + 2);
    InsertSeparatorsNoMatch(d, p + 1);
    InsertSeparatorsStep(d, p);
    var r1 := [d[p + 1]] + ([d[p + 2]] + r);
    assert InsertSeparatorsFrom(d, p) == "." + ([d[p]] + r1);
    assert d[p..p + 3] == [d[p], d[p + 1], d[p + 2]];
    assert "." + ([d[p]] + r1) == "." + [d[p], d[p + 1], d[p + 2]] + r;
  }

  lemma ThreeDigitsAhead(d: string, p: nat)
    requires AllDigits(d) && 0 < p && p + 3 <= |d| && (|d| - p) % 3 == 0
    ensures InsertSeparatorsFrom(d, p) == "." + d[p..p + 3] + InsertSeparatorsFrom(d, p + 3)
  {
    ThreeDigitsSeparators(d, p);
    DottedTriple(d, p);
  }

  lemma {:induction false} TriplesAfterLead(d: string, p: nat)
    requires AllDigits(d) && 0 < p <= |d| && (|d| - p) % 3 == 0
    ensures InsertSeparatorsFrom(d, p) == DottedTriples(d[p..])
    decreases |d| - p
  {
    if p < |d| {
      ThreeDigitsAhead(d, p);
      TriplesAfterLead(d, p + 3);
      assert d[p..][..3] == d[p..p + 3];
      assert d[p..][3..] == d[p + 3..];
    }
  }

  /** Inside the leading group the expression never matches. */
  lemma NoSeparatorInLead(d: string, p: nat)
    requires AllDigits(d) && |d| > 0 && p < LeadLength(|d|)
    ensures !SeparatorAt(d, p)
  {
    DigitRunOfDigits(d, p);
    if p > 0 {
      var n, m := |d|, |d| % 3;
      if m == 0 {
        assert n - p == 3 * (n / 3 - 1) + (3 - p);
      } else {
        assert n - p == 3 * (n / 3) + (m - p);
      }
    }
  }

  /** A character where the expression does not match joins the text
      copied before `r`. */
  lemma PrependUnmatched(d: string, p: nat, h: nat, r: string)
    requires p < h <= |d| && !SeparatorAt(d, p)
    requires InsertSeparatorsFrom(d, p + 1) == d[p + 1..h] + r
    ensures InsertSeparatorsFrom(d, p) == d[p..h] + r
  {
    InsertSeparatorsNoMatch(d, p);
    assert d[p..h] == [d[p]] + d[p + 1..h];
    assert [d[p]] + (d[p + 1..h] + r) == d[p..h] + r;
  }

  lemma {:induction false} LeadHasNoSeparator(d: string, p: nat)
    requires AllDigits(d) && |d| > 0 && p <= LeadLength(|d|)
    ensures InsertSeparatorsFrom(d, p) == d[p..LeadLength(|d|)] + InsertSeparatorsFrom(d, LeadLength(|d|))
    decreases LeadLength(|d|) - p
  {
    var h := LeadLength(|d|);
    if p < h {
      NoSeparatorInLead(d, p);
      LeadHasNoSeparator(d, p + 1);
      PrependUnmatched(d, p, h, InsertSeparatorsFrom(d, h));
    }
  }

  /** formatearConSeparadores on a digit string is the reference grouping. */
  lemma FormatDigitsIsGrouped(d: string)
    requires d != [] && AllDigits(d)
    ensures FormatearConSeparadores(d) == Grouped(d)
  {
    assert TrimStart(d) == d;
    InsertSeparatorsGroupsDigits(d);
  }

  /** The replacement on a digit string is the reference grouping. */
  lemma InsertSeparatorsGroupsDigits(d: string)
    requires d != [] && AllDigits(d)
    ensures InsertSeparators(d) == Grouped(d)
  {
    LeadHasNoSeparator(d, 0);
    TriplesAfterLead(d, LeadLength(|d|));
  }

  // ---------------------------------------------------------------------
  // A leading minus sign

  lemma {:induction false} DigitRunShift(s: string, p: nat)
    ensures DigitRun("-" + s, p + 1) == DigitRun(s, p)
    decreases |s| - p
  {
    if p < |s| {
      assert ("-" + s)[p + 1] == s[p];
      DigitRunShift(s, p + 1);
    }
  }

  /** Behind a minus sign the expression matches where it matches in the
      text without it. */
  lemma {:induction false} InsertSeparatorsShift(s: string, p: nat)
    ensures InsertSeparatorsFrom("-" + s, p + 1) == InsertSeparatorsFrom(s, p)
    decreases |s| - p
  {
    if p < |s| {
      DigitRunShift(s, p);
      if p > 0 {
        assert ("-" + s)[p] == s[p - 1];
      }
      assert SeparatorAt("-" + s, p + 1) == SeparatorAt(s, p);
      assert ("-" + s)[p + 1] == s[p];
      InsertSeparatorsShift(s, p + 1);
      InsertSeparatorsStep("-" + s, p + 1);
      InsertSeparatorsStep(s, p);
    }
  }

  /** `\B` fails between the minus sign and the first digit, so a negative
      numeral is grouped like its magnitude. */
  lemma MinusSignHasNoSeparator(s: string)
    ensures InsertSeparators("-" + s) == "-" + InsertSeparators(s)
  {
    InsertSeparatorsShift(s, 0);
    InsertSeparatorsNoMatch("-" + s, 0);
  }

  /** `s.split(sep)`: the pieces between occurrences of `sep`. */
  function SplitOn(s: string, sep: char): (r: seq<string>)
    ensures |r| >= 1
  {
    SplitFrom(s, sep, [])
  }

  /** Splitting `s` when the piece under way already holds `cur`. */
  function SplitFrom(s: string, sep: char, cur: string): (r: seq<string>)
    ensures |r| >= 1
  {
    if s == [] then [cur]
    else if s[0] == sep then [cur] + SplitFrom(s[1..], sep, [])
    else SplitFrom(s[1..], sep, cur + [s[0]])
  }

  function Concat(g: seq<string>): string
  {
    if g == [] then [] else g[0] + Concat(g[1..])
  }

  lemma {:induction false} SplitFromWithout(s: string, sep: char, cur: string)
    requires sep !in s
    ensures SplitFrom(s, sep, cur) == [cur + s]
  {
    if s == [] {
      assert cur + s == cur;
    } else {
      SplitFromWithout(s[1..], sep, cur + [s[0]]);
      assert (cur + [s[0]]) + s[1..] == cur + s;
    }
  }

  lemma SplitOnWithout(s: string, sep: char)
    requires sep !in s
    ensures SplitOn(s, sep) == [s]
  {
    SplitFromWithout(s, sep, []);
    assert [] + s == s;
  }

  lemma {:induction false} SplitFromJoin(x: string, sep: char, y: string, cur: string)
    ensures SplitFrom(x + [sep] + y, sep, cur) == SplitFrom(x, sep, cur) + SplitOn(y, sep)
  {
    var z := x + [sep] + y;
    if x == [] {
      assert z[0] == sep && z[1..] == y;
    } else {
      assert z[0] == x[0] && z[1..] == x[1..] + [sep] + y;
      if x[0] == sep {
        SplitFromJoin(x[1..], sep, y, []);
      } else {
        SplitFromJoin(x[1..], sep, y, cur + [x[0]]);
      }
    }
  }

  lemma SplitOnJoin(x: string, sep: char, y: string)
    ensures SplitOn(x + [sep] + y, sep) == SplitOn(x, sep) + SplitOn(y, sep)
  {
    SplitFromJoin(x, sep, y, []);
  }

  /** The groups after the first. */
  function Triples(t: string): seq<string>
    requires |t| % 3 == 0
  {
    if t == [] then [] else [t[..3]] + Triples(t[3..])
  }

  lemma {:induction false} SplitDotted(lead: string, t: string)
    requires '.' !in lead && AllDigits(t) && |t| % 3 == 0
    ensures SplitOn(lead + DottedTriples(t), '.') == [lead] + Triples(t)
    decreases |t|
  {
    if t == [] {
      assert lead + DottedTriples(t) == lead;
      SplitOnWithout(lead, '.');
    } else {
      assert t[..3][0] == t[0] && t[..3][1] == t[1] && t[..3][2] == t[2];
      assert '.' !in t[..3];
      SplitDotted(t[..3], t[3..]);
      assert lead + DottedTriples(t) == lead + ['.'] + (t[..3] + DottedTriples(t[3..]));
      SplitOnJoin(lead, '.', t[..3] + DottedTriples(t[3..]));
      SplitOnWithout(lead, '.');
    }
  }

  lemma {:induction false} TriplesShape(t: string)
    requires AllDigits(t) && |t| % 3 == 0
    ensures forall i :: 0 <= i < |Triples(t)| ==> |Triples(t)[i]| == 3 && AllDigits(Triples(t)[i])
    ensures Concat(Triples(t)) == t
  {
    if t != [] {
      TriplesShape(t[3..]);
      assert t == t[..3] + t[3..];
    }
  }

  /** The grouping promise of formatearConSeparadores: a non-empty digit
      string comes out split by '.' into digit groups, the first of one to
      three digits and every later one of exactly three, that spell the
      input again. */
  lemma FormatGroupsOfThree(d: string)
    requires d != [] && AllDigits(d)
    ensures var g := SplitOn(FormatearConSeparadores(d), '.');
      && 1 <= |g[0]| <= 3
      && (forall i :: 1 <= i < |g| ==> |g[i]| == 3)
      && (forall i :: 0 <= i < |g| ==> AllDigits(g[i]))
      && Concat(g) == d
  {
    FormatDigitsIsGrouped(d);
    var h := LeadLength(|d|);
    assert '.' !in d[..h] by {
      forall i | 0 <= i < h ensures d[..h][i] != '.' {
        assert IsDigit(d[i]);
      }
    }
    SplitDotted(d[..h], d[h..]);
    TriplesShape(d[h..]);
    var g := [d[..h]] + Triples(d[h..]);
    assert g[1..] == Triples(d[h..]);
    assert Concat(g) == d[..h] + d[h..];
    assert d[..h] + d[h..] == d;
  }

  // ---------------------------------------------------------------------
  // Math.round and the integer branch of formatearNumero

  /** `n` is Math.round of `x`: the nearest integer, halves rounded up. */
  ghost predicate RoundsTo(x: real, n: int)
  {
    x - 0.5 < n as real <= x + 0.5
  }

  /** Math.round(x) == floor(x + 0.5). */
  function Round(x: real): (n: int)
    ensures RoundsTo(x, n)
  {
    (x + 0.5).Floor
  }

  /** Only one integer rounds from a given value. */
  lemma RoundsToUnique(x: real, m: int, n: int)
    requires RoundsTo(x, m) && RoundsTo(x, n)
    ensures m == n
  {
  }

  /** An integer shift passes through Math.round. */
  lemma RoundShift(k: int, x: real)
    ensures Round(k as real + x) == k + Round(x)
  {
    RoundsToUnique(k as real + x, Round(k as real + x), k + Round(x));
  }

  function DigitChar(n: nat): (c: char)
    requires n < 10
    ensures IsDigit(c)
  {
    (48 + n) as char
  }

  function DigitValue(c: char): nat
    requires IsDigit(c)
  {
    c as int - 48
  }

  /** The decimal numeral of a natural number, as Number.prototype.toString
      writes it. */
  function NatToString(n: nat): (r: string)
    ensures r != [] && AllDigits(r)
  {
    if n < 10 then [DigitChar(n)] else NatToString(n / 10) + [DigitChar(n % 10)]
  }

  /** Number.prototype.toString on an integer. */
  function IntToString(n: int): string
  {
    if n < 0 then "-" + NatToString(-n) else NatToString(n)
  }

  /** The value of a string of decimal digits (0 for the empty string). */
  function DigitsValue(d: string): nat
    requires AllDigits(d)
  {
    if d == [] then 0 else DigitsValue(d[..|d| - 1]) * 10 + DigitValue(d[|d| - 1])
  }

  lemma {:induction false} NatToStringValue(n: nat)
    ensures DigitsValue(NatToString(n)) == n
  {
    if n >= 10 {
      NatToStringValue(n / 10);
      var s := NatToString(n / 10) + [DigitChar(n % 10)];
      assert s[..|s| - 1] == NatToString(n / 10);
    }
  }

  /** formatearNumero(numero, false) for a numeric argument; `None` stands
      for NaN, null and undefined, which print as 0. */
  function FormatearNumero(x: Option<real>): (r: string)
    ensures var n := if x.None? then 0 else Round(x.value);
      r == (if n < 0 then "-" else "") + Grouped(NatToString(if n < 0 then -n else n))
  {
    var n := if x.None? then 0 else Round(x.value);
    var m := if n < 0 then -n else n;
    assert InsertSeparators(IntToString(n)) == (if n < 0 then "-" else "") + Grouped(NatToString(m)) by {
      InsertSeparatorsGroupsDigits(NatToString(m));
      if n < 0 {
        MinusSignHasNoSeparator(NatToString(m));
      }
    }
    InsertSeparators(IntToString(n))
  }

  // ---------------------------------------------------------------------
  // The key the table sort reads from a number cell

  /** The longest prefix of `t` made of digits. */
  function DigitPrefix(t: string): (r: string)
    ensures AllDigits(r)
  {
    if t != [] && IsDigit(t[0]) then [t[0]] + DigitPrefix(t[1..]) else []
  }

  /** `parseFloat(t) || 0` on text that holds an integer: an optional sign,
      then the leading digits; no digits gives 0. */
  function LeadingInteger(t: string): int
  {
    if t != [] && (t[0] == '-' || t[0] == '+') then
      (if t[0] == '-' then -1 else 1) * DigitsValue(DigitPrefix(t[1..]))
    else DigitsValue(DigitPrefix(t))
  }

  predicate NotCurrencyOrDot(c: char)
  {
    c != '$' && c != '.'
  }

  /** The key of a cell of a 'number' column:
      `parseFloat(cell.replace(/[$.]/g, '')) || 0`. */
  function NumberCellKey(cell: string): (k: int)
    ensures (forall i :: 0 <= i < |cell| ==> IsDigit(cell[i]) || !NotCurrencyOrDot(cell[i]))
            ==> k == DigitsValue(LimpiarNumero(cell))
  {
    var t := Filter(cell, NotCurrencyOrDot);
    assert (forall i :: 0 <= i < |cell| ==> IsDigit(cell[i]) || !NotCurrencyOrDot(cell[i]))
           ==> LeadingInteger(t) == DigitsValue(LimpiarNumero(cell)) by {
      if forall i :: 0 <= i < |cell| ==> IsDigit(cell[i]) || !NotCurrencyOrDot(cell[i]) {
        FilterAgree(cell, NotCurrencyOrDot, IsDigit);
        DigitPrefixOfDigits(t);
      }
    }
    LeadingInteger(t)
  }

  lemma {:induction false} DigitPrefixOfDigits(d: string)
    requires AllDigits(d)
    ensures DigitPrefix(d) == d
  {
    if d != [] {
      DigitPrefixOfDigits(d[1..]);
      assert d == [d[0]] + d[1..];
    }
  }

  /** Removing '$' and '.' from "$" followed by a formatted integer gives
      the integer's plain numeral back. */
  lemma StripFormattedInteger(n: int)
    ensures Filter("$" + InsertSeparators(IntToString(n)), NotCurrencyOrDot) == IntToString(n)
  {
    var s := IntToString(n);
    FilterSeesThroughSeparators(s, 0, NotCurrencyOrDot);
    assert s[0..] == s;
    FilterAppend("$", InsertSeparators(s), NotCurrencyOrDot);
    assert Filter("$", NotCurrencyOrDot) == [];
    assert forall c :: c in s ==> NotCurrencyOrDot(c) by {
      if n < 0 {
        assert s == "-" + NatToString(-n);
      }
    }
    FilterKeepsAll(s, NotCurrencyOrDot);
  }

  /** parseFloat reads an integer's numeral back as the integer. */
  lemma LeadingIntegerOfNumeral(n: int)
    ensures LeadingInteger(IntToString(n)) == n
  {
    var digits := NatToString(if n < 0 then -n else n);
    DigitPrefixOfDigits(digits);
    NatToStringValue(if n < 0 then -n else n);
    if n < 0 {
      assert IntToString(n)[1..] == digits;
    }
  }

  /** Number cells sort by the amount they show: a cell written as "$"
      followed by formatearNumero(x, false) reads back as Math.round(x). */
  lemma NumberCellKeyReadsFormattedAmount(x: Option<real>)
    ensures NumberCellKey("$" + FormatearNumero(x)) == if x.None? then 0 else Round(x.value)
  {
    var n := if x.None? then 0 else Round(x.value);
    StripFormattedInteger(n);
    LeadingIntegerOfNumeral(n);
  }
}
