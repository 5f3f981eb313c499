/** What ParseDuration accepts and what it returns, exactly; and the units the command offers. */
module DurationTheorems {
  import opened Strings
  import opened Duration

  // ---------- writing durations ----------

  /** A number of some unit, as written; `fraction` are the digits after the point, if there is one. */
  datatype Term = Term(digits: string, fraction: Option<string>, unit: string) {
    function FractionDigits(): string { if fraction.Some? then fraction.value else "" }

    function Number(): string { digits + if fraction.Some? then "." + fraction.value else "" }
  }

  /** Digits before or after the point, and a known unit. */
  predicate TermReadable(lib: Library, t: Term) {
    && AllDigits(t.digits) && AllDigits(t.FractionDigits()) && t.digits + t.FractionDigits() != ""
    && t.unit in lib.units
  }

  function Write(ts: seq<Term>): string {
    if ts == [] then "" else ts[0].Number() + ts[0].unit + Write(ts[1..])
  }

  /** The rounded value of a fraction is a 64-bit number, and not negative. */
  predicate Rounds(lib: Library, t: Term)
    requires TermReadable(lib, t)
  {
    var f := Value(t.FractionDigits());
    f > 0 ==> 0 <= lib.frac(f, |t.FractionDigits()|, lib.units[t.unit]) <= MAX_INT64
  }

  /** The nanoseconds of one term, however many: the whole part exactly, and the fraction as rounded. */
  function ExactTerm(lib: Library, t: Term): int
    requires TermReadable(lib, t)
  {
    var unit, f := lib.units[t.unit], Value(t.FractionDigits());
    Value(t.digits) * unit + if f > 0 then lib.frac(f, |t.FractionDigits()|, unit) else 0
  }

  function ExactSum(lib: Library, ts: seq<Term>): int
    requires forall t | t in ts :: TermReadable(lib, t)
  {
    if ts == [] then 0 else ExactTerm(lib, ts[0]) + ExactSum(lib, ts[1..])
  }

  /** The digits after each point are a 64-bit number. */
  predicate FractionsFit(lib: Library, ts: seq<Term>)
    requires forall t | t in ts :: TermReadable(lib, t)
  {
    forall t | t in ts :: TermReadable(lib, t) && Value(t.FractionDigits()) <= MAX_INT64
  }

  function AsToken(t: Term): Token { Token(t.digits, t.fraction, t.unit) }

  function AsTokens(ts: seq<Term>): seq<Token> {
    if ts == [] then [] else [AsToken(ts[0])] + AsTokens(ts[1..])
  }

  // ---------- reading what was written ----------

  lemma DigitRunIs(s: string, n: nat)
    requires n <= |s| && AllDigits(s[..n]) && (n < |s| ==> !IsDigit(s[n]))
    ensures DigitRun(s) == n
  {
    var r := DigitRun(s);
    assert forall i | 0 <= i < n :: s[..n][i] == s[i];
    assert forall i | 0 <= i < r :: s[..r][i] == s[i];
  }

  lemma DigitsRead(digits: string, tail: string)
    requires AllDigits(digits) && (tail != "" ==> !IsDigit(tail[0]))
    ensures Whole(digits + tail) == digits && (digits + tail)[DigitRun(digits + tail)..] == tail
    ensures DigitRun(digits + tail) == |digits|
  {
    var s := digits + tail;
    assert s[..|digits|] == digits && s[|digits|..] == tail;
    assert tail != "" ==> s[|digits|] == tail[0];
    DigitRunIs(s, |digits|);
  }

  lemma NumberRead(t: Term, tail: string)
    requires AllDigits(t.digits) && AllDigits(t.FractionDigits()) && tail != "" && UnitChar(tail[0])
    ensures var s := t.Number() + tail;
      && Whole(s) == t.digits && (HasPoint(s) <==> t.fraction.Some?) && FractionDigits(s) == t.FractionDigits()
      && AfterNumber(s) == tail
  {
    var s := t.Number() + tail;
    if t.fraction.None? {
      assert s == t.digits + tail;
      DigitsRead(t.digits, tail);
    } else {
      var after := t.fraction.value + tail;
      assert s == t.digits + ("." + after) && ("." + after)[1..] == after;
      DigitsRead(t.digits, "." + after);
      DigitsRead(t.fraction.value, tail);
    }
  }

  lemma UnitRead(unit: string, rest: string)
    requires forall i | 0 <= i < |unit| :: UnitChar(unit[i])
    requires rest != "" ==> !UnitChar(rest[0])
    ensures UnitRun(unit + rest) == |unit|
  {
    var s := unit + rest;
    assert forall i | 0 <= i < |unit| :: s[i] == unit[i];
    assert rest != "" ==> s[|unit|] == rest[0];
  }

  lemma TermRead(lib: Library, t: Term, rest: string)
    requires TermReadable(lib, t) && (rest != "" ==> !UnitChar(rest[0]))
    ensures FirstToken(lib, t.Number() + t.unit + rest) == Some((AsToken(t), rest))
  {
    assert UnitEntry(t.unit, lib.units[t.unit]);
    var tail := t.unit + rest;
    assert t.Number() + t.unit + rest == t.Number() + tail;
    NumberRead(t, tail);
    UnitRead(t.unit, rest);
    assert tail[..|t.unit|] == t.unit && tail[|t.unit|..] == rest;
    hide Whole, FractionDigits, AfterNumber, HasPoint, UnitRun, AllDigits;
  }

  lemma WriteStartsWithNumber(lib: Library, ts: seq<Term>)
    requires forall t | t in ts :: TermReadable(lib, t)
    ensures Write(ts) != "" <==> ts != []
    ensures ts != [] ==> !UnitChar(Write(ts)[0]) && |Write(ts)| >= 2
  {
    if ts != [] {
      assert TermReadable(lib, ts[0]);
      assert UnitEntry(ts[0].unit, lib.units[ts[0].unit]);
      var number := ts[0].Number();
      assert number != "" && Write(ts)[0] == number[0];
      assert ts[0].digits != "" ==> number[0] == ts[0].digits[0];
    }
  }

  lemma {:induction false} WrittenTokens(lib: Library, ts: seq<Term>)
    requires forall t | t in ts :: TermReadable(lib, t)
    ensures Tokens(lib, Write(ts)) == Some(AsTokens(ts))
  {
    hide FirstToken;
    if ts == [] {
    } else {
      WrittenTokens(lib, ts[1..]);
      WriteStartsWithNumber(lib, ts);
      WriteStartsWithNumber(lib, ts[1..]);
      TermRead(lib, ts[0], Write(ts[1..]));
    }
  }

  /** One term: its exact value if that fits 64 bits and so do the digits after the point. */
  lemma AmountOfTerm(lib: Library, t: Term)
    requires TermReadable(lib, t) && Rounds(lib, t)
    ensures TokenReadable(lib, AsToken(t)) && ExactTerm(lib, t) >= 0
    ensures
      TokenValue(lib, AsToken(t))
      == if Value(t.FractionDigits()) <= MAX_INT64 && ExactTerm(lib, t) <= MAX_INT64 then Some(ExactTerm(lib, t)) else None
  {
    var unit, f := lib.units[t.unit], Value(t.FractionDigits());
    assert UnitEntry(t.unit, unit);
    AtLeast(Value(t.digits), unit);
    var whole := Value(t.digits) * unit;
    if f > 0 {
      WrapInRange(whole + lib.frac(f, |t.FractionDigits()|, unit));
    }
    hide Value, Wrap;
  }

  lemma AtLeast(n: nat, unit: nat)
    requires unit >= 1
    ensures n * unit >= n
  {
  }

  lemma {:induction false} TokensReadable(lib: Library, ts: seq<Term>)
    requires forall t | t in ts :: TermReadable(lib, t) && Rounds(lib, t)
    ensures forall t | t in AsTokens(ts) :: TokenReadable(lib, t)
    ensures ExactSum(lib, ts) >= 0
  {
    if ts == [] {
    } else {
      AmountOfTerm(lib, ts[0]);
      TokensReadable(lib, ts[1..]);
    }
  }

  lemma FirstOfTerms(lib: Library, ts: seq<Term>)
    requires ts != [] && forall t | t in ts :: TermReadable(lib, t) && Rounds(lib, t)
    ensures TermReadable(lib, ts[0]) && Rounds(lib, ts[0])
    ensures forall t | t in ts[1..] :: TermReadable(lib, t) && Rounds(lib, t)
    ensures FractionsFit(lib, ts) <==> Value(ts[0].FractionDigits()) <= MAX_INT64 && FractionsFit(lib, ts[1..])
    ensures ExactSum(lib, ts) == ExactTerm(lib, ts[0]) + ExactSum(lib, ts[1..])
    ensures AsTokens(ts) == [AsToken(ts[0])] + AsTokens(ts[1..])
  {
    hide ExactTerm, Value, Rounds;
    assert ts == [ts[0]] + ts[1..];
  }

  lemma {:induction false} SumOfTerms(lib: Library, ts: seq<Term>, acc: nat)
    requires (forall t | t in ts :: TermReadable(lib, t) && Rounds(lib, t)) && acc <= MAX_INT64
    ensures forall t | t in AsTokens(ts) :: TokenReadable(lib, t)
    ensures
      Sum(lib, AsTokens(ts), acc)
      == if FractionsFit(lib, ts) && acc + ExactSum(lib, ts) <= MAX_INT64 then Some(acc + ExactSum(lib, ts)) else None
  {
    TokensReadable(lib, ts);
    if ts == [] {
    } else {
      hide *;
      FirstOfTerms(lib, ts);
      AmountOfTerm(lib, ts[0]);
      TokensReadable(lib, ts[1..]);
      SumCons(lib, AsToken(ts[0]), AsTokens(ts[1..]), acc);
      if acc + ExactTerm(lib, ts[0]) <= MAX_INT64 {
        SumOfTerms(lib, ts[1..], acc + ExactTerm(lib, ts[0]));
      }
    }
  }

  predicate IsSign(sign: string) { sign == "" || sign == "+" || sign == "-" }

  lemma UnsignedBody(sign: string, body: string)
    requires IsSign(sign) && body != "" && !UnitChar(body[0])
    ensures Unsigned(sign + body) == body && (Negative(sign + body) <==> sign == "-")
  {
    if sign == "" {
      assert sign + body == body;
    } else {
      assert (sign + body)[1..] == body;
    }
  }

  /**
    A signed list of numbers with units, with or without fractions, parses to the sum of its terms if that
    fits 64 bits and every fraction's digits do, and is rejected otherwise: no overflow of a digit run, a
    product or a partial sum goes unnoticed.
   */
  lemma WrittenParsesExactly(lib: Library, sign: string, ts: seq<Term>)
    requires IsSign(sign) && ts != [] && forall t | t in ts :: TermReadable(lib, t) && Rounds(lib, t)
    ensures
      var exact := ExactSum(lib, ts);
      Meaning(lib, sign + Write(ts))
      == if !FractionsFit(lib, ts) || exact > 0x7FFF_FFFF_FFFF_FFFF then None else Some(if sign == "-" then -exact else exact)
  {
    hide Tokens, Sum;
    WriteStartsWithNumber(lib, ts);
    UnsignedBody(sign, Write(ts));
    WrittenTokens(lib, ts);
    SumOfTerms(lib, ts, 0);
    hide Write, ExactSum, FractionsFit, AsTokens, TermReadable, Rounds, TokenReadable, UnitChar, Unsigned, Negative, IsSign;
  }

  // ---------- nothing else is accepted ----------

  lemma NumberIs(s: string)
    ensures var t := Term(Whole(s), if HasPoint(s) then Some(FractionDigits(s)) else None, "");
      s == t.Number() + AfterNumber(s)
  {
    hide DigitRun, IsDigit, AllDigits;
    var tail := s[DigitRun(s)..];
    assert s == Whole(s) + tail;
    if HasPoint(s) {
      assert tail == "." + AfterPoint(s) && AfterPoint(s) == FractionDigits(s) + AfterNumber(s);
    }
  }

  lemma TermOfToken(lib: Library, s: string)
    requires FirstToken(lib, s).Some?
    ensures
      var (t, rest) := FirstToken(lib, s).value;
      var term := Term(t.whole, t.fraction, t.unit);
      TermReadable(lib, term) && s == term.Number() + t.unit + rest
  {
    NumberIs(s);
    FractionIsRead(lib, s);
    TokenParts(lib, s);
    hide HasPoint, AfterNumber, Whole, FractionDigits, UnitRun, AllDigits, FirstToken;
    var (t, rest) := FirstToken(lib, s).value;
    Regroup(Term(t.whole, t.fraction, t.unit).Number(), t.unit, rest);
  }

  lemma Regroup(a: string, b: string, c: string)
    ensures a + (b + c) == a + b + c
  {
  }

  lemma TokenParts(lib: Library, s: string)
    requires FirstToken(lib, s).Some?
    ensures var (t, rest) := FirstToken(lib, s).value;
      && t.whole == Whole(s) && t.fraction == (if HasPoint(s) then Some(FractionDigits(s)) else None)
      && AfterNumber(s) == t.unit + rest && t.unit in lib.units && (Whole(s) != "" || FractionDigits(s) != "")
  {
    hide HasPoint, AfterNumber, Whole, FractionDigits, AllDigits;
  }

  lemma FractionIsRead(lib: Library, s: string)
    ensures AllDigits(Whole(s)) && AllDigits(FractionDigits(s)) && (!HasPoint(s) ==> FractionDigits(s) == "")
  {
  }

  lemma {:induction false} TokensAreWritten(lib: Library, s: string) returns (ts: seq<Term>)
    requires Tokens(lib, s).Some?
    ensures (forall t | t in ts :: TermReadable(lib, t)) && s == Write(ts)
    decreases |s|
  {
    hide FirstToken;
    if s == "" {
      ts := [];
    } else {
      TermOfToken(lib, s);
      var (t, rest) := FirstToken(lib, s).value;
      var later := TokensAreWritten(lib, rest);
      ts := [Term(t.whole, t.fraction, t.unit)] + later;
      assert ts[1..] == later;
    }
  }

  /**
    Conversely, a string is accepted only if it is "0" or a list of numbers with units, either with an
    optional sign; and "0" with any sign is zero.
   */
  lemma AcceptedIsWritten(lib: Library, s: string)
    ensures s in {"0", "+0", "-0"} ==> Meaning(lib, s) == Some(0)
    ensures Meaning(lib, s).Some? ==>
      || s in {"0", "+0", "-0"}
      || exists ts: seq<Term> :: ts != [] && (forall t | t in ts :: TermReadable(lib, t)) && Unsigned(s) == Write(ts)
  {
    hide FirstToken, Sum;
    SignedZero(s);
    if Meaning(lib, s).Some? && Unsigned(s) != "0" {
      var ts := TokensAreWritten(lib, Unsigned(s));
      assert Unsigned(s) == Write(ts) && ts != [];
    }
  }

  lemma SignedZero(s: string)
    ensures Unsigned(s) == "0" <==> s in {"0", "+0", "-0"}
  {
    assert "+0"[1..] == "0" && "-0"[1..] == "0";
    if Unsigned(s) == "0" && s != "0" {
      assert |s| == 2 && s[1] == s[1..][0] == '0';
      assert s == if s[0] == '+' then "+0" else "-0";
    }
  }

  // ---------- every 64-bit duration can be written ----------

  function Decimal(n: nat): (s: string)
    ensures s != "" && AllDigits(s)
  {
    var digit := ['0' + (n % 10) as char];
    if n < 10 then digit else Decimal(n / 10) + digit
  }

  lemma {:induction false} DecimalValue(n: nat)
    ensures Value(Decimal(n)) == n
  {
    var s := Decimal(n);
    if n < 10 {
      assert s[..|s| - 1] == "";
    } else {
      DecimalValue(n / 10);
      assert s[..|s| - 1] == Decimal(n / 10);
    }
  }

  /** A whole number of one unit. */
  lemma WholeNumber(lib: Library, sign: string, n: nat, unit: string)
    requires IsSign(sign) && unit in lib.units
    ensures
      Meaning(lib, sign + Decimal(n) + unit)
      == if n * lib.units[unit] > 0x7FFF_FFFF_FFFF_FFFF then None
         else Some(if sign == "-" then -(n * lib.units[unit]) else n * lib.units[unit])
  {
    hide *;
    var t := Term(Decimal(n), None, unit);
    OneTerm(lib, n, unit);
    assert sign + Decimal(n) + unit == sign + (Decimal(n) + unit);
    assert forall u | u in [t] :: u == t;
    WrittenParsesExactly(lib, sign, [t]);
  }

  lemma InAnotherUnit(lib: Library, sign: string, n: nat, unit: string, k: nat, smaller: string)
    requires IsSign(sign) && unit in lib.units && smaller in lib.units && lib.units[unit] == k * lib.units[smaller]
    ensures Meaning(lib, sign + Decimal(n) + unit) == Meaning(lib, sign + Decimal(n * k) + smaller)
  {
    hide *;
    WholeNumber(lib, sign, n, unit);
    WholeNumber(lib, sign, n * k, smaller);
    Reorder(n, k, lib.units[smaller]);
  }

  lemma Reorder(n: nat, k: nat, size: int)
    ensures n * (k * size) == n * k * size
  {
  }

  lemma OneTerm(lib: Library, n: nat, unit: string)
    requires unit in lib.units
    ensures var t := Term(Decimal(n), None, unit);
      && TermReadable(lib, t) && Rounds(lib, t) && FractionsFit(lib, [t])
      && ExactSum(lib, [t]) == n * lib.units[unit] && Write([t]) == Decimal(n) + unit
  {
    var t := Term(Decimal(n), None, unit);
    WholeTerm(lib, n, unit);
    hide Value, ExactTerm, TermReadable, Rounds;
    assert [t][1..] == [] && forall u | u in [t] :: u == t;
    assert t.Number() + t.unit + "" == Decimal(n) + unit;
  }

  lemma WholeTerm(lib: Library, n: nat, unit: string)
    requires unit in lib.units
    ensures var t := Term(Decimal(n), None, unit);
      && TermReadable(lib, t) && Rounds(lib, t) && Value(t.FractionDigits()) == 0
      && ExactTerm(lib, t) == n * lib.units[unit] && t.Number() == Decimal(n)
  {
    DecimalValue(n);
    assert Value("") == 0;
    hide Value, Decimal;
  }

  function WriteNanoseconds(d: int): string { if d < 0 then "-" + Decimal(-d) + "ns" else Decimal(d) + "ns" }

  /** Writing a duration in nanoseconds and parsing it gives the duration back. */
  lemma NanosecondsRoundTrip(lib: Library, d: int)
    requires -0x7FFF_FFFF_FFFF_FFFF <= d <= 0x7FFF_FFFF_FFFF_FFFF && "ns" in lib.units && lib.units["ns"] == 1
    ensures Meaning(lib, WriteNanoseconds(d)) == Some(d)
  {
    var n: nat := if d < 0 then -d else d;
    var sign := if d < 0 then "-" else "";
    assert WriteNanoseconds(d) == sign + Decimal(n) + "ns";
    hide Meaning, Decimal, WriteNanoseconds;
    WholeNumber(lib, sign, n, "ns");
  }
}

/** The unit table of the command. */
module DurationUnits {
  import opened Strings
  import opened Duration
  import opened DurationTheorems

  const NANOSECOND: int := 1
  const MICROSECOND := 1000 * NANOSECOND
  const MILLISECOND := 1000 * MICROSECOND
  const SECOND := 1000 * MILLISECOND
  const MINUTE := 60 * SECOND
  const HOUR := 60 * MINUTE
  const DAY := HOUR * 24
  const WEEK := DAY * 7
  const YEAR := DAY * 365

  const UNITS: Units := map[
    "ns" := NANOSECOND,
    "us" := MICROSECOND,
    "\U{c2}\U{b5}s" := MICROSECOND,
    "\U{ce}\U{bc}s" := MICROSECOND,
    "ms" := MILLISECOND,
    "s" := SECOND,
    "m" := MINUTE,
    "h" := HOUR,
    "d" := DAY,
    "w" := WEEK,
    "y" := YEAR
  ]

  /** With the command's units every duration survives being written and parsed. */
  lemma CommandRoundTrip(frac: Fractions, d: int)
    requires -0x7FFF_FFFF_FFFF_FFFF <= d <= 0x7FFF_FFFF_FFFF_FFFF
    ensures Meaning(Library(UNITS, frac), WriteNanoseconds(d)) == Some(d)
  {
    hide Meaning;
    NanosecondsRoundTrip(Library(UNITS, frac), d);
  }

  /** How many of the next smaller unit make one, down to the nanosecond; a year counts 365 days. */
  function Factor(unit: string): (nat, string) {
    if unit == "y" then (365, "d")
    else if unit == "w" then (7, "d")
    else if unit == "d" then (24, "h")
    else if unit == "h" then (60, "m")
    else if unit == "m" then (60, "s")
    else if unit == "s" then (1000, "ms")
    else if unit == "ms" then (1000, "us")
    else if unit == "us" || unit == "\U{c2}\U{b5}s" || unit == "\U{ce}\U{bc}s" then (1000, "ns")
    else (1, "ns")
  }

  lemma FactorFits(unit: string)
    requires unit in {"y", "w", "d", "h", "m", "s", "ms", "us", "\U{c2}\U{b5}s", "\U{ce}\U{bc}s", "ns"}
    ensures var (k, smaller) := Factor(unit);
      unit in UNITS && smaller in UNITS && UNITS[unit] == k * UNITS[smaller]
    ensures "ns" in UNITS && UNITS["ns"] == 1
  {
  }

  /** A whole number of a unit means the same as the number of the smaller unit it makes, or as little. */
  lemma UnitsAgree(frac: Fractions, sign: string, n: nat, unit: string)
    requires IsSign(sign)
    requires unit in {"y", "w", "d", "h", "m", "s", "ms", "us", "\U{c2}\U{b5}s", "\U{ce}\U{bc}s", "ns"}
    ensures var (k, smaller) := Factor(unit);
      Meaning(Library(UNITS, frac), sign + Decimal(n) + unit)
      == Meaning(Library(UNITS, frac), sign + Decimal(n * k) + smaller)
  {
    FactorFits(unit);
    var (k, smaller) := Factor(unit);
    hide *;
    InAnotherUnit(Library(UNITS, frac), sign, n, unit, k, smaller);
  }
}
