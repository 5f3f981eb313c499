/** Parsing durations with 64-bit integers that wrap around. Strings are bytes, one per character. */
module Duration {
  import opened Strings

  const MAX_INT64: int := 0x7FFF_FFFF_FFFF_FFFF
  const TWO_TO_64: int := 0x1_0000_0000_0000_0000

  type int64 = x: int | -MAX_INT64 - 1 <= x <= MAX_INT64

  /** The value a 64-bit register holds after an operation whose exact result is `x`. */
  function Wrap(x: int): int64
    decreases if x > MAX_INT64 then x else if x < -MAX_INT64 - 1 then -x else 0
  {
    if x > MAX_INT64 then Wrap(x - TWO_TO_64) else if x < -MAX_INT64 - 1 then Wrap(x + TWO_TO_64) else x
  }

  lemma WrapIsModular(x: int)
    ensures Wrap(x) == (x + 0x8000_0000_0000_0000) % 0x1_0000_0000_0000_0000 - 0x8000_0000_0000_0000
  {
    WrapInRange(0);
    WrapIsRemainder(x);
    hide Wrap;
    assert TWO_TO_64 == 0x1_0000_0000_0000_0000 && MAX_INT64 + 1 == 0x8000_0000_0000_0000;
  }

  lemma {:induction false} WrapIsRemainder(x: int)
    ensures Wrap(x) == (x + MAX_INT64 + 1) % TWO_TO_64 - MAX_INT64 - 1
    decreases if x > MAX_INT64 then x else if x < -MAX_INT64 - 1 then -x else 0
  {
    if x > MAX_INT64 {
      WrapIsRemainder(x - TWO_TO_64);
    } else if x < -MAX_INT64 - 1 {
      WrapIsRemainder(x + TWO_TO_64);
    }
  }

  lemma WrapInRange(x: int)
    ensures -MAX_INT64 - 1 <= x <= MAX_INT64 ==> Wrap(x) == x
    ensures MAX_INT64 < x <= MAX_INT64 + TWO_TO_64 / 2 ==> Wrap(x) == x - TWO_TO_64 < 0
  {
  }

  // ---------- digits ----------

  predicate IsDigit(c: char) { '0' <= c <= '9' }

  predicate AllDigits(s: string) { forall i | 0 <= i < |s| :: IsDigit(s[i]) }

  /** How many digits `s` starts with. */
  function DigitRun(s: string): (n: nat)
    ensures n <= |s| && AllDigits(s[..n]) && (n < |s| ==> !IsDigit(s[n]))
  {
    if s == "" || !IsDigit(s[0]) then 0
    else
      var n := DigitRun(s[1..]);
      assert forall i | 1 <= i < n + 1 :: s[i] == s[1..][..n][i - 1];
      n + 1
  }

  /** The number a string of digits denotes. */
  function Value(s: string): nat
    requires AllDigits(s)
  {
    if s == "" then 0 else 10 * Value(s[..|s| - 1]) + (s[|s| - 1] as int - '0' as int)
  }

  lemma {:induction false} ValueGrows(s: string, i: nat)
    requires AllDigits(s) && i <= |s|
    ensures Value(s[..i]) <= Value(s)
  {
    if i == |s| {
      assert s[..i] == s;
    } else {
      assert s[..|s| - 1][..i] == s[..i];
      ValueGrows(s[..|s| - 1], i);
    }
  }

  /** Appending a digit by wrapping arithmetic: a value too large shows as a negative one. */
  lemma AppendDigit(x: int, c: char)
    requires 0 <= x <= MAX_INT64 / 10 && IsDigit(c)
    ensures
      var exact := 10 * x + (c as int - '0' as int);
      var wrapped := Wrap(Wrap(Wrap(x * 10) + c as int) - '0' as int);
      if exact <= MAX_INT64 then wrapped == exact else wrapped < 0
  {
  }

  lemma NextDigit(s: string, i: nat)
    requires i < DigitRun(s)
    ensures AllDigits(s[..i]) && AllDigits(s[..i + 1]) && IsDigit(s[i])
    ensures Value(s[..i + 1]) == 10 * Value(s[..i]) + (s[i] as int - '0' as int)
    ensures Value(s[..i + 1]) <= Value(s[..DigitRun(s)])
  {
    var run := s[..DigitRun(s)];
    assert s[..i] == run[..i] && s[..i + 1] == run[..i + 1] && s[i] == run[i];
    assert s[..i + 1][..i] == s[..i];
    ValueGrows(run, i + 1);
  }

  /**
    leadingInt: reads the digits `s` starts with. The two tests catch every overflow, also the one
    where adding the character wraps around and subtracting '0' does not bring the value back.
   */
  method LeadingInt(s: string) returns (x: int64, rem: string, ok: bool)
    ensures ok <==> Value(s[..DigitRun(s)]) <= MAX_INT64
    ensures ok ==> x == Value(s[..DigitRun(s)]) && rem == s[DigitRun(s)..]
    ensures !ok ==> x == 0 && rem == ""
  {
    x := 0;
    var i := 0;
    while i < |s|
      invariant 0 <= i <= DigitRun(s)
      invariant AllDigits(s[..i]) && x == Value(s[..i])
    {
      var c := s[i];
      if c < '0' || c > '9' {
        break;
      }
      assert i < DigitRun(s) by {
        assert i == DigitRun(s) ==> !IsDigit(c);
      }
      NextDigit(s, i);
      if x > MAX_INT64 / 10 {
        return 0, "", false;
      }
      AppendDigit(x, c);
      x := Wrap(Wrap(Wrap(x * 10) + c as int) - '0' as int);
      if x < 0 {
        return 0, "", false;
      }
      i := i + 1;
    }
    return x, s[i..], true;
  }

  // ---------- units ----------

  predicate UnitChar(c: char) { c != '.' && !IsDigit(c) }

  /** How many characters `s` starts with that can belong to a unit. */
  function UnitRun(s: string): (n: nat)
    ensures n <= |s| && (forall i | 0 <= i < n :: UnitChar(s[i])) && (n < |s| ==> !UnitChar(s[n]))
  {
    if s == "" || !UnitChar(s[0]) then 0 else UnitRun(s[1..]) + 1
  }

  /** A word that can stand for a unit, with a size that fits 64 bits. */
  predicate UnitEntry(u: string, size: int) {
    u != "" && (forall i | 0 <= i < |u| :: UnitChar(u[i])) && 1 <= size <= MAX_INT64
  }

  /** The sizes of the units in nanoseconds. */
  type Units = m: map<string, int> | forall u | u in m :: UnitEntry(u, m[u]) witness map[]

  /**
    The conversion of a fraction by floating point: `f` the digits as a number, their count, and the
    unit. Its rounding is not modelled.
   */
  type Fractions = (int, int, int) -> int

  datatype Library = Library(units: Units, frac: Fractions)

  // ---------- reference: first the tokens, then their exact sum ----------

  /** A number with its unit; `fraction` are the digits after the point, if there is a point. */
  datatype Token = Token(whole: string, fraction: Option<string>, unit: string)

  function Whole(s: string): string { s[..DigitRun(s)] }

  predicate HasPoint(s: string) { DigitRun(s) < |s| && s[DigitRun(s)] == '.' }

  function AfterPoint(s: string): string
    requires HasPoint(s)
  {
    s[DigitRun(s)..][1..]
  }

  function FractionDigits(s: string): string {
    if HasPoint(s) then AfterPoint(s)[..DigitRun(AfterPoint(s))] else ""
  }

  function AfterNumber(s: string): string {
    if HasPoint(s) then AfterPoint(s)[DigitRun(AfterPoint(s))..] else s[DigitRun(s)..]
  }

  predicate TokenReadable(lib: Library, t: Token) {
    AllDigits(t.whole) && t.unit in lib.units && (t.fraction.Some? ==> AllDigits(t.fraction.value))
  }

  /** The first token of `s` and what follows it. */
  function FirstToken(lib: Library, s: string): (r: Option<(Token, string)>)
    ensures r.Some? ==> TokenReadable(lib, r.value.0) && |r.value.1| < |s|
  {
    var rest := AfterNumber(s);
    var unit := rest[..UnitRun(rest)];
    if (Whole(s) == "" && FractionDigits(s) == "") || unit !in lib.units then None
    else Some((Token(Whole(s), if HasPoint(s) then Some(FractionDigits(s)) else None, unit), rest[UnitRun(rest)..]))
  }

  function Tokens(lib: Library, s: string): (r: Option<seq<Token>>)
    ensures r.Some? ==> forall t | t in r.value :: TokenReadable(lib, t)
    decreases |s|
  {
    if s == "" then Some([])
    else
      match FirstToken(lib, s)
      case None => None
      case Some((token, rest)) =>
        match Tokens(lib, rest)
        case None => None
        case Some(tokens) => Some([token] + tokens)
  }

  /** `whole` units and the fraction read as the number `f`, in nanoseconds, unless it does not fit 64 bits. */
  function Amount(lib: Library, whole: nat, f: nat, digits: nat, unit: int): (r: Option<int>)
    requires 1 <= unit <= MAX_INT64
    ensures r.Some? ==> 0 <= r.value <= MAX_INT64
  {
    if whole > MAX_INT64 || f > MAX_INT64 || whole * unit > MAX_INT64 then None
    else if f == 0 then Some(whole * unit)
    else
      var total := Wrap(whole * unit + lib.frac(f, digits, unit));
      if total < 0 then None else Some(total)
  }

  /** The nanoseconds of one token, unless it does not fit 64 bits. */
  function TokenValue(lib: Library, t: Token): (r: Option<int>)
    requires TokenReadable(lib, t)
    ensures r.Some? ==> 0 <= r.value <= MAX_INT64
  {
    var fraction := if t.fraction.Some? then t.fraction.value else "";
    Amount(lib, Value(t.whole), Value(fraction), |fraction|, lib.units[t.unit])
  }

  /** The exact sum of the tokens, unless one of them or the sum does not fit. */
  function Sum(lib: Library, ts: seq<Token>, acc: int): (r: Option<int>)
    requires forall t | t in ts :: TokenReadable(lib, t)
    requires 0 <= acc <= MAX_INT64
    ensures r.Some? ==> 0 <= r.value <= MAX_INT64
    decreases |ts|
  {
    if ts == [] then Some(acc)
    else
      match TokenValue(lib, ts[0])
      case None => None
      case Some(v) => if acc + v > MAX_INT64 then None else Sum(lib, ts[1..], acc + v)
  }

  function SumOfTokens(lib: Library, s: string, acc: int): (r: Option<int>)
    requires 0 <= acc <= MAX_INT64
    ensures r.Some? ==> 0 <= r.value <= MAX_INT64
  {
    match Tokens(lib, s)
    case None => None
    case Some(ts) => Sum(lib, ts, acc)
  }

  function Unsigned(s: string): string {
    if s != "" && (s[0] == '-' || s[0] == '+') then s[1..] else s
  }

  predicate Negative(s: string) { s != "" && s[0] == '-' }

  /** The duration a string denotes: tokenised as a whole, then summed without wrapping. */
  function Meaning(lib: Library, s: string): Option<int> {
    if Unsigned(s) == "0" then Some(0)
    else if Unsigned(s) == "" then None
    else
      match SumOfTokens(lib, Unsigned(s), 0)
      case None => None
      case Some(d) => Some(if Negative(s) then -d else d)
  }

  // ---------- the parser ----------

  predicate IsSpace(c: char) { c == ' ' || '\t' <= c <= '\r' }

  lemma SumCons(lib: Library, t: Token, ts: seq<Token>, d: int)
    requires TokenReadable(lib, t) && (forall u | u in ts :: TokenReadable(lib, u)) && 0 <= d <= MAX_INT64
    ensures
      var v := TokenValue(lib, t);
      Sum(lib, [t] + ts, d) == if v.None? || d + v.value > MAX_INT64 then None else Sum(lib, ts, d + v.value)
  {
    assert ([t] + ts)[1..] == ts;
  }

  /** The sum of a string is the sum of what follows its first token, started at that token's value. */
  lemma TakeToken(lib: Library, s: string, t: Token, rest: string, d: int)
    requires s != "" && 0 <= d <= MAX_INT64 && FirstToken(lib, s) == Some((t, rest))
    ensures TokenReadable(lib, t) && |rest| < |s|
    ensures
      var v := TokenValue(lib, t);
      SumOfTokens(lib, s, d)
      == if v.None? || d + v.value > MAX_INT64 then None else SumOfTokens(lib, rest, d + v.value)
  {
    if Tokens(lib, rest).Some? {
      SumCons(lib, t, Tokens(lib, rest).value, d);
    }
  }

  /** The value of the first token and what follows it. */
  function FirstTerm(lib: Library, s: string): (r: Option<(int, string)>)
    ensures r.Some? ==> 0 <= r.value.0 <= MAX_INT64 && |r.value.1| < |s|
  {
    match FirstToken(lib, s)
    case None => None
    case Some((t, rest)) => if TokenValue(lib, t).None? then None else Some((TokenValue(lib, t).value, rest))
  }

  lemma NoToken(lib: Library, s: string, d: int)
    requires s != "" && 0 <= d <= MAX_INT64 && FirstToken(lib, s) == None
    ensures SumOfTokens(lib, s, d) == None
  {
  }

  /** Adding up term by term, as the parser does. */
  function Total(lib: Library, s: string, acc: int): Option<int>
    decreases |s|
  {
    if s == "" then Some(acc)
    else
      match FirstTerm(lib, s)
      case None => None
      case Some((v, rest)) => if acc + v > MAX_INT64 then None else Total(lib, rest, acc + v)
  }

  lemma {:induction false} TotalIsTheSum(lib: Library, s: string, d: int)
    requires 0 <= d <= MAX_INT64
    ensures Total(lib, s, d) == SumOfTokens(lib, s, d)
    decreases |s|
  {
    hide FirstToken, TokenValue;
    if s == "" {
    } else {
      match FirstToken(lib, s)
      case None => NoToken(lib, s, d);
      case Some((t, rest)) =>
        TakeToken(lib, s, t, rest, d);
        var v := TokenValue(lib, t);
        if v.Some? && d + v.value <= MAX_INT64 {
          TotalIsTheSum(lib, rest, d + v.value);
        }
    }
  }

  /** The number before the unit: digits, a point, digits; at least one digit. */
  method ParseNumber(s: string) returns (v: int64, f: int64, digits: nat, rem: string, ok: bool)
    requires s != ""
    ensures ok <==> Value(Whole(s)) <= MAX_INT64 && Value(FractionDigits(s)) <= MAX_INT64
                    && (Whole(s) != "" || FractionDigits(s) != "")
    ensures ok ==> v == Value(Whole(s)) && f == Value(FractionDigits(s)) && digits == |FractionDigits(s)|
                   && rem == AfterNumber(s)
  {
    v, f, digits, rem, ok := 0, 0, 0, "", false;
    if s[0] != '.' && ('0' > s[0] || s[0] > '9') {
      return;
    }
    var pl := |s|;
    v, rem, ok := LeadingInt(s);
    if !ok {
      return;
    }
    var pre := pl != |rem|;
    var post := false;
    if rem != "" && rem[0] == '.' {
      rem := rem[1..];
      pl := |rem|;
      f, rem, ok := LeadingInt(rem);
      if !ok {
        return;
      }
      digits := pl - |rem|;
      post := pl != |rem|;
    }
    ok := pre || post;
  }

  /** Reads the unit in front of `rem`. */
  method TakeUnit(rem: string) returns (u: string, rest: string)
    ensures u == rem[..UnitRun(rem)] && rest == rem[UnitRun(rem)..]
  {
    var i := 0;
    while i < |rem|
      invariant 0 <= i <= UnitRun(rem)
    {
      var c := rem[i];
      if c == '.' || ('0' <= c && c <= '9') {
        break;
      }
      assert i < UnitRun(rem) by {
        assert i == UnitRun(rem) ==> !UnitChar(c);
      }
      i := i + 1;
    }
    return rem[..i], rem[i..];
  }

  /** Multiplies a number out, in wrapping arithmetic with the overflow tests around it. */
  method Scale(lib: Library, whole: int64, f: int64, digits: nat, unit: int64) returns (r: Option<int>)
    requires whole >= 0 && f >= 0 && unit >= 1
    ensures r == Amount(lib, whole, f, digits, unit)
  {
    var v := whole;
    ProductFits(v, unit);
    if v > MAX_INT64 / unit {
      return None;
    }
    WrapInRange(v * unit);
    v := Wrap(v * unit);
    if f > 0 {
      v := Wrap(v + lib.frac(f, digits, unit));
      if v < 0 {
        return None;
      }
    }
    return Some(v);
  }

  /** One turn of the parser's loop: a number and its unit. */
  method ParseTerm(lib: Library, s: string) returns (r: Option<(int, string)>)
    requires s != ""
    ensures r == FirstTerm(lib, s)
  {
    var v, f, digits, rem, ok := ParseNumber(s);
    if !ok {
      return None;
    }
    var u, rest := TakeUnit(rem);
    if u == "" || u !in lib.units {
      return None;
    }
    var amount := Scale(lib, v, f, digits, lib.units[u]);
    if amount.None? {
      return None;
    }
    return Some((amount.value, rest));
  }

  /** Adds in wrapping arithmetic; a negative sum means the exact one did not fit. */
  method AddTested(d: int, v: int) returns (sum: int, fits: bool)
    requires 0 <= d <= MAX_INT64 && 0 <= v <= MAX_INT64
    ensures fits <==> d + v <= MAX_INT64
    ensures fits ==> sum == d + v
  {
    WrapInRange(d + v);
    sum := Wrap(d + v);
    fits := !(sum < 0);
  }

  /** The parser's loop: adds up the terms of `input`, in wrapping arithmetic with an overflow test. */
  method SumTerms(lib: Library, input: string) returns (r: Option<int>)
    ensures r == Total(lib, input, 0)
  {
    hide FirstToken, TokenValue;
    var s, d := input, 0;
    while s != ""
      invariant 0 <= d <= MAX_INT64
      invariant Total(lib, input, 0) == Total(lib, s, d)
      decreases |s|
    {
      var term := ParseTerm(lib, s);
      if term.None? {
        return None;
      }
      var (v, rest) := term.value;
      var sum, fits := AddTested(d, v);
      if !fits {
        return None;
      }
      d, s := sum, rest;
    }
    return Some(d);
  }

  /** ParseDuration. */
  method ParseDuration(lib: Library, input: string) returns (r: Option<int>)
    ensures r == Meaning(lib, input)
    ensures r.Some? ==> -MAX_INT64 <= r.value <= MAX_INT64
  {
    hide FirstToken, TokenValue, Tokens, Sum;
    if forall i | 0 <= i < |input| :: IsSpace(input[i]) {
      BlankMeansNothing(lib, input);
      return None;
    }
    var s := input;
    var neg := false;
    if s != "" {
      var c := s[0];
      if c == '-' || c == '+' {
        neg := c == '-';
        s := s[1..];
      }
    }
    if s == "0" {
      return Some(0);
    }
    if s == "" {
      return None;
    }
    r := SumTerms(lib, s);
    TotalIsTheSum(lib, s, 0);
    if r.Some? && neg {
      WrapInRange(-r.value);
      r := Some(Wrap(-r.value));
    }
  }

  lemma BlankMeansNothing(lib: Library, input: string)
    requires forall i | 0 <= i < |input| :: IsSpace(input[i])
    ensures Meaning(lib, input) == None
  {
    if input != "" {
      assert FirstToken(lib, input).None?;
    }
  }

  lemma ProductFits(v: int, unit: int)
    requires v >= 0 && unit > 0
    ensures v > MAX_INT64 / unit <==> v * unit > MAX_INT64
  {
    var q := MAX_INT64 / unit;
    assert q * unit <= MAX_INT64 < q * unit + unit;
    if v > q {
      assert v * unit >= (q + 1) * unit;
    } else {
      assert v * unit <= q * unit;
    }
  }
}
