/** The parser of quoted key=value;key=value strings. */
module Metadata {
  import opened Strings

  datatype Parsed = Ok(entries: map<string, string>) | Invalid | Panic

  /** Brings a header key into canonical form. */
  type Canon = string -> string

  // ---------- reference: remove the quotes, then split ----------

  datatype Quote = NoQuote | Single | Double

  /** A character outside the quoting syntax, and whether quotes protect it. */
  datatype Mark = Mark(c: char, quoted: bool)

  /** Removes the quotes; nothing if one is left open. */
  function Unquote(s: string, q: Quote): Option<seq<Mark>> {
    if s == "" then (if q.NoQuote? then Some([]) else None)
    else if s[0] == '"' && !q.Single? then Unquote(s[1..], if q.Double? then NoQuote else Double)
    else if s[0] == '\'' && !q.Double? then Unquote(s[1..], if q.Single? then NoQuote else Single)
    else
      match Unquote(s[1..], q)
      case None => None
      case Some(rest) => Some([Mark(s[0], !q.NoQuote?)] + rest)
  }

  /** The first unprotected `c`, or the length. */
  function FirstBare(ms: seq<Mark>, c: char): (i: nat)
    ensures i <= |ms| && (i < |ms| ==> ms[i] == Mark(c, false))
    ensures forall j | 0 <= j < i :: ms[j] != Mark(c, false)
  {
    if ms == [] || ms[0] == Mark(c, false) then 0 else FirstBare(ms[1..], c) + 1
  }

  function Text(ms: seq<Mark>): string {
    if ms == [] then "" else [ms[0].c] + Text(ms[1..])
  }

  /** The fields between the unprotected semicolons. */
  function Fields(ms: seq<Mark>): seq<seq<Mark>> {
    var i := FirstBare(ms, ';');
    if i == |ms| then [ms] else [ms[..i]] + Fields(ms[i + 1..])
  }

  /** A field splits at its first unprotected equals sign, if it has one. */
  function Entry(field: seq<Mark>): Option<(string, string)> {
    var i := FirstBare(field, '=');
    if i == |field| then None else Some((Text(field[..i]), Text(field[i + 1..])))
  }

  /** Enters the fields one after the other, later ones winning; nothing if one is not an entry. */
  function Collect(canon: Canon, fields: seq<seq<Mark>>, m: map<string, string>): Option<map<string, string>> {
    if fields == [] then Some(m)
    else
      match Entry(fields[0])
      case None => None
      case Some((key, value)) => Collect(canon, fields[1..], m[canon(key) := value])
  }

  /** What a metadata string means. */
  function Meaning(canon: Canon, s: string): Parsed {
    match Unquote(s, NoQuote)
    case None => Invalid
    case Some(ms) =>
      match Collect(canon, Fields(ms), map[])
      case None => Invalid
      case Some(m) => Ok(m)
  }

  // ---------- the automaton ----------

  /** The rest of a run: what is still to be read, the quote that is open, and what has been read of the current entry. */
  function Resume(
    canon: Canon, s: string, q: Quote, inValue: bool, key: string, value: string, m: map<string, string>): Parsed
    decreases |s|
  {
    if s == "" then
      if !q.NoQuote? || !inValue then Invalid else Ok(m[canon(key) := value])
    else
      var c, rest := s[0], s[1..];
      if c == '"' && !q.Single? then
        Resume(canon, rest, if q.Double? then NoQuote else Double, inValue, key, value, m)
      else if c == '\'' && !q.Double? then
        Resume(canon, rest, if q.Single? then NoQuote else Single, inValue, key, value, m)
      else if c == '=' && q.NoQuote? && !inValue then
        Resume(canon, rest, q, true, key, value, m)
      else if c == ';' && q.NoQuote? then
        if !inValue then Invalid
        else Resume(canon, rest, q, false, "", "", m[canon(key) := value])
      else if inValue then Resume(canon, rest, q, inValue, key, value + [c], m)
      else Resume(canon, rest, q, inValue, key + [c], value, m)
  }

  const KEY := 0
  const VALUE := 1

  const NORMAL := 0
  const QSTRING := 1
  const DQSTRING := 2

  function QuoteOf(ps: int): Quote {
    if ps == QSTRING then Single else if ps == DQSTRING then Double else NoQuote
  }

  /** writeRune: appends to the key or the value; any other token type would be a panic. */
  method WriteRune(c: char, pt: int, key: string, value: string) returns (key': string, value': string, panic: bool)
    ensures panic <==> pt != KEY && pt != VALUE
    ensures pt == KEY ==> key' == key + [c] && value' == value
    ensures pt == VALUE ==> key' == key && value' == value + [c]
  {
    key', value', panic := key, value, false;
    if pt == KEY {
      key' := key + [c];
    } else if pt == VALUE {
      value' := value + [c];
    } else {
      panic := true;
    }
  }

  /** getMetaDataEntry: one pass over the characters; leaving the loop any other way than by returning is a panic. */
  method GetMetaDataEntry(canon: Canon, metadataString: string) returns (r: Parsed)
    ensures r == Meaning(canon, metadataString)
    ensures !r.Panic?
  {
    AutomatonIsMeaning(canon, metadataString);
    var metaDataMap: map<string, string> := map[];
    var key, value := "", "";
    var ps, pt := NORMAL, KEY;
    var p := 0;
    while true
      invariant 0 <= p <= |metadataString|
      invariant (ps == NORMAL || ps == QSTRING || ps == DQSTRING) && (pt == KEY || pt == VALUE)
      invariant Resume(canon, metadataString, NoQuote, false, "", "", map[])
             == Resume(canon, metadataString[p..], QuoteOf(ps), pt == VALUE, key, value, metaDataMap)
      decreases |metadataString| - p
    {
      if p == |metadataString| {
        if ps == QSTRING || ps == DQSTRING || pt == KEY {
          return Invalid;
        }
        metaDataMap := metaDataMap[canon(key) := value];
        return Ok(metaDataMap);
      }
      var ch := metadataString[p];
      p := p + 1;
      var panic := false;
      if ch == '"' {
        if ps == DQSTRING {
          ps := NORMAL;
        } else if ps == QSTRING {
          key, value, panic := WriteRune(ch, pt, key, value);
        } else if ps == NORMAL {
          ps := DQSTRING;
        }
      } else if ch == '\'' {
        if ps == QSTRING {
          ps := NORMAL;
        } else if ps == DQSTRING {
          key, value, panic := WriteRune(ch, pt, key, value);
        } else if ps == NORMAL {
          ps := QSTRING;
        }
      } else if ch == '=' {
        if ps == QSTRING || ps == DQSTRING {
          key, value, panic := WriteRune(ch, pt, key, value);
        } else if pt == KEY {
          pt := VALUE;
        } else if pt == VALUE {
          key, value, panic := WriteRune(ch, pt, key, value);
        } else {
          break;
        }
      } else if ch == ';' {
        if ps == QSTRING || ps == DQSTRING {
          key, value, panic := WriteRune(ch, pt, key, value);
        } else if pt == KEY {
          return Invalid;
        } else if pt == VALUE {
          metaDataMap := metaDataMap[canon(key) := value];
          key, value := "", "";
          pt := KEY;
        } else {
          break;
        }
      } else {
        key, value, panic := WriteRune(ch, pt, key, value);
      }
      if panic {
        break;
      }
    }
    return Panic;
  }

  // ---------- the automaton computes the meaning ----------

  /** The automaton once the quotes are gone. */
  function Scan(
    canon: Canon, ms: seq<Mark>, inValue: bool, key: string, value: string, m: map<string, string>): Parsed
    decreases |ms|
  {
    if ms == [] then if inValue then Ok(m[canon(key) := value]) else Invalid
    else
      var c, rest := ms[0], ms[1..];
      if c == Mark('=', false) && !inValue then Scan(canon, rest, true, key, value, m)
      else if c == Mark(';', false) then
        if !inValue then Invalid else Scan(canon, rest, false, "", "", m[canon(key) := value])
      else if inValue then Scan(canon, rest, inValue, key, value + [c.c], m)
      else Scan(canon, rest, inValue, key + [c.c], value, m)
  }

  lemma {:induction false} QuotesFirst(
    canon: Canon, s: string, q: Quote, inValue: bool, key: string, value: string, m: map<string, string>)
    ensures
      Resume(canon, s, q, inValue, key, value, m)
      == match Unquote(s, q)
         case None => Invalid
         case Some(ms) => Scan(canon, ms, inValue, key, value, m)
    decreases |s|
  {
    if s == "" {
    } else {
      var c, rest := s[0], s[1..];
      if c == '"' && !q.Single? {
        QuotesFirst(canon, rest, if q.Double? then NoQuote else Double, inValue, key, value, m);
      } else if c == '\'' && !q.Double? {
        QuotesFirst(canon, rest, if q.Single? then NoQuote else Single, inValue, key, value, m);
      } else {
        if Unquote(rest, q).Some? {
          var ms := Unquote(rest, q).value;
          assert ([Mark(c, !q.NoQuote?)] + ms)[1..] == ms;
        }
        if c == '=' && q.NoQuote? && !inValue {
          QuotesFirst(canon, rest, q, true, key, value, m);
        } else if c == ';' && q.NoQuote? {
          if inValue {
            QuotesFirst(canon, rest, q, false, "", "", m[canon(key) := value]);
          }
        } else if inValue {
          QuotesFirst(canon, rest, q, inValue, key, value + [c], m);
        } else {
          QuotesFirst(canon, rest, q, inValue, key + [c], value, m);
        }
      }
    }
  }

  /** What the scan does at the end of a field: stop, or go on with the next. */
  function Next(canon: Canon, ms: seq<Mark>, i: nat, m: map<string, string>): Parsed
    requires i <= |ms|
  {
    if i == |ms| then Ok(m) else Scan(canon, ms[i + 1..], false, "", "", m)
  }

  lemma {:induction false} ScanValue(canon: Canon, ms: seq<Mark>, key: string, value: string, m: map<string, string>)
    ensures
      var i := FirstBare(ms, ';');
      Scan(canon, ms, true, key, value, m) == Next(canon, ms, i, m[canon(key) := value + Text(ms[..i])])
    decreases |ms|
  {
    var i := FirstBare(ms, ';');
    if i == 0 {
      assert value + "" == value;
    } else {
      ScanValue(canon, ms[1..], key, value + [ms[0].c], m);
      assert ms[..i][1..] == ms[1..][..i - 1];
      assert value + [ms[0].c] + Text(ms[1..][..i - 1]) == value + Text(ms[..i]);
      assert i < |ms| ==> ms[1..][i..] == ms[i + 1..];
    }
  }

  lemma {:induction false} ScanKey(canon: Canon, ms: seq<Mark>, key: string, m: map<string, string>)
    ensures
      var i := FirstBare(ms, ';');
      Scan(canon, ms, false, key, "", m)
      == match Entry(ms[..i])
         case None => Invalid
         case Some((k, v)) => Next(canon, ms, i, m[canon(key + k) := v])
    decreases |ms|
  {
    var i := FirstBare(ms, ';');
    if i == 0 {
    } else if ms[0] == Mark('=', false) {
      ScanValue(canon, ms[1..], key, "", m);
      assert ms[..i][1..] == ms[1..][..i - 1];
      assert key + Text([]) == key && "" + Text(ms[1..][..i - 1]) == Text(ms[1..][..i - 1]);
      assert i < |ms| ==> ms[1..][i..] == ms[i + 1..];
    } else {
      var field, shorter := ms[..i], ms[1..][..i - 1];
      ScanKey(canon, ms[1..], key + [ms[0].c], m);
      assert field[1..] == shorter && field[0] == ms[0];
      assert i < |ms| ==> ms[1..][i..] == ms[i + 1..];
      assert Scan(canon, ms, false, key, "", m) == Scan(canon, ms[1..], false, key + [ms[0].c], "", m);
      LongerEntry(field, key);
      hide Entry, Scan, Text;
    }
  }

  /** A character in front of an entry belongs to its key. */
  lemma LongerEntry(field: seq<Mark>, key: string)
    requires field != [] && field[0] != Mark('=', false)
    ensures match Entry(field[1..])
      case None => Entry(field).None?
      case Some((k, v)) => Entry(field).Some? && key + [field[0].c] + k == key + Entry(field).value.0
                           && Entry(field).value.1 == v
  {
    var shorter := field[1..];
    var j := FirstBare(shorter, '=');
    assert FirstBare(field, '=') == j + 1;
    if j < |shorter| {
      assert field[..j + 1][1..] == shorter[..j] && field[j + 2..] == shorter[j + 1..];
    }
  }

  lemma {:induction false} ScanIsCollect(canon: Canon, ms: seq<Mark>, m: map<string, string>)
    ensures
      Scan(canon, ms, false, "", "", m)
      == match Collect(canon, Fields(ms), m)
         case None => Invalid
         case Some(m') => Ok(m')
    decreases |ms|
  {
    ScanKey(canon, ms, "", m);
    var i := FirstBare(ms, ';');
    var fields := Fields(ms);
    assert fields[0] == ms[..i];
    match Entry(ms[..i])
    case None =>
    case Some((k, v)) =>
      assert "" + k == k;
      if i < |ms| {
        assert fields[1..] == Fields(ms[i + 1..]);
        ScanIsCollect(canon, ms[i + 1..], m[canon(k) := v]);
      } else {
        assert fields[1..] == [];
      }
  }

  lemma AutomatonIsMeaning(canon: Canon, s: string)
    ensures Resume(canon, s, NoQuote, false, "", "", map[]) == Meaning(canon, s)
  {
    QuotesFirst(canon, s, NoQuote, false, "", "", map[]);
    if Unquote(s, NoQuote).Some? {
      ScanIsCollect(canon, Unquote(s, NoQuote).value, map[]);
    }
  }

  // ---------- joining two strings ----------

  lemma {:induction false} ResumeOverJoin(
    canon: Canon, a: string, b: string, q: Quote, inValue: bool, key: string, value: string, m: map<string, string>)
    requires Resume(canon, a, q, inValue, key, value, m).Ok?
    ensures Resume(canon, a + ";" + b, q, inValue, key, value, m)
         == Resume(canon, b, NoQuote, false, "", "", Resume(canon, a, q, inValue, key, value, m).entries)
    decreases |a|
  {
    var s := a + ";" + b;
    if a == "" {
      assert s[0] == ';' && s[1..] == b;
    } else {
      var c, rest := a[0], a[1..];
      assert s[0] == c && s[1..] == rest + ";" + b;
      if c == '"' && !q.Single? {
        ResumeOverJoin(canon, rest, b, if q.Double? then NoQuote else Double, inValue, key, value, m);
      } else if c == '\'' && !q.Double? {
        ResumeOverJoin(canon, rest, b, if q.Single? then NoQuote else Single, inValue, key, value, m);
      } else if c == '=' && q.NoQuote? && !inValue {
        ResumeOverJoin(canon, rest, b, q, true, key, value, m);
      } else if c == ';' && q.NoQuote? {
        ResumeOverJoin(canon, rest, b, q, false, "", "", m[canon(key) := value]);
      } else if inValue {
        ResumeOverJoin(canon, rest, b, q, inValue, key, value + [c], m);
      } else {
        ResumeOverJoin(canon, rest, b, q, inValue, key + [c], value, m);
      }
    }
  }

  /** Entries already collected only lie underneath what is still to come. */
  lemma {:induction false} CollectOver(canon: Canon, fields: seq<seq<Mark>>, m: map<string, string>,
                                       n: map<string, string>)
    ensures
      Collect(canon, fields, m + n)
      == match Collect(canon, fields, n)
         case None => None
         case Some(x) => Some(m + x)
  {
    if fields == [] || Entry(fields[0]).None? {
    } else {
      var (k, v) := Entry(fields[0]).value;
      assert (m + n)[canon(k) := v] == m + n[canon(k) := v];
      CollectOver(canon, fields[1..], m, n[canon(k) := v]);
    }
  }

  /**
    Two strings accepted on their own, joined by a semicolon, mean the first's entries overridden by
    the second's; and a string joined to an accepted one is accepted only if it is on its own.
   */
  lemma JoinOverrides(canon: Canon, a: string, b: string)
    requires Meaning(canon, a).Ok?
    ensures
      Meaning(canon, a + ";" + b)
      == if Meaning(canon, b).Ok? then Ok(Meaning(canon, a).entries + Meaning(canon, b).entries) else Invalid
  {
    AutomatonIsMeaning(canon, a);
    AutomatonIsMeaning(canon, a + ";" + b);
    ResumeOverJoin(canon, a, b, NoQuote, false, "", "", map[]);
    var m := Meaning(canon, a).entries;
    QuotesFirst(canon, b, NoQuote, false, "", "", m);
    if Unquote(b, NoQuote).Some? {
      var ms := Unquote(b, NoQuote).value;
      ScanIsCollect(canon, ms, m);
      CollectOver(canon, Fields(ms), m, map[]);
      assert m + map[] == m;
    }
  }

  // ---------- writing entries ----------

  /** Each character in quotes of the kind it is not. */
  function Protect(s: string): string {
    if s == "" then ""
    else Quoted(s[0]) + Protect(s[1..])
  }

  function Quoted(c: char): string { if c == '"' then "'\"'" else "\"" + [c] + "\"" }

  function WriteEntry(key: string, value: string): string {
    Protect(key) + "=" + Protect(value)
  }

  function Write(entries: seq<(string, string)>): string
    requires entries != []
  {
    if |entries| == 1 then WriteEntry(entries[0].0, entries[0].1)
    else WriteEntry(entries[0].0, entries[0].1) + ";" + Write(entries[1..])
  }

  function MapOf(canon: Canon, entries: seq<(string, string)>): map<string, string> {
    if entries == [] then map[] else map[canon(entries[0].0) := entries[0].1] + MapOf(canon, entries[1..])
  }

  lemma ProtectCons(s: string, tail: string)
    requires s != ""
    ensures Protect(s) + tail == Quoted(s[0]) + (Protect(s[1..]) + tail)
  {
  }

  lemma {:induction false} ReadKey(canon: Canon, s: string, tail: string, key: string, m: map<string, string>)
    ensures Resume(canon, Protect(s) + tail, NoQuote, false, key, "", m)
         == Resume(canon, tail, NoQuote, false, key + s, "", m)
    decreases |s|
  {
    hide Resume;
    if s == "" {
      assert Protect(s) + tail == tail && key + s == key;
    } else {
      hide Protect;
      ReadOne(canon, s[0], Protect(s[1..]) + tail, false, key, "", m);
      ProtectCons(s, tail);
      ReadKey(canon, s[1..], tail, key + [s[0]], m);
      assert key + [s[0]] + s[1..] == key + s;
    }
  }

  lemma {:induction false} ReadValue(canon: Canon, s: string, tail: string, key: string, value: string,
                                     m: map<string, string>)
    ensures Resume(canon, Protect(s) + tail, NoQuote, true, key, value, m)
         == Resume(canon, tail, NoQuote, true, key, value + s, m)
    decreases |s|
  {
    hide Resume;
    if s == "" {
      assert Protect(s) + tail == tail && value + s == value;
    } else {
      hide Protect;
      ReadOne(canon, s[0], Protect(s[1..]) + tail, true, key, value, m);
      ProtectCons(s, tail);
      ReadValue(canon, s[1..], tail, key, value + [s[0]], m);
      assert value + [s[0]] + s[1..] == value + s;
    }
  }

  lemma ReadOne(canon: Canon, c: char, tail: string, inValue: bool, key: string, value: string, m: map<string, string>)
    ensures
      Resume(canon, Quoted(c) + tail, NoQuote, inValue, key, value, m)
      == if inValue then Resume(canon, tail, NoQuote, inValue, key, value + [c], m)
         else Resume(canon, tail, NoQuote, inValue, key + [c], value, m)
  {
    var quote := if c == '"' then '\'' else '"';
    var q := if c == '"' then Single else Double;
    var s := Quoted(c) + tail;
    assert s[0] == quote && s[1..] == [c, quote] + tail;
    assert ([c, quote] + tail)[1..] == [quote] + tail && ([quote] + tail)[1..] == tail;
    var key', value' := if inValue then key else key + [c], if inValue then value + [c] else value;
    assert Resume(canon, s, NoQuote, inValue, key, value, m) == Resume(canon, [c, quote] + tail, q, inValue, key, value, m);
    assert Resume(canon, [c, quote] + tail, q, inValue, key, value, m)
        == Resume(canon, [quote] + tail, q, inValue, key', value', m);
  }

  lemma ReadEquals(canon: Canon, tail: string, key: string, m: map<string, string>)
    ensures Resume(canon, "=" + tail, NoQuote, false, key, "", m) == Resume(canon, tail, NoQuote, true, key, "", m)
  {
    assert ("=" + tail)[1..] == tail;
  }

  lemma ReadEnd(canon: Canon, key: string, value: string, m: map<string, string>)
    ensures Resume(canon, "", NoQuote, true, key, value, m) == Ok(m[canon(key) := value])
  {
  }

  lemma EntryParses(canon: Canon, key: string, value: string)
    ensures Meaning(canon, WriteEntry(key, value)) == Ok(map[canon(key) := value])
  {
    AutomatonIsMeaning(canon, WriteEntry(key, value));
    hide Resume, Protect, Meaning;
    var text := "=" + (Protect(value) + "");
    assert WriteEntry(key, value) == Protect(key) + text;
    ReadKey(canon, key, text, "", map[]);
    ReadEquals(canon, Protect(value) + "", key, map[]);
    ReadValue(canon, value, "", key, "", map[]);
    assert "" + key == key && "" + value == value;
    ReadEnd(canon, key, value, map[]);
  }

  /** Any nonempty list of entries, whatever characters they hold, can be written and read back. */
  lemma {:induction false} WriteThenParse(canon: Canon, entries: seq<(string, string)>)
    requires entries != []
    ensures Meaning(canon, Write(entries)) == Ok(MapOf(canon, entries))
  {
    var (key, value) := entries[0];
    EntryParses(canon, key, value);
    if |entries| == 1 {
      assert MapOf(canon, entries[1..]) == map[];
    } else {
      WriteThenParse(canon, entries[1..]);
      JoinOverrides(canon, WriteEntry(key, value), Write(entries[1..]));
    }
  }

  lemma {:induction false} MapOfEnumeration(canon: Canon, entries: seq<(string, string)>, m: map<string, string>)
    requires forall k | k in m :: canon(k) == k
    requires forall e | e in entries :: e.0 in m && m[e.0] == e.1
    ensures forall k | k in MapOf(canon, entries) :: k in m && MapOf(canon, entries)[k] == m[k]
    ensures forall e | e in entries :: e.0 in MapOf(canon, entries)
  {
    if entries == [] {
    } else {
      assert entries[0] in entries;
      MapOfEnumeration(canon, entries[1..], m);
    }
  }

  /** So every nonempty map with canonical keys has strings that parse to it: write its entries in any order. */
  lemma MapsRoundTrip(canon: Canon, m: map<string, string>, entries: seq<(string, string)>)
    requires m != map[] && forall k | k in m :: canon(k) == k
    requires forall e :: e in entries <==> e.0 in m && m[e.0] == e.1
    ensures entries != [] && Meaning(canon, Write(entries)) == Ok(m)
  {
    var k :| k in m;
    assert (k, m[k]) in entries;
    MapOfEnumeration(canon, entries, m);
    forall k | k in m ensures k in MapOf(canon, entries) {
      assert (k, m[k]) in entries;
    }
    WriteThenParse(canon, entries);
  }
}
