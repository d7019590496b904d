/**
 * JSON text as `JSON.stringify` writes it and `JSON.parse` reads it (RFC 8259).
 *
 * Values are the results `JSON.parse` can produce. Numbers keep their source text (the
 * model never does arithmetic on them); objects keep their members in insertion order, one
 * member per key, as a JavaScript object does after parsing.
 */
module Json {
  import opened Wrappers

  datatype Value =
    | JNull
    | JBool(b: bool)
    | JNumber(lexeme: string)
    | JString(s: string)
    | JArray(items: seq<Value>)
    | JObject(members: seq<Member>)

  datatype Member = Member(key: string, value: Value)

  // ---------------------------------------------------------------------------------------
  // Reading a value the way JavaScript code does

  /** `v[key]` on a parsed value: the member's value, or `None` (`undefined`) when there is none. */
  function Lookup(v: Value, key: string): (r: Option<Value>)
    ensures r.Some? ==> v.JObject? && exists i :: 0 <= i < |v.members| && v.members[i] == Member(key, r.value)
    ensures r.None? ==> !v.JObject? || forall i :: 0 <= i < |v.members| ==> v.members[i].key != key
  {
    if v.JObject? then LookupMember(v.members, key) else None
  }

  function LookupMember(ms: seq<Member>, key: string): (r: Option<Value>)
    ensures r.Some? ==> exists i :: 0 <= i < |ms| && ms[i] == Member(key, r.value)
    ensures r.None? ==> forall i :: 0 <= i < |ms| ==> ms[i].key != key
  {
    if ms == [] then None
    else if ms[0].key == key then Some(ms[0].value)
    else
      var r := LookupMember(ms[1..], key);
      assert r.Some? ==> ms[1..][0..] == ms[1..];
      r
  }

  /** A member with another key does not hide the first match further on. */
  lemma LookupSkip(ms: seq<Member>, key: string)
    requires ms != [] && ms[0].key != key
    ensures LookupMember(ms, key) == LookupMember(ms[1..], key)
  {
  }

  /** Is every digit of a number's mantissa a zero, so that the number is +0 or -0? */
  function MantissaIsZero(lexeme: string): bool {
    if lexeme == [] || lexeme[0] == 'e' || lexeme[0] == 'E' then true
    else if '1' <= lexeme[0] <= '9' then false
    else MantissaIsZero(lexeme[1..])
  }

  /** JavaScript truthiness (ToBoolean) of a parsed value: `null`, `false`, zero and `""` are falsy. */
  predicate Truthy(v: Value) {
    match v
    case JNull => false
    case JBool(b) => b
    case JNumber(lexeme) => !MantissaIsZero(lexeme)
    case JString(s) => s != []
    case _ => true
  }

  // ---------------------------------------------------------------------------------------
  // JSON.stringify (no indentation)

  /** A lower-case hexadecimal digit. */
  function HexDigit(d: nat): char
    requires d < 16
  {
    if d < 10 then ('0' as int + d) as char else ('a' as int + d - 10) as char
  }

  /** How `JSON.stringify` writes one character inside a string literal. */
  function EscapeChar(c: char): string {
    if c == '"' then "\\\""
    else if c == '\\' then "\\\\"
    else if c as int == 0x08 then "\\b"
    else if c as int == 0x0C then "\\f"
    else if c == '\n' then "\\n"
    else if c == '\r' then "\\r"
    else if c == '\t' then "\\t"
    else if c as int < 0x20 then "\\u00" + [HexDigit(c as int / 16), HexDigit(c as int % 16)]
    else [c]
  }

  function Escape(s: string): string {
    if s == [] then [] else EscapeChar(s[0]) + Escape(s[1..])
  }

  /** A string literal. */
  function Quote(s: string): string {
    "\"" + Escape(s) + "\""
  }

  /** `JSON.stringify(v)`. */
  function Stringify(v: Value): string
    decreases v
  {
    match v
    case JNull => "null"
    case JBool(b) => if b then "true" else "false"
    case JNumber(lexeme) => lexeme
    case JString(s) => Quote(s)
    case JArray(items) => "[" + StringifyItems(items) + "]"
    case JObject(ms) => "{" + StringifyMembers(ms) + "}"
  }

  /** Array elements separated by commas. */
  function StringifyItems(items: seq<Value>): string
    decreases items
  {
    if items == [] then ""
    else if |items| == 1 then Stringify(items[0])
    else Stringify(items[0]) + "," + StringifyItems(items[1..])
  }

  /** `"key":value` pairs separated by commas. */
  function StringifyMembers(ms: seq<Member>): string
    decreases ms
  {
    if ms == [] then ""
    else if |ms| == 1 then Quote(ms[0].key) + ":" + Stringify(ms[0].value)
    else Quote(ms[0].key) + ":" + Stringify(ms[0].value) + "," + StringifyMembers(ms[1..])
  }

  // ---------------------------------------------------------------------------------------
  // JSON.parse. Every parsing function returns what it read and the rest of the input.

  predicate IsJsonWhitespace(c: char) {
    c == ' ' || c == '\t' || c == '\n' || c == '\r'
  }

  /** The input after its leading whitespace. */
  function SkipWs(s: string): (t: string)
    ensures |t| <= |s|
    ensures t == [] || !IsJsonWhitespace(t[0])
  {
    if s != [] && IsJsonWhitespace(s[0]) then SkipWs(s[1..]) else s
  }

  predicate IsDigit(c: char) {
    '0' <= c <= '9'
  }

  function HexValue(c: char): Option<nat> {
    if '0' <= c <= '9' then Some(c as int - '0' as int)
    else if 'a' <= c <= 'f' then Some(c as int - 'a' as int + 10)
    else if 'A' <= c <= 'F' then Some(c as int - 'A' as int + 10)
    else None
  }

  /** The code unit written as four hexadecimal digits at the start of `s`. */
  function Hex4(s: string): (r: Option<nat>)
    ensures r.Some? ==> |s| >= 4 && r.value < 0x10000
  {
    if |s| < 4 then None
    else match (HexValue(s[0]), HexValue(s[1]), HexValue(s[2]), HexValue(s[3]))
      case (Some(a), Some(b), Some(c), Some(d)) =>
        if a < 16 && b < 16 && c < 16 && d < 16 then Some(((a * 16 + b) * 16 + c) * 16 + d) else None
      case _ => None
  }

  /**
   * The character written by an escape sequence; `s` is what follows the backslash. A `\u`
   * escape of a high surrogate must be followed by a `\u` escape of a low surrogate, and the
   * pair stands for one supplementary character.
   */
  function ParseEscape(s: string): (r: Option<(char, string)>)
    ensures r.Some? ==> |r.value.1| < |s|
  {
    if s == [] then None
    else if s[0] == '"' || s[0] == '\\' || s[0] == '/' then Some((s[0], s[1..]))
    else if s[0] == 'b' then Some((0x08 as char, s[1..]))
    else if s[0] == 'f' then Some((0x0C as char, s[1..]))
    else if s[0] == 'n' then Some(('\n', s[1..]))
    else if s[0] == 'r' then Some(('\r', s[1..]))
    else if s[0] == 't' then Some(('\t', s[1..]))
    else if s[0] == 'u' then
      match Hex4(s[1..])
      case None => None
      case Some(hi) =>
        if 0xD800 <= hi <= 0xDBFF then
          if |s| >= 7 && s[5] == '\\' && s[6] == 'u' then
            match Hex4(s[7..])
            case None => None
            case Some(lo) =>
              if 0xDC00 <= lo <= 0xDFFF then Some(((0x10000 + (hi - 0xD800) * 1024 + (lo - 0xDC00)) as char, s[11..]))
              else None
          else None
        else if 0xDC00 <= hi <= 0xDFFF then None
        else Some((hi as char, s[5..]))
    else None
  }

  /** The characters of a string literal up to its closing quote; `s` starts after the opening one. */
  function ParseStringBody(s: string): (r: Option<(string, string)>)
    ensures r.Some? ==> |r.value.1| < |s|
    decreases |s|
  {
    if s == [] then None
    else if s[0] == '"' then Some(([], s[1..]))
    else if s[0] == '\\' then
      match ParseEscape(s[1..])
      case None => None
      case Some((c, rest)) =>
        match ParseStringBody(rest)
        case None => None
        case Some((t, rest')) => Some(([c] + t, rest'))
    else if s[0] as int < 0x20 then None
    else
      match ParseStringBody(s[1..])
      case None => None
      case Some((t, rest)) => Some(([s[0]] + t, rest))
  }

  /** The number of leading ASCII digits. */
  function DigitRun(s: string): (n: nat)
    ensures n <= |s|
  {
    if s != [] && IsDigit(s[0]) then 1 + DigitRun(s[1..]) else 0
  }

  /**
   * The length of the longest prefix of `s` that is a number,
   * `-? (0 | [1-9][0-9]*) (. [0-9]+)? ([eE] [+-]? [0-9]+)?`, or 0 when there is none.
   */
  function NumberLength(s: string): (n: nat)
    ensures n <= |s|
  {
    var i := if s != [] && s[0] == '-' then 1 else 0;
    if i >= |s| || !IsDigit(s[i]) then 0
    else
      var j := if s[i] == '0' then i + 1 else i + DigitRun(s[i..]);
      var k := if j + 1 < |s| && s[j] == '.' && IsDigit(s[j + 1]) then j + 1 + DigitRun(s[j + 1..]) else j;
      if k < |s| && (s[k] == 'e' || s[k] == 'E') then
        var m := if k + 1 < |s| && (s[k + 1] == '+' || s[k + 1] == '-') then k + 2 else k + 1;
        if m < |s| && IsDigit(s[m]) then m + DigitRun(s[m..]) else k
      else k
  }

  /** One value, after optional leading whitespace. */
  function ParseValue(s: string): (r: Option<(Value, string)>)
    ensures r.Some? ==> |r.value.1| < |s|
    decreases |s|, 1
  {
    var t := SkipWs(s);
    if t == [] then None
    else if t[0] == '{' then ParseObject(t[1..])
    else if t[0] == '[' then ParseArray(t[1..])
    else if t[0] == '"' then
      match ParseStringBody(t[1..])
      case None => None
      case Some((str, rest)) => Some((JString(str), rest))
    else if |t| >= 4 && t[..4] == "null" then Some((JNull, t[4..]))
    else if |t| >= 4 && t[..4] == "true" then Some((JBool(true), t[4..]))
    else if |t| >= 5 && t[..5] == "false" then Some((JBool(false), t[5..]))
    else
      var n := NumberLength(t);
      if n == 0 then None else Some((JNumber(t[..n]), t[n..]))
  }

  /** An array; `s` starts after the `[`. */
  function ParseArray(s: string): (r: Option<(Value, string)>)
    ensures r.Some? ==> |r.value.1| < |s|
    decreases |s|, 3
  {
    var t := SkipWs(s);
    if t != [] && t[0] == ']' then Some((JArray([]), t[1..]))
    else
      match ParseElements(t)
      case None => None
      case Some((items, rest)) => Some((JArray(items), rest))
  }

  /** One or more comma-separated values and the closing `]`. */
  function ParseElements(s: string): (r: Option<(seq<Value>, string)>)
    ensures r.Some? ==> |r.value.1| < |s|
    decreases |s|, 2
  {
    match ParseValue(s)
    case None => None
    case Some((v, rest)) =>
      var t := SkipWs(rest);
      if t == [] then None
      else if t[0] == ']' then Some(([v], t[1..]))
      else if t[0] == ',' then
        match ParseElements(t[1..])
        case None => None
        case Some((vs, rest')) => Some(([v] + vs, rest'))
      else None
  }

  /** An object; `s` starts after the `{`. */
  function ParseObject(s: string): (r: Option<(Value, string)>)
    ensures r.Some? ==> |r.value.1| < |s|
    decreases |s|, 3
  {
    var t := SkipWs(s);
    if t != [] && t[0] == '}' then Some((JObject([]), t[1..]))
    else
      match ParseMembers(t)
      case None => None
      case Some((ms, rest)) => Some((JObject(Dedupe(ms)), rest))
  }

  /** One or more comma-separated `"key": value` pairs and the closing `}`. */
  function ParseMembers(s: string): (r: Option<(seq<Member>, string)>)
    ensures r.Some? ==> |r.value.1| < |s|
    decreases |s|, 2
  {
    var t := SkipWs(s);
    if t == [] || t[0] != '"' then None
    else
      match ParseStringBody(t[1..])
      case None => None
      case Some((key, r1)) =>
        var t1 := SkipWs(r1);
        if t1 == [] || t1[0] != ':' then None
        else
          match ParseValue(t1[1..])
          case None => None
          case Some((v, r2)) =>
            var t2 := SkipWs(r2);
            if t2 == [] then None
            else if t2[0] == '}' then Some(([Member(key, v)], t2[1..]))
            else if t2[0] == ',' then
              match ParseMembers(t2[1..])
              case None => None
              case Some((ms, rest)) => Some(([Member(key, v)] + ms, rest))
            else None
  }

  /** `JSON.parse(text)`: `None` where it throws a SyntaxError. */
  function Parse(text: string): Option<Value> {
    match ParseValue(text)
    case None => None
    case Some((v, rest)) => if SkipWs(rest) == [] then Some(v) else None
  }

  // ---------------------------------------------------------------------------------------
  // Duplicate keys: a later member overwrites the value of an earlier one, in its place.

  /** No key occurs twice. */
  predicate DistinctKeys(ms: seq<Member>) {
    forall i, j :: 0 <= i < j < |ms| ==> ms[i].key != ms[j].key
  }

  /** Defining property `key` on an object whose members are `ms`. */
  function SetMember(ms: seq<Member>, key: string, v: Value): (r: seq<Member>)
    ensures DistinctKeys(ms) ==> DistinctKeys(r)
    ensures (forall i :: 0 <= i < |ms| ==> ms[i].key != key) ==> r == ms + [Member(key, v)]
    ensures forall i :: 0 <= i < |r| ==> r[i].key == key || r[i] in ms
  {
    if ms == [] then [Member(key, v)]
    else if ms[0].key == key then [Member(key, v)] + ms[1..]
    else [ms[0]] + SetMember(ms[1..], key, v)
  }

  function DedupeInto(acc: seq<Member>, ms: seq<Member>): (r: seq<Member>)
    ensures DistinctKeys(acc) ==> DistinctKeys(r)
    decreases |ms|
  {
    if ms == [] then acc else DedupeInto(SetMember(acc, ms[0].key, ms[0].value), ms[1..])
  }

  /** The members of the object built from the parsed pairs, in order. */
  function Dedupe(ms: seq<Member>): (r: seq<Member>)
    ensures DistinctKeys(r)
  {
    DedupeInto([], ms)
  }

  /** Keys that are already distinct are kept as they are. */
  lemma {:induction false} DedupeIntoDistinct(acc: seq<Member>, ms: seq<Member>)
    requires DistinctKeys(acc + ms)
    ensures DedupeInto(acc, ms) == acc + ms
    decreases |ms|
  {
    if ms != [] {
      assert (acc + ms)[|acc|] == ms[0];
      forall i | 0 <= i < |acc| ensures acc[i].key != ms[0].key {
        assert (acc + ms)[i] == acc[i];
      }
      assert SetMember(acc, ms[0].key, ms[0].value) == acc + [ms[0]];
      assert acc + [ms[0]] + ms[1..] == acc + ms;
      DedupeIntoDistinct(acc + [ms[0]], ms[1..]);
    }
  }

  lemma DedupeDistinct(ms: seq<Member>)
    requires DistinctKeys(ms)
    ensures Dedupe(ms) == ms
  {
    assert [] + ms == ms;
    DedupeIntoDistinct([], ms);
  }

  /** The keys of an object's members, in order. */
  function MemberKeys(ms: seq<Member>): seq<string> {
    if ms == [] then [] else [ms[0].key] + MemberKeys(ms[1..])
  }

  /** The keys of the parsed pairs `ms`, each where it first appears. */
  function FirstKeys(ms: seq<Member>): seq<string>
    decreases |ms|
  {
    if ms == [] then []
    else
      var ks := FirstKeys(ms[..|ms| - 1]);
      var k := ms[|ms| - 1].key;
      if k in ks then ks else ks + [k]
  }

  /** The value last given for `key` among the parsed pairs `ms`. */
  function LastValue(ms: seq<Member>, key: string): Option<Value>
    decreases |ms|
  {
    if ms == [] then None
    else if ms[|ms| - 1].key == key then Some(ms[|ms| - 1].value)
    else LastValue(ms[..|ms| - 1], key)
  }

  /** Defining a property adds its key at the end unless the object already has it. */
  lemma {:induction false} SetMemberKeys(ms: seq<Member>, key: string, v: Value)
    ensures MemberKeys(SetMember(ms, key, v)) == if key in MemberKeys(ms) then MemberKeys(ms) else MemberKeys(ms) + [key]
    decreases |ms|
  {
    if ms != [] {
      var r := SetMember(ms, key, v);
      assert MemberKeys(ms) == [ms[0].key] + MemberKeys(ms[1..]);
      if ms[0].key == key {
        assert r[1..] == ms[1..];
      } else {
        SetMemberKeys(ms[1..], key, v);
        assert r[1..] == SetMember(ms[1..], key, v);
      }
    }
  }

  /** Defining a property changes what that key reads and nothing else. */
  lemma {:induction false} SetMemberLookup(ms: seq<Member>, key: string, v: Value, k: string)
    ensures LookupMember(SetMember(ms, key, v), k) == if k == key then Some(v) else LookupMember(ms, k)
    decreases |ms|
  {
    if ms != [] {
      var r := SetMember(ms, key, v);
      if ms[0].key == key {
        assert r[1..] == ms[1..];
      } else {
        SetMemberLookup(ms[1..], key, v, k);
        assert r[1..] == SetMember(ms[1..], key, v);
      }
    }
  }

  /** The pairs are defined one after the other, so the last one is defined last. */
  lemma {:induction false} DedupeIntoSnoc(acc: seq<Member>, ms: seq<Member>, m: Member)
    ensures DedupeInto(acc, ms + [m]) == SetMember(DedupeInto(acc, ms), m.key, m.value)
    decreases |ms|
  {
    if ms == [] {
      assert [] + [m] == [m];
    } else {
      assert (ms + [m])[0] == ms[0] && (ms + [m])[1..] == ms[1..] + [m];
      DedupeIntoSnoc(SetMember(acc, ms[0].key, ms[0].value), ms[1..], m);
    }
  }

  /**
   * Of several members with the same key the last one wins, and the key stays where it first
   * appeared: `{"a":1,"b":2,"a":3}` parses to an object whose keys are `a`, `b` and whose `a` is 3.
   */
  lemma {:induction false} DedupeLastWins(ms: seq<Member>)
    ensures MemberKeys(Dedupe(ms)) == FirstKeys(ms)
    ensures forall k :: LookupMember(Dedupe(ms), k) == LastValue(ms, k)
    decreases |ms|
  {
    if ms != [] {
      var init, m := ms[..|ms| - 1], ms[|ms| - 1];
      assert ms == init + [m];
      DedupeLastWins(init);
      DedupeIntoSnoc([], init, m);
      SetMemberKeys(Dedupe(init), m.key, m.value);
      forall k ensures LookupMember(Dedupe(ms), k) == LastValue(ms, k) {
        SetMemberLookup(Dedupe(init), m.key, m.value, k);
      }
    }
  }

  // ---------------------------------------------------------------------------------------
  // Round trip

  /**
   * Values that `JSON.parse(JSON.stringify(v))` returns unchanged in this model: no numbers
   * (whose text is not normalised here) and no object with a repeated key.
   */
  predicate Canonical(v: Value)
    decreases v
  {
    match v
    case JNumber(_) => false
    case JArray(items) => forall i :: 0 <= i < |items| ==> Canonical(items[i])
    case JObject(ms) => DistinctKeys(ms) && forall i :: 0 <= i < |ms| ==> Canonical(ms[i].value)
    case _ => true
  }

  lemma SkipWsNoop(s: string)
    requires s == [] || !IsJsonWhitespace(s[0])
    ensures SkipWs(s) == s
  {
  }

  lemma HexDigitValue(d: nat)
    requires d < 16
    ensures HexValue(HexDigit(d)) == Some(d)
  {
  }

  /** Reading one written character back, whatever follows it. */
  lemma ParseEscapeChar(c: char, tail: string)
    ensures ParseStringBody(EscapeChar(c) + tail) ==
      match ParseStringBody(tail)
      case None => None
      case Some((t, rest)) => Some(([c] + t, rest))
  {
    var e := EscapeChar(c);
    if |e| == 1 {
      assert e == [c] && c != '"' && c != '\\' && c as int >= 0x20;
      ParsePlainChar(c, tail);
    } else {
      EscapeSequence(c, tail);
      assert e + tail == "\\" + (e[1..] + tail);
      ParseEscaped(c, e[1..] + tail, tail);
    }
  }

  /** A character that needs no escape is read as itself. */
  lemma ParsePlainChar(c: char, tail: string)
    requires c != '"' && c != '\\' && c as int >= 0x20
    ensures ParseStringBody([c] + tail) ==
      match ParseStringBody(tail)
      case None => None
      case Some((t, rest)) => Some(([c] + t, rest))
  {
    assert ([c] + tail)[1..] == tail;
  }

  /** A backslash and an escape that reads as `c` are read as `c`. */
  lemma ParseEscaped(c: char, x: string, tail: string)
    requires ParseEscape(x) == Some((c, tail))
    ensures ParseStringBody("\\" + x) ==
      match ParseStringBody(tail)
      case None => None
      case Some((t, rest)) => Some(([c] + t, rest))
  {
    assert ("\\" + x)[1..] == x;
  }

  /** An escape sequence `JSON.stringify` writes reads back as its character. */
  lemma EscapeSequence(c: char, tail: string)
    requires |EscapeChar(c)| != 1
    ensures EscapeChar(c)[0] == '\\'
    ensures ParseEscape(EscapeChar(c)[1..] + tail) == Some((c, tail))
  {
    var e := EscapeChar(c);
    if |e| == 2 {
      assert e[1..] + tail == [e[1]] + tail;
    } else {
      UnicodeEscape(c, tail);
      assert e[1..] == "u00" + [HexDigit(c as int / 16), HexDigit(c as int % 16)];
    }
  }

  /** A control character written as `\u00XY` reads back as itself. */
  lemma UnicodeEscape(c: char, tail: string)
    requires c as int < 0x20
    ensures ParseEscape("u00" + [HexDigit(c as int / 16), HexDigit(c as int % 16)] + tail) == Some((c, tail))
  {
    var hi, lo := c as int / 16, c as int % 16;
    var s := "u00" + [HexDigit(hi), HexDigit(lo)] + tail;
    HexDigitValue(hi);
    HexDigitValue(lo);
    assert s[1..][..4] == "00" + [HexDigit(hi), HexDigit(lo)];
    assert Hex4(s[1..]) == Some(c as int);
    assert s[5..] == tail;
  }

  /** A string literal written by `Quote` reads back as the same string. */
  lemma {:induction false} ParseStringBodyEscape(s: string, rest: string)
    ensures ParseStringBody(Escape(s) + "\"" + rest) == Some((s, rest))
    decreases |s|
  {
    if s == [] {
      assert Escape(s) + "\"" + rest == "\"" + rest;
    } else {
      var tail := Escape(s[1..]) + "\"" + rest;
      assert Escape(s) + "\"" + rest == EscapeChar(s[0]) + tail;
      ParseEscapeChar(s[0], tail);
      ParseStringBodyEscape(s[1..], rest);
      assert [s[0]] + s[1..] == s;
    }
  }

  /** The text of a canonical value never starts with whitespace, `]` or `}`. */
  lemma StringifyStart(v: Value)
    requires Canonical(v)
    ensures Stringify(v) != [] && Stringify(v)[0] in "nft\"[{"
  {
  }

  // One unfolding of the parser at a time, so that each proof stays small.

  lemma ParseValueArray(t: string)
    requires t != [] && t[0] == '['
    ensures ParseValue(t) == ParseArray(t[1..])
  {
  }

  lemma ParseValueObject(t: string)
    requires t != [] && t[0] == '{'
    ensures ParseValue(t) == ParseObject(t[1..])
  {
  }

  lemma ParseValueString(t: string)
    requires t != [] && t[0] == '"'
    ensures ParseValue(t) == match ParseStringBody(t[1..])
      case None => None
      case Some((str, rest)) => Some((JString(str), rest))
  {
  }

  lemma ParseArrayEmpty(rest: string)
    ensures ParseArray("]" + rest) == Some((JArray([]), rest))
  {
    SkipWsNoop("]" + rest);
    assert ("]" + rest)[1..] == rest;
  }

  lemma ParseArrayElements(s: string)
    requires s != [] && s[0] != ']' && !IsJsonWhitespace(s[0])
    ensures ParseArray(s) == match ParseElements(s)
      case None => None
      case Some((items, rest)) => Some((JArray(items), rest))
  {
    SkipWsNoop(s);
  }

  lemma ParseObjectEmpty(rest: string)
    ensures ParseObject("}" + rest) == Some((JObject([]), rest))
  {
    SkipWsNoop("}" + rest);
    assert ("}" + rest)[1..] == rest;
  }

  lemma ParseObjectMembers(s: string)
    requires s != [] && s[0] == '"'
    ensures ParseObject(s) == match ParseMembers(s)
      case None => None
      case Some((ms, rest)) => Some((JObject(Dedupe(ms)), rest))
  {
    SkipWsNoop(s);
  }

  lemma ParseElementsLast(s: string, v: Value, rest: string)
    requires ParseValue(s) == Some((v, "]" + rest))
    ensures ParseElements(s) == Some(([v], rest))
  {
    SkipWsNoop("]" + rest);
    assert ("]" + rest)[1..] == rest;
  }

  lemma ParseElementsNext(s: string, v: Value, more: string)
    requires ParseValue(s) == Some((v, "," + more))
    ensures ParseElements(s) == match ParseElements(more)
      case None => None
      case Some((vs, rest)) => Some(([v] + vs, rest))
  {
    SkipWsNoop("," + more);
    assert ("," + more)[1..] == more;
  }

  /** The key and the colon of a member, then its value. */
  lemma ParseMemberHead(key: string, valueText: string)
    ensures var s := Quote(key) + ":" + valueText;
      s != [] && s[0] == '"' && ParseStringBody(s[1..]) == Some((key, ":" + valueText))
  {
    var s := Quote(key) + ":" + valueText;
    assert s[1..] == Escape(key) + "\"" + (":" + valueText);
    ParseStringBodyEscape(key, ":" + valueText);
  }

  lemma ParseMembersStep(key: string, valueText: string, v: Value, after: string)
    requires ParseValue(valueText) == Some((v, after))
    requires after != [] && (after[0] == '}' || after[0] == ',')
    ensures ParseMembers(Quote(key) + ":" + valueText) ==
      if after[0] == '}' then Some(([Member(key, v)], after[1..]))
      else match ParseMembers(after[1..])
        case None => None
        case Some((ms, rest)) => Some(([Member(key, v)] + ms, rest))
  {
    var s := Quote(key) + ":" + valueText;
    ParseMemberHead(key, valueText);
    SkipWsNoop(s);
    SkipWsNoop(":" + valueText);
    assert (":" + valueText)[1..] == valueText;
    SkipWsNoop(after);
  }

  lemma ParseLiteral(v: Value, rest: string)
    requires v.JNull? || v.JBool?
    ensures ParseValue(Stringify(v) + rest) == Some((v, rest))
  {
    var t := Stringify(v) + rest;
    SkipWsNoop(t);
    if v.JNull? {
      assert t[..4] == "null" && t[4..] == rest;
    } else if v.b {
      assert t[..4] == "true" && t[4..] == rest;
    } else {
      assert t[..4] != "null" && t[..4] != "true";
      assert t[..5] == "false" && t[5..] == rest;
    }
  }

  /** `JSON.parse` reads back what `JSON.stringify` wrote, whatever follows it. */
  lemma {:induction false} ParseValueStringify(v: Value, rest: string)
    requires Canonical(v)
    ensures ParseValue(Stringify(v) + rest) == Some((v, rest))
    decreases v, 0
  {
    match v
    case JNull => ParseLiteral(v, rest);
    case JBool(_) => ParseLiteral(v, rest);
    case JString(s) => ParseStringStringify(s, rest);
    case JArray(items) => ParseArrayStringify(items, rest);
    case JObject(ms) => ParseObjectStringify(ms, rest);
  }

  lemma ParseStringStringify(s: string, rest: string)
    ensures ParseValue(Stringify(JString(s)) + rest) == Some((JString(s), rest))
  {
    var t := Stringify(JString(s)) + rest;
    assert t == "\"" + (Escape(s) + "\"" + rest);
    ParseValueString(t);
    ParseStringBodyEscape(s, rest);
  }

  lemma {:induction false} ParseArrayStringify(items: seq<Value>, rest: string)
    requires forall i :: 0 <= i < |items| ==> Canonical(items[i])
    ensures ParseValue(Stringify(JArray(items)) + rest) == Some((JArray(items), rest))
    decreases items, 1
  {
    var inner := StringifyItems(items) + "]" + rest;
    var t := Stringify(JArray(items)) + rest;
    assert t == "[" + inner;
    ParseValueArray(t);
    assert t[1..] == inner;
    if items == [] {
      assert inner == "]" + rest;
      ParseArrayEmpty(rest);
    } else {
      StringifyItemsStart(items);
      ParseArrayElements(inner);
      ParseElementsStringify(items, rest);
    }
  }

  lemma {:induction false} ParseObjectStringify(ms: seq<Member>, rest: string)
    requires DistinctKeys(ms)
    requires forall i :: 0 <= i < |ms| ==> Canonical(ms[i].value)
    ensures ParseValue(Stringify(JObject(ms)) + rest) == Some((JObject(ms), rest))
    decreases ms, 1
  {
    var inner := StringifyMembers(ms) + "}" + rest;
    var t := Stringify(JObject(ms)) + rest;
    assert t == "{" + inner;
    ParseValueObject(t);
    assert t[1..] == inner;
    if ms == [] {
      assert inner == "}" + rest;
      ParseObjectEmpty(rest);
    } else {
      assert inner[0] == '"';
      ParseObjectMembers(inner);
      ParseMembersStringify(ms, rest);
      DedupeDistinct(ms);
    }
  }

  lemma StringifyItemsStart(items: seq<Value>)
    requires items != [] && Canonical(items[0])
    ensures StringifyItems(items) != [] && StringifyItems(items)[0] in "nft\"[{"
  {
    StringifyStart(items[0]);
  }

  lemma {:induction false} ParseElementsStringify(items: seq<Value>, rest: string)
    requires items != []
    requires forall i :: 0 <= i < |items| ==> Canonical(items[i])
    ensures ParseElements(StringifyItems(items) + "]" + rest) == Some((items, rest))
    decreases items, 0
  {
    if |items| == 1 {
      ParseValueStringify(items[0], "]" + rest);
      ParseLastElement(items, rest);
    } else {
      var more := StringifyItems(items[1..]) + "]" + rest;
      ParseValueStringify(items[0], "," + more);
      ParseElementsStringify(items[1..], rest);
      ParseNextElement(items, rest);
    }
  }

  /** The last element, once it reads back, closes the array. */
  lemma ParseLastElement(items: seq<Value>, rest: string)
    requires |items| == 1
    requires ParseValue(Stringify(items[0]) + ("]" + rest)) == Some((items[0], "]" + rest))
    ensures ParseElements(StringifyItems(items) + "]" + rest) == Some((items, rest))
  {
    var s := StringifyItems(items) + "]" + rest;
    assert s == Stringify(items[0]) + ("]" + rest);
    ParseElementsLast(s, items[0], rest);
    assert [items[0]] == items;
  }

  /** An element that reads back, followed by elements that read back, reads back. */
  lemma ParseNextElement(items: seq<Value>, rest: string)
    requires |items| >= 2
    requires var more := StringifyItems(items[1..]) + "]" + rest;
      ParseValue(Stringify(items[0]) + ("," + more)) == Some((items[0], "," + more))
    requires ParseElements(StringifyItems(items[1..]) + "]" + rest) == Some((items[1..], rest))
    ensures ParseElements(StringifyItems(items) + "]" + rest) == Some((items, rest))
  {
    var more := StringifyItems(items[1..]) + "]" + rest;
    ItemsText(items, rest);
    ParseElementsNext(StringifyItems(items) + "]" + rest, items[0], more);
    ConsSplit(items);
  }

  /** The text of two or more elements and the closing bracket, split after the first. */
  lemma ItemsText(items: seq<Value>, rest: string)
    requires |items| >= 2
    ensures StringifyItems(items) + "]" + rest
      == Stringify(items[0]) + ("," + (StringifyItems(items[1..]) + "]" + rest))
  {
    var v, more := Stringify(items[0]), StringifyItems(items[1..]);
    assert StringifyItems(items) == v + "," + more;
    Assoc4(v, ",", more, "]" + rest);
    Assoc(more, "]", rest);
  }

  lemma ConsSplit<T>(xs: seq<T>)
    requires xs != []
    ensures [xs[0]] + xs[1..] == xs
  {
  }

  /** The text of the members and the closing brace, split after the first value. */
  lemma MembersText(ms: seq<Member>, rest: string)
    requires ms != []
    ensures var after := if |ms| == 1 then "}" + rest else "," + (StringifyMembers(ms[1..]) + "}" + rest);
      StringifyMembers(ms) + "}" + rest == Quote(ms[0].key) + ":" + (Stringify(ms[0].value) + after)
  {
    var q, v := Quote(ms[0].key), Stringify(ms[0].value);
    if |ms| == 1 {
      Assoc(q + ":", v, "}");
      Assoc(q + ":" + v, "}", rest);
      Assoc(q + ":", v + "}", rest);
      Assoc(v, "}", rest);
    } else {
      var more := StringifyMembers(ms[1..]);
      assert StringifyMembers(ms) == q + ":" + v + "," + more;
      Assoc4(q + ":", v, ",", more);
      Assoc4(q + ":", v + "," + more, "}", rest);
      Assoc4(v, ",", more, "}" + rest);
      Assoc(more, "}", rest);
    }
  }

  lemma Assoc(a: string, b: string, c: string)
    ensures a + b + c == a + (b + c)
  {
  }

  lemma Assoc4(a: string, b: string, c: string, d: string)
    ensures a + b + c + d == a + (b + c + d)
    ensures a + b + c + d == a + (b + (c + d))
  {
  }

  lemma {:induction false} ParseMembersStringify(ms: seq<Member>, rest: string)
    requires ms != []
    requires forall i :: 0 <= i < |ms| ==> Canonical(ms[i].value)
    ensures ParseMembers(StringifyMembers(ms) + "}" + rest) == Some((ms, rest))
    decreases ms, 0
  {
    if |ms| == 1 {
      ParseValueStringify(ms[0].value, "}" + rest);
      ParseLastMember(ms, rest);
    } else {
      var more := StringifyMembers(ms[1..]) + "}" + rest;
      ParseValueStringify(ms[0].value, "," + more);
      ParseMembersStringify(ms[1..], rest);
      ParseNextMember(ms, rest);
    }
  }

  /** The last member, once its value reads back, closes the object. */
  lemma ParseLastMember(ms: seq<Member>, rest: string)
    requires |ms| == 1
    requires ParseValue(Stringify(ms[0].value) + ("}" + rest)) == Some((ms[0].value, "}" + rest))
    ensures ParseMembers(StringifyMembers(ms) + "}" + rest) == Some((ms, rest))
  {
    var m, after := ms[0], "}" + rest;
    MembersText(ms, rest);
    ParseMembersStep(m.key, Stringify(m.value) + after, m.value, after);
    assert after[1..] == rest;
    assert [Member(m.key, m.value)] == ms;
  }

  /** A member whose value reads back, followed by members that read back, reads back. */
  lemma ParseNextMember(ms: seq<Member>, rest: string)
    requires |ms| >= 2
    requires var more := StringifyMembers(ms[1..]) + "}" + rest;
      ParseValue(Stringify(ms[0].value) + ("," + more)) == Some((ms[0].value, "," + more))
    requires ParseMembers(StringifyMembers(ms[1..]) + "}" + rest) == Some((ms[1..], rest))
    ensures ParseMembers(StringifyMembers(ms) + "}" + rest) == Some((ms, rest))
  {
    var m := ms[0];
    var more := StringifyMembers(ms[1..]) + "}" + rest;
    var after := "," + more;
    MembersText(ms, rest);
    ParseMembersStep(m.key, Stringify(m.value) + after, m.value, after);
    assert after[1..] == more;
    ConsSplit(ms);
  }

  /** `JSON.parse(JSON.stringify(v))` is `v` for every canonical value. */
  lemma ParseStringify(v: Value)
    requires Canonical(v)
    ensures Parse(Stringify(v)) == Some(v)
  {
    assert Stringify(v) + [] == Stringify(v);
    ParseValueStringify(v, []);
  }

  /**
   * The JSON text of a value followed by anything parses to that value exactly when what
   * follows is whitespace; any other trailing text makes `JSON.parse` fail.
   */
  lemma ParseRejectsTrailing(v: Value, junk: string)
    requires Canonical(v)
    ensures Parse(Stringify(v) + junk) == if SkipWs(junk) == [] then Some(v) else None
  {
    ParseValueStringify(v, junk);
  }
}
