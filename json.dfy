/**
 * The schema text of an encoded entry: a JSON object that binds every key of
 * the encoded object to its position, as JSON.stringify writes it, and the
 * part of JSON.parse the decoder relies on to read it back. Only objects whose
 * member values are natural numbers are written or read.
 */
module Json {
  import opened Wrappers
  import opened Props

  /** The members of a parsed schema object, in text order. */
  type Members = seq<(string, nat)>

  // ---------------------------------------------------------------------------
  // Decimal numbers
  // ---------------------------------------------------------------------------

  predicate IsDigit(c: char) {
    '0' <= c <= '9'
  }

  function DigitChar(d: nat): (c: char)
    requires d < 10
    ensures IsDigit(c)
  {
    ('0' as int + d) as char
  }

  function DigitValue(c: char): (d: nat)
    requires IsDigit(c)
    ensures d < 10 && DigitChar(d) == c
  {
    c as int - '0' as int
  }

  predicate AllDigits(s: string) {
    forall i :: 0 <= i < |s| ==> IsDigit(s[i])
  }

  /** The decimal text of n, as JavaScript writes a non-negative integer. */
  function NatToString(n: nat): (s: string)
    ensures |s| >= 1 && AllDigits(s)
    ensures s[0] == '0' <==> n == 0
    decreases n
  {
    if n < 10 then [DigitChar(n)] else NatToString(n / 10) + [DigitChar(n % 10)]
  }

  /** The number a run of decimal digits denotes. */
  function DigitsValue(s: string): nat
    requires AllDigits(s)
    decreases |s|
  {
    if s == [] then 0 else DigitsValue(s[..|s| - 1]) * 10 + DigitValue(s[|s| - 1])
  }

  lemma {:induction false} DigitsValueOfNatToString(n: nat)
    ensures DigitsValue(NatToString(n)) == n
    decreases n
  {
    var s := NatToString(n);
    if n >= 10 {
      assert s[..|s| - 1] == NatToString(n / 10);
      DigitsValueOfNatToString(n / 10);
    }
  }

  /** The length of the longest prefix of s made of digits. */
  function DigitRun(s: string): (k: nat)
    ensures k <= |s| && AllDigits(s[..k])
    ensures k < |s| ==> !IsDigit(s[k])
  {
    if s == [] || !IsDigit(s[0]) then 0 else 1 + DigitRun(s[1..])
  }

  /**
   * Reads a natural number: a lone "0", or digits without a leading zero.
   * Signs, fractions and exponents are not part of this reader.
   */
  function ParseNat(s: string): (r: Result<(nat, string)>)
    ensures r.Ok? ==> |r.value.1| < |s|
  {
    if s == [] || !IsDigit(s[0]) then Err("expected a number")
    else if s[0] == '0' then Ok((0, s[1..]))
    else
      var k := DigitRun(s);
      Ok((DigitsValue(s[..k]), s[k..]))
  }

  lemma ParseNatAfterNatToString(n: nat, rest: string)
    requires rest == [] || !IsDigit(rest[0])
    ensures ParseNat(NatToString(n) + rest) == Ok((n, rest))
  {
    var d := NatToString(n);
    var s := d + rest;
    if n == 0 {
      assert s[1..] == rest;
    } else {
      DigitRunOfDigitsThen(d, rest);
      assert s[..|d|] == d && s[|d|..] == rest;
      DigitsValueOfNatToString(n);
    }
  }

  lemma {:induction false} DigitRunOfDigitsThen(d: string, rest: string)
    requires AllDigits(d)
    requires rest == [] || !IsDigit(rest[0])
    ensures DigitRun(d + rest) == |d|
    decreases |d|
  {
    if d != [] {
      assert (d + rest)[1..] == d[1..] + rest;
      DigitRunOfDigitsThen(d[1..], rest);
    } else {
      assert d + rest == rest;
    }
  }

  // ---------------------------------------------------------------------------
  // String literals
  // ---------------------------------------------------------------------------

  predicate IsHex(c: char) {
    '0' <= c <= '9' || 'a' <= c <= 'f' || 'A' <= c <= 'F'
  }

  function HexValue(c: char): (v: nat)
    requires IsHex(c)
    ensures v < 16
  {
    if '0' <= c <= '9' then c as int - '0' as int
    else if 'a' <= c <= 'f' then c as int - 'a' as int + 10
    else c as int - 'A' as int + 10
  }

  /** Lower-case hexadecimal digit, as JSON.stringify writes \u escapes. */
  function HexChar(d: nat): (c: char)
    requires d < 16
    ensures IsHex(c) && HexValue(c) == d
  {
    if d < 10 then DigitChar(d) else ('a' as int + d - 10) as char
  }

  /** How JSON.stringify writes one character inside a string literal. */
  function EscapeChar(c: char): (e: string)
    ensures |e| >= 1
    ensures e[0] != '"'
  {
    if c == '"' then ['\\', '"']
    else if c == '\\' then ['\\', '\\']
    else if c == 8 as char then ['\\', 'b']
    else if c == '\t' then ['\\', 't']
    else if c == '\n' then ['\\', 'n']
    else if c == 12 as char then ['\\', 'f']
    else if c == '\r' then ['\\', 'r']
    else if c < ' ' then ['\\', 'u', '0', '0', HexChar(c as int / 16), HexChar(c as int % 16)]
    else [c]
  }

  function Escape(s: string): string {
    if s == [] then [] else EscapeChar(s[0]) + Escape(s[1..])
  }

  /** A string literal: the escaped text between double quotes. */
  function Quote(s: string): string {
    ['"'] + Escape(s) + ['"']
  }

  /** Reads the escape sequence that follows a backslash: the character it stands for and the text after it. */
  function ParseEscape(s: string): (r: Result<(char, string)>)
    ensures r.Ok? ==> |r.value.1| < |s|
  {
    if s == [] then Err("unterminated escape")
    else if s[0] == '"' then Ok(('"', s[1..]))
    else if s[0] == '\\' then Ok(('\\', s[1..]))
    else if s[0] == '/' then Ok(('/', s[1..]))
    else if s[0] == 'b' then Ok((8 as char, s[1..]))
    else if s[0] == 'f' then Ok((12 as char, s[1..]))
    else if s[0] == 'n' then Ok(('\n', s[1..]))
    else if s[0] == 'r' then Ok(('\r', s[1..]))
    else if s[0] == 't' then Ok(('\t', s[1..]))
    else if s[0] == 'u' then
      if |s| < 5 || !IsHex(s[1]) || !IsHex(s[2]) || !IsHex(s[3]) || !IsHex(s[4]) then
        Err("bad unicode escape")
      else
        var code := HexValue(s[1]) * 4096 + HexValue(s[2]) * 256 + HexValue(s[3]) * 16 + HexValue(s[4]);
        if 0xD800 <= code <= 0xDFFF then Err("surrogate escape")
        else Ok((code as char, s[5..]))
    else Err("bad escape")
  }

  /** Reads the characters of a string literal, after its opening quote, up to and including its closing quote. */
  function ParseChars(s: string): (r: Result<(string, string)>)
    ensures r.Ok? ==> |r.value.1| < |s|
    decreases |s|
  {
    if s == [] then Err("unterminated string")
    else if s[0] == '"' then Ok(([], s[1..]))
    else if s[0] == '\\' then
      var e :- ParseEscape(s[1..]);
      var t :- ParseChars(e.1);
      Ok(([e.0] + t.0, t.1))
    else if s[0] < ' ' then Err("control character in string")
    else
      var t :- ParseChars(s[1..]);
      Ok(([s[0]] + t.0, t.1))
  }

  lemma ParseCharAfterEscapeChar(c: char, rest: string)
    ensures EscapeChar(c)[0] == '\\' ==> ParseEscape(EscapeChar(c)[1..] + rest) == Ok((c, rest))
    ensures EscapeChar(c)[0] != '\\' ==> EscapeChar(c) == [c] && c != '"' && c >= ' '
  {
    var e := EscapeChar(c);
    var s := e[1..] + rest;
    if c < ' ' && c != 8 as char && c != '\t' && c != '\n' && c != 12 as char && c != '\r' {
      var hi, lo := c as int / 16, c as int % 16;
      assert s[1] == '0' && s[2] == '0' && s[3] == HexChar(hi) && s[4] == HexChar(lo);
      assert s[5..] == rest;
    } else if e[0] == '\\' {
      assert s[1..] == rest;
    }
  }

  /** One escaped character in front of a text that reads back reads back in front of it. */
  lemma ParseCharsStep(c: char, after: string, t: string, rest: string)
    requires ParseChars(after) == Ok((t, rest))
    ensures ParseChars(EscapeChar(c) + after) == Ok(([c] + t, rest))
  {
    var e := EscapeChar(c);
    var text := e + after;
    ParseCharAfterEscapeChar(c, after);
    if e[0] == '\\' {
      assert text[1..] == e[1..] + after;
    } else {
      assert text[1..] == after;
    }
  }

  lemma {:induction false} ParseCharsAfterEscape(s: string, rest: string)
    ensures ParseChars(Escape(s) + ['"'] + rest) == Ok((s, rest))
    decreases |s|
  {
    if s == [] {
      assert Escape(s) + ['"'] + rest == ['"'] + rest;
    } else {
      var after := Escape(s[1..]) + ['"'] + rest;
      assert Escape(s) + ['"'] + rest == EscapeChar(s[0]) + after;
      ParseCharsAfterEscape(s[1..], rest);
      ParseCharsStep(s[0], after, s[1..], rest);
      assert [s[0]] + s[1..] == s;
    }
  }

  // ---------------------------------------------------------------------------
  // Schema objects
  // ---------------------------------------------------------------------------

  predicate IsSpace(c: char) {
    c == ' ' || c == '\t' || c == '\n' || c == '\r'
  }

  /** Drops the JSON whitespace at the front of s. */
  function SkipSpace(s: string): (r: string)
    ensures |r| <= |s|
    ensures r == [] || !IsSpace(r[0])
  {
    if s != [] && IsSpace(s[0]) then SkipSpace(s[1..]) else s
  }

  lemma NoSpaceToSkip(s: string)
    requires s != [] && !IsSpace(s[0])
    ensures SkipSpace(s) == s
  {
  }

  function WriteMember(m: (string, nat)): (w: string)
    ensures |w| > 0 && w[0] == '"'
  {
    Quote(m.0) + [':'] + NatToString(m.1)
  }

  /** The members after the first one, each preceded by a comma. */
  function WriteMoreMembers(ms: Members): (w: string)
    ensures w == [] <==> ms == []
    ensures w != [] ==> w[0] == ','
  {
    if ms == [] then [] else [','] + WriteMember(ms[0]) + WriteMoreMembers(ms[1..])
  }

  /** What follows the opening brace of an object literal, up to and including its closing brace. */
  function WriteBody(ms: Members): (w: string)
    ensures |w| > 0 && (w[0] == '"' || w[0] == '}') && w[|w| - 1] == '}'
  {
    if ms == [] then ['}'] else WriteMember(ms[0]) + WriteMoreMembers(ms[1..]) + ['}']
  }

  /** An object literal, written without whitespace as JSON.stringify does. */
  function WriteObject(ms: Members): string {
    ['{'] + WriteBody(ms)
  }

  /** Reads `"key":number` followed by any whitespace, starting at the key's opening quote. */
  function ParseMember(s: string): (r: Result<((string, nat), string)>)
    ensures r.Ok? ==> |r.value.1| < |s|
  {
    if s == [] || s[0] != '"' then Err("expected a key")
    else
      var k :- ParseChars(s[1..]);
      ParseMemberValue(k.0, k.1)
  }

  /** Reads `:number` and the whitespace after it, for the member whose key has just been read. */
  function ParseMemberValue(key: string, s: string): (r: Result<((string, nat), string)>)
    ensures r.Ok? ==> |r.value.1| < |s|
  {
    var t := SkipSpace(s);
    if t == [] || t[0] != ':' then Err("expected ':'")
    else
      var n :- ParseNat(SkipSpace(t[1..]));
      Ok(((key, n.0), SkipSpace(n.1)))
  }

  /** Reads `, member` repeatedly, up to and including the closing brace. */
  function ParseMoreMembers(s: string): (r: Result<(Members, string)>)
    ensures r.Ok? ==> |r.value.1| < |s|
    decreases |s|
  {
    if s == [] then Err("unterminated object")
    else if s[0] == '}' then Ok(([], s[1..]))
    else if s[0] == ',' then
      var m :- ParseMember(SkipSpace(s[1..]));
      var ms :- ParseMoreMembers(m.1);
      Ok(([m.0] + ms.0, ms.1))
    else Err("expected ',' or '}'")
  }

  /** Reads the members of an object after its opening brace, up to and including the closing brace. */
  function ParseBody(s: string): (r: Result<(Members, string)>) {
    if s != [] && s[0] == '}' then Ok(([], s[1..]))
    else
      var m :- ParseMember(s);
      var ms :- ParseMoreMembers(m.1);
      Ok(([m.0] + ms.0, ms.1))
  }

  /**
   * JSON.parse for a text holding one object whose values are natural
   * numbers; whitespace may surround every token.
   */
  function ParseObject(text: string): (r: Result<Members>) {
    var s := SkipSpace(text);
    if s == [] || s[0] != '{' then Err("expected '{'")
    else
      var b :- ParseBody(SkipSpace(s[1..]));
      if SkipSpace(b.1) != [] then Err("unexpected text after the object") else Ok(b.0)
  }

  /** Each key bound to its position, in order: the object the source reduces Object.keys(obj) into. */
  function Indexed(keys: seq<string>): (ms: Members)
    ensures |ms| == |keys|
    ensures forall i :: 0 <= i < |keys| ==> ms[i] == (keys[i], i)
  {
    seq(|keys|, i requires 0 <= i < |keys| => (keys[i], i))
  }

  /** The schema text of an object with the given key list. */
  function SchemaText(keys: seq<string>): string {
    WriteObject(Indexed(keys))
  }

  /** The key list the decoder reads from a schema text: Object.keys(JSON.parse(text)). */
  function ParseSchema(text: string): Result<seq<string>> {
    var ms :- ParseObject(text);
    Ok(Keys(Assign(ms)))
  }

  // ---------------------------------------------------------------------------
  // Round trip and rejection
  // ---------------------------------------------------------------------------

  lemma Assoc(a: string, b: string, c: string)
    ensures (a + b) + c == a + (b + c)
  {
  }

  lemma DropFirst(c: char, x: string)
    ensures ([c] + x)[0] == c && ([c] + x)[1..] == x
  {
  }

  lemma FirstOf(x: string, y: string)
    requires x != []
    ensures (x + y)[0] == x[0]
  {
  }

  lemma DropLast(x: string, c: char)
    ensures |x + [c]| == |x| + 1 && (x + [c])[..|x|] == x
  {
  }

  lemma ParseMemberValueAfterWrite(key: string, n: nat, rest: string)
    requires rest == [] || !IsDigit(rest[0])
    ensures ParseMemberValue(key, [':'] + NatToString(n) + rest) == Ok(((key, n), SkipSpace(rest)))
  {
    var d := NatToString(n);
    var t := [':'] + d + rest;
    Assoc([':'], d, rest);
    DropFirst(':', d + rest);
    assert SkipSpace(t) == t;
    FirstOf(d, rest);
    assert SkipSpace(d + rest) == d + rest;
    ParseNatAfterNatToString(n, rest);
  }

  lemma ParseMemberAfterWrite(m: (string, nat), rest: string)
    requires rest == [] || !IsDigit(rest[0])
    ensures ParseMember(WriteMember(m) + rest) == Ok((m, SkipSpace(rest)))
  {
    var e := Escape(m.0);
    var s := WriteMember(m) + rest;
    var tail := [':'] + NatToString(m.1) + rest;
    assert s[0] == '"' && s[1..] == e + ['"'] + tail by {
      var n := NatToString(m.1);
      Assoc(['"'] + e + ['"'], [':'], n);
      Assoc(['"'] + e + ['"'], [':'] + n, rest);
      Assoc(['"'] + e, ['"'], tail);
      Assoc(['"'], e, ['"'] + tail);
      Assoc(e, ['"'], tail);
      DropFirst('"', e + (['"'] + tail));
    }
    ParseCharsAfterEscape(m.0, tail);
    ParseMemberValueAfterWrite(m.0, m.1, rest);
  }

  /** A member written in front of a text that starts with a comma or a brace reads back, leaving that text. */
  lemma ParseMemberBefore(m: (string, nat), after: string)
    requires after != [] && (after[0] == ',' || after[0] == '}')
    ensures ParseMember(WriteMember(m) + after) == Ok((m, after))
    ensures SkipSpace(WriteMember(m) + after) == WriteMember(m) + after
  {
    ParseMemberAfterWrite(m, after);
    NoSpaceToSkip(after);
    FirstOf(WriteMember(m), after);
    NoSpaceToSkip(WriteMember(m) + after);
  }

  /** Written further members are a comma, the first of them, and a text that starts with a comma or a brace. */
  lemma WriteMoreSplit(ms: Members, rest: string)
    requires ms != []
    ensures var s := WriteMoreMembers(ms) + ['}'] + rest;
      var after := WriteMoreMembers(ms[1..]) + ['}'] + rest;
      s[0] == ',' && s[1..] == WriteMember(ms[0]) + after &&
      after != [] && (after[0] == ',' || after[0] == '}')
  {
    var w, more := WriteMember(ms[0]), WriteMoreMembers(ms[1..]);
    var after := more + ['}'] + rest;
    Assoc([','] + w, more, ['}']);
    Assoc([','] + w, more + ['}'], rest);
    Assoc([','], w, after);
    DropFirst(',', w + after);
    FirstOf(more + ['}'], rest);
    if more != [] { FirstOf(more, ['}']); }
  }

  lemma ParseMoreStep(s: string, ms: Members, after: string, rest: string)
    requires s != [] && s[0] == ',' && ms != []
    requires ParseMember(SkipSpace(s[1..])) == Ok((ms[0], after))
    requires ParseMoreMembers(after) == Ok((ms[1..], rest))
    ensures ParseMoreMembers(s) == Ok((ms, rest))
  {
    assert [ms[0]] + ms[1..] == ms;
  }

  lemma {:induction false} ParseMoreAfterWrite(ms: Members, rest: string)
    ensures ParseMoreMembers(WriteMoreMembers(ms) + ['}'] + rest) == Ok((ms, rest))
    decreases |ms|
  {
    var s := WriteMoreMembers(ms) + ['}'] + rest;
    if ms == [] {
      DropFirst('}', rest);
    } else {
      var after := WriteMoreMembers(ms[1..]) + ['}'] + rest;
      WriteMoreSplit(ms, rest);
      ParseMemberBefore(ms[0], after);
      ParseMoreAfterWrite(ms[1..], rest);
      ParseMoreStep(s, ms, after, rest);
    }
  }

  /** A written non-empty body is its first member followed by a text that starts with a comma or a brace. */
  lemma WriteBodySplit(ms: Members, rest: string)
    requires ms != []
    ensures var after := WriteMoreMembers(ms[1..]) + ['}'] + rest;
      WriteBody(ms) + rest == WriteMember(ms[0]) + after &&
      after != [] && (after[0] == ',' || after[0] == '}')
  {
    var w, more := WriteMember(ms[0]), WriteMoreMembers(ms[1..]);
    Assoc(w, more, ['}']);
    Assoc(w, more + ['}'], rest);
    FirstOf(more + ['}'], rest);
    if more != [] { FirstOf(more, ['}']); }
  }

  lemma ParseBodyStep(s: string, ms: Members, after: string, rest: string)
    requires s != [] && s[0] != '}' && ms != []
    requires ParseMember(s) == Ok((ms[0], after)) && ParseMoreMembers(after) == Ok((ms[1..], rest))
    ensures ParseBody(s) == Ok((ms, rest))
  {
    assert [ms[0]] + ms[1..] == ms;
  }

  lemma ParseBodyAfterWrite(ms: Members, rest: string)
    ensures ParseBody(WriteBody(ms) + rest) == Ok((ms, rest))
  {
    if ms == [] {
      DropFirst('}', rest);
    } else {
      var w := WriteMember(ms[0]);
      var after := WriteMoreMembers(ms[1..]) + ['}'] + rest;
      WriteBodySplit(ms, rest);
      ParseMemberBefore(ms[0], after);
      FirstOf(w, after);
      ParseMoreAfterWrite(ms[1..], rest);
      ParseBodyStep(w + after, ms, after, rest);
    }
  }

  /** Reading an object back after writing it gives its members, and fails when anything but whitespace follows. */
  lemma ParseObjectAfterWrite(ms: Members, rest: string)
    ensures SkipSpace(rest) == [] ==> ParseObject(WriteObject(ms) + rest) == Ok(ms)
    ensures SkipSpace(rest) != [] ==> ParseObject(WriteObject(ms) + rest).Err?
  {
    var b := WriteBody(ms);
    var s := WriteObject(ms) + rest;
    Assoc(['{'], b, rest);
    DropFirst('{', b + rest);
    assert SkipSpace(s) == s;
    FirstOf(b, rest);
    assert SkipSpace(b + rest) == b + rest;
    ParseBodyAfterWrite(ms, rest);
  }

  /** The schema text of a key list reads back as exactly that key list, in order. */
  lemma SchemaRoundTrip(keys: seq<string>)
    requires Distinct(keys)
    ensures ParseSchema(SchemaText(keys)) == Ok(keys)
  {
    ParseObjectAfterWrite(Indexed(keys), []);
    assert WriteObject(Indexed(keys)) + [] == SchemaText(keys);
    assert Keys(Indexed(keys)) == keys;
    AssignOfDistinct(Indexed(keys));
  }

  /** Text after the closing brace, other than whitespace, makes the schema unreadable. */
  lemma SchemaWithTrailingTextFails(keys: seq<string>, extra: string)
    requires SkipSpace(extra) != []
    ensures ParseSchema(SchemaText(keys) + extra).Err?
  {
    ParseObjectAfterWrite(Indexed(keys), extra);
  }

  lemma {:induction false} ParseMoreWithoutBraceFails(ms: Members)
    ensures ParseMoreMembers(WriteMoreMembers(ms)).Err?
    decreases |ms|
  {
    if ms != [] {
      var w, more := WriteMember(ms[0]), WriteMoreMembers(ms[1..]);
      var s := WriteMoreMembers(ms);
      Assoc([','], w, more);
      DropFirst(',', w + more);
      FirstOf(w, more);
      assert SkipSpace(w + more) == w + more;
      if more == [] {
        assert w + more == w + [];
        ParseMemberAfterWrite(ms[0], []);
      } else {
        ParseMemberBefore(ms[0], more);
      }
      ParseMoreWithoutBraceFails(ms[1..]);
    }
  }

  /** A schema text that lost its closing brace is unreadable. */
  lemma TruncatedSchemaFails(keys: seq<string>)
    ensures var t := SchemaText(keys); ParseSchema(t[..|t| - 1]).Err?
  {
    var ms := Indexed(keys);
    var t := SchemaText(keys);
    if ms == [] {
      assert t[..|t| - 1] == ['{'];
    } else {
      var w, more := WriteMember(ms[0]), WriteMoreMembers(ms[1..]);
      var x := w + more;
      assert t[..|t| - 1] == ['{'] + x by {
        Assoc(['{'], x, ['}']);
        DropLast(['{'] + x, '}');
      }
      DropFirst('{', x);
      FirstOf(w, more);
      assert SkipSpace(x) == x;
      if more == [] {
        assert x == w + [];
        ParseMemberAfterWrite(ms[0], []);
      } else {
        ParseMemberBefore(ms[0], more);
      }
      ParseMoreWithoutBraceFails(ms[1..]);
    }
  }
}
