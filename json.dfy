/** JSON text (RFC 8259) as `JSON.stringify` writes it and `JSON.parse` reads it, for
    the values a JSON file can hold. The parser accepts the insignificant whitespace
    RFC 8259 allows between tokens, so compact and indented output both read back. */
module Json {
  import opened Options
  import opened Decimal
  import opened Collections

  datatype Value =
    | Null
    | Bool(b: bool)
    | Num(n: int)
    | Str(s: string)
    | Arr(items: seq<Value>)
    | Obj(members: seq<Member>)

  /** One property of an object; an object keeps its properties in order. */
  datatype Member = Member(name: string, value: Value)

  /** `typeof v === 'object'`: true of objects, arrays and `null`. */
  predicate IsObjectLike(v: Value) {
    v.Null? || v.Arr? || v.Obj?
  }

  // ---------------------------------------------------------------- writing

  function HexDigit(d: nat): char
    requires d < 16
  {
    "0123456789abcdef"[d]
  }

  /** The text `JSON.stringify` writes for one character inside a string literal:
      a two-character escape for the quote, the backslash and the five named
      control characters, `\u00xx` for the other control characters, and the
      character itself otherwise. */
  function EscapeChar(c: char): string {
    var k := c as int;
    if c == '"' then ['\\', '"']
    else if c == '\\' then ['\\', '\\']
    else if k == 8 then ['\\', 'b']
    else if k == 12 then ['\\', 'f']
    else if c == '\n' then ['\\', 'n']
    else if c == '\r' then ['\\', 'r']
    else if c == '\t' then ['\\', 't']
    else if k < 0x20 then ['\\', 'u', '0', '0', HexDigit(k / 16), HexDigit(k % 16)]
    else [c]
  }

  function Escape(s: string): string {
    if s == [] then [] else EscapeChar(s[0]) + Escape(s[1..])
  }

  /** A string literal: the escaped text between double quotes. */
  function Quote(s: string): string {
    "\"" + Escape(s) + "\""
  }

  function Spaces(n: nat): string {
    seq(n, _ => ' ')
  }

  /** The line break and indentation written before an element at `depth`; nothing
      when the gap is empty (compact output). */
  function Break(gap: nat, depth: nat): string {
    if gap == 0 then "" else "\n" + Spaces(gap * depth)
  }

  /** `JSON.stringify` of a value nested `depth` levels deep, indenting by `gap`
      spaces per level (no indentation when `gap` is 0). */
  function Stringify(v: Value, gap: nat, depth: nat): string
    decreases v
  {
    match v
    case Null => "null"
    case Bool(b) => if b then "true" else "false"
    case Num(n) => IntToString(n)
    case Str(s) => Quote(s)
    case Arr(items) =>
      if items == [] then "[]"
      else "[" + Break(gap, depth + 1) + StringifyItems(items, gap, depth + 1) + Break(gap, depth) + "]"
    case Obj(ms) =>
      if ms == [] then "{}"
      else "{" + Break(gap, depth + 1) + StringifyMembers(ms, gap, depth + 1) + Break(gap, depth) + "}"
  }

  /** The elements of an array, separated by a comma and a line break. */
  function StringifyItems(items: seq<Value>, gap: nat, depth: nat): string
    decreases items
  {
    if items == [] then ""
    else if |items| == 1 then Stringify(items[0], gap, depth)
    else Stringify(items[0], gap, depth) + "," + Break(gap, depth) + StringifyItems(items[1..], gap, depth)
  }

  /** The properties of an object: name, colon (followed by a space when indenting),
      value; separated like array elements. */
  function StringifyMembers(ms: seq<Member>, gap: nat, depth: nat): string
    decreases ms
  {
    if ms == [] then ""
    else
      var first := MemberText(ms[0], gap, depth);
      if |ms| == 1 then first
      else first + "," + Break(gap, depth) + StringifyMembers(ms[1..], gap, depth)
  }

  /** One property: its quoted name, a colon (followed by a space when indenting) and
      its value. */
  function MemberText(m: Member, gap: nat, depth: nat): string
    decreases m, 0
  {
    Quote(m.name) + ":" + (if gap == 0 then "" else " ") + Stringify(m.value, gap, depth)
  }

  /** `JSON.stringify(v, null, space)`: the indentation is capped at ten spaces. The
      text always parses back to `v`. */
  function ToJson(v: Value, space: nat): (text: string)
    ensures Parse(text) == Some(v)
  {
    var text := Stringify(v, if space > 10 then 10 else space, 0);
    ParseStringify(v, if space > 10 then 10 else space, 0, []);
    assert text + [] == text;
    text
  }

  // ---------------------------------------------------------------- reading

  predicate IsWs(c: char) {
    c == ' ' || c == '\t' || c == '\n' || c == '\r'
  }

  predicate AllWs(s: string) {
    forall i :: 0 <= i < |s| ==> IsWs(s[i])
  }

  /** The text after any leading whitespace. */
  function SkipWs(s: string): (r: string)
    ensures |r| <= |s|
    ensures r == [] || !IsWs(r[0])
  {
    if s != [] && IsWs(s[0]) then SkipWs(s[1..]) else s
  }

  predicate IsHex(c: char) {
    IsDigit(c) || 'a' <= c <= 'f' || 'A' <= c <= 'F'
  }

  function HexValue(c: char): nat
    requires IsHex(c)
  {
    if IsDigit(c) then DigitVal(c)
    else if 'a' <= c <= 'f' then c as int - 'a' as int + 10
    else c as int - 'A' as int + 10
  }

  /** The character an escape sequence (the text after a backslash) stands for, and
      the text after it. A `\u` escape naming a lone surrogate has no character of
      its own and is refused. */
  function Unescape(s: string): (r: Option<(char, string)>)
    ensures r.Some? ==> |r.value.1| < |s|
  {
    if s == [] then None
    else if s[0] == '"' || s[0] == '\\' || s[0] == '/' then Some((s[0], s[1..]))
    else if s[0] == 'b' then Some((8 as char, s[1..]))
    else if s[0] == 'f' then Some((12 as char, s[1..]))
    else if s[0] == 'n' then Some(('\n', s[1..]))
    else if s[0] == 'r' then Some(('\r', s[1..]))
    else if s[0] == 't' then Some(('\t', s[1..]))
    else if s[0] == 'u' && |s| >= 5 && IsHex(s[1]) && IsHex(s[2]) && IsHex(s[3]) && IsHex(s[4]) then
      var k := HexValue(s[1]) * 4096 + HexValue(s[2]) * 256 + HexValue(s[3]) * 16 + HexValue(s[4]);
      if k < 0xD800 || 0xE000 <= k then Some((k as char, s[5..])) else None
    else None
  }

  function Prepend(c: char, r: Option<(string, string)>): Option<(string, string)> {
    match r
    case None => None
    case Some((cs, rest)) => Some(([c] + cs, rest))
  }

  /** The characters of a string literal up to its closing quote, and the text after
      the quote. Raw control characters are refused. */
  function ParseChars(s: string): (r: Option<(string, string)>)
    ensures r.Some? ==> |r.value.1| < |s|
    decreases |s|
  {
    if s == [] then None
    else if s[0] == '"' then Some(([], s[1..]))
    else if s[0] == '\\' then
      match Unescape(s[1..])
      case None => None
      case Some((c, t)) => Prepend(c, ParseChars(t))
    else if (s[0] as int) < 0x20 then None
    else Prepend(s[0], ParseChars(s[1..]))
  }

  /** The length of the run of digits `s` starts with. */
  function DigitRun(s: string): (n: nat)
    ensures n <= |s| && AllDigits(s[..n])
    ensures n < |s| ==> !IsDigit(s[n])
  {
    if s != [] && IsDigit(s[0]) then
      var n := 1 + DigitRun(s[1..]);
      assert s[..n] == [s[0]] + s[1..][..n - 1];
      n
    else 0
  }

  /** An integer: an optional minus sign and digits without a leading zero. */
  function ParseNumber(s: string): (r: Option<(Value, string)>)
    ensures r.Some? ==> |r.value.1| < |s|
  {
    var neg := s != [] && s[0] == '-';
    var u := if neg then s[1..] else s;
    var n := DigitRun(u);
    if n == 0 || (n > 1 && u[0] == '0') then None
    else
      var m: int := DigitsValue(u[..n]);
      Some((Num(if neg then -m else m), u[n..]))
  }

  /** `s` starts with the keyword `word`. */
  function Literal(s: string, word: string, v: Value): (r: Option<(Value, string)>)
    requires word != []
    ensures r.Some? ==> |r.value.1| < |s|
  {
    if |word| <= |s| && s[..|word|] == word then Some((v, s[|word|..])) else None
  }

  /** One JSON value after optional whitespace, and the text after it. */
  function ParseValue(s: string): (r: Option<(Value, string)>)
    ensures r.Some? ==> |r.value.1| < |s|
    decreases |s|, 2
  {
    var t := SkipWs(s);
    if t == [] then None
    else if t[0] == 'n' then Literal(t, "null", Null)
    else if t[0] == 't' then Literal(t, "true", Bool(true))
    else if t[0] == 'f' then Literal(t, "false", Bool(false))
    else if t[0] == '-' || IsDigit(t[0]) then ParseNumber(t)
    else if t[0] == '"' then
      match ParseChars(t[1..])
      case None => None
      case Some((str, rest)) => Some((Str(str), rest))
    else if t[0] == '[' then ParseArray(t[1..])
    else if t[0] == '{' then ParseObject(t[1..])
    else None
  }

  /** An array after its opening bracket. */
  function ParseArray(s: string): (r: Option<(Value, string)>)
    ensures r.Some? ==> |r.value.1| < |s|
    decreases |s|, 5
  {
    var u := SkipWs(s);
    if u != [] && u[0] == ']' then Some((Arr([]), u[1..]))
    else
      match ParseItems(u)
      case None => None
      case Some((items, rest)) => Some((Arr(items), rest))
  }

  /** The elements of a non-empty array up to and including its closing bracket. */
  function ParseItems(s: string): (r: Option<(seq<Value>, string)>)
    ensures r.Some? ==> |r.value.1| < |s|
    decreases |s|, 3
  {
    match ParseValue(s)
    case None => None
    case Some((v, t)) =>
      var u := SkipWs(t);
      if u == [] then None
      else if u[0] == ']' then Some(([v], u[1..]))
      else if u[0] == ',' then
        match ParseItems(u[1..])
        case None => None
        case Some((vs, rest)) => Some(([v] + vs, rest))
      else None
  }

  /** An object after its opening brace. */
  function ParseObject(s: string): (r: Option<(Value, string)>)
    ensures r.Some? ==> |r.value.1| < |s|
    decreases |s|, 5
  {
    var u := SkipWs(s);
    if u != [] && u[0] == '}' then Some((Obj([]), u[1..]))
    else
      match ParseMembers(u)
      case None => None
      case Some((ms, rest)) => Some((Obj(ms), rest))
  }

  /** One property after optional whitespace: a string literal, a colon, a value. */
  function ParseMember(s: string): (r: Option<(Member, string)>)
    ensures r.Some? ==> |r.value.1| < |s|
    decreases |s|, 3
  {
    var t := SkipWs(s);
    if t == [] || t[0] != '"' then None
    else
      match ParseChars(t[1..])
      case None => None
      case Some((name, t1)) =>
        var t2 := SkipWs(t1);
        if t2 == [] || t2[0] != ':' then None
        else
          match ParseValue(t2[1..])
          case None => None
          case Some((v, rest)) => Some((Member(name, v), rest))
  }

  /** The properties of a non-empty object up to and including its closing brace. */
  function ParseMembers(s: string): (r: Option<(seq<Member>, string)>)
    ensures r.Some? ==> |r.value.1| < |s|
    decreases |s|, 4
  {
    match ParseMember(s)
    case None => None
    case Some((m, t)) =>
      var u := SkipWs(t);
      if u == [] then None
      else if u[0] == '}' then Some(([m], u[1..]))
      else if u[0] == ',' then
        match ParseMembers(u[1..])
        case None => None
        case Some((ms, rest)) => Some(([m] + ms, rest))
      else None
  }

  /** `JSON.parse`: one value, with nothing but whitespace after it; `None` where
      `JSON.parse` throws. */
  function Parse(text: string): Option<Value> {
    match ParseValue(text)
    case None => None
    case Some((v, rest)) => if SkipWs(rest) == [] then Some(v) else None
  }

  // ---------------------------------------------------------------- round trip

  lemma {:induction false} SkipWsPrefix(w: string, s: string)
    requires AllWs(w)
    ensures SkipWs(w + s) == SkipWs(s)
    decreases |w|
  {
    if w == [] {
      assert w + s == s;
    } else {
      assert (w + s)[0] == w[0] && (w + s)[1..] == w[1..] + s;
      SkipWsPrefix(w[1..], s);
    }
  }

  lemma BreakIsWs(gap: nat, depth: nat)
    ensures AllWs(Break(gap, depth))
  {
  }

  /** Leading whitespace does not change what `ParseValue`, `ParseItems` and
      `ParseMembers` read. */
  lemma ParseValueSkipsWs(w: string, s: string)
    requires AllWs(w)
    ensures ParseValue(w + s) == ParseValue(s)
    ensures ParseItems(w + s) == ParseItems(s)
    ensures ParseMember(w + s) == ParseMember(s)
    ensures ParseMembers(w + s) == ParseMembers(s)
  {
    SkipWsPrefix(w, s);
  }

  /** The characters a JSON value's text can begin with. */
  predicate StartsValue(c: char) {
    c == 'n' || c == 't' || c == 'f' || c == '-' || c == '"' || c == '[' || c == '{' || IsDigit(c)
  }

  /** Every value's text starts with a character that begins a JSON value. */
  lemma StringifyStart(v: Value, gap: nat, depth: nat)
    ensures var s := Stringify(v, gap, depth);
      |s| > 0 && StartsValue(s[0])
  {
  }

  /** Past its leading whitespace, an array that does not close at once is read as
      its elements. */
  lemma ParseArrayItems(s: string)
    requires SkipWs(s) != [] && SkipWs(s)[0] != ']'
    ensures ParseArray(s) == match ParseItems(SkipWs(s))
                             case None => None
                             case Some((items, rest)) => Some((Arr(items), rest))
  {
  }

  /** The same for an object and its properties. */
  lemma ParseObjectMembers(s: string)
    requires SkipWs(s) != [] && SkipWs(s)[0] != '}'
    ensures ParseObject(s) == match ParseMembers(SkipWs(s))
                              case None => None
                              case Some((ms, rest)) => Some((Obj(ms), rest))
  {
  }

  /** A backslash escape that `Unescape` reads as `c` is one character of the string. */
  lemma ParseCharsEscaped(e: string, c: char, t: string)
    requires |e| >= 2 && e[0] == '\\'
    requires Unescape(e[1..] + t) == Some((c, t))
    ensures ParseChars(e + t) == Prepend(c, ParseChars(t))
  {
    DropFirst(e, t);
    ParseCharsBackslash(e + t, c, t);
  }

  /** A string starting with a backslash reads the escape after it, then the rest. */
  lemma ParseCharsBackslash(s: string, c: char, t: string)
    requires |s| >= 1 && s[0] == '\\'
    requires Unescape(s[1..]) == Some((c, t))
    ensures ParseChars(s) == Prepend(c, ParseChars(t))
  {
  }

  lemma UnicodeEscapeRoundTrip(c: char, t: string)
    requires c as int < 0x20
    ensures var k := c as int;
      Unescape(['u', '0', '0', HexDigit(k / 16), HexDigit(k % 16)] + t) == Some((c, t))
  {
    var k := c as int;
    var u := ['u', '0', '0', HexDigit(k / 16), HexDigit(k % 16)] + t;
    assert u[0] == 'u' && u[1] == '0' && u[2] == '0' && u[3] == HexDigit(k / 16) && u[4] == HexDigit(k % 16);
    assert HexValue(u[3]) == k / 16 && HexValue(u[4]) == k % 16;
    assert u[5..] == t;
  }

  /** Reading a character's escape gives the character back. */
  lemma EscapeCharRoundTrip(c: char, t: string)
    ensures ParseChars(EscapeChar(c) + t) == Prepend(c, ParseChars(t))
  {
    var e := EscapeChar(c);
    var k := c as int;
    if c == '"' || c == '\\' || k == 8 || k == 12 || c == '\n' || c == '\r' || c == '\t' {
      assert e[1..] + t == [e[1]] + t;
      ParseCharsEscaped(e, c, t);
    } else if k < 0x20 {
      UnicodeEscapeRoundTrip(c, t);
      ParseCharsEscaped(e, c, t);
    } else {
      assert (e + t)[0] == c && (e + t)[1..] == t;
    }
  }

  /** Reading an escaped string literal's body gives the string back. */
  lemma {:induction false} CharsRoundTrip(s: string, rest: string)
    ensures ParseChars(Escape(s) + "\"" + rest) == Some((s, rest))
    decreases |s|
  {
    if s == [] {
      assert Escape(s) + "\"" + rest == "\"" + rest;
    } else {
      var tail := Escape(s[1..]) + "\"" + rest;
      assert Escape(s) + "\"" + rest == EscapeChar(s[0]) + tail;
      EscapeCharRoundTrip(s[0], tail);
      CharsRoundTrip(s[1..], rest);
      assert [s[0]] + s[1..] == s;
    }
  }

  /** A numeral's digit run ends where the numeral ends. */
  lemma {:induction false} DigitRunOf(ds: string, rest: string)
    requires AllDigits(ds)
    requires rest == [] || !IsDigit(rest[0])
    ensures DigitRun(ds + rest) == |ds|
    decreases |ds|
  {
    if ds == [] {
      assert ds + rest == rest;
    } else {
      assert (ds + rest)[0] == ds[0] && (ds + rest)[1..] == ds[1..] + rest;
      DigitRunOf(ds[1..], rest);
    }
  }

  /** A numeral followed by a non-digit: its digit run is the numeral, which has no
      leading zero and denotes the number. */
  lemma NumeralRun(m: nat, rest: string)
    requires rest == [] || !IsDigit(rest[0])
    ensures var ds := NatToString(m); var u := ds + rest;
      && DigitRun(u) == |ds| && |ds| > 0 && u[..|ds|] == ds && u[|ds|..] == rest
      && !(|ds| > 1 && u[0] == '0') && DigitsValue(ds) == m
  {
    var ds := NatToString(m);
    var u := ds + rest;
    DigitRunOf(ds, rest);
    assert u[..|ds|] == ds && u[|ds|..] == rest;
    assert u[0] == ds[0];
    if m == 0 {
      assert ds == [DigitChar(0)];
    }
    DigitsValueOfNatToString(m);
  }

  /** Reading a number's text gives the number back. */
  lemma NumberRoundTrip(n: int, rest: string)
    requires rest == [] || !IsDigit(rest[0])
    ensures ParseNumber(IntToString(n) + rest) == Some((Num(n), rest))
  {
    if n < 0 {
      NegativeRoundTrip(-n, rest);
      assert IntToString(n) == "-" + NatToString(-n);
    } else {
      NaturalRoundTrip(n, rest);
    }
  }

  lemma NaturalRoundTrip(m: nat, rest: string)
    requires rest == [] || !IsDigit(rest[0])
    ensures ParseNumber(NatToString(m) + rest) == Some((Num(m), rest))
  {
    var u := NatToString(m) + rest;
    NumeralRun(m, rest);
    assert u[0] != '-';
  }

  lemma NegativeRoundTrip(m: nat, rest: string)
    requires m > 0
    requires rest == [] || !IsDigit(rest[0])
    ensures ParseNumber("-" + NatToString(m) + rest) == Some((Num(-(m as int)), rest))
  {
    var ds := NatToString(m);
    var u := ds + rest;
    var s := "-" + ds + rest;
    NumeralRun(m, rest);
    assert s == "-" + u;
    assert s[0] == '-' && s[1..] == u;
    var n := DigitRun(u);
    assert n == |ds| && u[..n] == ds && u[n..] == rest;
  }

  /** The text after a value's own text: it may not continue a number. */
  predicate Follows(rest: string) {
    rest == [] || !IsDigit(rest[0])
  }

  lemma ScalarRoundTrip(v: Value, gap: nat, depth: nat, rest: string)
    requires !v.Arr? && !v.Obj?
    requires Follows(rest)
    ensures ParseValue(Stringify(v, gap, depth) + rest) == Some((v, rest))
  {
    match v
    case Null => KeywordRoundTrip("null", Null, rest);
    case Bool(b) =>
      if b {
        KeywordRoundTrip("true", v, rest);
      } else {
        KeywordRoundTrip("false", v, rest);
      }
    case Num(n) => NumberValueRoundTrip(n, rest);
    case Str(str) => StringRoundTrip(str, rest);
  }

  /** A keyword's text reads back as its value. */
  lemma KeywordRoundTrip(word: string, v: Value, rest: string)
    requires (word, v) == ("null", Null) || (word, v) == ("true", Bool(true)) || (word, v) == ("false", Bool(false))
    ensures ParseValue(word + rest) == Some((v, rest))
  {
    var s := word + rest;
    assert s[..|word|] == word && s[|word|..] == rest;
    assert s[0] == word[0];
    assert SkipWs(s) == s;
  }

  lemma NumberValueRoundTrip(n: int, rest: string)
    requires Follows(rest)
    ensures ParseValue(IntToString(n) + rest) == Some((Num(n), rest))
  {
    var s := IntToString(n) + rest;
    var m: nat := if n < 0 then -n else n;
    assert s[0] == IntToString(n)[0];
    if n >= 0 {
      assert IsDigit(NatToString(m)[0]);
    }
    assert SkipWs(s) == s;
    NumberRoundTrip(n, rest);
  }

  lemma StringRoundTrip(str: string, rest: string)
    ensures ParseValue(Quote(str) + rest) == Some((Str(str), rest))
  {
    var body := Escape(str) + "\"" + rest;
    assert Quote(str) + rest == "\"" + body;
    DropFirst("\"", body);
    CharsRoundTrip(str, rest);
    ParseValueQuote("\"" + body, str, rest);
  }

  /** A value starting with a double quote is read as a string literal. */
  lemma ParseValueQuote(s: string, str: string, rest: string)
    requires s != [] && s[0] == '"'
    requires ParseChars(s[1..]) == Some((str, rest))
    ensures ParseValue(s) == Some((Str(str), rest))
  {
    assert SkipWs(s) == s;
  }

  /** A value starting with a bracket or a brace is read as an array or an object. */
  lemma ParseValueBracket(s: string)
    requires s != [] && (s[0] == '[' || s[0] == '{')
    ensures ParseValue(s) == if s[0] == '[' then ParseArray(s[1..]) else ParseObject(s[1..])
  {
    assert SkipWs(s) == s;
  }

  /** An opening bracket, whitespace, then elements that read back. */
  lemma ArrayParse(items: seq<Value>, s: string, b: string, tail: string, rest: string)
    requires ParseItems(tail) == Some((items, rest))
    requires SkipWs(b + tail) == tail && tail != [] && tail[0] != ']'
    requires s == "[" + (b + tail)
    ensures ParseValue(s) == Some((Arr(items), rest))
  {
    assert s[0] == '[' && s[1..] == b + tail;
    ParseArrayItems(b + tail);
    ParseValueBracket(s);
  }

  /** An opening brace, whitespace, then properties that read back. */
  lemma ObjectParse(ms: seq<Member>, s: string, b: string, tail: string, rest: string)
    requires ParseMembers(tail) == Some((ms, rest))
    requires SkipWs(b + tail) == tail && tail != [] && tail[0] != '}'
    requires s == "{" + (b + tail)
    ensures ParseValue(s) == Some((Obj(ms), rest))
  {
    assert s[0] == '{' && s[1..] == b + tail;
    ParseObjectMembers(b + tail);
    ParseValueBracket(s);
  }

  /** The whitespace after an opening bracket or brace is skipped up to the first
      element or property. */
  lemma SkipToFirst(gap: nat, depth: nat, inner: string, c: char, rest: string, tail: string)
    requires inner != [] && StartsValue(inner[0])
    requires tail == inner + Break(gap, depth) + [c] + rest
    ensures SkipWs(Break(gap, depth + 1) + tail) == tail && tail != [] && tail[0] == inner[0]
  {
    BreakIsWs(gap, depth + 1);
    SkipWsPrefix(Break(gap, depth + 1), tail);
  }

  /** An array's text reads back once its elements do. */
  lemma ArrayRoundTrip(items: seq<Value>, gap: nat, depth: nat, rest: string)
    requires items != []
    requires ParseItems(StringifyItems(items, gap, depth + 1) + Break(gap, depth) + "]" + rest) == Some((items, rest))
    ensures ParseValue(Stringify(Arr(items), gap, depth) + rest) == Some((Arr(items), rest))
  {
    var inner := StringifyItems(items, gap, depth + 1);
    var b := Break(gap, depth + 1);
    var tail := inner + Break(gap, depth) + "]" + rest;
    ArrayText(items, gap, depth, rest);
    ItemsStart(items, gap, depth + 1);
    SkipToFirst(gap, depth, inner, ']', rest, tail);
    ArrayParse(items, Stringify(Arr(items), gap, depth) + rest, b, tail, rest);
  }

  /** An array's text: a bracket, a break, the elements, and the closing break and
      bracket. */
  lemma ArrayText(items: seq<Value>, gap: nat, depth: nat, rest: string)
    requires items != []
    ensures Stringify(Arr(items), gap, depth) + rest
      == "[" + (Break(gap, depth + 1) + (StringifyItems(items, gap, depth + 1) + Break(gap, depth) + "]" + rest))
  {
    var b, c, d := Break(gap, depth + 1), StringifyItems(items, gap, depth + 1), Break(gap, depth);
    assert Stringify(Arr(items), gap, depth) == "[" + b + c + d + "]";
    Regroup("[", b, c, d, "]", rest);
  }

  /** The elements' text starts like the first element's. */
  lemma ItemsStart(items: seq<Value>, gap: nat, depth: nat)
    requires items != []
    ensures var inner := StringifyItems(items, gap, depth);
      inner != [] && StartsValue(inner[0])
  {
    var first := Stringify(items[0], gap, depth);
    StringifyStart(items[0], gap, depth);
    if |items| > 1 {
      var more := "," + Break(gap, depth) + StringifyItems(items[1..], gap, depth);
      assert StringifyItems(items, gap, depth) == first + more by {
        assert first + "," + Break(gap, depth) + StringifyItems(items[1..], gap, depth) == first + more;
      }
      assert (first + more)[0] == first[0];
    }
  }

  /** An object's text: a brace, a break, the properties, and the closing break and
      brace. */
  lemma ObjectText(ms: seq<Member>, gap: nat, depth: nat, rest: string)
    requires ms != []
    ensures Stringify(Obj(ms), gap, depth) + rest
      == "{" + (Break(gap, depth + 1) + (StringifyMembers(ms, gap, depth + 1) + Break(gap, depth) + "}" + rest))
  {
    var b, c, d := Break(gap, depth + 1), StringifyMembers(ms, gap, depth + 1), Break(gap, depth);
    assert Stringify(Obj(ms), gap, depth) == "{" + b + c + d + "}";
    Regroup("{", b, c, d, "}", rest);
  }

  lemma Regroup(a: string, b: string, c: string, d: string, e: string, f: string)
    ensures a + b + c + d + e + f == a + (b + (c + d + e + f))
  {
  }

  /** The properties' text starts with the quote of the first name. */
  lemma MembersStart(ms: seq<Member>, gap: nat, depth: nat)
    requires ms != []
    ensures var inner := StringifyMembers(ms, gap, depth);
      inner != [] && inner[0] == '"'
  {
    var q := Quote(ms[0].name);
    var first := MemberText(ms[0], gap, depth);
    assert q[0] == '"';
    assert first[0] == '"';
  }

  /** An object's text reads back once its properties do. */
  lemma ObjectRoundTrip(ms: seq<Member>, gap: nat, depth: nat, rest: string)
    requires ms != []
    requires ParseMembers(StringifyMembers(ms, gap, depth + 1) + Break(gap, depth) + "}" + rest) == Some((ms, rest))
    ensures ParseValue(Stringify(Obj(ms), gap, depth) + rest) == Some((Obj(ms), rest))
  {
    var inner := StringifyMembers(ms, gap, depth + 1);
    var b := Break(gap, depth + 1);
    var tail := inner + Break(gap, depth) + "}" + rest;
    ObjectText(ms, gap, depth, rest);
    MembersStart(ms, gap, depth + 1);
    SkipToFirst(gap, depth, inner, '}', rest, tail);
    ObjectParse(ms, Stringify(Obj(ms), gap, depth) + rest, b, tail, rest);
  }

  /** Reading what `Stringify` writes gives the value back, and stops exactly where
      the value's text ends. */
  lemma {:induction false} ParseStringify(v: Value, gap: nat, depth: nat, rest: string)
    requires Follows(rest)
    ensures ParseValue(Stringify(v, gap, depth) + rest) == Some((v, rest))
    decreases v, 0
  {
    match v
    case Arr(items) =>
      if items == [] {
        var s := Stringify(v, gap, depth) + rest;
        assert s[0] == '[' && s[1..] == "]" + rest;
      } else {
        BreakIsWs(gap, depth);
        ItemsRoundTrip(items, gap, depth + 1, Break(gap, depth), rest);
        ArrayRoundTrip(items, gap, depth, rest);
      }
    case Obj(ms) =>
      if ms == [] {
        var s := Stringify(v, gap, depth) + rest;
        assert s[0] == '{' && s[1..] == "}" + rest;
      } else {
        BreakIsWs(gap, depth);
        MembersRoundTrip(ms, gap, depth + 1, Break(gap, depth), rest);
        ObjectRoundTrip(ms, gap, depth, rest);
      }
    case _ =>
      ScalarRoundTrip(v, gap, depth, rest);
  }

  /** After an element, whitespace and a closing bracket end the array. */
  lemma ItemsLast(s: string, x: Value, w: string, rest: string)
    requires AllWs(w)
    requires ParseValue(s) == Some((x, w + "]" + rest))
    ensures ParseItems(s) == Some(([x], rest))
  {
    SkipWsPrefix(w, "]" + rest);
    assert w + "]" + rest == w + ("]" + rest);
    assert SkipWs("]" + rest) == "]" + rest;
  }

  /** After an element, a comma continues the array. */
  lemma ItemsNext(s: string, x: Value, more: string)
    requires ParseValue(s) == Some((x, "," + more))
    ensures ParseItems(s) == match ParseItems(more)
                             case None => None
                             case Some((vs, rest)) => Some(([x] + vs, rest))
  {
    assert SkipWs("," + more) == "," + more;
    assert ("," + more)[1..] == more;
  }

  /** Reading what `StringifyItems` writes, followed by the closing bracket, gives the
      elements back. */
  lemma {:induction false} ItemsRoundTrip(items: seq<Value>, gap: nat, depth: nat, w: string, rest: string)
    requires items != [] && AllWs(w)
    ensures ParseItems(StringifyItems(items, gap, depth) + w + "]" + rest) == Some((items, rest))
    decreases items, 2
  {
    if |items| == 1 {
      ItemsOne(items, gap, depth, w, rest);
    } else {
      var b := Break(gap, depth);
      var next := StringifyItems(items[1..], gap, depth) + w + "]" + rest;
      assert ParseItems(b + next) == Some((items[1..], rest)) by {
        BreakIsWs(gap, depth);
        ParseValueSkipsWs(b, next);
        ItemsRoundTrip(items[1..], gap, depth, w, rest);
      }
      ItemsMore(items, gap, depth, w, rest);
    }
  }

  /** A single element and the closing bracket read back. */
  lemma ItemsOne(items: seq<Value>, gap: nat, depth: nat, w: string, rest: string)
    requires |items| == 1 && AllWs(w)
    ensures ParseItems(StringifyItems(items, gap, depth) + w + "]" + rest) == Some((items, rest))
    decreases items, 1
  {
    var first := Stringify(items[0], gap, depth);
    var close := w + "]" + rest;
    ItemsText(items, gap, depth, w, rest);
    ParseStringify(items[0], gap, depth, close);
    ItemsLast(first + close, items[0], w, rest);
    assert items == [items[0]];
  }

  /** The first element, a comma, and the other elements once they read back. */
  lemma ItemsMore(items: seq<Value>, gap: nat, depth: nat, w: string, rest: string)
    requires |items| > 1
    requires ParseItems(Break(gap, depth) + (StringifyItems(items[1..], gap, depth) + w + "]" + rest))
      == Some((items[1..], rest))
    ensures ParseItems(StringifyItems(items, gap, depth) + w + "]" + rest) == Some((items, rest))
    decreases items, 1
  {
    var more := Break(gap, depth) + (StringifyItems(items[1..], gap, depth) + w + "]" + rest);
    ItemsText(items, gap, depth, w, rest);
    ItemsStep(items[0], gap, depth, more, items[1..], rest);
    HeadTail(items);
  }

  /** An element, a comma, and elements that read back. */
  lemma ItemsStep(x: Value, gap: nat, depth: nat, more: string, xs: seq<Value>, rest: string)
    requires ParseItems(more) == Some((xs, rest))
    ensures ParseItems(Stringify(x, gap, depth) + ("," + more)) == Some(([x] + xs, rest))
    decreases x, 1
  {
    ParseStringify(x, gap, depth, "," + more);
    ItemsNext(Stringify(x, gap, depth) + ("," + more), x, more);
  }

  /** The elements' text: the first element, then either the end of the array or a
      comma, a break and the other elements. */
  lemma ItemsText(items: seq<Value>, gap: nat, depth: nat, w: string, rest: string)
    requires items != []
    ensures var first := Stringify(items[0], gap, depth);
      StringifyItems(items, gap, depth) + w + "]" + rest
      == if |items| == 1 then first + (w + "]" + rest)
         else first + ("," + (Break(gap, depth) + (StringifyItems(items[1..], gap, depth) + w + "]" + rest)))
  {
    var first := Stringify(items[0], gap, depth);
    if |items| == 1 {
      assert StringifyItems(items, gap, depth) == first;
      LastShape(first, w, "]", rest);
    } else {
      var b, others := Break(gap, depth), StringifyItems(items[1..], gap, depth);
      assert StringifyItems(items, gap, depth) == first + "," + b + others;
      NextShape(StringifyItems(items, gap, depth), first, b, others, w, "]", rest);
    }
  }

  /** A property whose name reads back: the rest is read as its value. */
  lemma MemberAfterName(name: string, u: string)
    ensures ParseMember(Quote(name) + ":" + u)
      == match ParseValue(u)
         case None => None
         case Some((v, rest)) => Some((Member(name, v), rest))
  {
    var t2 := ":" + u;
    var s := Quote(name) + ":" + u;
    assert s == "\"" + (Escape(name) + "\"" + t2);
    assert SkipWs(s) == s;
    CharsRoundTrip(name, t2);
    assert SkipWs(t2) == t2;
    assert t2[1..] == u;
  }

  /** A property's text reads back as the property. */
  lemma MemberRoundTrip(m: Member, gap: nat, depth: nat, after: string)
    requires Follows(after)
    decreases m, 0
    ensures ParseMember(MemberText(m, gap, depth) + after)
      == Some((m, after))
  {
    var sp := if gap == 0 then "" else " ";
    var text := Stringify(m.value, gap, depth);
    var u := sp + (text + after);
    assert Quote(m.name) + ":" + sp + text + after == Quote(m.name) + ":" + u;
    MemberAfterName(m.name, u);
    assert AllWs(sp);
    ParseValueSkipsWs(sp, text + after);
    ParseStringify(m.value, gap, depth, after);
  }

  /** After a property, whitespace and a closing brace end the object. */
  lemma MembersLast(s: string, m: Member, w: string, rest: string)
    requires AllWs(w)
    requires ParseMember(s) == Some((m, w + "}" + rest))
    ensures ParseMembers(s) == Some(([m], rest))
  {
    SkipWsPrefix(w, "}" + rest);
    assert w + "}" + rest == w + ("}" + rest);
    assert SkipWs("}" + rest) == "}" + rest;
  }

  /** After a property, a comma continues the object. */
  lemma MembersNext(s: string, m: Member, more: string)
    requires ParseMember(s) == Some((m, "," + more))
    ensures ParseMembers(s) == match ParseMembers(more)
                               case None => None
                               case Some((ms, rest)) => Some(([m] + ms, rest))
  {
    assert SkipWs("," + more) == "," + more;
    assert ("," + more)[1..] == more;
  }

  /** The properties' text: the first property, then either the end of the object or
      a comma, a break and the other properties. */
  lemma MembersText(ms: seq<Member>, gap: nat, depth: nat, w: string, rest: string)
    requires ms != []
    ensures var first := MemberText(ms[0], gap, depth);
      StringifyMembers(ms, gap, depth) + w + "}" + rest
      == if |ms| == 1 then first + (w + "}" + rest)
         else first + ("," + (Break(gap, depth) + (StringifyMembers(ms[1..], gap, depth) + w + "}" + rest)))
  {
    var first := MemberText(ms[0], gap, depth);
    if |ms| == 1 {
      assert StringifyMembers(ms, gap, depth) == first;
      LastShape(first, w, "}", rest);
    } else {
      var b, others := Break(gap, depth), StringifyMembers(ms[1..], gap, depth);
      assert StringifyMembers(ms, gap, depth) == first + "," + b + others;
      NextShape(StringifyMembers(ms, gap, depth), first, b, others, w, "}", rest);
    }
  }

  lemma LastShape(first: string, w: string, close: string, rest: string)
    ensures first + w + close + rest == first + (w + close + rest)
  {
  }

  lemma NextShape(all: string, first: string, b: string, others: string, w: string, close: string, rest: string)
    requires all == first + "," + b + others
    ensures all + w + close + rest == first + ("," + (b + (others + w + close + rest)))
  {
  }

  /** Reading what `StringifyMembers` writes, followed by the closing brace, gives the
      properties back. */
  lemma {:induction false} MembersRoundTrip(ms: seq<Member>, gap: nat, depth: nat, w: string, rest: string)
    requires ms != [] && AllWs(w)
    ensures ParseMembers(StringifyMembers(ms, gap, depth) + w + "}" + rest) == Some((ms, rest))
    decreases ms, 2
  {
    if |ms| == 1 {
      MembersOne(ms, gap, depth, w, rest);
    } else {
      var b := Break(gap, depth);
      var next := StringifyMembers(ms[1..], gap, depth) + w + "}" + rest;
      assert ParseMembers(b + next) == Some((ms[1..], rest)) by {
        BreakIsWs(gap, depth);
        ParseValueSkipsWs(b, next);
        MembersRoundTrip(ms[1..], gap, depth, w, rest);
      }
      MembersMore(ms, gap, depth, w, rest);
    }
  }

  /** A single property and the closing brace read back. */
  lemma MembersOne(ms: seq<Member>, gap: nat, depth: nat, w: string, rest: string)
    requires |ms| == 1 && AllWs(w)
    ensures ParseMembers(StringifyMembers(ms, gap, depth) + w + "}" + rest) == Some((ms, rest))
    decreases ms, 1
  {
    var first := MemberText(ms[0], gap, depth);
    var close := w + "}" + rest;
    MembersText(ms, gap, depth, w, rest);
    MemberRoundTrip(ms[0], gap, depth, close);
    MembersLast(first + close, ms[0], w, rest);
    assert ms == [ms[0]];
  }

  /** The first property, a comma, and the other properties once they read back. */
  lemma MembersMore(ms: seq<Member>, gap: nat, depth: nat, w: string, rest: string)
    requires |ms| > 1
    requires ParseMembers(Break(gap, depth) + (StringifyMembers(ms[1..], gap, depth) + w + "}" + rest))
      == Some((ms[1..], rest))
    ensures ParseMembers(StringifyMembers(ms, gap, depth) + w + "}" + rest) == Some((ms, rest))
    decreases ms, 1
  {
    var more := Break(gap, depth) + (StringifyMembers(ms[1..], gap, depth) + w + "}" + rest);
    MembersText(ms, gap, depth, w, rest);
    MembersStep(ms[0], gap, depth, more, ms[1..], rest);
    HeadTail(ms);
  }

  /** A property, a comma, and properties that read back. */
  lemma MembersStep(m: Member, gap: nat, depth: nat, more: string, ms: seq<Member>, rest: string)
    requires ParseMembers(more) == Some((ms, rest))
    ensures ParseMembers(MemberText(m, gap, depth) + ("," + more)) == Some(([m] + ms, rest))
    decreases m, 1
  {
    MemberRoundTrip(m, gap, depth, "," + more);
    MembersNext(MemberText(m, gap, depth) + ("," + more), m, more);
  }

  /** Distinct values have distinct JSON texts. */
  lemma ToJsonInjective(a: Value, b: Value, space: nat)
    requires ToJson(a, space) == ToJson(b, space)
    ensures a == b
  {
    assert Parse(ToJson(a, space)) == Some(a);
    assert Parse(ToJson(b, space)) == Some(b);
  }
}
