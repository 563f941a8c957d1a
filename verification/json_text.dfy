/**
  JSON as text: what `JSON.parse` reads and what `JSON.stringify` writes, with and without
  indentation (ECMA-404; sections 25.5.1 and 25.5.2 of ECMA-262), and the proof that what is written
  is read back. How a literal becomes a number is left to a parameter.
 */
module JsonText {
  import opened Wrappers
  import opened JsonValues

  /** What is left to read, after a value was read. */
  datatype Read<T> = Read(value: T, rest: string)

  // ------------------------------------------------------------------------
  // White space.
  // ------------------------------------------------------------------------

  predicate IsSpace(c: char) {
    c == ' ' || c == '\t' || c == '\n' || c == '\r'
  }

  function SkipSpace(s: string): (rest: string)
    ensures |rest| <= |s| && (rest != "" ==> !IsSpace(rest[0]))
  {
    if s != "" && IsSpace(s[0]) then SkipSpace(s[1..]) else s
  }

  predicate Blank(s: string) {
    forall c | c in s :: IsSpace(c)
  }

  lemma {:induction false} SpaceSkipped(blank: string, s: string)
    requires Blank(blank) && (s != "" ==> !IsSpace(s[0]))
    ensures SkipSpace(blank + s) == s
  {
    if blank == "" {
      assert blank + s == s;
    } else {
      assert (blank + s)[1..] == blank[1..] + s;
      SpaceSkipped(blank[1..], s);
    }
  }

  // ------------------------------------------------------------------------
  // Numbers.
  // ------------------------------------------------------------------------

  predicate IsDigit(c: char) {
    '0' <= c <= '9'
  }

  function SkipDigits(s: string): (rest: string)
    ensures |rest| <= |s|
  {
    if s != "" && IsDigit(s[0]) then SkipDigits(s[1..]) else s
  }

  function SkipInteger(s: string): (rest: Option<string>)
    ensures rest.Some? ==> |rest.value| < |s|
  {
    var t := if s != "" && s[0] == '-' then s[1..] else s;
    if t == "" || !IsDigit(t[0]) then None
    else if t[0] == '0' then Some(t[1..])
    else Some(SkipDigits(t[1..]))
  }

  function SkipFraction(s: string): (rest: string)
    ensures |rest| <= |s|
  {
    if |s| >= 2 && s[0] == '.' && IsDigit(s[1]) then SkipDigits(s[2..]) else s
  }

  /** What follows the mark of an exponent and its sign. */
  function AfterMark(s: string): (rest: string)
    requires s != ""
    ensures |rest| < |s|
  {
    if |s| > 1 && (s[1] == '+' || s[1] == '-') then s[2..] else s[1..]
  }

  function SkipExponent(s: string): (rest: string)
    ensures |rest| <= |s|
  {
    if s == "" || (s[0] != 'e' && s[0] != 'E') then s
    else
      var t := AfterMark(s);
      if t != "" && IsDigit(t[0]) then SkipDigits(t) else s
  }

  function SkipNumber(s: string): (rest: Option<string>)
    ensures rest.Some? ==> |rest.value| < |s|
  {
    var t := SkipInteger(s);
    if t.None? then None else Some(SkipExponent(SkipFraction(t.value)))
  }

  /** One number as the grammar has it, and nothing else. */
  predicate IsNumber(s: string) {
    SkipNumber(s) == Some("")
  }

  /** Nothing that could belong to a number. */
  predicate EndsNumber(s: string) {
    s == "" || !(IsDigit(s[0]) || s[0] in ".eE+-")
  }

  lemma {:induction false} DigitsThen(s: string, r: string)
    requires EndsNumber(r)
    ensures SkipDigits(s + r) == SkipDigits(s) + r
  {
    if s == "" {
      assert s + r == r;
    } else if IsDigit(s[0]) {
      assert (s + r)[1..] == s[1..] + r;
      DigitsThen(s[1..], r);
    }
  }

  lemma IntegerThen(s: string, r: string)
    requires EndsNumber(r) && SkipInteger(s).Some?
    ensures SkipInteger(s + r) == Some(SkipInteger(s).value + r)
  {
    var t := if s[0] == '-' then s[1..] else s;
    assert (s + r)[1..] == s[1..] + r && (t + r)[1..] == t[1..] + r;
    DigitsThen(t[1..], r);
  }

  lemma FractionThen(s: string, r: string)
    requires EndsNumber(r)
    ensures SkipFraction(s + r) == SkipFraction(s) + r
  {
    if s == "" {
      assert s + r == r;
    } else if |s| >= 2 {
      assert (s + r)[2..] == s[2..] + r;
      DigitsThen(s[2..], r);
    }
  }

  lemma AfterMarkThen(s: string, r: string)
    requires s != "" && EndsNumber(r)
    ensures AfterMark(s + r) == AfterMark(s) + r
  {
    assert (s + r)[1..] == s[1..] + r;
    assert |s| > 1 ==> (s + r)[2..] == s[2..] + r;
  }

  lemma ExponentThen(s: string, r: string)
    requires EndsNumber(r)
    ensures SkipExponent(s + r) == SkipExponent(s) + r
  {
    if s == "" {
      assert s + r == r;
    } else {
      AfterMarkThen(s, r);
      DigitsThen(AfterMark(s), r);
    }
  }

  /** A number is read up to its end. */
  lemma NumberThen(s: string, r: string)
    requires IsNumber(s) && EndsNumber(r)
    ensures SkipNumber(s + r) == Some(r)
  {
    IntegerThen(s, r);
    FractionThen(SkipInteger(s).value, r);
    ExponentThen(SkipFraction(SkipInteger(s).value), r);
    assert "" + r == r;
  }

  // ------------------------------------------------------------------------
  // Strings.
  // ------------------------------------------------------------------------

  const HEX := "0123456789abcdef"

  function HexDigit(c: char): (d: Option<nat>)
    ensures d.Some? ==> d.value < 16
  {
    if IsDigit(c) then Some((c - '0') as nat)
    else if 'a' <= c <= 'f' then Some((c - 'a') as nat + 10)
    else if 'A' <= c <= 'F' then Some((c - 'A') as nat + 10)
    else None
  }

  /** The code unit that four hexadecimal digits stand for. */
  function Unit(s: string): (u: Option<nat>)
    ensures u.Some? ==> |s| >= 4 && u.value < 0x1_0000
  {
    if |s| < 4 then None
    else
      var a, b, c, d := HexDigit(s[0]), HexDigit(s[1]), HexDigit(s[2]), HexDigit(s[3]);
      if a.None? || b.None? || c.None? || d.None? then None
      else Some(((a.value * 16 + b.value) * 16 + c.value) * 16 + d.value)
  }

  /** What follows a backslash. A surrogate that is not one of a pair stands for no character. */
  function Unescape(s: string): (r: Option<Read<char>>)
    ensures r.Some? ==> |r.value.rest| < |s|
  {
    if s == "" then None
    else
      match s[0]
      case '"' => Some(Read('"', s[1..]))
      case '\\' => Some(Read('\\', s[1..]))
      case '/' => Some(Read('/', s[1..]))
      case 'b' => Some(Read(8 as char, s[1..]))
      case 'f' => Some(Read(12 as char, s[1..]))
      case 'n' => Some(Read('\n', s[1..]))
      case 'r' => Some(Read('\r', s[1..]))
      case 't' => Some(Read('\t', s[1..]))
      case 'u' => Escaped(s[1..])
      case _ => None
  }

  function Escaped(s: string): (r: Option<Read<char>>)
    ensures r.Some? ==> |r.value.rest| <= |s|
  {
    var u := Unit(s);
    if u.None? then None
    else if u.value < 0xD800 || 0xE000 <= u.value then Some(Read(u.value as char, s[4..]))
    else if u.value >= 0xDC00 || |s| < 6 || s[4..6] != "\\u" then None
    else
      var low := Unit(s[6..]);
      if low.None? || !(0xDC00 <= low.value < 0xE000) then None
      else Some(Read((0x1_0000 + (u.value - 0xD800) * 0x400 + (low.value - 0xDC00)) as char, s[10..]))
  }

  /** One character of a string, escaped or not. */
  function ReadCharacter(s: string): (r: Option<Read<char>>)
    requires s != ""
    ensures r.Some? ==> |r.value.rest| < |s|
  {
    if s[0] == '\\' then Unescape(s[1..])
    else if s[0] < ' ' then None
    else Some(Read(s[0], s[1..]))
  }

  /** The rest of a string, whose opening quotation mark was read. */
  function ReadString(s: string): (r: Option<Read<string>>)
    ensures r.Some? ==> |r.value.rest| < |s|
    decreases |s|
  {
    if s == "" then None
    else if s[0] == '"' then Some(Read("", s[1..]))
    else
      var c := ReadCharacter(s);
      if c.None? then None
      else
        var more := ReadString(c.value.rest);
        if more.None? then None else Some(Read([c.value.value] + more.value.value, more.value.rest))
  }

  function Escape(c: char): string {
    if c == '"' then "\\\""
    else if c == '\\' then "\\\\"
    else if c == 8 as char then "\\b"
    else if c == 12 as char then "\\f"
    else if c == '\n' then "\\n"
    else if c == '\r' then "\\r"
    else if c == '\t' then "\\t"
    else if c < ' ' then "\\u00" + [HEX[c as nat / 16], HEX[c as nat % 16]]
    else [c]
  }

  /** The characters of a string and its closing quotation mark. */
  function Characters(s: string): string {
    if s == "" then "\"" else Escape(s[0]) + Characters(s[1..])
  }

  function Quoted(s: string): string {
    "\"" + Characters(s)
  }

  lemma HexIs(n: nat)
    requires n < 16
    ensures HexDigit(HEX[n]) == Some(n)
  {
  }

  lemma ControlRead(c: char, r: string)
    requires c < ' '
    ensures Escaped("00" + [HEX[c as nat / 16], HEX[c as nat % 16]] + r) == Some(Read(c, r))
  {
    var s := "00" + [HEX[c as nat / 16], HEX[c as nat % 16]] + r;
    HexIs(c as nat / 16);
    HexIs(c as nat % 16);
    assert s[0] == '0' && s[1] == '0' && s[2] == HEX[c as nat / 16] && s[3] == HEX[c as nat % 16];
    assert s[4..] == r;
  }

  lemma PairRead(c: char, r: string)
    requires |Escape(c)| == 2
    ensures Unescape(Escape(c)[1..] + r) == Some(Read(c, r))
  {
    assert (Escape(c)[1..] + r)[0] == Escape(c)[1] && (Escape(c)[1..] + r)[1..] == r;
  }

  lemma CharacterRead(c: char, r: string)
    ensures Escape(c)[0] != '"' && ReadCharacter(Escape(c) + r) == Some(Read(c, r))
  {
    var e := Escape(c);
    assert (e + r)[0] == e[0] && (e + r)[1..] == e[1..] + r;
    if |e| == 2 {
      PairRead(c, r);
    } else if |e| > 2 {
      ControlRead(c, r);
      assert (e[1..] + r)[0] == 'u';
      assert (e[1..] + r)[1..] == "00" + [HEX[c as nat / 16], HEX[c as nat % 16]] + r;
    } else {
      assert e[1..] + r == r;
    }
  }

  lemma OneMoreRead(c: char, more: string, s: string, r: string)
    requires ReadString(more) == Some(Read(s, r))
    ensures ReadString(Escape(c) + more) == Some(Read([c] + s, r))
  {
    CharacterRead(c, more);
  }

  lemma {:induction false} CharactersRead(s: string, r: string)
    ensures ReadString(Characters(s) + r) == Some(Read(s, r))
  {
    if s == "" {
      assert (Characters(s) + r)[1..] == r;
    } else {
      CharactersRead(s[1..], r);
      OneMoreRead(s[0], Characters(s[1..]) + r, s[1..], r);
      Assoc(Escape(s[0]), Characters(s[1..]), r);
      assert s == [s[0]] + s[1..];
    }
  }

  // ------------------------------------------------------------------------
  // Reading values.
  // ------------------------------------------------------------------------

  /** A number at the start of a text; `number` gives the text of the number nearest to a literal. */
  function ReadNumber(s: string, number: string -> string): (r: Option<Read<Json>>)
    ensures r.Some? ==> |r.value.rest| < |s|
  {
    var rest := SkipNumber(s);
    if rest.None? then None else Some(Read(Number(number(s[..|s| - |rest.value|])), rest.value))
  }

  /** A value at the start of a text. */
  function ReadValue(s: string, number: string -> string): (r: Option<Read<Json>>)
    ensures r.Some? ==> |r.value.rest| < |s|
    decreases |s|, 0
  {
    if s == "" then None
    else
      match s[0]
      case 'n' => if "null" <= s then Some(Read(Null, s[4..])) else None
      case 't' => if "true" <= s then Some(Read(Bool(true), s[4..])) else None
      case 'f' => if "false" <= s then Some(Read(Bool(false), s[5..])) else None
      case '"' =>
        var text := ReadString(s[1..]);
        if text.None? then None else Some(Read(Str(text.value.value), text.value.rest))
      case '[' =>
        var t := SkipSpace(s[1..]);
        if t != "" && t[0] == ']' then Some(Read(Array([]), t[1..]))
        else
          var items := ReadItems(t, number);
          if items.None? then None else Some(Read(Array(items.value.value), items.value.rest))
      case '{' =>
        var t := SkipSpace(s[1..]);
        if t != "" && t[0] == '}' then Some(Read(Obj([]), t[1..]))
        else
          var fields := ReadFields(t, [], number);
          if fields.None? then None else Some(Read(Obj(fields.value.value), fields.value.rest))
      case _ => ReadNumber(s, number)
  }

  /** The items of an array up to its closing bracket. */
  function ReadItems(s: string, number: string -> string): (r: Option<Read<seq<Json>>>)
    ensures r.Some? ==> |r.value.rest| < |s|
    decreases |s|, 1
  {
    var first := ReadValue(s, number);
    if first.None? then None
    else
      var t := SkipSpace(first.value.rest);
      if t == "" then None
      else if t[0] == ']' then Some(Read([first.value.value], t[1..]))
      else if t[0] != ',' then None
      else
        var more := ReadItems(SkipSpace(t[1..]), number);
        if more.None? then None else Some(Read([first.value.value] + more.value.value, more.value.rest))
  }

  /** A key, a colon and a value. */
  function ReadField(s: string, number: string -> string): (r: Option<Read<Field>>)
    ensures r.Some? ==> |r.value.rest| < |s|
    decreases |s|, 1
  {
    if s == "" || s[0] != '"' then None
    else
      var key := ReadString(s[1..]);
      if key.None? then None
      else
        var colon := SkipSpace(key.value.rest);
        if colon == "" || colon[0] != ':' then None
        else
          var v := ReadValue(SkipSpace(colon[1..]), number);
          if v.None? then None else Some(Read(Field(key.value.value, v.value.value), v.value.rest))
  }

  /** The fields of an object up to its closing brace; of a key that comes twice the last value stays. */
  function ReadFields(s: string, before: Fields, number: string -> string): (r: Option<Read<Fields>>)
    ensures r.Some? ==> |r.value.rest| < |s|
    decreases |s|, 2
  {
    var f := ReadField(s, number);
    if f.None? then None
    else
      var fields := Set(before, f.value.value.key, f.value.value.value);
      var t := SkipSpace(f.value.rest);
      if t == "" then None
      else if t[0] == '}' then Some(Read(fields, t[1..]))
      else if t[0] != ',' then None
      else ReadFields(SkipSpace(t[1..]), fields, number)
  }

  lemma OpenedString(s: string, number: string -> string, text: string, r: string)
    requires s != "" && s[0] == '"' && ReadString(s[1..]) == Some(Read(text, r))
    ensures ReadValue(s, number) == Some(Read(Str(text), r))
  {
  }

  lemma NumberAt(s: string, number: string -> string)
    requires s != "" && (IsDigit(s[0]) || s[0] == '-')
    ensures ReadValue(s, number) == ReadNumber(s, number)
  {
  }

  lemma LastItem(s: string, number: string -> string, first: Json, after: string, r: string)
    requires ReadValue(s, number) == Some(Read(first, after))
    requires SkipSpace(after) != "" && SkipSpace(after)[0] == ']' && SkipSpace(after)[1..] == r
    ensures ReadItems(s, number) == Some(Read([first], r))
  {
  }

  lemma NextItem(s: string, number: string -> string, first: Json, after: string, rest: string, more: seq<Json>, r: string)
    requires ReadValue(s, number) == Some(Read(first, after))
    requires SkipSpace(after) != "" && SkipSpace(after)[0] == ',' && SkipSpace(after)[1..] == rest
    requires ReadItems(SkipSpace(rest), number) == Some(Read(more, r))
    ensures ReadItems(s, number) == Some(Read([first] + more, r))
  {
  }

  lemma BracketedItems(s: string, number: string -> string, items: seq<Json>, r: string)
    requires s != "" && s[0] == '[' && SkipSpace(s[1..]) != "" && SkipSpace(s[1..])[0] != ']'
    requires ReadItems(SkipSpace(s[1..]), number) == Some(Read(items, r))
    ensures ReadValue(s, number) == Some(Read(Array(items), r))
  {
  }

  lemma LastField(s: string, before: Fields, number: string -> string, f: Field, after: string, r: string)
    requires ReadField(s, number) == Some(Read(f, after))
    requires SkipSpace(after) != "" && SkipSpace(after)[0] == '}' && SkipSpace(after)[1..] == r
    ensures ReadFields(s, before, number) == Some(Read(Set(before, f.key, f.value), r))
  {
  }

  lemma NextField(s: string, before: Fields, number: string -> string, f: Field, after: string, rest: string, r: Read<Fields>)
    requires ReadField(s, number) == Some(Read(f, after))
    requires SkipSpace(after) != "" && SkipSpace(after)[0] == ',' && SkipSpace(after)[1..] == rest
    requires ReadFields(SkipSpace(rest), Set(before, f.key, f.value), number) == Some(r)
    ensures ReadFields(s, before, number) == Some(r)
  {
  }

  lemma BracedFields(s: string, number: string -> string, fs: Fields, r: string)
    requires s != "" && s[0] == '{' && SkipSpace(s[1..]) != "" && SkipSpace(s[1..])[0] != '}'
    requires ReadFields(SkipSpace(s[1..]), [], number) == Some(Read(fs, r))
    ensures ReadValue(s, number) == Some(Read(Obj(fs), r))
  {
  }

  /** `JSON.parse` */
  function Parse(text: string, number: string -> string): Option<Json> {
    var r := ReadValue(SkipSpace(text), number);
    if r.Some? && SkipSpace(r.value.rest) == "" then Some(r.value.value) else None
  }

  // ------------------------------------------------------------------------
  // Writing values.
  // ------------------------------------------------------------------------

  /** How a value is laid out: the indentation of each level, and which numbers are finite. */
  datatype Style = Style(gap: string, finite: string -> bool)

  function Break(style: Style, indent: string): string {
    if style.gap == "" then "" else "\n" + indent
  }

  function Colon(style: Style): string {
    if style.gap == "" then ":" else ": "
  }

  function Write(v: Json, style: Style, indent: string): string
    decreases v, 0
  {
    match v
    case Null => "null"
    case Bool(b) => if b then "true" else "false"
    case Number(text) => if style.finite(text) then text else "null"
    case Str(s) => Quoted(s)
    case Array(items) => if items == [] then "[]" else "[" + WriteItems(items, style, indent)
    case Obj(fs) => if fs == [] then "{}" else "{" + WriteFields(fs, style, indent)
  }

  /** The items of an array in one level, and its closing bracket. */
  function WriteItems(items: seq<Json>, style: Style, indent: string): string
    requires items != []
    decreases items, 1
  {
    Break(style, indent + style.gap) + (Write(items[0], style, indent + style.gap) +
      (if |items| == 1 then Break(style, indent) + "]" else "," + WriteItems(items[1..], style, indent)))
  }

  function WriteFields(fs: Fields, style: Style, indent: string): string
    requires fs != []
    decreases fs, 1
  {
    Break(style, indent + style.gap) + (Quoted(fs[0].key) + (Colon(style) + (Write(fs[0].value, style, indent + style.gap) +
      (if |fs| == 1 then Break(style, indent) + "}" else "," + WriteFields(fs[1..], style, indent)))))
  }

  /** `JSON.stringify(value)` */
  function Compact(v: Json, finite: string -> bool): string {
    Write(v, Style("", finite), "")
  }

  /** `JSON.stringify(value, null, '\t') + '\n'` */
  function Pretty(v: Json, finite: string -> bool): string {
    Write(v, Style("\t", finite), "") + "\n"
  }

  // ------------------------------------------------------------------------
  // What is written is read back.
  // ------------------------------------------------------------------------

  /** A style that indents by white space, and whose finite numbers are read as what is written for them. */
  ghost predicate Sound(style: Style, number: string -> string) {
    Blank(style.gap) && Faithful(number, style.finite)
  }

  /**
    Converting a finite number to a string gives a literal that is read as that number, as section
    6.1.6.1.20 of ECMA-262 (Number::toString) has it.
   */
  ghost predicate Faithful(number: string -> string, finite: string -> bool) {
    forall text | finite(text) :: IsNumber(text) && number(text) == text
  }

  /** The first character of a value is its own, and what is written is no end of an array. */
  lemma WriteStarts(v: Json, style: Style, indent: string, number: string -> string)
    requires Sound(style, number)
    ensures var s := Write(v, style, indent); s != "" && !IsSpace(s[0]) && s[0] != ']'
  {
  }

  lemma BreakBlank(style: Style, indent: string)
    requires Blank(style.gap) && Blank(indent)
    ensures Blank(Break(style, indent)) && Blank(indent + style.gap)
  {
  }

  /** Any value, wherever it stands. */
  lemma {:induction false} ValueRead(v: Json, style: Style, indent: string, number: string -> string, r: string)
    requires Proper(v) && Sound(style, number) && Blank(indent) && EndsNumber(r)
    ensures ReadValue(Write(v, style, indent) + r, number) == Some(Read(Finite(v, style.finite), r))
    decreases v, 0
  {
    match v
    case Null => WordRead("null", Null, number, r);
    case Bool(b) => WordRead(if b then "true" else "false", v, number, r);
    case Number(text) => NumberRead(text, style, indent, number, r);
    case Str(text) => StringRead(text, number, r);
    case Array(items) => ArrayRead(items, style, indent, number, r);
    case Obj(fs) => ObjectRead(fs, style, indent, number, r);
  }

  lemma WordRead(word: string, v: Json, number: string -> string, r: string)
    requires (word, v) in [("null", Null), ("true", Bool(true)), ("false", Bool(false))]
    ensures ReadValue(word + r, number) == Some(Read(v, r))
  {
    assert word <= word + r && (word + r)[|word|..] == r && (word + r)[0] == word[0];
  }

  lemma QuoteOff(x: string, r: string)
    ensures var s := ("\"" + x) + r; s != "" && s[0] == '"' && s[1..] == x + r
  {
  }

  lemma QuotedRead(text: string, r: string)
    ensures var s := Quoted(text) + r; s != "" && s[0] == '"' && ReadString(s[1..]) == Some(Read(text, r))
  {
    CharactersRead(text, r);
    QuoteOff(Characters(text), r);
  }

  lemma StringRead(text: string, number: string -> string, r: string)
    ensures ReadValue(Quoted(text) + r, number) == Some(Read(Str(text), r))
  {
    QuotedRead(text, r);
    OpenedString(Quoted(text) + r, number, text, r);
  }

  lemma NumberRead(text: string, style: Style, indent: string, number: string -> string, r: string)
    requires Sound(style, number) && EndsNumber(r)
    ensures ReadValue(Write(Number(text), style, indent) + r, number) == Some(Read(Finite(Number(text), style.finite), r))
  {
    if style.finite(text) {
      NumberThen(text, r);
      assert (text + r)[0] == text[0] && (text + r)[..|text + r| - |r|] == text;
      NumberAt(text + r, number);
    } else {
      WordRead("null", Null, number, r);
    }
  }

  /** What stands between an item and the next, or the end of the list. */
  function AfterItem(items: seq<Json>, style: Style, indent: string): string
    requires items != []
  {
    if |items| == 1 then Break(style, indent) + "]" else "," + WriteItems(items[1..], style, indent)
  }

  /** What follows an item is no part of a number, and `more` follows a comma, or `r` the closing bracket. */
  lemma ItemEnds(items: seq<Json>, style: Style, indent: string, r: string)
    requires items != [] && Blank(indent)
    ensures var after := AfterItem(items, style, indent) + r;
            && EndsNumber(after) && SkipSpace(after) != ""
            && if |items| == 1 then SkipSpace(after)[0] == ']' && SkipSpace(after)[1..] == r
               else SkipSpace(after)[0] == ',' && SkipSpace(after)[1..] == WriteItems(items[1..], style, indent) + r
  {
    if |items| == 1 {
      Assoc(Break(style, indent), "]", r);
      SpaceSkipped(Break(style, indent), "]" + r);
    } else {
      Assoc(",", WriteItems(items[1..], style, indent), r);
    }
  }

  lemma ItemStarts(items: seq<Json>, style: Style, indent: string, number: string -> string, r: string)
    requires items != [] && Sound(style, number) && Blank(indent)
    ensures var s := SkipSpace(WriteItems(items, style, indent) + r);
            && s == Write(items[0], style, indent + style.gap) + (AfterItem(items, style, indent) + r)
            && s != "" && s[0] != ']'
  {
    var w, after := Write(items[0], style, indent + style.gap), AfterItem(items, style, indent);
    WriteStarts(items[0], style, indent + style.gap, number);
    Assoc(Break(style, indent + style.gap), w + after, r);
    Assoc(w, after, r);
    SpaceSkipped(Break(style, indent + style.gap), w + (after + r));
  }

  lemma {:induction false} ItemsRead(items: seq<Json>, style: Style, indent: string, number: string -> string, r: string)
    requires items != [] && Proper(Array(items)) && Sound(style, number) && Blank(indent)
    ensures ReadItems(SkipSpace(WriteItems(items, style, indent) + r), number) ==
            Some(Read(FiniteItems(items, style.finite), r))
    decreases items, 1
  {
    var s, after := SkipSpace(WriteItems(items, style, indent) + r), AfterItem(items, style, indent) + r;
    var first, rest := Finite(items[0], style.finite), items[1..];
    ItemStarts(items, style, indent, number, r);
    ItemEnds(items, style, indent, r);
    ValueRead(items[0], style, indent + style.gap, number, after);
    assert FiniteItems(items, style.finite) == [first] + FiniteItems(rest, style.finite);
    if rest == [] {
      assert FiniteItems(items, style.finite) == [first];
      LastItem(s, number, first, after, r);
    } else {
      ItemsRead(rest, style, indent, number, r);
      NextItem(s, number, first, after, WriteItems(rest, style, indent) + r, FiniteItems(rest, style.finite), r);
    }
  }

  lemma {:induction false} ArrayRead(items: seq<Json>, style: Style, indent: string, number: string -> string, r: string)
    requires Proper(Array(items)) && Sound(style, number) && Blank(indent)
    ensures ReadValue(Write(Array(items), style, indent) + r, number) == Some(Read(Array(FiniteItems(items, style.finite)), r))
    decreases items, 2
  {
    var s := Write(Array(items), style, indent) + r;
    if items == [] {
      assert s[1..] == "]" + r && SkipSpace(s[1..]) == s[1..] && s[1..][1..] == r;
      assert FiniteItems(items, style.finite) == [];
    } else {
      assert s[1..] == WriteItems(items, style, indent) + r;
      ItemStarts(items, style, indent, number, r);
      ItemsRead(items, style, indent, number, r);
      BracketedItems(s, number, FiniteItems(items, style.finite), r);
    }
  }

  function AfterField(fs: Fields, style: Style, indent: string): string
    requires fs != []
  {
    if |fs| == 1 then Break(style, indent) + "}" else "," + WriteFields(fs[1..], style, indent)
  }

  lemma FieldEnds(fs: Fields, style: Style, indent: string, r: string)
    requires fs != [] && Blank(indent)
    ensures var after := AfterField(fs, style, indent) + r;
            && EndsNumber(after) && SkipSpace(after) != ""
            && if |fs| == 1 then SkipSpace(after)[0] == '}' && SkipSpace(after)[1..] == r
               else SkipSpace(after)[0] == ',' && SkipSpace(after)[1..] == WriteFields(fs[1..], style, indent) + r
  {
    if |fs| == 1 {
      Assoc(Break(style, indent), "}", r);
      SpaceSkipped(Break(style, indent), "}" + r);
    } else {
      Assoc(",", WriteFields(fs[1..], style, indent), r);
    }
  }

  /** The value of a field, and what follows it. */
  function FieldValue(fs: Fields, style: Style, indent: string, r: string): string
    requires fs != []
  {
    Write(fs[0].value, style, indent + style.gap) + (AfterField(fs, style, indent) + r)
  }

  lemma FieldStarts(fs: Fields, style: Style, indent: string, number: string -> string, r: string)
    requires fs != [] && Sound(style, number) && Blank(indent)
    ensures SkipSpace(WriteFields(fs, style, indent) + r) ==
            Quoted(fs[0].key) + (Colon(style) + FieldValue(fs, style, indent, r))
  {
    var key, colon, w := Quoted(fs[0].key), Colon(style), Write(fs[0].value, style, indent + style.gap);
    var after := AfterField(fs, style, indent);
    Assoc(Break(style, indent + style.gap), key + (colon + (w + after)), r);
    Assoc(key, colon + (w + after), r);
    Assoc(colon, w + after, r);
    Assoc(w, after, r);
    SpaceSkipped(Break(style, indent + style.gap), key + (colon + (w + (after + r))));
  }

  lemma ColonRead(style: Style, v: string)
    requires v != "" && !IsSpace(v[0])
    ensures var s := SkipSpace(Colon(style) + v); s != "" && s[0] == ':' && SkipSpace(s[1..]) == v
  {
    var blank := Colon(style)[1..];
    assert (Colon(style) + v)[1..] == blank + v;
    SpaceSkipped(blank, v);
  }

  /** A field is read when its value is. */
  lemma FieldRead(key: string, style: Style, v: string, number: string -> string, value: Json, after: string)
    requires v != "" && !IsSpace(v[0]) && ReadValue(v, number) == Some(Read(value, after))
    ensures ReadField(Quoted(key) + (Colon(style) + v), number) == Some(Read(Field(key, value), after))
  {
    QuotedRead(key, Colon(style) + v);
    ColonRead(style, v);
  }

  lemma FieldHead(fs: Fields, style: Style, indent: string, number: string -> string, r: string, value: Json, after: string)
    requires fs != [] && Sound(style, number) && Blank(indent)
    requires ReadValue(FieldValue(fs, style, indent, r), number) == Some(Read(value, after))
    ensures ReadField(SkipSpace(WriteFields(fs, style, indent) + r), number) == Some(Read(Field(fs[0].key, value), after))
  {
    FieldStarts(fs, style, indent, number, r);
    WriteStarts(fs[0].value, style, indent + style.gap, number);
    FieldRead(fs[0].key, style, FieldValue(fs, style, indent, r), number, value, after);
  }

  lemma FieldAdded(before: Fields, fs: Fields, finite: string -> bool)
    requires fs != [] && DistinctKeys(before + fs)
    ensures var next := Set(before, fs[0].key, Finite(fs[0].value, finite));
            && next == before + [Field(fs[0].key, Finite(fs[0].value, finite))]
            && DistinctKeys(next + fs[1..])
            && before + FiniteFields(fs, finite) == next + FiniteFields(fs[1..], finite)
  {
    forall k | 0 <= k < |before|
      ensures before[k].key != fs[0].key
    {
      assert (before + fs)[k] == before[k] && (before + fs)[|before|] == fs[0];
    }
    FirstIndex(before, fs[0].key, |before|);
    var next := before + [Field(fs[0].key, Finite(fs[0].value, finite))];
    assert forall k :: 0 <= k < |before + fs| ==> (next + fs[1..])[k].key == (before + fs)[k].key;
  }

  lemma {:induction false} FieldsRead(fs: Fields, before: Fields, style: Style, indent: string, number: string -> string, r: string)
    requires fs != [] && DistinctKeys(before + fs) && (forall f | f in fs :: Proper(f.value))
    requires Sound(style, number) && Blank(indent)
    ensures ReadFields(SkipSpace(WriteFields(fs, style, indent) + r), before, number) ==
            Some(Read(before + FiniteFields(fs, style.finite), r))
    decreases fs, 1
  {
    var s, after := SkipSpace(WriteFields(fs, style, indent) + r), AfterField(fs, style, indent) + r;
    var f, rest := Field(fs[0].key, Finite(fs[0].value, style.finite)), fs[1..];
    FieldEnds(fs, style, indent, r);
    ValueRead(fs[0].value, style, indent + style.gap, number, after);
    FieldHead(fs, style, indent, number, r, f.value, after);
    FieldAdded(before, fs, style.finite);
    if rest == [] {
      assert before + FiniteFields(fs, style.finite) == Set(before, f.key, f.value);
      LastField(s, before, number, f, after, r);
    } else {
      var next := Set(before, f.key, f.value);
      FieldsRead(rest, next, style, indent, number, r);
      NextField(s, before, number, f, after, WriteFields(rest, style, indent) + r,
                Read(next + FiniteFields(rest, style.finite), r));
    }
  }

  lemma EmptyObjectRead(number: string -> string, r: string)
    ensures ReadValue("{}" + r, number) == Some(Read(Obj([]), r))
  {
    var s := "{}" + r;
    assert s[1..] == "}" + r && s[1..][1..] == r;
  }

  lemma BraceOff(x: string, r: string)
    ensures var s := ("{" + x) + r; s != "" && s[0] == '{' && s[1..] == x + r
  {
  }

  lemma FieldsInObject(fs: Fields, style: Style, indent: string, number: string -> string, r: string, read: Fields)
    requires fs != [] && Sound(style, number) && Blank(indent)
    requires ReadFields(SkipSpace(WriteFields(fs, style, indent) + r), [], number) == Some(Read(read, r))
    ensures ReadValue(("{" + WriteFields(fs, style, indent)) + r, number) == Some(Read(Obj(read), r))
  {
    BraceOff(WriteFields(fs, style, indent), r);
    FieldStarts(fs, style, indent, number, r);
    BracedFields(("{" + WriteFields(fs, style, indent)) + r, number, read, r);
  }

  lemma {:induction false} ObjectRead(fs: Fields, style: Style, indent: string, number: string -> string, r: string)
    requires Proper(Obj(fs)) && Sound(style, number) && Blank(indent)
    ensures ReadValue(Write(Obj(fs), style, indent) + r, number) == Some(Read(Obj(FiniteFields(fs, style.finite)), r))
    decreases fs, 2
  {
    if fs == [] {
      EmptyObjectRead(number, r);
      assert FiniteFields(fs, style.finite) == [];
    } else {
      assert [] + fs == fs && [] + FiniteFields(fs, style.finite) == FiniteFields(fs, style.finite);
      FieldsRead(fs, [], style, indent, number, r);
      FieldsInObject(fs, style, indent, number, r, FiniteFields(fs, style.finite));
    }
  }

  // ------------------------------------------------------------------------
  // Numbers that are not finite.
  // ------------------------------------------------------------------------

  lemma {:induction false} FiniteWritten(v: Json, style: Style, indent: string)
    ensures Write(Finite(v, style.finite), style, indent) == Write(v, style, indent)
    decreases v, 0
  {
    match v
    case Array(items) =>
      if items != [] {
        FiniteItemsWritten(items, style, indent);
      }
    case Obj(fs) =>
      if fs != [] {
        FiniteFieldsWritten(fs, style, indent);
      }
    case _ =>
  }

  lemma {:induction false} FiniteItemsWritten(items: seq<Json>, style: Style, indent: string)
    requires items != []
    ensures WriteItems(FiniteItems(items, style.finite), style, indent) == WriteItems(items, style, indent)
    decreases items, 1
  {
    FiniteWritten(items[0], style, indent + style.gap);
    assert FiniteItems(items, style.finite)[1..] == FiniteItems(items[1..], style.finite);
    if |items| > 1 {
      FiniteItemsWritten(items[1..], style, indent);
    }
  }

  lemma {:induction false} FiniteFieldsWritten(fs: Fields, style: Style, indent: string)
    requires fs != []
    ensures WriteFields(FiniteFields(fs, style.finite), style, indent) == WriteFields(fs, style, indent)
    decreases fs, 1
  {
    FiniteWritten(fs[0].value, style, indent + style.gap);
    assert FiniteFields(fs, style.finite)[1..] == FiniteFields(fs[1..], style.finite);
    if |fs| > 1 {
      FiniteFieldsWritten(fs[1..], style, indent);
    }
  }

  // ------------------------------------------------------------------------
  // What is read names no key twice.
  // ------------------------------------------------------------------------

  lemma {:induction false} ValueProper(s: string, number: string -> string)
    ensures var r := ReadValue(s, number); r.Some? ==> Proper(r.value.value)
    decreases |s|, 0
  {
    if s != "" && s[0] == '[' {
      ItemsProper(SkipSpace(s[1..]), number);
    } else if s != "" && s[0] == '{' {
      FieldsProper(SkipSpace(s[1..]), [], number);
    }
  }

  lemma {:induction false} ItemsProper(s: string, number: string -> string)
    ensures var r := ReadItems(s, number); r.Some? ==> forall v | v in r.value.value :: Proper(v)
    decreases |s|, 1
  {
    var first := ReadValue(s, number);
    if first.Some? {
      ValueProper(s, number);
      var t := SkipSpace(first.value.rest);
      if t != "" {
        ItemsProper(SkipSpace(t[1..]), number);
      }
    }
  }

  lemma {:induction false} FieldProper(s: string, number: string -> string)
    ensures var r := ReadField(s, number); r.Some? ==> Proper(r.value.value.value)
    decreases |s|, 1
  {
    if s != "" && s[0] == '"' && ReadString(s[1..]).Some? {
      var colon := SkipSpace(ReadString(s[1..]).value.rest);
      if colon != "" {
        ValueProper(SkipSpace(colon[1..]), number);
      }
    }
  }

  lemma {:induction false} FieldsProper(s: string, before: Fields, number: string -> string)
    requires ProperFields(before)
    ensures var r := ReadFields(s, before, number); r.Some? ==> ProperFields(r.value.value)
    decreases |s|, 2
  {
    var f := ReadField(s, number);
    if f.Some? {
      FieldProper(s, number);
      SetProper(before, f.value.value.key, f.value.value.value);
      var t := SkipSpace(f.value.rest);
      if t != "" {
        FieldsProper(SkipSpace(t[1..]), Set(before, f.value.value.key, f.value.value.value), number);
      }
    }
  }

  /** A text that was written is parsed as the value it was written for. */
  lemma WrittenIsRead(v: Json, style: Style, number: string -> string, end: string)
    requires Proper(v) && Sound(style, number) && (end == "" || end == "\n")
    ensures Parse(Write(v, style, "") + end, number) == Some(Finite(v, style.finite))
  {
    var s := Write(v, style, "") + end;
    WriteStarts(v, style, "", number);
    assert s[0] == Write(v, style, "")[0] && SkipSpace(s) == s;
    ValueRead(v, style, "", number, end);
    SpaceSkipped(end, "");
    assert end + "" == end;
  }
}
