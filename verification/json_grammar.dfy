/**
  The grammar of JSON (ECMA-404, sections 5 to 9), as trees that say how each value is spelled and
  spaced, and the proof that the reader of `JsonText` reads exactly the texts of the grammar, each as
  what it stands for.
 */
module JsonGrammar {
  import opened Wrappers
  import opened JsonValues
  import opened JsonText

  // ------------------------------------------------------------------------
  // Texts of the grammar. `r` is what follows.
  // ------------------------------------------------------------------------

  datatype Hex = Hex(n: nat, upper: bool)

  /** How one character of a string is spelled. */
  datatype Spelling =
    | Plain
    | Short(letter: char)
    | Unit(code: seq<Hex>)
    | Pair(high: seq<Hex>, low: seq<Hex>)

  datatype Letter = Letter(c: char, spelling: Spelling)

  predicate FourDigits(code: seq<Hex>) {
    |code| == 4 && forall i :: 0 <= i < 4 ==> code[i].n < 16
  }

  function CodeUnit(code: seq<Hex>): nat
    requires FourDigits(code)
  {
    code[0].n * 0x1000 + code[1].n * 0x100 + code[2].n * 0x10 + code[3].n
  }

  /** Characters beyond the first plane are pairs of surrogates. */
  predicate Spelled(l: Letter) {
    var n := l.c as int;
    match l.spelling
    case Plain => l.c >= ' ' && l.c != '"' && l.c != '\\'
    case Short(letter) =>
      (letter, n) in [('"', 0x22), ('\\', 0x5c), ('/', 0x2f), ('b', 0x08), ('f', 0x0c), ('n', 0x0a), ('r', 0x0d), ('t', 0x09)]
    case Unit(code) => FourDigits(code) && CodeUnit(code) == n
    case Pair(high, low) =>
      && FourDigits(high) && FourDigits(low) && n >= 0x1_0000
      && CodeUnit(high) == 0xD800 + (n - 0x1_0000) / 0x400 && CodeUnit(low) == 0xDC00 + (n - 0x1_0000) % 0x400
  }

  predicate AllSpelled(ls: seq<Letter>) {
    forall i :: 0 <= i < |ls| ==> Spelled(ls[i])
  }

  function Digit(h: Hex): char
    requires h.n < 16
  {
    if h.upper then "0123456789ABCDEF"[h.n] else "0123456789abcdef"[h.n]
  }

  function CodeThen(code: seq<Hex>, r: string): string
    requires FourDigits(code)
  {
    [Digit(code[0]), Digit(code[1]), Digit(code[2]), Digit(code[3])] + r
  }

  function LetterThen(l: Letter, r: string): string
    requires Spelled(l)
  {
    match l.spelling
    case Plain => [l.c] + r
    case Short(letter) => ['\\', letter] + r
    case Unit(code) => "\\u" + CodeThen(code, r)
    case Pair(high, low) => "\\u" + CodeThen(high, "\\u" + CodeThen(low, r))
  }

  function LettersThen(ls: seq<Letter>, r: string): string
    requires AllSpelled(ls)
  {
    if ls == [] then r else LetterThen(ls[0], LettersThen(ls[1..], r))
  }

  function Chars(ls: seq<Letter>): (s: string) {
    if ls == [] then "" else [ls[0].c] + Chars(ls[1..])
  }

  predicate Figures(s: string) {
    s != "" && AllFigures(s)
  }

  predicate AllFigures(s: string) {
    forall i :: 0 <= i < |s| ==> '0' <= s[i] <= '9'
  }

  datatype Numeral = Numeral(minus: bool, whole: string, fraction: Option<string>, exponent: Option<Exponent>)

  datatype Exponent = Exponent(mark: char, sign: string, figures: string)

  predicate GoodNumeral(n: Numeral) {
    && Figures(n.whole) && (n.whole[0] == '0' ==> n.whole == "0")
    && (n.fraction.Some? ==> Figures(n.fraction.value))
    && (n.exponent.Some? ==>
          n.exponent.value.mark in "eE" && n.exponent.value.sign in ["", "+", "-"] && Figures(n.exponent.value.figures))
  }

  function ExponentText(e: Option<Exponent>): string {
    if e.None? then "" else [e.value.mark] + (e.value.sign + e.value.figures)
  }

  function FractionText(f: Option<string>): string {
    if f.None? then "" else "." + f.value
  }

  function NumeralText(n: Numeral): string {
    (if n.minus then "-" else "") + (n.whole + (FractionText(n.fraction) + ExponentText(n.exponent)))
  }

  datatype Doc =
    | Word(v: Json)
    | Figure(n: Numeral)
    | Quote(letters: seq<Letter>)
    | List(blank: string, slots: seq<Slot>)
    | Record(blank: string, entries: seq<Entry>)

  /** A value between white space. */
  datatype Slot = Slot(before: string, doc: Doc, after: string)

  datatype Entry = Entry(before: string, key: seq<Letter>, gap: string, slot: Slot)

  predicate Good(d: Doc) {
    match d
    case Word(v) => v == Null || v.Bool?
    case Figure(n) => GoodNumeral(n)
    case Quote(ls) => AllSpelled(ls)
    case List(blank, slots) => Blank(blank) && GoodSlots(slots)
    case Record(blank, entries) => Blank(blank) && GoodEntries(entries)
  }

  predicate GoodSlots(slots: seq<Slot>) {
    forall i :: 0 <= i < |slots| ==> GoodSlot(slots[i])
  }

  predicate GoodEntries(entries: seq<Entry>) {
    forall i :: 0 <= i < |entries| ==> GoodEntry(entries[i])
  }

  predicate GoodSlot(s: Slot) {
    Blank(s.before) && Blank(s.after) && Good(s.doc)
  }

  predicate GoodEntry(e: Entry) {
    Blank(e.before) && Blank(e.gap) && AllSpelled(e.key) && GoodSlot(e.slot)
  }

  function DocThen(d: Doc, r: string): string
    requires Good(d)
  {
    match d
    case Word(v) => (if v == Null then "null" else if v == Bool(true) then "true" else "false") + r
    case Figure(n) => NumeralText(n) + r
    case Quote(ls) => "\"" + LettersThen(ls, "\"" + r)
    case List(blank, slots) => "[" + if slots == [] then blank + ("]" + r) else SlotsThen(slots, "]" + r)
    case Record(blank, entries) => "{" + if entries == [] then blank + ("}" + r) else EntriesThen(entries, "}" + r)
  }

  function SlotThen(s: Slot, r: string): string
    requires GoodSlot(s)
  {
    s.before + DocThen(s.doc, s.after + r)
  }

  function SlotsThen(slots: seq<Slot>, r: string): string
    requires slots != [] && GoodSlots(slots)
  {
    SlotThen(slots[0], if |slots| == 1 then r else "," + SlotsThen(slots[1..], r))
  }

  function EntryThen(e: Entry, r: string): string
    requires GoodEntry(e)
  {
    e.before + ("\"" + LettersThen(e.key, "\"" + (e.gap + (":" + SlotThen(e.slot, r)))))
  }

  function EntriesThen(entries: seq<Entry>, r: string): string
    requires entries != [] && GoodEntries(entries)
  {
    EntryThen(entries[0], if |entries| == 1 then r else "," + EntriesThen(entries[1..], r))
  }

  // ------------------------------------------------------------------------
  // What they stand for.
  // ------------------------------------------------------------------------

  function Meaning(d: Doc, number: string -> string): Json {
    match d
    case Word(v) => v
    case Figure(n) => Number(number(NumeralText(n)))
    case Quote(ls) => Str(Chars(ls))
    case List(_, slots) => Array(Items(slots, number))
    case Record(_, entries) => Obj(FieldsOf(entries, [], number))
  }

  function Items(slots: seq<Slot>, number: string -> string): seq<Json> {
    if slots == [] then [] else [Meaning(slots[0].doc, number)] + Items(slots[1..], number)
  }

  /** Of a key that comes twice the last value stays. */
  function FieldsOf(entries: seq<Entry>, before: Fields, number: string -> string): Fields {
    if entries == [] then before
    else FieldsOf(entries[1..], Set(before, Chars(entries[0].key), Meaning(entries[0].slot.doc, number)), number)
  }

  // ------------------------------------------------------------------------
  // Each text is read.
  // ------------------------------------------------------------------------

  lemma DigitRead(h: Hex)
    requires h.n < 16
    ensures HexDigit(Digit(h)) == Some(h.n)
  {
  }

  lemma CodeRead(code: seq<Hex>, r: string)
    requires FourDigits(code)
    ensures JsonText.Unit(CodeThen(code, r)) == Some(CodeUnit(code)) && CodeThen(code, r)[4..] == r
  {
    DigitRead(code[0]);
    DigitRead(code[1]);
    DigitRead(code[2]);
    DigitRead(code[3]);
  }

  lemma SurrogatesOf(n: nat)
    requires n < 0x10_0000
    ensures n / 0x400 < 0x400 && n % 0x400 < 0x400 && n / 0x400 * 0x400 + n % 0x400 == n
  {
  }

  lemma TwoUnitsRead(s: string, high: nat, low: nat)
    requires high < 0x400 && low < 0x400
    requires JsonText.Unit(s) == Some(0xD800 + high) && |s| >= 6 && s[4..6] == "\\u" && JsonText.Unit(s[6..]) == Some(0xDC00 + low)
    ensures Escaped(s) == Some(Read((0x1_0000 + high * 0x400 + low) as char, s[10..]))
  {
  }

  /** Two code units, each spelled out, are one character. */
  lemma SurrogatesRead(c: char, s: string, t: string, r: string)
    requires c as int >= 0x1_0000 && |s| >= 4 && s[4..] == "\\u" + t && |t| >= 4 && t[4..] == r
    requires JsonText.Unit(s) == Some(0xD800 + (c as int - 0x1_0000) / 0x400)
    requires JsonText.Unit(t) == Some(0xDC00 + (c as int - 0x1_0000) % 0x400)
    ensures Escaped(s) == Some(Read(c, r))
  {
    var n := c as int - 0x1_0000;
    SurrogatesOf(n);
    Behind(s, t, r);
    TwoUnitsRead(s, n / 0x400, n % 0x400);
  }

  lemma Behind(s: string, low: string, r: string)
    requires |s| >= 4 && s[4..] == "\\u" + low && |low| >= 4 && low[4..] == r
    ensures |s| >= 10 && s[4..6] == "\\u" && s[6..] == low && s[10..] == r
  {
    assert s[4..6] == s[4..][..2] && s[6..] == s[4..][2..] && s[10..] == s[6..][4..];
  }

  lemma PairIsRead(c: char, high: seq<Hex>, low: seq<Hex>, r: string)
    requires c as int >= 0x1_0000 && FourDigits(high) && FourDigits(low)
    requires CodeUnit(high) == 0xD800 + (c as int - 0x1_0000) / 0x400 && CodeUnit(low) == 0xDC00 + (c as int - 0x1_0000) % 0x400
    ensures Escaped(CodeThen(high, "\\u" + CodeThen(low, r))) == Some(Read(c, r))
  {
    CodeRead(high, "\\u" + CodeThen(low, r));
    CodeRead(low, r);
    SurrogatesRead(c, CodeThen(high, "\\u" + CodeThen(low, r)), CodeThen(low, r), r);
  }

  lemma ShortIsRead(l: Letter, r: string)
    requires Spelled(l) && l.spelling.Short?
    ensures Unescape([l.spelling.letter] + r) == Some(Read(l.c, r))
  {
    assert ([l.spelling.letter] + r)[1..] == r;
  }

  lemma UnitIsRead(l: Letter, r: string)
    requires Spelled(l) && l.spelling.Unit?
    ensures Escaped(CodeThen(l.spelling.code, r)) == Some(Read(l.c, r))
  {
    CodeRead(l.spelling.code, r);
  }

  lemma Unescaped(s: string)
    ensures ReadCharacter("\\u" + s) == Escaped(s)
  {
    assert ("\\u" + s)[1..][0] == 'u' && ("\\u" + s)[1..][1..] == s;
  }

  lemma LetterIsRead(l: Letter, r: string)
    requires Spelled(l)
    ensures var s := LetterThen(l, r); s != "" && s[0] != '"' && ReadCharacter(s) == Some(Read(l.c, r))
  {
    var s := LetterThen(l, r);
    match l.spelling
    case Plain => assert s[1..] == r;
    case Short(letter) =>
      assert s[1..] == [letter] + r;
      ShortIsRead(l, r);
    case Unit(code) =>
      Unescaped(CodeThen(code, r));
      UnitIsRead(l, r);
    case Pair(high, low) =>
      Unescaped(CodeThen(high, "\\u" + CodeThen(low, r)));
      PairIsRead(l.c, high, low, r);
  }

  lemma {:induction false} LettersAreRead(ls: seq<Letter>, r: string)
    requires AllSpelled(ls)
    ensures ReadString(LettersThen(ls, "\"" + r)) == Some(Read(Chars(ls), r))
    decreases |ls|
  {
    if ls == [] {
      assert ("\"" + r)[1..] == r;
    } else {
      LettersAreRead(ls[1..], r);
      LetterIsRead(ls[0], LettersThen(ls[1..], "\"" + r));
    }
  }

  lemma {:induction false} FiguresSkipped(s: string, r: string)
    requires AllFigures(s) && (r == "" || !IsDigit(r[0]))
    ensures SkipDigits(s + r) == r
    decreases |s|
  {
    if s == "" {
      assert s + r == r;
    } else {
      assert (s + r)[1..] == s[1..] + r;
      FiguresSkipped(s[1..], r);
    }
  }

  /** The digits of the whole part, without its sign. */
  lemma UnsignedRead(whole: string, r: string)
    requires Figures(whole) && (whole[0] == '0' ==> whole == "0") && (r == "" || !IsDigit(r[0]))
    ensures var t := whole + r;
            IsDigit(t[0]) && if t[0] == '0' then t[1..] == r else SkipDigits(t[1..]) == r
  {
    assert (whole + r)[0] == whole[0] && (whole + r)[1..] == whole[1..] + r;
    FiguresSkipped(whole[1..], r);
  }

  lemma WholeRead(minus: bool, whole: string, r: string)
    requires Figures(whole) && (whole[0] == '0' ==> whole == "0") && (r == "" || !IsDigit(r[0]))
    ensures SkipInteger((if minus then "-" else "") + (whole + r)) == Some(r)
  {
    UnsignedRead(whole, r);
    assert ("-" + (whole + r))[1..] == whole + r && "" + (whole + r) == whole + r;
  }

  lemma FractionIsRead(f: Option<string>, r: string)
    requires f.Some? ==> Figures(f.value)
    requires r == "" || (!IsDigit(r[0]) && r[0] != '.')
    ensures SkipFraction(FractionText(f) + r) == r
    ensures var s := FractionText(f) + r; s == "" || !IsDigit(s[0])
  {
    if f.None? {
      assert FractionText(f) + r == r;
    } else {
      var s := FractionText(f) + r;
      assert s[1] == f.value[0] && s[2..] == f.value[1..] + r;
      FiguresSkipped(f.value[1..], r);
    }
  }

  lemma MarkRead(mark: char, sign: string, figures: string)
    requires sign in ["", "+", "-"] && figures != "" && IsDigit(figures[0])
    ensures AfterMark([mark] + (sign + figures)) == figures
  {
    var s := [mark] + (sign + figures);
    assert s[1..] == sign + figures;
    if sign != "" {
      assert s[1] == sign[0] && s[2..] == figures;
    } else {
      assert s[1..] == figures;
    }
  }

  lemma ExponentIsRead(e: Option<Exponent>, r: string)
    requires e.Some? ==> e.value.mark in "eE" && e.value.sign in ["", "+", "-"] && Figures(e.value.figures)
    requires EndsNumber(r)
    ensures SkipExponent(ExponentText(e) + r) == r
    ensures var s := ExponentText(e) + r; s == "" || (!IsDigit(s[0]) && s[0] != '.')
  {
    if e.None? {
      assert ExponentText(e) + r == r;
    } else {
      var Exponent(mark, sign, figures) := e.value;
      assert (figures + r)[0] == figures[0];
      MarkRead(mark, sign, figures + r);
      assert ExponentText(e) + r == [mark] + (sign + (figures + r));
      FiguresSkipped(figures, r);
    }
  }

  lemma FourThen(a: string, b: string, c: string, d: string, r: string)
    ensures a + (b + (c + d)) + r == a + (b + (c + (d + r)))
  {
  }

  lemma NumeralIsRead(n: Numeral, r: string)
    requires GoodNumeral(n) && EndsNumber(r)
    ensures SkipNumber(NumeralText(n) + r) == Some(r)
  {
    var e := ExponentText(n.exponent);
    var f := FractionText(n.fraction);
    ExponentIsRead(n.exponent, r);
    FractionIsRead(n.fraction, e + r);
    WholeRead(n.minus, n.whole, f + (e + r));
    FourThen(if n.minus then "-" else "", n.whole, f, e, r);
  }

  /** The first character of a value, after white space. */
  predicate Starts(s: string) {
    s != "" && !IsSpace(s[0]) && s[0] !in "]},:"
  }

  lemma NumeralStarts(n: Numeral, r: string)
    requires GoodNumeral(n)
    ensures var s := NumeralText(n) + r; s != "" && (IsDigit(s[0]) || s[0] == '-')
  {
    assert n.whole[0] == (if n.minus then NumeralText(n)[1] else NumeralText(n)[0]);
  }

  lemma DocStarts(d: Doc, r: string)
    requires Good(d)
    ensures Starts(DocThen(d, r))
  {
    if d.Figure? {
      NumeralStarts(d.n, r);
    }
  }

  /** Neither white space nor what follows a value is part of a number. */
  lemma EndsAfter(blank: string, r: string)
    requires Blank(blank) && r != "" && r[0] in ",]}"
    ensures EndsNumber(blank + r) && SkipSpace(blank + r) == r
  {
    SpaceSkipped(blank, r);
    if blank != "" {
      assert (blank + r)[0] == blank[0] && blank[0] in blank;
    } else {
      assert blank + r == r;
    }
  }

  lemma WordIsRead(d: Doc, number: string -> string, r: string)
    requires Good(d) && d.Word?
    ensures ReadValue(DocThen(d, r), number) == Some(Read(d.v, r))
  {
    WordRead(if d.v == Null then "null" else if d.v == Bool(true) then "true" else "false", d.v, number, r);
  }

  lemma FigureIsRead(n: Numeral, number: string -> string, r: string)
    requires GoodNumeral(n) && EndsNumber(r)
    ensures ReadValue(NumeralText(n) + r, number) == Some(Read(Number(number(NumeralText(n))), r))
  {
    NumeralStarts(n, r);
    NumeralIsRead(n, r);
    NumberAt(NumeralText(n) + r, number);
    assert (NumeralText(n) + r)[..|NumeralText(n) + r| - |r|] == NumeralText(n);
  }

  lemma QuoteIsRead(ls: seq<Letter>, number: string -> string, r: string)
    requires AllSpelled(ls)
    ensures ReadValue("\"" + LettersThen(ls, "\"" + r), number) == Some(Read(Str(Chars(ls)), r))
  {
    var s := "\"" + LettersThen(ls, "\"" + r);
    assert s[1..] == LettersThen(ls, "\"" + r);
    LettersAreRead(ls, r);
    OpenedString(s, number, Chars(ls), r);
  }

  /** Every value of the grammar is read as what it stands for, whatever follows it. */
  lemma {:induction false} DocIsRead(d: Doc, number: string -> string, r: string)
    requires Good(d) && (d.Figure? ==> EndsNumber(r))
    ensures ReadValue(DocThen(d, r), number) == Some(Read(Meaning(d, number), r))
    decreases d, 0
  {
    match d
    case Word(_) => WordIsRead(d, number, r);
    case Figure(n) => FigureIsRead(n, number, r);
    case Quote(ls) => QuoteIsRead(ls, number, r);
    case List(blank, slots) =>
      var s := DocThen(d, r);
      if slots == [] {
        assert s[1..] == blank + ("]" + r);
        SpaceSkipped(blank, "]" + r);
        assert ("]" + r)[1..] == r;
      } else {
        assert s[1..] == SlotsThen(slots, "]" + r);
        SlotsStart(slots, "]" + r);
        SlotsAreRead(slots, number, r);
        BracketedItems(s, number, Items(slots, number), r);
      }
    case Record(blank, entries) =>
      var s := DocThen(d, r);
      if entries == [] {
        assert s[1..] == blank + ("}" + r);
        SpaceSkipped(blank, "}" + r);
        assert ("}" + r)[1..] == r;
      } else {
        assert s[1..] == EntriesThen(entries, "}" + r);
        EntryStarts(entries[0], AfterEntry(entries, r));
        EntriesAreRead(entries, [], number, r);
        BracedFields(s, number, FieldsOf(entries, [], number), r);
      }
  }

  function AfterSlot(slots: seq<Slot>, r: string): string
    requires slots != [] && GoodSlots(slots)
  {
    if |slots| == 1 then r else "," + SlotsThen(slots[1..], r)
  }

  lemma SlotsStart(slots: seq<Slot>, r: string)
    requires slots != [] && GoodSlots(slots)
    ensures var t := SkipSpace(SlotsThen(slots, r));
            GoodSlot(slots[0]) && Starts(t) && t == DocThen(slots[0].doc, slots[0].after + AfterSlot(slots, r))
  {
    assert GoodSlot(slots[0]);
    DocStarts(slots[0].doc, slots[0].after + AfterSlot(slots, r));
    SpaceSkipped(slots[0].before, DocThen(slots[0].doc, slots[0].after + AfterSlot(slots, r)));
  }

  lemma {:induction false} SlotsAreRead(slots: seq<Slot>, number: string -> string, r: string)
    requires slots != [] && GoodSlots(slots)
    ensures ReadItems(SkipSpace(SlotsThen(slots, "]" + r)), number) == Some(Read(Items(slots, number), r))
    decreases slots, 1
  {
    var first, after := slots[0], AfterSlot(slots, "]" + r);
    var s := SkipSpace(SlotsThen(slots, "]" + r));
    SlotsStart(slots, "]" + r);
    EndsAfter(first.after, after);
    DocIsRead(first.doc, number, first.after + after);
    assert slots[1..] == [] ==> Items(slots, number) == [Meaning(first.doc, number)];
    if |slots| == 1 {
      assert after[1..] == r;
      LastItem(s, number, Meaning(first.doc, number), first.after + after, r);
    } else {
      assert after[1..] == SlotsThen(slots[1..], "]" + r);
      SlotsAreRead(slots[1..], number, r);
      NextItem(s, number, Meaning(first.doc, number), first.after + after, after[1..], Items(slots[1..], number), r);
    }
  }

  function AfterEntry(entries: seq<Entry>, r: string): string
    requires entries != [] && GoodEntries(entries)
  {
    if |entries| == 1 then "}" + r else "," + EntriesThen(entries[1..], "}" + r)
  }

  /** An entry from its key on. */
  function KeyThen(e: Entry, r: string): string
    requires GoodEntry(e)
  {
    "\"" + LettersThen(e.key, "\"" + (e.gap + (":" + SlotThen(e.slot, r))))
  }

  lemma EntryStarts(e: Entry, r: string)
    requires GoodEntry(e)
    ensures SkipSpace(EntryThen(e, r)) == KeyThen(e, r)
  {
    SpaceSkipped(e.before, KeyThen(e, r));
  }

  lemma EntryIsRead(e: Entry, number: string -> string, r: string)
    requires GoodEntry(e) && GoodSlot(e.slot)
    requires ReadValue(DocThen(e.slot.doc, e.slot.after + r), number) == Some(Read(Meaning(e.slot.doc, number), e.slot.after + r))
    ensures ReadField(KeyThen(e, r), number) ==
            Some(Read(Field(Chars(e.key), Meaning(e.slot.doc, number)), e.slot.after + r))
  {
    var colon := ":" + SlotThen(e.slot, r);
    assert KeyThen(e, r)[1..] == LettersThen(e.key, "\"" + (e.gap + colon));
    LettersAreRead(e.key, e.gap + colon);
    SpaceSkipped(e.gap, colon);
    assert colon[1..] == SlotThen(e.slot, r);
    DocStarts(e.slot.doc, e.slot.after + r);
    SpaceSkipped(e.slot.before, DocThen(e.slot.doc, e.slot.after + r));
  }

  lemma {:induction false} EntriesAreRead(entries: seq<Entry>, before: Fields, number: string -> string, r: string)
    requires entries != [] && GoodEntries(entries)
    ensures ReadFields(SkipSpace(EntriesThen(entries, "}" + r)), before, number) ==
            Some(Read(FieldsOf(entries, before, number), r))
    decreases entries, 1
  {
    var e, after := entries[0], AfterEntry(entries, r);
    var f := Field(Chars(e.key), Meaning(e.slot.doc, number));
    assert GoodEntry(e) && GoodSlot(e.slot);
    var s := KeyThen(e, after);
    EntryStarts(e, after);
    EndsAfter(e.slot.after, after);
    DocIsRead(e.slot.doc, number, e.slot.after + after);
    EntryIsRead(e, number, after);
    if |entries| == 1 {
      assert after[1..] == r;
      assert FieldsOf(entries[1..], Set(before, f.key, f.value), number) == Set(before, f.key, f.value);
      LastField(s, before, number, f, e.slot.after + after, r);
    } else {
      assert after[1..] == EntriesThen(entries[1..], "}" + r);
      EntriesAreRead(entries[1..], Set(before, f.key, f.value), number, r);
      NextField(s, before, number, f, e.slot.after + after, after[1..], Read(FieldsOf(entries, before, number), r));
    }
  }

  // ------------------------------------------------------------------------
  // Nothing else is read.
  // ------------------------------------------------------------------------

  lemma DigitBack(c: char) returns (h: Hex)
    requires HexDigit(c).Some?
    ensures h.n == HexDigit(c).value && h.n < 16 && Digit(h) == c
  {
    h := Hex(HexDigit(c).value, 'A' <= c <= 'F');
  }

  lemma CodeBack(s: string) returns (code: seq<Hex>)
    requires JsonText.Unit(s).Some?
    ensures FourDigits(code) && CodeUnit(code) == JsonText.Unit(s).value && s == CodeThen(code, s[4..])
  {
    var a := DigitBack(s[0]);
    var b := DigitBack(s[1]);
    var c := DigitBack(s[2]);
    var d := DigitBack(s[3]);
    code := [a, b, c, d];
    assert s == [s[0], s[1], s[2], s[3]] + s[4..];
  }

  lemma UnitBack(s: string) returns (l: Letter)
    requires Escaped(s).Some? && (JsonText.Unit(s).value < 0xD800 || 0xE000 <= JsonText.Unit(s).value)
    ensures Spelled(l) && l.c == Escaped(s).value.value && "\\u" + s == LetterThen(l, Escaped(s).value.rest)
  {
    var code := CodeBack(s);
    l := Letter(Escaped(s).value.value, Unit(code));
  }

  lemma PairParts(s: string) returns (high: nat, low: nat)
    requires Escaped(s).Some? && 0xD800 <= JsonText.Unit(s).value < 0xE000
    ensures high < 0x400 && low < 0x400 && |s| >= 6 && JsonText.Unit(s) == Some(0xD800 + high)
    ensures JsonText.Unit(s[6..]) == Some(0xDC00 + low) && s[4..] == "\\u" + s[6..] && s[6..][4..] == s[10..]
    ensures Escaped(s) == Some(Read((0x1_0000 + high * 0x400 + low) as char, s[10..]))
  {
    high, low := JsonText.Unit(s).value - 0xD800, JsonText.Unit(s[6..]).value - 0xDC00;
    assert s[4..] == s[4..6] + s[6..];
  }

  lemma PairBack(s: string) returns (l: Letter)
    requires Escaped(s).Some? && 0xD800 <= JsonText.Unit(s).value < 0xE000
    ensures Spelled(l) && l.c == Escaped(s).value.value && "\\u" + s == LetterThen(l, Escaped(s).value.rest)
  {
    var h, w := PairParts(s);
    var high := CodeBack(s);
    var low := CodeBack(s[6..]);
    FromSurrogates(h, w);
    l := Letter(Escaped(s).value.value, Pair(high, low));
  }

  lemma EscapedBack(s: string) returns (l: Letter)
    requires Escaped(s).Some?
    ensures Spelled(l) && l.c == Escaped(s).value.value && "\\u" + s == LetterThen(l, Escaped(s).value.rest)
  {
    if JsonText.Unit(s).value < 0xD800 || 0xE000 <= JsonText.Unit(s).value {
      l := UnitBack(s);
    } else {
      l := PairBack(s);
    }
  }

  lemma FromSurrogates(high: nat, low: nat)
    requires low < 0x400
    ensures (high * 0x400 + low) / 0x400 == high && (high * 0x400 + low) % 0x400 == low
  {
  }

  lemma ShortBack(s: string) returns (l: Letter)
    requires |s| > 1 && s[0] == '\\' && s[1] != 'u' && Unescape(s[1..]).Some?
    ensures Spelled(l) && Unescape(s[1..]) == Some(Read(l.c, s[2..])) && s == LetterThen(l, s[2..])
  {
    l := Letter(Unescape(s[1..]).value.value, Short(s[1]));
    assert s[1..][1..] == s[2..] && s == ['\\', s[1]] + s[2..];
  }

  lemma LetterBack(s: string) returns (l: Letter)
    requires s != "" && s[0] != '"' && ReadCharacter(s).Some?
    ensures Spelled(l) && l.c == ReadCharacter(s).value.value && s == LetterThen(l, ReadCharacter(s).value.rest)
  {
    if s[0] != '\\' {
      l := Letter(s[0], Plain);
    } else if s[1] == 'u' {
      var t := s[2..];
      assert s == "\\u" + t;
      Unescaped(t);
      l := EscapedBack(t);
    } else {
      l := ShortBack(s);
    }
  }

  lemma {:induction false} LettersBack(s: string) returns (ls: seq<Letter>)
    requires ReadString(s).Some?
    ensures AllSpelled(ls) && Chars(ls) == ReadString(s).value.value && s == LettersThen(ls, "\"" + ReadString(s).value.rest)
    decreases |s|
  {
    if s[0] == '"' {
      ls := [];
      assert s == "\"" + s[1..];
    } else {
      var l := LetterBack(s);
      var more := LettersBack(ReadCharacter(s).value.rest);
      ls := [l] + more;
      assert ls[1..] == more;
    }
  }

  lemma {:induction false} FiguresBack(s: string) returns (figures: string)
    ensures AllFigures(figures) && s == figures + SkipDigits(s)
    decreases |s|
  {
    if s != "" && IsDigit(s[0]) {
      var more := FiguresBack(s[1..]);
      figures := [s[0]] + more;
      assert s == [s[0]] + s[1..];
    } else {
      figures := "";
    }
  }

  lemma WholeBack(s: string) returns (minus: bool, whole: string)
    requires SkipInteger(s).Some?
    ensures Figures(whole) && (whole[0] == '0' ==> whole == "0")
    ensures s == (if minus then "-" else "") + (whole + SkipInteger(s).value)
  {
    minus := s[0] == '-';
    var t := if minus then s[1..] else s;
    if t[0] == '0' {
      whole := "0";
    } else {
      var more := FiguresBack(t[1..]);
      whole := [t[0]] + more;
    }
    assert t == whole + SkipInteger(s).value;
  }

  lemma FractionBack(s: string) returns (f: Option<string>)
    ensures (f.Some? ==> Figures(f.value)) && s == FractionText(f) + SkipFraction(s)
  {
    if |s| >= 2 && s[0] == '.' && IsDigit(s[1]) {
      var more := FiguresBack(s[2..]);
      f := Some([s[1]] + more);
      assert s == "." + [s[1]] + s[2..];
    } else {
      f := None;
    }
  }

  lemma SignBack(s: string) returns (sign: string)
    requires s != ""
    ensures sign in ["", "+", "-"] && s == [s[0]] + (sign + AfterMark(s))
  {
    if |s| > 1 && (s[1] == '+' || s[1] == '-') {
      sign := [s[1]];
      assert s == [s[0]] + ([s[1]] + s[2..]);
    } else {
      sign := "";
      assert "" + s[1..] == s[1..];
    }
  }

  lemma ThreeThen(a: string, b: string, c: string, d: string)
    ensures a + (b + (c + d)) == (a + (b + c)) + d
  {
  }

  lemma ExponentBack(s: string) returns (e: Option<Exponent>)
    ensures e.Some? ==> e.value.mark in "eE" && e.value.sign in ["", "+", "-"] && Figures(e.value.figures)
    ensures s == ExponentText(e) + SkipExponent(s)
  {
    e := None;
    if s != "" && (s[0] == 'e' || s[0] == 'E') && AfterMark(s) != "" && IsDigit(AfterMark(s)[0]) {
      var figures := FiguresBack(AfterMark(s));
      var sign := SignBack(s);
      e := Some(Exponent(s[0], sign, figures));
      ThreeThen([s[0]], sign, figures, SkipDigits(AfterMark(s)));
    }
  }

  lemma NumeralBack(s: string) returns (n: Numeral)
    requires SkipNumber(s).Some?
    ensures GoodNumeral(n) && s == NumeralText(n) + SkipNumber(s).value
  {
    var minus, whole := WholeBack(s);
    var fraction := FractionBack(SkipInteger(s).value);
    var exponent := ExponentBack(SkipFraction(SkipInteger(s).value));
    n := Numeral(minus, whole, fraction, exponent);
    FourThen(if minus then "-" else "", whole, FractionText(fraction), ExponentText(exponent), SkipNumber(s).value);
  }

  lemma {:induction false} BlankBefore(s: string) returns (blank: string)
    ensures Blank(blank) && s == blank + SkipSpace(s)
    decreases |s|
  {
    if s != "" && IsSpace(s[0]) {
      var more := BlankBefore(s[1..]);
      blank := [s[0]] + more;
      assert s == [s[0]] + s[1..];
    } else {
      blank := "";
    }
  }

  /** What is read is of the grammar. */
  lemma {:induction false} DocBack(s: string, number: string -> string) returns (d: Doc)
    requires ReadValue(s, number).Some?
    ensures Good(d) && Meaning(d, number) == ReadValue(s, number).value.value
    ensures s == DocThen(d, ReadValue(s, number).value.rest)
    decreases |s|, 0
  {
    if s[0] == '[' {
      d := ArrayBack(s, number);
    } else if s[0] == '{' {
      d := ObjectBack(s, number);
    } else {
      d := LeafBack(s, number);
    }
  }

  lemma LeafBack(s: string, number: string -> string) returns (d: Doc)
    requires ReadValue(s, number).Some? && s[0] !in "[{"
    ensures Good(d) && Meaning(d, number) == ReadValue(s, number).value.value
    ensures s == DocThen(d, ReadValue(s, number).value.rest)
  {
    var value, rest := ReadValue(s, number).value.value, ReadValue(s, number).value.rest;
    if s[0] == '"' {
      var ls := LettersBack(s[1..]);
      d := Quote(ls);
      assert s == "\"" + s[1..];
    } else if s[0] in "ntf" {
      d := Word(value);
      assert s == s[..|s| - |rest|] + rest;
    } else {
      var n := NumeralBack(s);
      d := Figure(n);
      assert s[..|s| - |rest|] == NumeralText(n);
    }
  }

  lemma {:induction false} ArrayBack(s: string, number: string -> string) returns (d: Doc)
    requires ReadValue(s, number).Some? && s[0] == '['
    ensures Good(d) && Meaning(d, number) == ReadValue(s, number).value.value
    ensures s == DocThen(d, ReadValue(s, number).value.rest)
    decreases |s|, 0, 0
  {
    var blank := BlankBefore(s[1..]);
    var t := SkipSpace(s[1..]);
    assert s == "[" + s[1..];
    if t != "" && t[0] == ']' {
      d := List(blank, []);
      assert t == "]" + t[1..];
    } else {
      var slots := ItemsBack(t, blank, number);
      d := List("", slots);
    }
  }

  lemma {:induction false} ObjectBack(s: string, number: string -> string) returns (d: Doc)
    requires ReadValue(s, number).Some? && s[0] == '{'
    ensures Good(d) && Meaning(d, number) == ReadValue(s, number).value.value
    ensures s == DocThen(d, ReadValue(s, number).value.rest)
    decreases |s|, 0, 0
  {
    var blank := BlankBefore(s[1..]);
    var t := SkipSpace(s[1..]);
    assert s == "{" + s[1..];
    if t != "" && t[0] == '}' {
      d := Record(blank, []);
      assert t == "}" + t[1..];
    } else {
      var entries := FieldsBack(t, blank, [], number);
      d := Record("", entries);
    }
  }

  lemma FirstSlot(slot: Slot, more: seq<Slot>, number: string -> string, r: string)
    requires GoodSlot(slot) && GoodSlots(more)
    ensures GoodSlots([slot] + more) && Items([slot] + more, number) == [Meaning(slot.doc, number)] + Items(more, number)
    ensures SlotsThen([slot] + more, r) == SlotThen(slot, if more == [] then r else "," + SlotsThen(more, r))
  {
    assert ([slot] + more)[0] == slot && ([slot] + more)[1..] == more;
  }

  /** What reading the items of a list comes to. */
  lemma ItemsParts(s: string, number: string -> string)
    requires ReadItems(s, number).Some?
    ensures ReadValue(s, number).Some?
    ensures var v, t := ReadValue(s, number).value.value, SkipSpace(ReadValue(s, number).value.rest);
            && t != "" && t == [t[0]] + t[1..]
            && if t[0] == ',' then
                 var more := ReadItems(SkipSpace(t[1..]), number);
                 more.Some? && ReadItems(s, number).value == Read([v] + more.value.value, more.value.rest)
               else t[0] == ']' && ReadItems(s, number).value == Read([v], t[1..])
  {
    var t := SkipSpace(ReadValue(s, number).value.rest);
    assert t == [t[0]] + t[1..];
  }

  lemma {:induction false} ItemsBack(s: string, blank: string, number: string -> string) returns (slots: seq<Slot>)
    requires Blank(blank) && ReadItems(s, number).Some?
    ensures slots != [] && GoodSlots(slots) && Items(slots, number) == ReadItems(s, number).value.value
    ensures blank + s == SlotsThen(slots, "]" + ReadItems(s, number).value.rest)
    decreases |s|, 1
  {
    ItemsParts(s, number);
    var d := DocBack(s, number);
    var behind := BlankBefore(ReadValue(s, number).value.rest);
    var t := SkipSpace(ReadValue(s, number).value.rest);
    var more := [];
    if t[0] == ',' {
      var before := BlankBefore(t[1..]);
      more := ItemsBack(SkipSpace(t[1..]), before, number);
    }
    slots := [Slot(blank, d, behind)] + more;
    FirstSlot(Slot(blank, d, behind), more, number, "]" + ReadItems(s, number).value.rest);
  }

  lemma {:induction false} FieldBack(s: string, blank: string, behind: string, r: string, number: string -> string) returns (e: Entry)
    requires Blank(blank) && Blank(behind) && ReadField(s, number).Some? && ReadField(s, number).value.rest == behind + r
    ensures GoodEntry(e) && ReadField(s, number).value.value == Field(Chars(e.key), Meaning(e.slot.doc, number))
    ensures blank + s == EntryThen(e, r)
    decreases |s|, 1
  {
    var key := LettersBack(s[1..]);
    var rest := ReadString(s[1..]).value.rest;
    var gap := BlankBefore(rest);
    var colon := SkipSpace(rest);
    var before := BlankBefore(colon[1..]);
    var d := DocBack(SkipSpace(colon[1..]), number);
    e := Entry(blank, key, gap, Slot(before, d, behind));
    assert s == "\"" + s[1..] && colon == ":" + colon[1..];
  }

  lemma FirstEntry(e: Entry, more: seq<Entry>, fields: Fields, number: string -> string, r: string)
    requires GoodEntry(e) && GoodEntries(more)
    ensures GoodEntries([e] + more)
    ensures FieldsOf([e] + more, fields, number) == FieldsOf(more, Set(fields, Chars(e.key), Meaning(e.slot.doc, number)), number)
    ensures EntriesThen([e] + more, r) == EntryThen(e, if more == [] then r else "," + EntriesThen(more, r))
  {
    assert ([e] + more)[0] == e && ([e] + more)[1..] == more;
  }

  lemma {:induction false} FieldsBack(s: string, blank: string, fields: Fields, number: string -> string) returns (entries: seq<Entry>)
    requires Blank(blank) && ReadFields(s, fields, number).Some?
    ensures entries != [] && GoodEntries(entries)
    ensures FieldsOf(entries, fields, number) == ReadFields(s, fields, number).value.value
    ensures blank + s == EntriesThen(entries, "}" + ReadFields(s, fields, number).value.rest)
    decreases |s|, 2
  {
    var f, after := ReadField(s, number).value.value, ReadField(s, number).value.rest;
    var behind := BlankBefore(after);
    var t := SkipSpace(after);
    var e := FieldBack(s, blank, behind, t, number);
    assert t == [t[0]] + t[1..];
    var more := [];
    if t[0] == ',' {
      var before := BlankBefore(t[1..]);
      more := FieldsBack(SkipSpace(t[1..]), before, Set(fields, f.key, f.value), number);
    }
    entries := [e] + more;
    FirstEntry(e, more, fields, number, "}" + ReadFields(s, fields, number).value.rest);
  }

  // ------------------------------------------------------------------------
  // Parsing.
  // ------------------------------------------------------------------------

  /** A text of the grammar: one value between white space. */
  predicate IsJson(text: string, slot: Slot) {
    GoodSlot(slot) && text == SlotThen(slot, "")
  }

  /** Every text of the grammar is parsed, and as what it stands for. */
  lemma TextIsParsed(text: string, slot: Slot, number: string -> string)
    requires IsJson(text, slot)
    ensures Parse(text, number) == Some(Meaning(slot.doc, number))
  {
    assert GoodSlot(slot) && slot.after + "" == slot.after;
    DocStarts(slot.doc, slot.after);
    SpaceSkipped(slot.before, DocThen(slot.doc, slot.after));
    SpaceSkipped(slot.after, "");
    assert slot.after != "" ==> slot.after[0] in slot.after;
    DocIsRead(slot.doc, number, slot.after);
  }

  /** And no other text is. */
  lemma ParsedIsText(text: string, number: string -> string) returns (slot: Slot)
    requires Parse(text, number).Some?
    ensures IsJson(text, slot) && Parse(text, number) == Some(Meaning(slot.doc, number))
  {
    var before := BlankBefore(text);
    var d := DocBack(SkipSpace(text), number);
    var after := BlankBefore(ReadValue(SkipSpace(text), number).value.rest);
    assert after + "" == after;
    slot := Slot(before, d, after);
  }
}
