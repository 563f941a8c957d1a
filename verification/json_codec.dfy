/**
  `JSON` as what wiring the overrides asks of a codec.
 */
module JsonCodec {
  import opened Wrappers
  import opened JsonValues
  import opened JsonText
  import opened Overrides
  import TextEdits

  /** `JSON`, with `number` from a literal to the text of its number, and `finite` for the texts of finite ones. */
  function Standard(number: string -> string, finite: string -> bool): Codec {
    Codec(text => Parse(text, number), v => Compact(v, finite), v => Pretty(v, finite), finite)
  }

  /**
    Printing JSON and parsing it is lawful, for every conversion of numbers that reads back what it
    wrote for a finite one.
   */
  lemma JsonIsLawful(number: string -> string, finite: string -> bool)
    requires Faithful(number, finite)
    ensures Lawful(Standard(number, finite))
  {
    var codec := Standard(number, finite);
    forall text
      ensures codec.parse(text).Some? ==> Proper(codec.parse(text).value)
    {
      ValueProper(SkipSpace(text), number);
    }
    forall v | Proper(v)
      ensures codec.parse(codec.compact(v)) == Some(Finite(v, finite)) && codec.compact(Finite(v, finite)) == codec.compact(v)
      ensures codec.parse(codec.pretty(v)) == Some(Finite(v, finite)) && codec.pretty(Finite(v, finite)) == codec.pretty(v)
    {
      WrittenIsRead(v, Style("", finite), number, "");
      WrittenIsRead(v, Style("\t", finite), number, "\n");
      assert Compact(v, finite) + "" == Compact(v, finite);
      FiniteWritten(v, Style("", finite), "");
      FiniteWritten(v, Style("\t", finite), "");
    }
  }

  /** Such conversions exist: one that keeps every literal as it is. */
  lemma LiteralsAreLawful()
    ensures Lawful(Standard(text => text, text => IsNumber(text)))
  {
    JsonIsLawful(text => text, text => IsNumber(text));
  }

  // ------------------------------------------------------------------------
  // Layout.
  // ------------------------------------------------------------------------

  /** The items of a list, each with what comes before and behind it. */
  function InList(parts: seq<string>, gap: string, indent: string): string {
    if gap == "" then TextEdits.Join(parts, ",")
    else "\n" + indent + gap + TextEdits.Join(parts, ",\n" + indent + gap) + "\n" + indent
  }

  function ItemTexts(items: seq<Json>, style: Style, indent: string): (parts: seq<string>)
    ensures |parts| == |items|
  {
    seq(|items|, i requires 0 <= i < |items| => Write(items[i], style, indent + style.gap))
  }

  function FieldTexts(fs: Fields, style: Style, indent: string): (parts: seq<string>)
    ensures |parts| == |fs|
  {
    seq(|fs|, i requires 0 <= i < |fs| =>
      Quoted(fs[i].key) + (if style.gap == "" then ":" else ": ") + Write(fs[i].value, style, indent + style.gap))
  }

  lemma NextPart(b: string, first: string, parts: seq<string>, end: string)
    requires parts != []
    ensures b + (first + ("," + (b + TextEdits.Join(parts, "," + b) + end))) ==
            b + TextEdits.Join([first] + parts, "," + b) + end
  {
    assert ([first] + parts)[1..] == parts && ([first] + parts)[0] == first;
    var rest := TextEdits.Join(parts, "," + b);
    assert TextEdits.Join([first] + parts, "," + b) == first + ("," + b) + rest;
    assert b + (first + ("," + (b + rest + end))) == b + (first + ("," + b) + rest) + end;
  }

  lemma {:induction false} ItemsInList(items: seq<Json>, style: Style, indent: string)
    requires items != []
    ensures var b := Break(style, indent + style.gap);
            WriteItems(items, style, indent) ==
            b + TextEdits.Join(ItemTexts(items, style, indent), "," + b) + (Break(style, indent) + "]")
    decreases |items|
  {
    var b, first := Break(style, indent + style.gap), Write(items[0], style, indent + style.gap);
    var parts := ItemTexts(items, style, indent);
    if |items| == 1 {
      assert parts == [first] && TextEdits.Join([first], "," + b) == first;
      Assoc(b, first, Break(style, indent) + "]");
    } else {
      ItemsInList(items[1..], style, indent);
      assert parts == [first] + ItemTexts(items[1..], style, indent);
      NextPart(b, first, ItemTexts(items[1..], style, indent), Break(style, indent) + "]");
    }
  }

  lemma {:induction false} FieldsInList(fs: Fields, style: Style, indent: string)
    requires fs != []
    ensures var b := Break(style, indent + style.gap);
            WriteFields(fs, style, indent) ==
            b + TextEdits.Join(FieldTexts(fs, style, indent), "," + b) + (Break(style, indent) + "}")
    decreases |fs|
  {
    var b := Break(style, indent + style.gap);
    var key, value := Quoted(fs[0].key), Write(fs[0].value, style, indent + style.gap);
    var first := key + Colon(style) + value;
    var after := if |fs| == 1 then Break(style, indent) + "}" else "," + WriteFields(fs[1..], style, indent);
    var parts := FieldTexts(fs, style, indent);
    assert key + (Colon(style) + (value + after)) == first + after;
    if |fs| == 1 {
      assert parts == [first] && TextEdits.Join([first], "," + b) == first;
      Assoc(b, first, after);
    } else {
      FieldsInList(fs[1..], style, indent);
      assert parts == [first] + FieldTexts(fs[1..], style, indent);
      NextPart(b, first, FieldTexts(fs[1..], style, indent), Break(style, indent) + "}");
    }
  }

  /** Lists are written without white space if there is no gap, and else with an item to a line, indented. */
  lemma LayoutIs(style: Style, indent: string, items: seq<Json>, fs: Fields)
    ensures Write(Array(items), style, indent) ==
            if items == [] then "[]" else "[" + InList(ItemTexts(items, style, indent), style.gap, indent) + "]"
    ensures Write(Obj(fs), style, indent) ==
            if fs == [] then "{}" else "{" + InList(FieldTexts(fs, style, indent), style.gap, indent) + "}"
  {
    if items != [] {
      ItemsInList(items, style, indent);
      Around("[", ItemTexts(items, style, indent), style, indent, "]");
    }
    if fs != [] {
      FieldsInList(fs, style, indent);
      Around("{", FieldTexts(fs, style, indent), style, indent, "}");
    }
  }

  lemma Around(open: string, parts: seq<string>, style: Style, indent: string, close: string)
    ensures var b := Break(style, indent + style.gap);
            open + (b + TextEdits.Join(parts, "," + b) + (Break(style, indent) + close)) ==
            open + InList(parts, style.gap, indent) + close
  {
    if style.gap == "" {
      assert "," + "" == ",";
    } else {
      assert "\n" + (indent + style.gap) == "\n" + indent + style.gap;
      assert ",\n" + indent + style.gap == "," + ("\n" + (indent + style.gap));
    }
  }
}
