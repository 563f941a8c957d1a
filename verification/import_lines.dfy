/**
  How `mergeDuplicateImports` in scripts/sync-agent-host-protocol.ts reads the import lines of a
  file and how it writes them; what is written is read back as it was.
 */
module ImportLines {
  import opened Wrappers
  import opened TextEdits

  const TYPE_PREFIX := "import type {"
  const VALUE_PREFIX := "import {"
  const FROM := "} from '"
  const CLOSE := "';"
  const TYPE_KEYWORD := "type "

  // ------------------------------------------------------------------------
  // Names.
  // ------------------------------------------------------------------------

  /** White space and line terminators of ECMAScript. */
  predicate IsSpace(c: char) {
    var n := c as int;
    9 <= n <= 13 || n == 32 || n == 0xa0 || n == 0x1680 || 0x2000 <= n <= 0x200a ||
    n == 0x2028 || n == 0x2029 || n == 0x202f || n == 0x205f || n == 0x3000 || n == 0xfeff
  }

  function TrimStart(s: string): string {
    if s == [] || !IsSpace(s[0]) then s else TrimStart(s[1..])
  }

  function TrimEnd(s: string): string {
    if s == [] || !IsSpace(s[|s|-1]) then s else TrimEnd(s[..|s|-1])
  }

  function Trim(s: string): string {
    TrimEnd(TrimStart(s))
  }

  /** `map(trim).filter(nonempty)` */
  function TrimAll(parts: seq<string>): seq<string> {
    if parts == [] then []
    else (if Trim(parts[0]) == "" then [] else [Trim(parts[0])]) + TrimAll(parts[1..])
  }

  function Names(list: string): seq<string> {
    TrimAll(Split(list, ','))
  }

  /** A name as it comes out of a list of names. */
  predicate ValidName(n: string) {
    n != "" && !IsSpace(n[0]) && !IsSpace(n[|n|-1]) && ',' !in n && '}' !in n
  }

  predicate ValidNames(ns: seq<string>) {
    forall n | n in ns :: ValidName(n)
  }

  lemma {:induction false} TrimStartFacts(s: string)
    ensures TrimStart(s) == "" || !IsSpace(TrimStart(s)[0])
    ensures forall c | c in TrimStart(s) :: c in s
    decreases |s|
  {
    if s != [] && IsSpace(s[0]) {
      TrimStartFacts(s[1..]);
    }
  }

  lemma {:induction false} TrimEndFacts(s: string)
    ensures TrimEnd(s) <= s && (TrimEnd(s) == "" || !IsSpace(TrimEnd(s)[|TrimEnd(s)|-1]))
    decreases |s|
  {
    if s != [] && IsSpace(s[|s|-1]) {
      TrimEndFacts(s[..|s|-1]);
    }
  }

  lemma TrimFacts(s: string)
    requires ',' !in s && '}' !in s
    ensures Trim(s) == "" || ValidName(Trim(s))
  {
    TrimStartFacts(s);
    TrimEndFacts(TrimStart(s));
  }

  lemma {:induction false} TrimAllFacts(parts: seq<string>)
    requires forall p | p in parts :: ',' !in p && '}' !in p
    ensures ValidNames(TrimAll(parts))
    decreases |parts|
  {
    if parts != [] {
      assert parts[0] in parts;
      TrimFacts(parts[0]);
      TrimAllFacts(parts[1..]);
    }
  }

  lemma {:induction false} SplitWithin(s: string, c: char, x: char)
    requires x !in s
    ensures forall p | p in Split(s, c) :: x !in p
    decreases |s|
  {
    var i := Find(s, c);
    if i < |s| {
      SplitWithin(s[i + 1..], c, x);
    }
  }

  lemma NamesAreValid(list: string)
    requires '}' !in list
    ensures ValidNames(Names(list))
  {
    SplitWithin(list, ',', '}');
    TrimAllFacts(Split(list, ','));
  }

  // ------------------------------------------------------------------------
  // Lines.
  // ------------------------------------------------------------------------

  datatype Line =
    | TypeImport(names: seq<string>, mod: string)
    | ValueImport(names: seq<string>, mod: string)
    | Other

  /** What `^<prefix>([^}]+)\} from '([^']+)';$` captures: the list of names and the module. */
  function Clause(line: string, prefix: string): Option<(string, string)> {
    if !(prefix <= line) then None
    else
      var rest := line[|prefix|..];
      var i := Find(rest, '}');
      if i == 0 || !(FROM <= rest[i..]) then None
      else
        var m := rest[i + |FROM|..];
        if |m| <= |CLOSE| || m[|m| - |CLOSE|..] != CLOSE || '\'' in m[..|m| - |CLOSE|] then None
        else Some((rest[..i], m[..|m| - |CLOSE|]))
  }

  function Parse(line: string): Line {
    var t := Clause(line, TYPE_PREFIX);
    if t.Some? then TypeImport(Names(t.value.0), t.value.1)
    else
      var v := Clause(line, VALUE_PREFIX);
      if v.Some? then ValueImport(Names(v.value.0), v.value.1) else Other
  }

  predicate ValidMod(m: string) {
    m != "" && '\'' !in m
  }

  lemma ClauseFacts(line: string, prefix: string)
    requires Clause(line, prefix).Some?
    ensures var (names, mod) := Clause(line, prefix).value;
            ValidNames(Names(names)) && ValidMod(mod)
  {
    NamesAreValid(Clause(line, prefix).value.0);
  }

  lemma ParseFacts(line: string)
    ensures !Parse(line).Other? ==> ValidNames(Parse(line).names) && ValidMod(Parse(line).mod)
  {
    if Clause(line, TYPE_PREFIX).Some? {
      ClauseFacts(line, TYPE_PREFIX);
    } else if Clause(line, VALUE_PREFIX).Some? {
      ClauseFacts(line, VALUE_PREFIX);
    }
  }

  // ------------------------------------------------------------------------
  // What is read off a line.
  // ------------------------------------------------------------------------

  predicate AllSpace(s: string) {
    forall c | c in s :: IsSpace(c)
  }

  lemma {:induction false} TrimStartIs(s: string) returns (a: string)
    ensures AllSpace(a) && s == a + TrimStart(s)
    decreases |s|
  {
    a := "";
    if s != [] && IsSpace(s[0]) {
      var b := TrimStartIs(s[1..]);
      a := [s[0]] + b;
      CutAt(s, 1);
      Assoc([s[0]], b, TrimStart(s));
    }
  }

  lemma {:induction false} TrimEndIs(s: string) returns (b: string)
    ensures AllSpace(b) && s == TrimEnd(s) + b
    decreases |s|
  {
    b := "";
    if s != [] && IsSpace(s[|s|-1]) {
      var c := TrimEndIs(s[..|s|-1]);
      b := c + [s[|s|-1]];
      CutAt(s, |s| - 1);
      Assoc(TrimEnd(s), c, [s[|s|-1]]);
    }
  }

  /** Trimming takes away white space at both ends, all of it, and nothing else. */
  lemma TrimIs(s: string) returns (a: string, b: string)
    ensures AllSpace(a) && AllSpace(b) && s == a + Trim(s) + b
    ensures Trim(s) == "" || (!IsSpace(Trim(s)[0]) && !IsSpace(Trim(s)[|Trim(s)|-1]))
    ensures Trim(s) == "" <==> AllSpace(s)
  {
    a := TrimStartIs(s);
    b := TrimEndIs(TrimStart(s));
    TrimStartFacts(s);
    TrimEndFacts(TrimStart(s));
    assert s == a + Trim(s) + b;
    if Trim(s) == "" {
      assert s == a + b;
    } else {
      assert s[|a|] == Trim(s)[0];
    }
  }

  /** `at` says from which part each name comes: in order, and from exactly the parts that are not blank. */
  ghost predicate NamesFrom(names: seq<string>, parts: seq<string>, from: nat, at: seq<nat>) {
    && |at| == |names|
    && (forall k :: 0 <= k < |at| ==> from <= at[k] < |parts| && names[k] == Trim(parts[at[k]]))
    && (forall j, k :: 0 <= j < k < |at| ==> at[j] < at[k])
    && (forall i: nat | from <= i < |parts| :: i in at <==> !AllSpace(parts[i]))
  }

  lemma SkipBlank(names: seq<string>, parts: seq<string>, from: nat, at: seq<nat>)
    requires from < |parts| && AllSpace(parts[from]) && NamesFrom(names, parts, from + 1, at)
    ensures NamesFrom(names, parts, from, at)
  {
  }

  lemma TakeName(names: seq<string>, parts: seq<string>, from: nat, at: seq<nat>)
    requires from < |parts| && !AllSpace(parts[from]) && NamesFrom(names, parts, from + 1, at)
    ensures NamesFrom([Trim(parts[from])] + names, parts, from, [from] + at)
  {
    forall i: nat | from <= i < |parts|
      ensures i in [from] + at <==> !AllSpace(parts[i])
    {
      assert i in [from] + at <==> i == from || i in at;
    }
  }

  lemma {:induction false} TrimAllFrom(parts: seq<string>, from: nat) returns (at: seq<nat>)
    requires from <= |parts|
    ensures NamesFrom(TrimAll(parts[from..]), parts, from, at)
    decreases |parts| - from
  {
    at := [];
    if from < |parts| {
      at := TrimAllFrom(parts, from + 1);
      var a, b := TrimIs(parts[from]);
      assert parts[from..][0] == parts[from] && parts[from..][1..] == parts[from + 1..];
      if Trim(parts[from]) == "" {
        SkipBlank(TrimAll(parts[from + 1..]), parts, from, at);
        assert TrimAll(parts[from..]) == TrimAll(parts[from + 1..]);
      } else {
        TakeName(TrimAll(parts[from + 1..]), parts, from, at);
        at := [from] + at;
      }
    }
  }

  /** The names of a list are the pieces between its commas, trimmed, in order, but for the blank ones. */
  lemma NamesAre(list: string) returns (at: seq<nat>)
    ensures NamesFrom(Names(list), Split(list, ','), 0, at)
  {
    var parts := Split(list, ',');
    at := TrimAllFrom(parts, 0);
    assert parts[0..] == parts;
  }

  /** A line that is such an import: nothing is before or behind it, and its list and module are not empty. */
  predicate IsImport(line: string, prefix: string, list: string, mod: string) {
    list != "" && '}' !in list && mod != "" && '\'' !in mod && line == prefix + list + "} from '" + mod + "';"
  }

  lemma ClauseIff(line: string, prefix: string, list: string, mod: string)
    ensures Clause(line, prefix) == Some((list, mod)) <==> IsImport(line, prefix, list, mod)
  {
    if IsImport(line, prefix, list, mod) {
      FourParts(prefix + list, "} from '", mod, "';");
      ClauseOfLine(prefix, list, mod);
    }
    if Clause(line, prefix) == Some((list, mod)) {
      ClauseIsLine(line, prefix);
    }
  }

  lemma FourParts(a: string, b: string, c: string, d: string)
    ensures a + b + c + d == a + (b + (c + d))
  {
    Assoc(a, b, c + d);
    Assoc(a + b, c, d);
  }

  lemma CutAt(s: string, i: nat)
    requires i <= |s|
    ensures s == s[..i] + s[i..]
  {
  }

  lemma CutOut(s: string, i: nat, word: string)
    requires i <= |s| && word <= s[i..]
    ensures i + |word| <= |s| && s == s[..i] + (word + s[i + |word|..])
  {
    CutAt(s, i);
    CutAt(s[i..], |word|);
  }

  lemma ClauseIsLine(line: string, prefix: string)
    requires Clause(line, prefix).Some?
    ensures IsImport(line, prefix, Clause(line, prefix).value.0, Clause(line, prefix).value.1)
  {
    var rest := line[|prefix|..];
    var i := Find(rest, '}');
    var m := rest[i + |FROM|..];
    var mod := m[..|m| - |CLOSE|];
    CutAt(line, |prefix|);
    CutOut(rest, i, FROM);
    CutAt(m, |mod|);
    Glued(line, prefix, rest[..i], m, mod);
  }

  lemma Glued(line: string, prefix: string, list: string, m: string, mod: string)
    requires line == prefix + (list + ("} from '" + m)) && m == mod + "';"
    ensures line == prefix + list + "} from '" + mod + "';"
  {
    FourParts(prefix + list, "} from '", mod, "';");
    Assoc(prefix, list, "} from '" + m);
  }

  lemma NotATypeImport(line: string, list: string, mod: string)
    requires IsImport(line, VALUE_PREFIX, list, mod)
    ensures Clause(line, TYPE_PREFIX) == None
  {
    FourParts(VALUE_PREFIX + list, "} from '", mod, "';");
    ValueIsNotType(list, "} from '" + (mod + "';"));
  }

  /** Which lines are read as imports, and what is read off them, however they are spaced. */
  lemma ParseIs(line: string, list: string, mod: string)
    ensures IsImport(line, "import type {", list, mod) ==> Parse(line) == TypeImport(Names(list), mod)
    ensures IsImport(line, "import {", list, mod) ==> Parse(line) == ValueImport(Names(list), mod)
  {
    ClauseIff(line, TYPE_PREFIX, list, mod);
    ClauseIff(line, VALUE_PREFIX, list, mod);
    if IsImport(line, VALUE_PREFIX, list, mod) {
      NotATypeImport(line, list, mod);
    }
  }

  /** And no other line is. */
  lemma ImportsOnly(line: string) returns (list: string, mod: string)
    ensures Parse(line).TypeImport? ==> IsImport(line, "import type {", list, mod)
    ensures Parse(line).ValueImport? ==> IsImport(line, "import {", list, mod)
  {
    list, mod := "", "";
    if Clause(line, TYPE_PREFIX).Some? {
      ClauseIsLine(line, TYPE_PREFIX);
      list, mod := Clause(line, TYPE_PREFIX).value.0, Clause(line, TYPE_PREFIX).value.1;
    } else if Clause(line, VALUE_PREFIX).Some? {
      ClauseIsLine(line, VALUE_PREFIX);
      list, mod := Clause(line, VALUE_PREFIX).value.0, Clause(line, VALUE_PREFIX).value.1;
    }
  }

  function ImportLine(prefix: string, names: seq<string>, mod: string): string {
    prefix + (" " + Join(names, ", ") + " ") + (FROM + (mod + CLOSE))
  }

  function TypeNames(ns: seq<string>): (r: seq<string>)
    ensures |r| == |ns| && forall i :: 0 <= i < |ns| ==> r[i] == TYPE_KEYWORD + ns[i]
  {
    seq(|ns|, i requires 0 <= i < |ns| => TYPE_KEYWORD + ns[i])
  }

  function Render(mod: string, types: seq<string>, values: seq<string>): string {
    if values != [] then ImportLine(VALUE_PREFIX, values + TypeNames(types), mod)
    else ImportLine(TYPE_PREFIX, types, mod)
  }

  // ------------------------------------------------------------------------
  // Reading back what is rendered.
  // ------------------------------------------------------------------------

  lemma ClauseOfLine(prefix: string, list: string, mod: string)
    requires list != "" && '}' !in list && ValidMod(mod)
    ensures Clause(prefix + list + (FROM + (mod + CLOSE)), prefix) == Some((list, mod))
  {
    var line := prefix + list + (FROM + (mod + CLOSE));
    var rest := list + (FROM + (mod + CLOSE));
    assert line == prefix + rest;
    assert line[|prefix|..] == rest;
    FindUnique(rest, '}', |list|);
    assert rest[|list|..] == FROM + (mod + CLOSE);
    var m := rest[|list| + |FROM|..];
    assert m == mod + CLOSE;
    assert m[..|m| - |CLOSE|] == mod && m[|m| - |CLOSE|..] == CLOSE;
    assert rest[..|list|] == list;
  }

  /** The pieces between the commas of a rendered list. */
  function Spaced(names: seq<string>): (parts: seq<string>)
    ensures |parts| == |names|
  {
    seq(|names|, i requires 0 <= i < |names| => if i == |names| - 1 then " " + names[i] + " " else " " + names[i])
  }

  lemma CommaSpace(name: string, rest: string)
    ensures " " + name + "," + (" " + rest + " ") == " " + (name + ", " + rest) + " "
  {
  }

  lemma {:induction false} SpacedJoins(names: seq<string>)
    requires names != []
    ensures Join(Spaced(names), ",") == " " + Join(names, ", ") + " "
    decreases |names|
  {
    var parts := Spaced(names);
    if |names| > 1 {
      SpacedJoins(names[1..]);
      assert parts[1..] == Spaced(names[1..]);
      CommaSpace(names[0], Join(names[1..], ", "));
    }
  }

  lemma TrimSpaced(n: string)
    requires ValidName(n)
    ensures Trim(" " + n) == n && Trim(" " + n + " ") == n
  {
    assert (" " + n)[1..] == n && (" " + n + " ")[1..] == n + " ";
    assert TrimStart(n) == n && TrimStart(n + " ") == n + " ";
    assert TrimEnd(n) == n;
    assert (n + " ")[..|n + " "| - 1] == n;
  }

  lemma {:induction false} TrimAllSpaced(names: seq<string>, from: nat)
    requires ValidNames(names) && from <= |names|
    ensures TrimAll(Spaced(names)[from..]) == names[from..]
    decreases |names| - from
  {
    if from < |names| {
      assert names[from] in names;
      TrimSpaced(names[from]);
      TrimAllSpaced(names, from + 1);
      assert Spaced(names)[from..][1..] == Spaced(names)[from + 1..];
      assert names[from..] == [names[from]] + names[from + 1..];
    }
  }

  lemma NamesOfRendered(names: seq<string>)
    requires ValidNames(names)
    ensures Names(" " + Join(names, ", ") + " ") == names
  {
    var list := " " + Join(names, ", ") + " ";
    if names == [] {
      assert list == "  ";
      BlankNames();
    } else {
      var parts := Spaced(names);
      SpacedJoins(names);
      forall p | p in parts
        ensures ',' !in p
      {
        var i :| 0 <= i < |parts| && parts[i] == p;
        assert names[i] in names;
      }
      SplitJoin(parts, ',');
      TrimAllSpaced(names, 0);
      assert parts[0..] == parts && names[0..] == names;
    }
  }

  lemma BlankNames()
    ensures Names("  ") == []
  {
    assert "  "[1..] == " " && " "[1..] == "";
    assert TrimStart("  ") == "";
    FindUnique("  ", ',', 2);
    assert Split("  ", ',') == ["  "];
    assert ["  "][1..] == [];
  }

  lemma {:induction false} JoinWithin(names: seq<string>)
    requires ValidNames(names)
    ensures '}' !in Join(names, ", ")
    decreases |names|
  {
    if names != [] {
      assert names[0] in names;
      JoinWithin(names[1..]);
    }
  }

  /** A rendered import is read as what it was rendered from. */
  lemma ParseRendered(mod: string, types: seq<string>, values: seq<string>)
    requires ValidMod(mod) && ValidNames(types) && ValidNames(values)
    ensures Parse(Render(mod, types, values)) ==
            if values != [] then ValueImport(values + TypeNames(types), mod) else TypeImport(types, mod)
  {
    TypeNamesValid(types);
    var names := if values != [] then values + TypeNames(types) else types;
    var list := " " + Join(names, ", ") + " ";
    JoinWithin(names);
    NamesOfRendered(names);
    if values != [] {
      ClauseOfLine(VALUE_PREFIX, list, mod);
      ValueIsNotType(list, FROM + (mod + CLOSE));
    } else {
      ClauseOfLine(TYPE_PREFIX, list, mod);
    }
  }

  lemma ValueIsNotType(list: string, rest: string)
    ensures Clause(VALUE_PREFIX + list + rest, TYPE_PREFIX) == None
  {
    assert VALUE_PREFIX[7] == '{' && TYPE_PREFIX[7] == 't';
    assert (VALUE_PREFIX + list + rest)[7] == '{';
  }

  lemma TypeNamesValid(types: seq<string>)
    requires ValidNames(types)
    ensures ValidNames(TypeNames(types))
  {
    forall n | n in TypeNames(types)
      ensures ValidName(n)
    {
      var i :| 0 <= i < |types| && TypeNames(types)[i] == n;
      assert types[i] in types;
    }
  }
}
