/**
  Merging imports: `mergeDuplicateImports` in scripts/sync-agent-host-protocol.ts, on the lines
  of a file whose imports have been collapsed to one line each.
 */
module ImportMerge {
  import opened Wrappers
  import opened ImportLines
  import TextEdits

  const PLACEHOLDER := "__IMPORT_PLACEHOLDER__"

  // ------------------------------------------------------------------------
  // Merging.
  // ------------------------------------------------------------------------

  datatype Entry = Entry(types: seq<string>, values: seq<string>)

  datatype Collected = Collected(mods: map<string, Entry>, out: seq<string>)

  function EntryOf(mods: map<string, Entry>, mod: string): Entry {
    if mod in mods then mods[mod] else Entry([], [])
  }

  /** The names of an import line join the entry of its module; the first one leaves a placeholder. */
  function AddLine(c: Collected, line: string): Collected {
    AddParsed(c, line, Parse(line))
  }

  function AddParsed(c: Collected, line: string, p: Line): Collected {
    if p.Other? then c.(out := c.out + [line])
    else
      var e := EntryOf(c.mods, p.mod);
      var grown := if p.TypeImport? then e.(types := e.types + p.names) else e.(values := e.values + p.names);
      Collected(c.mods[p.mod := grown], if p.mod in c.mods then c.out else c.out + [PLACEHOLDER + p.mod])
  }

  function Collect(lines: seq<string>): Collected {
    if lines == [] then Collected(map[], []) else AddLine(Collect(lines[..|lines|-1]), lines[|lines|-1])
  }

  /** The elements of an ECMAScript `Set` filled from a list: each at its first place. */
  function Unique(ns: seq<string>): (r: seq<string>)
    ensures forall n :: n in r <==> n in ns
    ensures Distinct(r)
  {
    if ns == [] then []
    else
      var r := Unique(ns[..|ns|-1]);
      var n := ns[|ns|-1];
      assert forall x :: x in ns <==> x in ns[..|ns|-1] || x == n;
      if n in r then r else r + [n]
  }

  predicate Distinct(ns: seq<string>) {
    forall i, j :: 0 <= i < j < |ns| ==> ns[i] != ns[j]
  }

  predicate Marked(line: string) {
    PLACEHOLDER <= line
  }

  /** A marked line that names no imported module: looking up its entry throws. */
  predicate Dangling(mods: map<string, Entry>, line: string) {
    Marked(line) && line[|PLACEHOLDER|..] !in mods
  }

  function FinishLine(mods: map<string, Entry>, line: string): string
    requires !Dangling(mods, line)
  {
    if Marked(line) then
      var mod := line[|PLACEHOLDER|..];
      Render(mod, Unique(mods[mod].types), Unique(mods[mod].values))
    else line
  }

  /** The merged lines, or nothing when the merge throws. */
  function Finish(c: Collected): Option<seq<string>> {
    if exists line | line in c.out :: Dangling(c.mods, line) then None else Some(FinishLines(c.mods, c.out))
  }

  function FinishLines(mods: map<string, Entry>, out: seq<string>): (r: seq<string>)
    requires forall line | line in out :: !Dangling(mods, line)
    ensures |r| == |out| && forall i :: 0 <= i < |r| ==> r[i] == FinishLine(mods, out[i])
  {
    seq(|out|, i requires 0 <= i < |out| => assert out[i] in out; FinishLine(mods, out[i]))
  }

  function Merged(lines: seq<string>): Option<seq<string>> {
    Finish(Collect(lines))
  }

  /** The second pass: every placeholder becomes the import of its module. */
  method FillIn(importsByModule: map<string, Entry>, otherLines: seq<string>) returns (r: Option<seq<string>>)
    ensures r == Finish(Collected(importsByModule, otherLines))
  {
    var out: seq<string> := [];
    var k := 0;
    while k < |otherLines|
      invariant 0 <= k <= |otherLines| && |out| == k
      invariant forall j :: 0 <= j < k ==> !Dangling(importsByModule, otherLines[j])
      invariant forall j :: 0 <= j < k ==> out[j] == FinishLine(importsByModule, otherLines[j])
    {
      var line := otherLines[k];
      if Marked(line) {
        var mod := line[|PLACEHOLDER|..];
        if mod !in importsByModule {
          assert Dangling(importsByModule, line) && line in otherLines;
          return None;
        }
        out := out + [Render(mod, Unique(importsByModule[mod].types), Unique(importsByModule[mod].values))];
      } else {
        out := out + [line];
      }
      k := k + 1;
    }
    assert out == FinishLines(importsByModule, otherLines);
    r := Some(out);
  }

  lemma CollectStep(lines: seq<string>, i: nat)
    requires i < |lines|
    ensures Collect(lines[..i + 1]) == AddLine(Collect(lines[..i]), lines[i])
  {
    assert lines[..i + 1][..i] == lines[..i] && lines[..i + 1][i] == lines[i];
  }

  /** One turn of the first pass. */
  method ReadLine(line: string, parsed: Line, mods: map<string, Entry>, lines: seq<string>, seen: set<string>)
    returns (importsByModule: map<string, Entry>, otherLines: seq<string>, seenModules: set<string>)
    requires seen == mods.Keys
    ensures seenModules == importsByModule.Keys
    ensures Collected(importsByModule, otherLines) == AddParsed(Collected(mods, lines), line, parsed)
  {
    importsByModule, otherLines, seenModules := mods, lines, seen;
    match parsed {
      case TypeImport(names, mod) =>
        if mod !in importsByModule {
          importsByModule := importsByModule[mod := Entry([], [])];
        }
        var entry := importsByModule[mod];
        importsByModule := importsByModule[mod := entry.(types := entry.types + names)];
        if mod !in seenModules {
          seenModules := seenModules + {mod};
          otherLines := otherLines + [PLACEHOLDER + mod];
        }
      case ValueImport(names, mod) =>
        if mod !in importsByModule {
          importsByModule := importsByModule[mod := Entry([], [])];
        }
        var entry := importsByModule[mod];
        importsByModule := importsByModule[mod := entry.(values := entry.values + names)];
        if mod !in seenModules {
          seenModules := seenModules + {mod};
          otherLines := otherLines + [PLACEHOLDER + mod];
        }
      case Other =>
        otherLines := otherLines + [line];
    }
  }

  method Merge(lines: seq<string>) returns (r: Option<seq<string>>)
    ensures r == Merged(lines)
  {
    var importsByModule: map<string, Entry> := map[];
    var otherLines: seq<string> := [];
    var seenModules: set<string> := {};
    var i := 0;
    while i < |lines|
      invariant 0 <= i <= |lines|
      invariant seenModules == importsByModule.Keys
      invariant Collected(importsByModule, otherLines) == Collect(lines[..i])
    {
      CollectStep(lines, i);
      importsByModule, otherLines, seenModules :=
        ReadLine(lines[i], Parse(lines[i]), importsByModule, otherLines, seenModules);
      i := i + 1;
    }
    assert lines[..|lines|] == lines;
    r := FillIn(importsByModule, otherLines);
  }

  // ------------------------------------------------------------------------
  // What lines mean, and how they are laid out.
  // ------------------------------------------------------------------------

  /** One line binds a name of a module: as a type, or as a value. */
  predicate Binds(p: Line, mod: string, name: string, asType: bool) {
    match p
    case Other => false
    case TypeImport(names, m) => m == mod && asType && name in names
    case ValueImport(names, m) =>
      m == mod && if asType then TYPE_KEYWORD + name in names else name in names && !(TYPE_KEYWORD <= name)
  }

  ghost predicate Means(lines: seq<string>, mod: string, name: string, asType: bool) {
    exists line | line in lines :: Binds(Parse(line), mod, name, asType)
  }

  predicate Imports(lines: seq<string>, mod: string) {
    exists line | line in lines :: !Parse(line).Other? && Parse(line).mod == mod
  }

  datatype Item = Import(mod: string) | Text(line: string)

  function ItemOf(line: string): Item {
    if Parse(line).Other? then Text(line) else Import(Parse(line).mod)
  }

  function Items(lines: seq<string>): (r: seq<Item>)
    ensures |r| == |lines| && forall i :: 0 <= i < |lines| ==> r[i] == ItemOf(lines[i])
  {
    seq(|lines|, i requires 0 <= i < |lines| => ItemOf(lines[i]))
  }

  /** Each module at its first import only. */
  function FirstImports(items: seq<Item>): (r: seq<Item>)
    ensures forall i, j :: 0 <= i < j < |r| && r[i].Import? ==> r[i] != r[j]
    ensures forall item :: item in r <==> item in items
  {
    if items == [] then []
    else
      var init, last := items[..|items|-1], items[|items|-1];
      var r := FirstImports(init);
      assert forall item :: item in items <==> item in init || item == last;
      if last.Import? && last in r then r else r + [last]
  }

  /** The lines in order, with each module at its first import only. */
  function Skeleton(lines: seq<string>): (r: seq<Item>)
    ensures forall i, j :: 0 <= i < j < |r| && r[i].Import? ==> r[i] != r[j]
    ensures forall item :: item in r <==> exists line :: line in lines && ItemOf(line) == item
  {
    ItemsIn(lines);
    FirstImports(Items(lines))
  }

  lemma ItemsIn(lines: seq<string>)
    ensures forall item :: item in Items(lines) <==> exists line :: line in lines && ItemOf(line) == item
  {
    forall line | line in lines
      ensures ItemOf(line) in Items(lines)
    {
      var i :| 0 <= i < |lines| && lines[i] == line;
      assert Items(lines)[i] == ItemOf(line);
    }
  }

  function MarkedItem(item: Item): string {
    match item case Import(mod) => PLACEHOLDER + mod case Text(line) => line
  }

  /** No line but an import starts like a placeholder. */
  predicate NoPlaceholder(lines: seq<string>) {
    forall line | line in lines :: Parse(line).Other? ==> !Marked(line)
  }

  // ------------------------------------------------------------------------
  // What is collected.
  // ------------------------------------------------------------------------

  /** The names on the type imports of a module, or on its value imports, in order. */
  function AllNames(lines: seq<string>, mod: string, onTypes: bool): seq<string> {
    if lines == [] then []
    else
      var p := Parse(lines[|lines|-1]);
      AllNames(lines[..|lines|-1], mod, onTypes) +
      if !p.Other? && p.mod == mod && p.TypeImport? == onTypes then p.names else []
  }

  function Layout(skeleton: seq<Item>): (r: seq<string>)
    ensures |r| == |skeleton| && forall i :: 0 <= i < |r| ==> r[i] == MarkedItem(skeleton[i])
  {
    seq(|skeleton|, i requires 0 <= i < |skeleton| => MarkedItem(skeleton[i]))
  }

  lemma {:induction false} CollectLayout(lines: seq<string>)
    ensures Collect(lines).out == Layout(Skeleton(lines))
    ensures forall mod :: mod in Collect(lines).mods <==> Import(mod) in Skeleton(lines)
    decreases |lines|
  {
    if lines != [] {
      var init, last := lines[..|lines|-1], lines[|lines|-1];
      CollectLayout(init);
      assert Items(lines)[..|lines|-1] == Items(init);
      LayoutStep(Skeleton(init), ItemOf(last));
      AddLayout(Collect(init), last, Skeleton(init));
    }
  }

  lemma LayoutStep(s: seq<Item>, item: Item)
    ensures Layout(s + [item]) == Layout(s) + [MarkedItem(item)]
  {
  }

  lemma AddLayout(c: Collected, line: string, s: seq<Item>)
    requires forall mod :: mod in c.mods <==> Import(mod) in s
    ensures var item := ItemOf(line);
            var t := if item.Import? && item in s then s else s + [item];
            (forall mod :: mod in AddLine(c, line).mods <==> Import(mod) in t) &&
            AddLine(c, line).out == if t == s then c.out else c.out + [MarkedItem(item)]
  {
  }

  lemma {:induction false} CollectNames(lines: seq<string>, mod: string)
    ensures EntryOf(Collect(lines).mods, mod) == Entry(AllNames(lines, mod, true), AllNames(lines, mod, false))
    decreases |lines|
  {
    if lines != [] {
      CollectNames(lines[..|lines|-1], mod);
    }
  }

  lemma {:induction false} NamesValid(lines: seq<string>, mod: string, onTypes: bool)
    ensures ValidNames(AllNames(lines, mod, onTypes))
    ensures Import(mod) in Skeleton(lines) ==> ValidMod(mod)
    decreases |lines|
  {
    if lines != [] {
      ParseFacts(lines[|lines|-1]);
      NamesValid(lines[..|lines|-1], mod, onTypes);
    }
  }

  lemma {:induction false} MeansNames(lines: seq<string>, mod: string, name: string)
    ensures Means(lines, mod, name, true) <==>
            name in AllNames(lines, mod, true) || TYPE_KEYWORD + name in AllNames(lines, mod, false)
    ensures Means(lines, mod, name, false) <==>
            name in AllNames(lines, mod, false) && !(TYPE_KEYWORD <= name)
    decreases |lines|
  {
    if lines != [] {
      var init, last := lines[..|lines|-1], lines[|lines|-1];
      MeansNames(init, mod, name);
      assert forall line :: line in lines <==> line in init || line == last;
      assert Means(lines, mod, name, true) <==> Means(init, mod, name, true) || Binds(Parse(last), mod, name, true);
      assert Means(lines, mod, name, false) <==> Means(init, mod, name, false) || Binds(Parse(last), mod, name, false);
    }
  }

  // ------------------------------------------------------------------------
  // What the merge keeps.
  // ------------------------------------------------------------------------

  /** A line that is no import, and starts like a placeholder for a module nobody imports. */
  predicate Stray(lines: seq<string>, line: string) {
    Parse(line).Other? && Marked(line) && !Imports(lines, line[|PLACEHOLDER|..])
  }

  /** The merge throws exactly when there is a stray line. */
  lemma ThrowsIff(lines: seq<string>)
    ensures Merged(lines).None? <==> exists line | line in lines :: Stray(lines, line)
  {
    var c := Collect(lines);
    if line :| line in c.out && Dangling(c.mods, line) {
      DanglingIsStray(lines, line);
    }
    if line :| line in lines && Stray(lines, line) {
      StrayDangles(lines, line);
    }
  }

  lemma DanglingIsStray(lines: seq<string>, line: string)
    requires line in Collect(lines).out && Dangling(Collect(lines).mods, line)
    ensures line in lines && Stray(lines, line)
  {
    CollectLayout(lines);
    ImportsIff(lines, line[|PLACEHOLDER|..]);
    var i :| 0 <= i < |Collect(lines).out| && Collect(lines).out[i] == line;
    assert Skeleton(lines)[i] in Skeleton(lines);
  }

  lemma StrayDangles(lines: seq<string>, line: string)
    requires line in lines && Stray(lines, line)
    ensures line in Collect(lines).out && Dangling(Collect(lines).mods, line)
  {
    CollectLayout(lines);
    ImportsIff(lines, line[|PLACEHOLDER|..]);
    assert Text(line) in Skeleton(lines);
    var i :| 0 <= i < |Skeleton(lines)| && Skeleton(lines)[i] == Text(line);
    assert Collect(lines).out[i] == line;
  }

  lemma ImportsIff(lines: seq<string>, mod: string)
    ensures Import(mod) in Skeleton(lines) <==> Imports(lines, mod)
  {
  }

  function MergedImport(lines: seq<string>, mod: string): string {
    Render(mod, Unique(AllNames(lines, mod, true)), Unique(AllNames(lines, mod, false)))
  }

  /** The module whose import is written for an item, if there is one. */
  function ModuleFor(item: Item): Option<string> {
    match item
    case Import(mod) => Some(mod)
    case Text(line) => if Marked(line) then Some(line[|PLACEHOLDER|..]) else None
  }

  /** What becomes of one item of the skeleton. */
  predicate Finished(lines: seq<string>, item: Item, line: string) {
    var mod := ModuleFor(item);
    if mod.None? then line == item.line else Imports(lines, mod.value) && line == MergedImport(lines, mod.value)
  }

  lemma MarkedItemIs(item: Item)
    ensures Marked(MarkedItem(item)) <==> ModuleFor(item).Some?
    ensures ModuleFor(item).Some? ==> MarkedItem(item)[|PLACEHOLDER|..] == ModuleFor(item).value
  {
  }

  lemma MergedLine(lines: seq<string>, i: nat)
    requires Merged(lines).Some? && i < |Collect(lines).out| && Collect(lines).out == Layout(Skeleton(lines))
    ensures Finished(lines, Skeleton(lines)[i], FinishLines(Collect(lines).mods, Collect(lines).out)[i])
  {
    var c, item := Collect(lines), Skeleton(lines)[i];
    assert c.out[i] in c.out && !Dangling(c.mods, c.out[i]);
    MarkedItemIs(item);
    if ModuleFor(item).Some? {
      CollectNames(lines, ModuleFor(item).value);
      CollectLayout(lines);
      ImportsIff(lines, ModuleFor(item).value);
    }
  }

  lemma MergedLines(lines: seq<string>)
    requires Merged(lines).Some?
    ensures |Merged(lines).value| == |Skeleton(lines)|
    ensures forall i :: 0 <= i < |Skeleton(lines)| ==> Finished(lines, Skeleton(lines)[i], Merged(lines).value[i])
  {
    CollectLayout(lines);
    forall i | 0 <= i < |Skeleton(lines)|
      ensures Finished(lines, Skeleton(lines)[i], Merged(lines).value[i])
    {
      MergedLine(lines, i);
    }
  }

  lemma UniqueValid(ns: seq<string>)
    requires ValidNames(ns)
    ensures ValidNames(Unique(ns))
  {
  }

  /** How the import written for a module is read back. */
  lemma MergedImportReads(lines: seq<string>, mod: string)
    requires Imports(lines, mod)
    ensures var types, values := Unique(AllNames(lines, mod, true)), Unique(AllNames(lines, mod, false));
            Parse(MergedImport(lines, mod)) ==
            if values != [] then ValueImport(values + TypeNames(types), mod) else TypeImport(types, mod)
  {
    ImportsIff(lines, mod);
    NamesValid(lines, mod, true);
    NamesValid(lines, mod, false);
    UniqueValid(AllNames(lines, mod, true));
    UniqueValid(AllNames(lines, mod, false));
    ParseRendered(mod, Unique(AllNames(lines, mod, true)), Unique(AllNames(lines, mod, false)));
  }

  lemma FinishedItem(lines: seq<string>, item: Item, line: string)
    requires item in Skeleton(lines) && Finished(lines, item, line)
    ensures ItemOf(line) == if ModuleFor(item).Some? then Import(ModuleFor(item).value) else item
    ensures Parse(line).Other? ==> !Marked(line)
  {
    if ModuleFor(item).Some? {
      MergedImportReads(lines, ModuleFor(item).value);
    }
  }

  lemma MergedItems(lines: seq<string>)
    requires Merged(lines).Some?
    ensures |Merged(lines).value| == |Skeleton(lines)|
    ensures forall i :: 0 <= i < |Skeleton(lines)| ==>
              ItemOf(Merged(lines).value[i]) ==
              if ModuleFor(Skeleton(lines)[i]).Some? then Import(ModuleFor(Skeleton(lines)[i]).value)
              else Skeleton(lines)[i]
  {
    MergedLines(lines);
    forall i | 0 <= i < |Skeleton(lines)|
      ensures ItemOf(Merged(lines).value[i]) ==
              if ModuleFor(Skeleton(lines)[i]).Some? then Import(ModuleFor(Skeleton(lines)[i]).value)
              else Skeleton(lines)[i]
    {
      FinishedItem(lines, Skeleton(lines)[i], Merged(lines).value[i]);
    }
  }

  lemma NoPlaceholderIff(lines: seq<string>)
    ensures NoPlaceholder(lines) <==>
            forall item | item in Skeleton(lines) :: ModuleFor(item) == if item.Import? then Some(item.mod) else None
  {
    if line :| line in lines && Parse(line).Other? && Marked(line) {
      assert ItemOf(line) in Skeleton(lines);
    }
  }

  lemma NothingStray(lines: seq<string>)
    requires NoPlaceholder(lines)
    ensures Merged(lines).Some? && Items(Merged(lines).value) == Skeleton(lines)
  {
    ThrowsIff(lines);
    NoPlaceholderIff(lines);
    MergedItems(lines);
    var s := Skeleton(lines);
    forall i | 0 <= i < |s|
      ensures Items(Merged(lines).value)[i] == s[i]
    {
      assert s[i] in s;
    }
  }

  lemma MarkedIsReplaced(lines: seq<string>)
    requires Merged(lines).Some? && !NoPlaceholder(lines)
    ensures Items(Merged(lines).value) != Skeleton(lines)
  {
    MergedItems(lines);
    var i := MarkedText(lines);
    assert Items(Merged(lines).value)[i] != Skeleton(lines)[i];
  }

  lemma MarkedText(lines: seq<string>) returns (i: nat)
    requires !NoPlaceholder(lines)
    ensures i < |Skeleton(lines)| && Skeleton(lines)[i].Text? && ModuleFor(Skeleton(lines)[i]).Some?
  {
    var line :| line in lines && Parse(line).Other? && Marked(line);
    assert ItemOf(line) in Skeleton(lines);
    i :| 0 <= i < |Skeleton(lines)| && Skeleton(lines)[i] == ItemOf(line);
  }

  /**
    One import per module, where it was first imported, and every other line in order: exactly
    when no other line starts like a placeholder.
   */
  lemma SkeletonKeptIff(lines: seq<string>)
    ensures Merged(lines).Some? && Items(Merged(lines).value) == Skeleton(lines) <==> NoPlaceholder(lines)
  {
    if NoPlaceholder(lines) {
      NothingStray(lines);
    } else if Merged(lines).Some? {
      MarkedIsReplaced(lines);
    }
  }

  // ------------------------------------------------------------------------
  // Meaning.
  // ------------------------------------------------------------------------

  lemma TypeNameIn(types: seq<string>, name: string)
    ensures TYPE_KEYWORD + name in TypeNames(types) <==> name in types
    ensures name in TypeNames(types) ==> TYPE_KEYWORD <= name
  {
    if TYPE_KEYWORD + name in TypeNames(types) {
      var i :| 0 <= i < |types| && TypeNames(types)[i] == TYPE_KEYWORD + name;
      assert (TYPE_KEYWORD + types[i])[|TYPE_KEYWORD|..] == (TYPE_KEYWORD + name)[|TYPE_KEYWORD|..];
    }
    if name in types {
      var i :| 0 <= i < |types| && types[i] == name;
      assert TypeNames(types)[i] == TYPE_KEYWORD + name;
    }
  }

  lemma MergedImportBinds(lines: seq<string>, mod: string, name: string, asType: bool)
    requires Imports(lines, mod)
    ensures Binds(Parse(MergedImport(lines, mod)), mod, name, asType) <==> Means(lines, mod, name, asType)
  {
    MergedImportReads(lines, mod);
    MeansNames(lines, mod, name);
    TypeNameIn(Unique(AllNames(lines, mod, true)), name);
  }

  /** Every name stays bound to the same module, as a type or as a value, and no name is added. */
  lemma MeaningKept(lines: seq<string>, mod: string, name: string, asType: bool)
    requires Merged(lines).Some?
    ensures Means(Merged(lines).value, mod, name, asType) <==> Means(lines, mod, name, asType)
  {
    if Means(Merged(lines).value, mod, name, asType) {
      NothingAdded(lines, mod, name, asType);
    }
    if Means(lines, mod, name, asType) {
      NothingLost(lines, mod, name, asType);
    }
  }

  lemma NothingAdded(lines: seq<string>, mod: string, name: string, asType: bool)
    requires Merged(lines).Some? && Means(Merged(lines).value, mod, name, asType)
    ensures Means(lines, mod, name, asType)
  {
    var m, s := Merged(lines).value, Skeleton(lines);
    MergedLines(lines);
    var line :| line in m && Binds(Parse(line), mod, name, asType);
    var i :| 0 <= i < |m| && m[i] == line;
    FinishedItem(lines, s[i], line);
    MergedImportBinds(lines, mod, name, asType);
  }

  lemma NothingLost(lines: seq<string>, mod: string, name: string, asType: bool)
    requires Merged(lines).Some? && Means(lines, mod, name, asType)
    ensures Means(Merged(lines).value, mod, name, asType)
  {
    var m, s := Merged(lines).value, Skeleton(lines);
    MergedLines(lines);
    assert Imports(lines, mod);
    ImportsIff(lines, mod);
    var i :| 0 <= i < |s| && s[i] == Import(mod);
    MergedImportBinds(lines, mod, name, asType);
    assert Finished(lines, s[i], m[i]) && m[i] in m;
  }

  // ------------------------------------------------------------------------
  // Merging twice.
  // ------------------------------------------------------------------------

  /** No module has a name on a type import that a value import of it already writes with `type`. */
  predicate NoClash(lines: seq<string>) {
    forall a, b | a in lines && b in lines && Parse(a).TypeImport? && Parse(b).ValueImport? &&
                  Parse(a).mod == Parse(b).mod ::
      forall n | n in Parse(a).names :: TYPE_KEYWORD + n !in Parse(b).names
  }

  predicate Clashes(lines: seq<string>, mod: string) {
    exists n | n in AllNames(lines, mod, true) :: TYPE_KEYWORD + n in AllNames(lines, mod, false)
  }

  lemma {:induction false} NameFrom(lines: seq<string>, mod: string, onTypes: bool, n: string)
    ensures n in AllNames(lines, mod, onTypes) <==>
            exists line :: line in lines && !Parse(line).Other? && Parse(line).mod == mod &&
                           Parse(line).TypeImport? == onTypes && n in Parse(line).names
    decreases |lines|
  {
    if lines != [] {
      var init, last := lines[..|lines|-1], lines[|lines|-1];
      NameFrom(init, mod, onTypes, n);
      assert forall line :: line in lines <==> line in init || line == last;
    }
  }

  lemma NoClashIff(lines: seq<string>)
    ensures NoClash(lines) <==> forall mod | Imports(lines, mod) :: !Clashes(lines, mod)
  {
    if mod :| Imports(lines, mod) && Clashes(lines, mod) {
      ClashFound(lines, mod);
    }
    if a, b, n :| a in lines && b in lines && Parse(a).TypeImport? && Parse(b).ValueImport? &&
                  Parse(a).mod == Parse(b).mod && n in Parse(a).names && TYPE_KEYWORD + n in Parse(b).names {
      NameFrom(lines, Parse(a).mod, true, n);
      NameFrom(lines, Parse(a).mod, false, TYPE_KEYWORD + n);
      assert Imports(lines, Parse(a).mod) && Clashes(lines, Parse(a).mod);
    }
  }

  lemma ClashFound(lines: seq<string>, mod: string)
    requires Clashes(lines, mod)
    ensures !NoClash(lines)
  {
    var n :| n in AllNames(lines, mod, true) && TYPE_KEYWORD + n in AllNames(lines, mod, false);
    NameFrom(lines, mod, true, n);
    NameFrom(lines, mod, false, TYPE_KEYWORD + n);
  }

  lemma {:induction false} UniqueIff(ns: seq<string>)
    ensures Unique(ns) == ns <==> Distinct(ns)
    decreases |ns|
  {
    if ns != [] {
      var init := ns[..|ns|-1];
      if Distinct(ns) {
        UniqueIff(init);
        assert ns[|ns|-1] !in init;
      }
    }
  }

  lemma {:induction false} FirstImportsIff(items: seq<Item>)
    ensures FirstImports(items) == items <==>
            forall i, j :: 0 <= i < j < |items| && items[i].Import? ==> items[i] != items[j]
    decreases |items|
  {
    if items != [] {
      FirstImportsIff(items[..|items|-1]);
      FirstImportsShorter(items[..|items|-1]);
    }
  }

  lemma {:induction false} FirstImportsShorter(items: seq<Item>)
    ensures |FirstImports(items)| <= |items|
    decreases |items|
  {
    if items != [] {
      FirstImportsShorter(items[..|items|-1]);
    }
  }

  /** The names of a module that is imported on one line only. */
  lemma {:induction false} NamesOnce(lines: seq<string>, mod: string, at: nat, onTypes: bool)
    requires at < |lines| && ItemOf(lines[at]) == Import(mod)
    requires forall i :: 0 <= i < |lines| && i != at ==> ItemOf(lines[i]) != Import(mod)
    ensures AllNames(lines, mod, onTypes) == if Parse(lines[at]).TypeImport? == onTypes then Parse(lines[at]).names else []
    decreases |lines|
  {
    if at < |lines| - 1 {
      NamesOnce(lines[..|lines|-1], mod, at, onTypes);
    } else {
      NoNames(lines[..|lines|-1], mod, onTypes);
    }
  }

  lemma {:induction false} NoNames(lines: seq<string>, mod: string, onTypes: bool)
    requires forall i :: 0 <= i < |lines| ==> ItemOf(lines[i]) != Import(mod)
    ensures AllNames(lines, mod, onTypes) == []
    decreases |lines|
  {
    if lines != [] {
      NoNames(lines[..|lines|-1], mod, onTypes);
    }
  }

  /** What a merged file is, when no line carried a placeholder: one line for each item. */
  lemma MergedShape(lines: seq<string>)
    requires NoPlaceholder(lines)
    ensures Merged(lines).Some? && NoPlaceholder(Merged(lines).value)
    ensures Items(Merged(lines).value) == Skeleton(lines) == Skeleton(Merged(lines).value)
    ensures forall i :: 0 <= i < |Merged(lines).value| ==> Finished(lines, Skeleton(lines)[i], Merged(lines).value[i])
  {
    SkeletonKeptIff(lines);
    MergedLines(lines);
    MergedPlain(lines);
    FirstImportsIff(Items(Merged(lines).value));
  }

  lemma TypeNamesDiffer(types: seq<string>, i: nat, j: nat)
    requires Distinct(types) && i < j < |types|
    ensures TypeNames(types)[i] != TypeNames(types)[j]
  {
    assert TypeNames(types)[i][|TYPE_KEYWORD|..] == types[i];
    assert TypeNames(types)[j][|TYPE_KEYWORD|..] == types[j];
  }

  lemma DistinctTogether(types: seq<string>, values: seq<string>)
    requires Distinct(types) && Distinct(values)
    ensures Distinct(values + TypeNames(types)) <==> forall n | n in types :: TYPE_KEYWORD + n !in values
  {
    var all := values + TypeNames(types);
    if n :| n in types && TYPE_KEYWORD + n in values {
      var i :| 0 <= i < |types| && types[i] == n;
      var j :| 0 <= j < |values| && values[j] == TYPE_KEYWORD + n;
      assert all[j] == all[|values| + i];
    }
    if i, j :| 0 <= i < j < |all| && all[i] == all[j] {
      var n := types[j - |values|];
      assert all[j] == TYPE_KEYWORD + n && n in types;
      if i >= |values| {
        TypeNamesDiffer(types, i - |values|, j - |values|);
      }
    }
  }

  lemma RenderAgain(mod: string, types: seq<string>, values: seq<string>)
    requires ValidMod(mod) && ValidNames(types) && ValidNames(values) && Distinct(types) && Distinct(values)
    requires values != []
    ensures Render(mod, [], Unique(values + TypeNames(types))) == Render(mod, types, values) <==>
            forall n | n in types :: TYPE_KEYWORD + n !in values
  {
    var all := values + TypeNames(types);
    var once := Unique(all);
    DistinctTogether(types, values);
    UniqueIff(all);
    TypeNamesValid(types);
    assert values[0] in all;
    ParseRendered(mod, types, values);
    ParseRendered(mod, [], once);
    assert once + TypeNames([]) == once;
  }

  /** The import of a module in a merged file, merged once more. */
  lemma ImportAgain(lines: seq<string>, i: nat)
    requires NoPlaceholder(lines) && Merged(lines).Some? && i < |Merged(lines).value| == |Skeleton(lines)|
    requires Skeleton(lines)[i].Import?
    ensures var mod := Skeleton(lines)[i].mod;
            Imports(lines, mod) &&
            (MergedImport(Merged(lines).value, mod) == MergedImport(lines, mod) <==> !Clashes(lines, mod))
  {
    var m, mod := Merged(lines).value, Skeleton(lines)[i].mod;
    MergedShape(lines);
    assert Finished(lines, Skeleton(lines)[i], m[i]);
    MergedImportReads(lines, mod);
    forall k | 0 <= k < |m| && k != i
      ensures ItemOf(m[k]) != Import(mod)
    {
      assert Items(m)[k] == Skeleton(lines)[k];
    }
    NamesOnce(m, mod, i, true);
    NamesOnce(m, mod, i, false);
    var types, values := Unique(AllNames(lines, mod, true)), Unique(AllNames(lines, mod, false));
    UniqueIff(types);
    if values != [] {
      NamesValid(lines, mod, true);
      NamesValid(lines, mod, false);
      ImportsIff(lines, mod);
      RenderAgain(mod, types, values);
    }
  }

  /**
    Merging a merged file changes nothing: exactly when no line carried a placeholder and no
    module lists `type X` among its values beside the type X.
   */
  lemma IdempotentIff(lines: seq<string>)
    requires Merged(lines).Some?
    ensures Merged(Merged(lines).value) == Merged(lines) <==> NoPlaceholder(lines) && NoClash(lines)
  {
    if NoPlaceholder(lines) {
      MergedShape(lines);
      MergedShape(Merged(lines).value);
      NoClashIff(lines);
      if NoClash(lines) {
        MergedAgain(lines);
      } else {
        var mod :| Imports(lines, mod) && Clashes(lines, mod);
        ImportsIff(lines, mod);
        var i :| 0 <= i < |Skeleton(lines)| && Skeleton(lines)[i] == Import(mod);
        ImportAgain(lines, i);
        assert Finished(lines, Import(mod), Merged(lines).value[i]);
        assert Finished(Merged(lines).value, Import(mod), Merged(Merged(lines).value).value[i]);
      }
    } else {
      PlaceholderDoubles(lines);
    }
  }

  lemma MergedAgain(lines: seq<string>)
    requires NoPlaceholder(lines) && forall mod | Imports(lines, mod) :: !Clashes(lines, mod)
    ensures Merged(lines).Some? && Merged(Merged(lines).value) == Merged(lines)
  {
    MergedShape(lines);
    var m, s := Merged(lines).value, Skeleton(lines);
    MergedShape(m);
    forall i | 0 <= i < |m|
      ensures Merged(m).value[i] == m[i]
    {
      assert Finished(lines, s[i], m[i]) && Finished(m, s[i], Merged(m).value[i]);
      if s[i].Import? {
        ImportAgain(lines, i);
      } else {
        assert s[i] in s;
      }
    }
    assert Merged(m).value == m;
  }

  /** A line taken for the placeholder of an imported module becomes a second import of it. */
  lemma PlaceholderDoubles(lines: seq<string>)
    requires Merged(lines).Some? && !NoPlaceholder(lines)
    ensures Merged(Merged(lines).value) != Merged(lines)
  {
    var i, j := ImportedTwice(lines);
    MergedPlain(lines);
    SkeletonKeptIff(Merged(lines).value);
    assert Items(Merged(lines).value)[i] == Items(Merged(lines).value)[j];
  }

  lemma ImportedTwice(lines: seq<string>) returns (i: nat, j: nat)
    requires Merged(lines).Some? && !NoPlaceholder(lines)
    ensures i < |Merged(lines).value| && j < |Merged(lines).value| && i != j
    ensures ItemOf(Merged(lines).value[i]) == ItemOf(Merged(lines).value[j])
    ensures ItemOf(Merged(lines).value[i]).Import?
  {
    var s := Skeleton(lines);
    MergedLines(lines);
    MergedItems(lines);
    i := MarkedText(lines);
    assert Finished(lines, s[i], Merged(lines).value[i]);
    ImportsIff(lines, ModuleFor(s[i]).value);
    j :| 0 <= j < |s| && s[j] == Import(ModuleFor(s[i]).value);
  }

  /** No merged line is marked any more. */
  lemma MergedPlain(lines: seq<string>)
    requires Merged(lines).Some?
    ensures NoPlaceholder(Merged(lines).value)
  {
    MergedLines(lines);
    forall line | line in Merged(lines).value
      ensures Parse(line).Other? ==> !Marked(line)
    {
      var i :| 0 <= i < |Skeleton(lines)| && Merged(lines).value[i] == line;
      FinishedItem(lines, Skeleton(lines)[i], line);
    }
  }

  // ------------------------------------------------------------------------
  // Files that are not merged well.
  // ------------------------------------------------------------------------

  lemma PlaceholderIsNoImport(mod: string)
    ensures Parse(PLACEHOLDER + mod).Other? && Marked(PLACEHOLDER + mod)
    ensures (PLACEHOLDER + mod)[|PLACEHOLDER|..] == mod
  {
    assert (PLACEHOLDER + mod)[0] == '_' && TYPE_PREFIX[0] == 'i' && VALUE_PREFIX[0] == 'i';
  }

  /** A line with the placeholder of a module that is not imported makes the merge throw. */
  lemma StrayLineThrows(mod: string)
    ensures Merged([PLACEHOLDER + mod]) == None
  {
    var lines := [PLACEHOLDER + mod];
    PlaceholderIsNoImport(mod);
    ThrowsIff(lines);
    assert lines[0] in lines && Stray(lines, lines[0]);
  }

  /** A line with the placeholder of an imported module becomes a second import, and so is gone. */
  lemma PlaceholderLineIsLost(line: string, mod: string)
    requires !Parse(line).Other? && Parse(line).mod == mod
    ensures var lines := [line, PLACEHOLDER + mod];
            Merged(lines).Some? && Items(Merged(lines).value) != Skeleton(lines)
  {
    var lines := [line, PLACEHOLDER + mod];
    PlaceholderIsNoImport(mod);
    assert lines[0] in lines && lines[1] in lines && Imports(lines, mod);
    assert !NoPlaceholder(lines);
    NothingStrayIn(lines, mod);
    SkeletonKeptIff(lines);
  }

  lemma NothingStrayIn(lines: seq<string>, mod: string)
    requires Imports(lines, mod)
    requires forall l | l in lines :: Parse(l).Other? && Marked(l) ==> l[|PLACEHOLDER|..] == mod
    ensures Merged(lines).Some?
  {
    ThrowsIff(lines);
  }

  lemma OneType(name: string, mod: string)
    requires ValidName(name) && ValidMod(mod)
    ensures Parse(Render(mod, [name], [])) == TypeImport([name], mod)
  {
    ParseRendered(mod, [name], []);
  }

  lemma OneValue(name: string, mod: string)
    requires ValidName(name) && ValidMod(mod)
    ensures Parse(Render(mod, [], [name])) == ValueImport([name], mod)
  {
    ParseRendered(mod, [], [name]);
    assert [name] + TypeNames([]) == [name];
  }

  lemma TypedNameIsValid(name: string)
    requires ValidName(name)
    ensures ValidName(TYPE_KEYWORD + name)
  {
  }

  /** `import type { X }` and `import { type X }` of one module: merged again, X is listed once less. */
  lemma TypeWrittenTwice(name: string, mod: string)
    requires ValidName(name) && ValidMod(mod)
    ensures var lines := [Render(mod, [name], []), Render(mod, [], [TYPE_KEYWORD + name])];
            Merged(lines).Some? && Merged(Merged(lines).value) != Merged(lines)
  {
    var a, b := Render(mod, [name], []), Render(mod, [], [TYPE_KEYWORD + name]);
    var lines := [a, b];
    OneType(name, mod);
    TypedNameIsValid(name);
    OneValue(TYPE_KEYWORD + name, mod);
    assert a in lines && b in lines && name in Parse(a).names && TYPE_KEYWORD + name in Parse(b).names;
    NothingStrayIn(lines, mod);
    IdempotentIff(lines);
  }

  // ------------------------------------------------------------------------
  // The merged file, place by place.
  // ------------------------------------------------------------------------

  /** `r` is what `s` holds at the places in `kept`, in order; `at` lists these places. */
  ghost predicate Picked<T>(r: seq<T>, s: seq<T>, at: seq<nat>, kept: set<nat>) {
    && |at| == |r|
    && (forall k :: 0 <= k < |at| ==> at[k] < |s| && r[k] == s[at[k]])
    && (forall j, k :: 0 <= j < k < |at| ==> at[j] < at[k])
    && (forall i: nat :: i in at <==> i in kept)
  }

  lemma PickNext<T>(r: seq<T>, s: seq<T>, at: seq<nat>, kept: set<nat>, x: T)
    requires Picked(r, s, at, kept)
    ensures Picked(r, s + [x], at, kept)
    ensures Picked(r + [x], s + [x], at + [|s|], kept + {|s|})
  {
  }

  function FirstPlaces(ns: seq<string>): set<nat> {
    set i: nat | i < |ns| && ns[i] !in ns[..i]
  }

  lemma FirstPlacesGrow(ns: seq<string>, n: string)
    ensures FirstPlaces(ns + [n]) == FirstPlaces(ns) + if n in ns then {} else {|ns|}
  {
    var more := ns + [n];
    assert forall i | 0 <= i <= |ns| :: more[..i] == ns[..i];
    assert forall i | 0 <= i < |ns| :: more[i] == ns[i];
  }

  lemma UniqueGrows(ns: seq<string>, n: string)
    ensures Unique(ns + [n]) == Unique(ns) + if n in ns then [] else [n]
  {
    assert (ns + [n])[..|ns|] == ns;
  }

  lemma NextName(ns: seq<string>, n: string, at: seq<nat>) returns (more: seq<nat>)
    requires Picked(Unique(ns), ns, at, FirstPlaces(ns))
    ensures Picked(Unique(ns + [n]), ns + [n], more, FirstPlaces(ns + [n]))
  {
    PickNext(Unique(ns), ns, at, FirstPlaces(ns), n);
    UniqueGrows(ns, n);
    FirstPlacesGrow(ns, n);
    if n in ns {
      more := at;
      assert Unique(ns + [n]) == Unique(ns) && FirstPlaces(ns + [n]) == FirstPlaces(ns);
    } else {
      more := at + [|ns|];
    }
  }

  /** `Unique` keeps each name of a list where it comes up first, in the order of the list. */
  lemma {:induction false} UniqueIs(ns: seq<string>) returns (at: seq<nat>)
    ensures Picked(Unique(ns), ns, at, FirstPlaces(ns))
    decreases |ns|
  {
    at := [];
    if ns != [] {
      assert ns == ns[..|ns|-1] + [ns[|ns|-1]];
      at := UniqueIs(ns[..|ns|-1]);
      at := NextName(ns[..|ns|-1], ns[|ns|-1], at);
    }
  }

  /** A line that leaves something: it is no import, or it is the first import of its module. */
  predicate Leaves(before: seq<string>, line: string) {
    Parse(line).Other? || !Imports(before, Parse(line).mod)
  }

  ghost function Kept(lines: seq<string>): set<nat> {
    set i: nat | i < |lines| && Leaves(lines[..i], lines[i])
  }

  lemma KeptGrows(init: seq<string>, last: string)
    ensures Kept(init + [last]) == Kept(init) + if Leaves(init, last) then {|init|} else {}
  {
    var lines := init + [last];
    assert forall i | 0 <= i < |init| :: lines[..i] == init[..i] && lines[i] == init[i];
    assert lines[..|init|] == init;
  }

  lemma ItemsGrow(init: seq<string>, last: string)
    ensures Items(init + [last]) == Items(init) + [ItemOf(last)]
  {
  }

  lemma FirstGrow(items: seq<Item>, last: Item)
    ensures FirstImports(items + [last]) == FirstImports(items) + if last.Import? && last in items then [] else [last]
  {
    assert (items + [last])[..|items|] == items;
  }

  lemma SkeletonGrows(init: seq<string>, last: string)
    ensures Skeleton(init + [last]) == Skeleton(init) +
            if Leaves(init, last) then [ItemOf(last)] else []
  {
    ItemsGrow(init, last);
    FirstGrow(Items(init), ItemOf(last));
    if !Parse(last).Other? {
      ImportsIff(init, Parse(last).mod);
    }
  }

  ghost predicate Shown(lines: seq<string>, at: seq<nat>) {
    Picked(Skeleton(lines), Items(lines), at, Kept(lines))
  }

  lemma ShownMore(init: seq<string>, last: string, at: seq<nat>) returns (more: seq<nat>)
    requires Shown(init, at)
    ensures Shown(init + [last], more)
  {
    PickNext(Skeleton(init), Items(init), at, Kept(init), ItemOf(last));
    KeptGrows(init, last);
    SkeletonGrows(init, last);
    ItemsGrow(init, last);
    if Leaves(init, last) {
      more := at + [|init|];
    } else {
      more := at;
      assert Skeleton(init + [last]) == Skeleton(init) && Kept(init + [last]) == Kept(init);
    }
  }

  lemma NothingShown()
    ensures Shown([], [])
  {
  }

  lemma {:induction false} SkeletonIs(lines: seq<string>) returns (at: seq<nat>)
    ensures Shown(lines, at)
    decreases |lines|
  {
    if lines == [] {
      NothingShown();
      at := [];
    } else {
      assert lines == lines[..|lines|-1] + [lines[|lines|-1]];
      at := SkeletonIs(lines[..|lines|-1]);
      at := ShownMore(lines[..|lines|-1], lines[|lines|-1], at);
    }
  }

  /** What the merge writes where `line` stood. */
  ghost predicate Becomes(lines: seq<string>, line: string, written: string) {
    var p := Parse(line);
    if !p.Other? then written == MergedImport(lines, p.mod)
    else if Marked(line) then written == MergedImport(lines, line[|PLACEHOLDER|..])
    else written == line
  }

  /** The whole merged file: what stands where a line stood, and which lines leave nothing. */
  lemma MergedIs(lines: seq<string>) returns (at: seq<nat>)
    requires Merged(lines).Some?
    ensures |at| == |Merged(lines).value| && forall i: nat :: i in at <==> i in Kept(lines)
    ensures forall j, k :: 0 <= j < k < |at| ==> at[j] < at[k] < |lines|
    ensures forall k :: 0 <= k < |at| ==> at[k] < |lines| && Becomes(lines, lines[at[k]], Merged(lines).value[k])
  {
    at := SkeletonIs(lines);
    MergedLines(lines);
    forall k | 0 <= k < |at|
      ensures Becomes(lines, lines[at[k]], Merged(lines).value[k])
    {
      assert Finished(lines, Skeleton(lines)[k], Merged(lines).value[k]);
    }
  }

  /** The import that is written for a module: values first, and `type` before each type among them. */
  lemma RenderIs(mod: string, types: seq<string>, values: seq<string>)
    ensures values == [] ==>
      Render(mod, types, values) == "import type { " + TextEdits.Join(types, ", ") + " } from '" + mod + "';"
    ensures values != [] ==>
      Render(mod, types, values) ==
        "import { " + TextEdits.Join(values + TypeNames(types), ", ") + " } from '" + mod + "';"
  {
    if values == [] {
      LineIs(TYPE_PREFIX, types, mod);
    } else {
      LineIs(VALUE_PREFIX, values + TypeNames(types), mod);
    }
  }

  lemma LineIs(prefix: string, names: seq<string>, mod: string)
    ensures ImportLine(prefix, names, mod) == prefix + " " + TextEdits.Join(names, ", ") + " } from '" + mod + "';"
  {
    var list := TextEdits.Join(names, ", ");
    FourParts(prefix + (" " + list + " "), "} from '", mod, "';");
    assert prefix + (" " + list + " ") + "} from '" == prefix + " " + list + " } from '";
  }

  function NamesIn(line: string, mod: string, onTypes: bool): seq<string> {
    var p := Parse(line);
    if !p.Other? && p.mod == mod && p.TypeImport? == onTypes then p.names else []
  }

  lemma AllNamesGrow(lines: seq<string>, line: string, mod: string, onTypes: bool)
    ensures AllNames(lines + [line], mod, onTypes) == AllNames(lines, mod, onTypes) + NamesIn(line, mod, onTypes)
  {
    assert (lines + [line])[..|lines|] == lines && (lines + [line])[|lines|] == line;
  }

  lemma Regrouped<T>(a: seq<T>, b: seq<T>, c: seq<T>)
    ensures a + (b + c) == a + b + c
  {
  }

  /** The names of a module are those on its lines, in the order of the lines and on each in its own. */
  lemma {:induction false} AllNamesJoin(a: seq<string>, b: seq<string>, mod: string, onTypes: bool)
    ensures AllNames(a + b, mod, onTypes) == AllNames(a, mod, onTypes) + AllNames(b, mod, onTypes)
    decreases |b|
  {
    if b == [] {
      assert a + b == a;
    } else {
      var init, last := b[..|b|-1], b[|b|-1];
      assert b == init + [last];
      Regrouped(a, init, [last]);
      AllNamesJoin(a, init, mod, onTypes);
      AllNamesGrow(a + init, last, mod, onTypes);
      AllNamesGrow(init, last, mod, onTypes);
      Regrouped(AllNames(a, mod, onTypes), AllNames(init, mod, onTypes), NamesIn(last, mod, onTypes));
    }
  }

  lemma NamesOnLine(line: string, mod: string)
    ensures AllNames([line], mod, true) == (if Parse(line).TypeImport? && Parse(line).mod == mod then Parse(line).names else [])
    ensures AllNames([line], mod, false) == (if Parse(line).ValueImport? && Parse(line).mod == mod then Parse(line).names else [])
  {
  }
}
