/**
  Text transformations of scripts/sync-agent-host-protocol.ts that work on whole files:
  splitting into lines, converting indentation, and applying formatting edits in place.
 */
module TextEdits {
  import opened Wrappers

  // ------------------------------------------------------------------------
  // Splitting and joining.
  // ------------------------------------------------------------------------

  /** The first place of `c` in `s`, or the length of `s`. */
  function Find(s: string, c: char): (i: nat)
    ensures i <= |s| && (i < |s| ==> s[i] == c)
    ensures forall k :: 0 <= k < i ==> s[k] != c
  {
    if s == [] || s[0] == c then 0 else 1 + Find(s[1..], c)
  }

  function Split(s: string, c: char): (parts: seq<string>)
    ensures parts != [] && forall p | p in parts :: c !in p
    decreases |s|
  {
    var i := Find(s, c);
    if i == |s| then [s] else [s[..i]] + Split(s[i + 1..], c)
  }

  function Join(parts: seq<string>, sep: string): string
    decreases |parts|
  {
    if parts == [] then "" else if |parts| == 1 then parts[0] else parts[0] + sep + Join(parts[1..], sep)
  }

  lemma FindUnique(s: string, c: char, i: nat)
    requires i <= |s| && (i < |s| ==> s[i] == c) && forall k :: 0 <= k < i ==> s[k] != c
    ensures Find(s, c) == i
  {
  }

  lemma SplitAfter(p: string, c: char, rest: string)
    requires c !in p
    ensures Split(p + [c] + rest, c) == [p] + Split(rest, c)
  {
    var s := p + [c] + rest;
    assert s[..|p|] == p && s[|p| + 1..] == rest;
    FindUnique(s, c, |p|);
  }

  lemma {:induction false} SplitJoin(parts: seq<string>, c: char)
    requires parts != [] && forall p | p in parts :: c !in p
    ensures Split(Join(parts, [c]), c) == parts
    decreases |parts|
  {
    var s, p := Join(parts, [c]), parts[0];
    assert p in parts;
    if |parts| == 1 {
      assert s[..|s|] == s;
      FindUnique(s, c, |s|);
      assert parts == [p];
    } else {
      SplitAfter(p, c, Join(parts[1..], [c]));
      SplitJoin(parts[1..], c);
      assert parts == [p] + parts[1..];
    }
  }

  lemma JoinCons(first: string, rest: seq<string>, sep: string)
    requires rest != []
    ensures Join([first] + rest, sep) == first + sep + Join(rest, sep)
  {
    assert ([first] + rest)[1..] == rest;
  }

  lemma AroundOne(s: string, i: nat)
    requires i < |s|
    ensures s == s[..i] + [s[i]] + s[i + 1..]
  {
  }

  lemma {:induction false} JoinSplit(s: string, c: char)
    ensures Join(Split(s, c), [c]) == s
    decreases |s|
  {
    var i := Find(s, c);
    if i < |s| {
      JoinSplit(s[i + 1..], c);
      JoinCons(s[..i], Split(s[i + 1..], c), [c]);
      AroundOne(s, i);
    }
  }

  // ------------------------------------------------------------------------
  // Indentation.
  // ------------------------------------------------------------------------

  function LeadingSpaces(line: string): (n: nat)
    ensures n <= |line| && (n < |line| ==> line[n] != ' ')
    ensures forall k :: 0 <= k < n ==> line[k] == ' '
  {
    if line == [] || line[0] != ' ' then 0 else 1 + LeadingSpaces(line[1..])
  }

  function Repeat(c: char, n: nat): (s: string)
    ensures |s| == n && forall k :: 0 <= k < n ==> s[k] == c
  {
    seq(n, _ => c)
  }

  function ConvertLine(line: string): string {
    var spaces := LeadingSpaces(line);
    Repeat('\t', spaces / 2) + Repeat(' ', spaces % 2) + line[spaces..]
  }

  predicate Blank(c: char) {
    c == ' ' || c == '\t'
  }

  /** The column of the first character that is not indentation, with two columns to a tab. */
  function Width(line: string): nat {
    if line == [] || !Blank(line[0]) then 0 else (if line[0] == '\t' then 2 else 1) + Width(line[1..])
  }

  /** The line without its indentation. */
  function Text(line: string): string {
    if line == [] || !Blank(line[0]) then line else Text(line[1..])
  }

  lemma {:induction false} IndentedBy(c: char, n: nat, line: string)
    requires Blank(c)
    ensures Width(Repeat(c, n) + line) == n * (if c == '\t' then 2 else 1) + Width(line)
    ensures Text(Repeat(c, n) + line) == Text(line)
    decreases n
  {
    var s := Repeat(c, n) + line;
    if n == 0 {
      assert s == line;
    } else {
      assert s[0] == c && s[1..] == Repeat(c, n - 1) + line;
      IndentedBy(c, n - 1, line);
    }
  }

  lemma SpacesThen(line: string)
    ensures line == Repeat(' ', LeadingSpaces(line)) + line[LeadingSpaces(line)..]
  {
  }

  lemma LeadingSpacesUnique(line: string, n: nat)
    requires n <= |line| && (n < |line| ==> line[n] != ' ') && forall k :: 0 <= k < n ==> line[k] == ' '
    ensures LeadingSpaces(line) == n
  {
  }

  lemma ConvertLineKeepsText(line: string)
    ensures Width(ConvertLine(line)) == Width(line) && Text(ConvertLine(line)) == Text(line)
  {
    var n := LeadingSpaces(line);
    var rest := line[n..];
    SpacesThen(line);
    IndentedBy(' ', n, rest);
    IndentedBy(' ', n % 2, rest);
    IndentedBy('\t', n / 2, Repeat(' ', n % 2) + rest);
    Assoc(Repeat('\t', n / 2), Repeat(' ', n % 2), rest);
  }

  /** A line that starts with a tab, or with one space at most, stays as it is. */
  lemma ConvertedStays(line: string, n: nat)
    requires n <= 1 && n <= |line| && (n < |line| ==> line[n] != ' ') && forall k :: 0 <= k < n ==> line[k] == ' '
    ensures ConvertLine(line) == line
  {
    LeadingSpacesUnique(line, n);
    assert Repeat('\t', 0) + Repeat(' ', n) == line[..n];
    assert line[..n] + line[n..] == line;
  }

  lemma ConvertTwice(line: string)
    ensures ConvertLine(ConvertLine(line)) == ConvertLine(line)
  {
    var n := LeadingSpaces(line);
    ConvertedStays(ConvertLine(line), if n >= 2 then 0 else n);
  }

  /**
    Leading spaces become as many tabs as there are pairs of them, with one space behind if one is
    left over; the rest of the line stays, whatever it starts with.
   */
  lemma SpacesBecomeTabs(n: nat, rest: string) returns (tabs: nat, left: nat)
    requires rest == "" || rest[0] != ' '
    ensures left <= 1 && 2 * tabs + left == n
    ensures ConvertLine(Repeat(' ', n) + rest) == Repeat('\t', tabs) + Repeat(' ', left) + rest
  {
    var line := Repeat(' ', n) + rest;
    LeadingSpacesUnique(line, n);
    assert line[n..] == rest;
    tabs, left := n / 2, n % 2;
  }

  /** Converting a line keeps its width and its text, and a second time changes nothing. */
  lemma ConvertLineKeeps(line: string)
    ensures Width(ConvertLine(line)) == Width(line) && Text(ConvertLine(line)) == Text(line)
    ensures ConvertLine(ConvertLine(line)) == ConvertLine(line)
  {
    ConvertLineKeepsText(line);
    ConvertTwice(line);
  }

  function ConvertLines(lines: seq<string>): (r: seq<string>)
    ensures |r| == |lines| && forall i :: 0 <= i < |lines| ==> r[i] == ConvertLine(lines[i])
  {
    seq(|lines|, i requires 0 <= i < |lines| => ConvertLine(lines[i]))
  }

  function ConvertIndentation(content: string): string {
    Join(ConvertLines(Split(content, '\n')), "\n")
  }

  /** In a file, each line is converted for itself, and converting twice is converting once. */
  lemma ConvertKeepsLines(content: string)
    ensures Split(ConvertIndentation(content), '\n') == ConvertLines(Split(content, '\n'))
    ensures ConvertIndentation(ConvertIndentation(content)) == ConvertIndentation(content)
  {
    var lines := Split(content, '\n');
    var converted := ConvertLines(lines);
    forall p | p in converted
      ensures '\n' !in p
    {
      var i :| 0 <= i < |lines| && converted[i] == p;
      assert lines[i] in lines;
      NoNewlineConverted(lines[i]);
    }
    SplitJoin(converted, '\n');
    forall i | 0 <= i < |lines|
      ensures ConvertLines(converted)[i] == converted[i]
    {
      ConvertLineKeeps(lines[i]);
    }
    assert ConvertLines(converted) == converted;
  }

  lemma NoNewlineConverted(line: string)
    requires '\n' !in line
    ensures '\n' !in ConvertLine(line)
  {
  }

  // ------------------------------------------------------------------------
  // Edits.
  // ------------------------------------------------------------------------

  datatype Edit = Edit(start: nat, length: nat, newText: string)

  function EndOf(e: Edit): nat {
    e.start + e.length
  }

  /** Sorted, within the content and not overlapping, as the formatter returns them. */
  predicate Ordered(edits: seq<Edit>, from: nat, size: nat)
    decreases |edits|
  {
    if edits == [] then from <= size
    else from <= edits[0].start && Ordered(edits[1..], EndOf(edits[0]), size)
  }

  /** All spans replaced at once: the content between them, and the new texts. */
  function Replaced(content: string, edits: seq<Edit>, from: nat): string
    requires Ordered(edits, from, |content|)
    decreases |edits|
  {
    OrderedFits(edits, from, |content|);
    if edits == [] then content[from..]
    else content[from..edits[0].start] + edits[0].newText + Replaced(content, edits[1..], EndOf(edits[0]))
  }

  lemma {:induction false} OrderedFits(edits: seq<Edit>, from: nat, size: nat)
    requires Ordered(edits, from, size)
    ensures from <= size && (edits != [] ==> EndOf(edits[0]) <= size)
    decreases |edits|
  {
    if edits != [] {
      OrderedFits(edits[1..], EndOf(edits[0]), size);
    }
  }

  lemma {:induction false} OrderedFrom(edits: seq<Edit>, i: nat, from: nat, size: nat)
    requires Ordered(edits, from, size) && i <= |edits|
    ensures Ordered(edits[i..], if i == 0 then from else EndOf(edits[i - 1]), size)
    decreases i
  {
    if i == 0 {
      assert edits[0..] == edits;
    } else {
      OrderedFrom(edits[1..], i - 1, EndOf(edits[0]), size);
      assert edits[1..][i - 1..] == edits[i..];
    }
  }

  /** Content before the first edit stays as it is. */
  lemma ReplacedFrom(content: string, edits: seq<Edit>, from: nat)
    requires Ordered(edits, from, |content|)
    ensures from <= |content| && Ordered(edits, 0, |content|)
    ensures Replaced(content, edits, 0) == content[..from] + Replaced(content, edits, from)
  {
    OrderedFits(edits, from, |content|);
    if edits == [] {
      assert content[0..] == content[..from] + content[from..];
    } else {
      assert content[0..edits[0].start] == content[..from] + content[from..edits[0].start];
      Regroup(content[..from], content[from..edits[0].start], edits[0].newText,
              Replaced(content, edits[1..], EndOf(edits[0])));
    }
  }

  lemma Regroup(a: string, b: string, c: string, d: string)
    ensures (a + b) + c + d == a + (b + c + d)
  {
  }

  /** The edits applied in place, from the last to the first, replace all spans at once. */
  method ApplyEdits(original: string, edits: seq<Edit>) returns (content: string)
    requires Ordered(edits, 0, |original|)
    ensures content == Replaced(original, edits, 0)
  {
    content := original;
    OrderedFrom(edits, |edits|, 0, |original|);
    assert edits[|edits|..] == [];
    var i := |edits|;
    while i > 0
      invariant 0 <= i <= |edits| && Ordered(edits[i..], if i == 0 then 0 else EndOf(edits[i - 1]), |original|)
      invariant Ordered(edits[i..], 0, |original|) && content == Replaced(original, edits[i..], 0)
    {
      i := i - 1;
      var e := edits[i];
      ghost var later := edits[i + 1..];
      ReplacedFrom(original, later, EndOf(e));
      OrderedFrom(edits, i, 0, |original|);
      assert edits[i..] == [e] + later;
      OrderedFits(edits[i..], if i == 0 then 0 else EndOf(edits[i - 1]), |original|);
      ReplacedFrom(original, edits[i..], if i == 0 then 0 else EndOf(edits[i - 1]));
      assert content[..e.start] == original[0..e.start];
      assert content[e.start + e.length..] == Replaced(original, later, EndOf(e));
      content := content[..e.start] + e.newText + content[e.start + e.length..];
    }
    assert edits[0..] == edits;
  }
}
