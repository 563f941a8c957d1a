/**
  JSON values as ECMAScript holds them once parsed: objects keep their fields in order, and a
  number stands for itself by the text that converting it to a string gives, so that equal numbers
  are equal values. A literal that overflows is read as a number that is not finite.
 */
module JsonValues {
  import opened Wrappers

  datatype Json =
    | Null
    | Bool(b: bool)
    | Number(text: string)
    | Str(s: string)
    | Array(items: seq<Json>)
    | Obj(fields: seq<Field>)

  datatype Field = Field(key: string, value: Json)

  type Fields = seq<Field>

  // ------------------------------------------------------------------------
  // Whole numbers as they are written.
  // ------------------------------------------------------------------------

  function Digits(n: nat): (s: string)
    ensures s != ""
  {
    if n < 10 then [("0123456789")[n]] else Digits(n / 10) + [("0123456789")[n % 10]]
  }

  /** The number that a text of decimal digits stands for. */
  function Decimal(s: string): nat {
    if s == "" then 0
    else 10 * Decimal(s[..|s|-1]) + if '0' <= s[|s|-1] <= '9' then (s[|s|-1] - '0') as nat else 0
  }

  lemma DecimalSnoc(s: string, d: nat)
    requires d < 10
    ensures Decimal(s + [("0123456789")[d]]) == 10 * Decimal(s) + d
  {
    assert (s + [("0123456789")[d]])[..|s|] == s;
  }

  lemma {:induction false} DigitsRead(n: nat)
    ensures Decimal(Digits(n)) == n
    decreases n
  {
    if n < 10 {
      DecimalSnoc("", n);
      assert "" + Digits(n) == Digits(n);
    } else {
      var q, d := n / 10, n % 10;
      DigitsRead(q);
      DecimalSnoc(Digits(q), d);
      assert Digits(n) == Digits(q) + [("0123456789")[d]];
    }
  }

  // ------------------------------------------------------------------------
  // Reading fields.
  // ------------------------------------------------------------------------

  function IndexOf(fs: Fields, key: string): (i: nat)
    ensures i <= |fs| && (i < |fs| ==> fs[i].key == key)
    ensures forall k :: 0 <= k < i ==> fs[k].key != key
  {
    if fs == [] || fs[0].key == key then 0 else 1 + IndexOf(fs[1..], key)
  }

  predicate Has(fs: Fields, key: string) {
    IndexOf(fs, key) < |fs|
  }

  function Get(fs: Fields, key: string): Option<Json> {
    if Has(fs, key) then Some(fs[IndexOf(fs, key)].value) else None
  }

  predicate DistinctKeys(fs: Fields) {
    forall i, j :: 0 <= i < j < |fs| ==> fs[i].key != fs[j].key
  }

  function Keys(fs: Fields): set<string> {
    set f | f in fs :: f.key
  }

  /** `value?.key` */
  function Member(v: Json, key: string): Option<Json> {
    if v.Obj? then Get(v.fields, key) else None
  }

  /** What the condition of an `if` makes of a value. */
  predicate Truthy(v: Json) {
    match v
    case Null => false
    case Bool(b) => b
    case Number(text) => text != "0"
    case Str(s) => s != ""
    case _ => true
  }

  // ------------------------------------------------------------------------
  // Changing fields.
  // ------------------------------------------------------------------------

  /** `o[key] = value` */
  function Set(fs: Fields, key: string, value: Json): Fields {
    var i := IndexOf(fs, key);
    if i < |fs| then fs[i := Field(key, value)] else fs + [Field(key, value)]
  }

  /** `delete o[key]` */
  function Delete(fs: Fields, key: string): Fields {
    var i := IndexOf(fs, key);
    if i < |fs| then fs[..i] + fs[i + 1..] else fs
  }

  /** `{ ...a, ...b }` */
  function Spread(a: Fields, b: Fields): Fields
    decreases |b|
  {
    if b == [] then a else Spread(Set(a, b[0].key, b[0].value), b[1..])
  }

  lemma IndexUnique(fs: Fields, key: string, i: nat)
    requires DistinctKeys(fs) && i < |fs| && fs[i].key == key
    ensures IndexOf(fs, key) == i
  {
  }

  lemma HasIffKey(fs: Fields, key: string)
    ensures Has(fs, key) <==> exists i :: 0 <= i < |fs| && fs[i].key == key
    ensures Has(fs, key) <==> key in Keys(fs)
  {
    if Has(fs, key) {
      assert fs[IndexOf(fs, key)] in fs;
    }
  }

  lemma SetFacts(fs: Fields, key: string, value: Json, k: string)
    requires DistinctKeys(fs)
    ensures DistinctKeys(Set(fs, key, value))
    ensures Get(Set(fs, key, value), k) == if k == key then Some(value) else Get(fs, k)
  {
    var r := Set(fs, key, value);
    if IndexOf(fs, k) < |fs| {
      IndexUnique(r, k, IndexOf(fs, k));
    } else if k == key {
      IndexUnique(r, k, |fs|);
    }
  }

  lemma NoKey(fs: Fields, k: string)
    requires forall j :: 0 <= j < |fs| ==> fs[j].key != k
    ensures !Has(fs, k) && Get(fs, k) == None
  {
  }

  lemma OthersStay(fs: Fields, r: Fields, i: nat, k: string)
    requires i < |fs| == |r| + 1 && DistinctKeys(fs) && DistinctKeys(r)
    requires forall j :: 0 <= j < |r| ==> r[j] == fs[if j < i then j else j + 1]
    ensures Get(r, k) == if k == fs[i].key then None else Get(fs, k)
  {
    if k != fs[i].key && Has(fs, k) {
      var j := IndexOf(fs, k);
      IndexUnique(r, k, if j < i then j else j - 1);
    } else {
      NoKey(r, k);
    }
  }

  lemma TakeOut(fs: Fields, i: nat)
    requires i < |fs| && DistinctKeys(fs)
    ensures var r := fs[..i] + fs[i + 1..];
            DistinctKeys(r) && forall j :: 0 <= j < |r| ==> r[j] == fs[if j < i then j else j + 1]
  {
  }

  lemma DeleteFacts(fs: Fields, key: string, k: string)
    requires DistinctKeys(fs)
    ensures DistinctKeys(Delete(fs, key))
    ensures Get(Delete(fs, key), k) == if k == key then None else Get(fs, k)
  {
    var i := IndexOf(fs, key);
    if i < |fs| {
      TakeOut(fs, i);
      OthersStay(fs, Delete(fs, key), i, k);
    }
  }

  lemma {:induction false} SpreadFacts(a: Fields, b: Fields, k: string)
    requires DistinctKeys(a) && DistinctKeys(b)
    ensures DistinctKeys(Spread(a, b))
    ensures Get(Spread(a, b), k) == if Has(b, k) then Get(b, k) else Get(a, k)
    decreases |b|
  {
    if b != [] {
      SetFacts(a, b[0].key, b[0].value, k);
      SpreadFacts(Set(a, b[0].key, b[0].value), b[1..], k);
      TailFacts(b, k);
    }
  }

  lemma TailFacts(b: Fields, k: string)
    requires b != [] && DistinctKeys(b)
    ensures DistinctKeys(b[1..])
    ensures Get(b, k) == if b[0].key == k then Some(b[0].value) else Get(b[1..], k)
    ensures b[0].key == k ==> !Has(b[1..], k)
  {
  }

  // ------------------------------------------------------------------------
  // Values that can be written and read back.
  // ------------------------------------------------------------------------

  /** No object has a key twice. */
  predicate Proper(v: Json) {
    match v
    case Array(items) => forall item | item in items :: Proper(item)
    case Obj(fs) => ProperFields(fs)
    case _ => true
  }

  predicate ProperFields(fs: Fields) {
    DistinctKeys(fs) && forall f | f in fs :: Proper(f.value)
  }

  lemma GetProper(fs: Fields, key: string)
    requires ProperFields(fs) && Has(fs, key)
    ensures Proper(Get(fs, key).value)
  {
    assert fs[IndexOf(fs, key)] in fs;
  }

  lemma SetProper(fs: Fields, key: string, value: Json)
    requires ProperFields(fs) && Proper(value)
    ensures ProperFields(Set(fs, key, value))
  {
    SetFacts(fs, key, value, key);
  }

  lemma DeleteProper(fs: Fields, key: string)
    requires ProperFields(fs)
    ensures ProperFields(Delete(fs, key))
  {
    DeleteFacts(fs, key, key);
  }

  lemma {:induction false} SpreadProper(a: Fields, b: Fields)
    requires ProperFields(a) && forall f | f in b :: Proper(f.value)
    ensures ProperFields(Spread(a, b))
    decreases |b|
  {
    if b != [] {
      assert b[0] in b;
      SetProper(a, b[0].key, b[0].value);
      SpreadProper(Set(a, b[0].key, b[0].value), b[1..]);
    }
  }

  // ------------------------------------------------------------------------
  // What printing makes of a value.
  // ------------------------------------------------------------------------

  /** The value that is read back: a number that is not finite is printed as `null`. */
  function Finite(v: Json, finite: string -> bool): Json {
    match v
    case Number(text) => if finite(text) then v else Null
    case Array(items) => Array(FiniteItems(items, finite))
    case Obj(fs) => Obj(FiniteFields(fs, finite))
    case _ => v
  }

  function FiniteItems(items: seq<Json>, finite: string -> bool): seq<Json> {
    seq(|items|, i requires 0 <= i < |items| => Finite(items[i], finite))
  }

  function FiniteFields(fs: Fields, finite: string -> bool): Fields {
    seq(|fs|, i requires 0 <= i < |fs| => Field(fs[i].key, Finite(fs[i].value, finite)))
  }

  function FiniteIfAny(v: Option<Json>, finite: string -> bool): Option<Json> {
    if v.Some? then Some(Finite(v.value, finite)) else None
  }

  lemma FiniteGet(fs: Fields, finite: string -> bool, key: string)
    ensures Get(FiniteFields(fs, finite), key) == FiniteIfAny(Get(fs, key), finite)
  {
    var r := FiniteFields(fs, finite);
    var i, j := IndexOf(fs, key), IndexOf(r, key);
    assert j < |fs| ==> fs[j].key == r[j].key;
    assert i < |fs| ==> fs[i].key == r[i].key;
    assert i == j;
  }

  lemma {:induction false} FiniteProper(v: Json, finite: string -> bool)
    requires Proper(v)
    ensures Proper(Finite(v, finite))
    decreases v
  {
    match v
    case Array(items) =>
      forall i | 0 <= i < |items|
        ensures Proper(Finite(items[i], finite))
      {
        FiniteProper(items[i], finite);
      }
    case Obj(fs) =>
      forall i | 0 <= i < |fs|
        ensures Proper(Finite(fs[i].value, finite))
      {
        FiniteProper(fs[i].value, finite);
      }
    case _ =>
  }

  // ------------------------------------------------------------------------
  // Order.
  // ------------------------------------------------------------------------

  lemma {:induction false} SpreadDistinct(a: Fields, b: Fields)
    requires DistinctKeys(a)
    ensures DistinctKeys(Spread(a, b))
    decreases |b|
  {
    if b != [] {
      SetFacts(a, b[0].key, b[0].value, "");
      SpreadDistinct(Set(a, b[0].key, b[0].value), b[1..]);
    }
  }

  /** The keys of `a` come first in `b`, in the same order. */
  predicate Leads(a: Fields, b: Fields) {
    |a| <= |b| && forall i :: 0 <= i < |a| ==> a[i].key == b[i].key
  }

  lemma {:induction false} SpreadLeads(a: Fields, b: Fields)
    ensures Leads(a, Spread(a, b))
    decreases |b|
  {
    if b != [] {
      SpreadLeads(Set(a, b[0].key, b[0].value), b[1..]);
    }
  }

  lemma FirstIndex(fs: Fields, key: string, j: nat)
    requires j <= |fs| && (j < |fs| ==> fs[j].key == key) && forall k :: 0 <= k < j ==> fs[k].key != key
    ensures IndexOf(fs, key) == j
  {
  }

  /** Spreading fields over ones that lead them gives the fields spread. */
  lemma {:induction false} SpreadOver(a: Fields, b: Fields, j: nat)
    requires DistinctKeys(b) && Leads(a, b) && j <= |a|
    requires forall i :: 0 <= i < j ==> a[i] == b[i]
    ensures Spread(a, b[j..]) == b
    decreases |b| - j
  {
    if j < |b| {
      var f := b[j];
      assert b[j..][0] == f && b[j..][1..] == b[j + 1..];
      forall k | 0 <= k < |a| && k != j
        ensures a[k].key != f.key
      {
        assert a[k].key == b[k].key;
      }
      FirstIndex(a, f.key, j);
      SpreadOver(Set(a, f.key, f.value), b, j + 1);
    } else {
      assert b[j..] == [];
    }
  }

  /** Spreading fields that are there already changes nothing. */
  lemma {:induction false} SpreadSame(a: Fields, b: Fields)
    requires forall f | f in b :: Get(a, f.key) == Some(f.value)
    ensures Spread(a, b) == a
    decreases |b|
  {
    if b != [] {
      assert b[0] in b;
      assert Set(a, b[0].key, b[0].value) == a;
      SpreadSame(a, b[1..]);
    }
  }

  // ------------------------------------------------------------------------
  // Comparing.
  // ------------------------------------------------------------------------

  function Printed(v: Option<Json>, write: Json -> string): Option<string> {
    if v.Some? then Some(write(v.value)) else None
  }

  /** As many fields, and every field of the one is printed like that of the other. */
  predicate ShallowEqual(a: Fields, b: Fields, write: Json -> string) {
    |a| == |b| && forall f | f in a :: Printed(Get(b, f.key), write) == Some(write(f.value))
  }

  lemma {:induction false} KeyCount(fs: Fields)
    requires DistinctKeys(fs)
    ensures |Keys(fs)| == |fs|
    decreases |fs|
  {
    if fs != [] {
      KeyCount(fs[1..]);
      assert forall f :: f in fs <==> f == fs[0] || f in fs[1..];
      assert Keys(fs) == Keys(fs[1..]) + {fs[0].key};
      HasIffKey(fs[1..], fs[0].key);
    }
  }

  /** Two records are shallowly equal exactly when they print alike under every key. */
  lemma ShallowEqualIff(a: Fields, b: Fields, write: Json -> string)
    requires DistinctKeys(a) && DistinctKeys(b)
    ensures ShallowEqual(a, b, write) <==> forall k :: Printed(Get(a, k), write) == Printed(Get(b, k), write)
  {
    KeyCount(a);
    KeyCount(b);
    forall k
      ensures (k in Keys(a) <==> Has(a, k)) && (k in Keys(b) <==> Has(b, k))
    {
      HasIffKey(a, k);
      HasIffKey(b, k);
    }
    if ShallowEqual(a, b, write) {
      assert Keys(a) <= Keys(b);
      SubsetOfEqualSize(Keys(a), Keys(b));
      forall k
        ensures Printed(Get(a, k), write) == Printed(Get(b, k), write)
      {
        if Has(a, k) {
          assert a[IndexOf(a, k)] in a;
        }
      }
    }
    if forall k :: Printed(Get(a, k), write) == Printed(Get(b, k), write) {
      assert Keys(a) == Keys(b) by {
        forall k
          ensures k in Keys(a) <==> k in Keys(b)
        {
          assert Printed(Get(a, k), write) == Printed(Get(b, k), write);
        }
      }
      forall f | f in a
        ensures Printed(Get(b, f.key), write) == Some(write(f.value))
      {
        var i :| 0 <= i < |a| && a[i] == f;
        IndexUnique(a, f.key, i);
        assert Printed(Get(a, f.key), write) == Printed(Get(b, f.key), write);
      }
    }
  }

  lemma SubsetOfEqualSize(a: set<string>, b: set<string>)
    requires a <= b && |a| == |b|
    ensures a == b
  {
    if k :| k in b && k !in a {
      assert a <= b - {k};
      SubsetSize(a, b - {k});
    }
  }

  lemma {:induction false} SubsetSize(a: set<string>, b: set<string>)
    requires a <= b
    ensures |a| <= |b|
    decreases a
  {
    if k :| k in a {
      SubsetSize(a - {k}, b - {k});
    }
  }
}
