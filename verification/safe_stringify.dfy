/**
  Serialising arguments that may contain cycles: `safeToString` in src/bootstrap-fork.ts, that
  is, `JSON.stringify` with a replacer that remembers every object it has let through.
 */
module SafeStringify {
  import opened Wrappers
  import J = JsonValues
  import T = JsonText

  const MAX_LENGTH: nat := 100000

  type Id = nat

  /** Arrays and objects are remembered by the replacer; regular expressions are objects that are not. */
  datatype Kind = ArrayKind | ObjectKind | RegExpKind

  type Primitive = v: J.Json | !v.Array? && !v.Obj? witness J.Null

  /** A primitive, or a reference to an object. */
  datatype Val = Atom(value: Primitive) | Ref(id: Id)

  datatype Node = Node(kind: Kind, keys: seq<string>, values: seq<Val>)

  type Heap = map<Id, Node>

  /** What is written for a value. */
  datatype Json =
    | Literal(value: Primitive)
    | Circular
    | Struct(id: Id, kind: Kind, keys: seq<string>, values: seq<Json>)

  datatype Outcome<+T> = Ok(value: T, seen: seq<Id>) | Throws

  /** Objects have as many keys as values, and refer to objects. */
  predicate Closed(heap: Heap) {
    forall id | id in heap ::
      && |heap[id].keys| == |heap[id].values|
      && forall v | v in heap[id].values :: ValueIn(heap, v)
  }

  predicate ValueIn(heap: Heap, v: Val) {
    v.Ref? ==> v.id in heap
  }

  predicate Tracked(kind: Kind) {
    !kind.RegExpKind?
  }

  ghost function SetOf(ids: seq<Id>): set<Id> {
    set id | id in ids
  }

  /** The replacer, and then the serialisation of what it returns; `stack` are the objects being serialised. */
  function Visit(heap: Heap, v: Val, seen: seq<Id>, stack: set<Id>): (r: Outcome<Json>)
    requires Closed(heap) && ValueIn(heap, v)
    ensures r.Ok? ==> seen <= r.seen
    decreases heap.Keys - SetOf(seen), heap.Keys - stack, 0
  {
    match v
    case Atom(value) => Ok(Literal(value), seen)
    case Ref(id) =>
      var node := heap[id];
      if Tracked(node.kind) && id in seen then Ok(Circular, seen)
      else if id in stack then Throws
      else
        var seen' := if Tracked(node.kind) then seen + [id] else seen;
        assert Tracked(node.kind) ==> id in SetOf(seen') && id !in SetOf(seen);
        match VisitAll(heap, node.values, seen', stack + {id})
        case Throws => Throws
        case Ok(values, seen'') => Ok(Struct(id, node.kind, node.keys, values), seen'')
  }

  function VisitAll(heap: Heap, vs: seq<Val>, seen: seq<Id>, stack: set<Id>): (r: Outcome<seq<Json>>)
    requires Closed(heap) && forall v | v in vs :: ValueIn(heap, v)
    ensures r.Ok? ==> seen <= r.seen && |r.value| == |vs|
    decreases heap.Keys - SetOf(seen), heap.Keys - stack, |vs|
  {
    if vs == [] then Ok([], seen)
    else
      match Visit(heap, vs[0], seen, stack)
      case Throws => Throws
      case Ok(j, seen') =>
        assert SetOf(seen) <= SetOf(seen');
        match VisitAll(heap, vs[1..], seen', stack)
        case Throws => Throws
        case Ok(js, seen'') => Ok([j] + js, seen'')
  }

  // ------------------------------------------------------------------------
  // No object is expanded twice.
  // ------------------------------------------------------------------------

  /** The remembered objects that an output expands, in the order of their appearance. */
  function Expanded(j: Json): seq<Id>
    decreases j, 1
  {
    if j.Struct? then (if Tracked(j.kind) then [j.id] else []) + ExpandedAll(j.values) else []
  }

  function ExpandedAll(js: seq<Json>): seq<Id>
    decreases js, 0
  {
    if js == [] then [] else Expanded(js[0]) + ExpandedAll(js[1..])
  }

  predicate Distinct(ids: seq<Id>) {
    forall i, k :: 0 <= i < k < |ids| ==> ids[i] != ids[k]
  }

  lemma DistinctSnoc(ids: seq<Id>, id: Id)
    requires Distinct(ids)
    ensures id !in ids ==> Distinct(ids + [id])
  {
  }

  /** The list of remembered objects grows by exactly the objects that are expanded, and stays without repetition. */
  lemma {:induction false} ExpandsOnce(heap: Heap, v: Val, seen: seq<Id>, stack: set<Id>)
    requires Closed(heap) && ValueIn(heap, v) && Distinct(seen)
    ensures var r := Visit(heap, v, seen, stack);
            r.Ok? ==> r.seen == seen + Expanded(r.value) && Distinct(r.seen)
    decreases heap.Keys - SetOf(seen), heap.Keys - stack, 0
  {
    if v.Ref? {
      var node := heap[v.id];
      if !(Tracked(node.kind) && v.id in seen) && v.id !in stack {
        var seen' := if Tracked(node.kind) then seen + [v.id] else seen;
        assert Tracked(node.kind) ==> v.id in SetOf(seen') && v.id !in SetOf(seen);
        DistinctSnoc(seen, v.id);
        ExpandsAllOnce(heap, node.values, seen', stack + {v.id});
        var r := VisitAll(heap, node.values, seen', stack + {v.id});
        if r.Ok? {
          Assoc(seen, [v.id], ExpandedAll(r.value));
        }
      }
    }
  }

  lemma {:induction false} ExpandsAllOnce(heap: Heap, vs: seq<Val>, seen: seq<Id>, stack: set<Id>)
    requires Closed(heap) && (forall v | v in vs :: ValueIn(heap, v)) && Distinct(seen)
    ensures var r := VisitAll(heap, vs, seen, stack);
            r.Ok? ==> r.seen == seen + ExpandedAll(r.value) && Distinct(r.seen)
    decreases heap.Keys - SetOf(seen), heap.Keys - stack, |vs|
  {
    if vs != [] {
      ExpandsOnce(heap, vs[0], seen, stack);
      var r := Visit(heap, vs[0], seen, stack);
      if r.Ok? {
        assert SetOf(seen) <= SetOf(r.seen);
        ExpandsAllOnce(heap, vs[1..], r.seen, stack);
        var rest := VisitAll(heap, vs[1..], r.seen, stack);
        if rest.Ok? {
          ExpandedCons(seen, r.value, rest.value);
        }
      }
    }
  }

  lemma ExpandedCons(seen: seq<Id>, j: Json, js: seq<Json>)
    ensures seen + ExpandedAll([j] + js) == (seen + Expanded(j)) + ExpandedAll(js)
  {
    assert ([j] + js)[1..] == js;
  }

  // ------------------------------------------------------------------------
  // When it throws.
  // ------------------------------------------------------------------------

  /** Each object of the path holds a reference to the next. */
  predicate IsPath(heap: Heap, p: seq<Id>) {
    p != [] && (forall id | id in p :: id in heap) && forall i :: 0 <= i < |p| - 1 ==> Ref(p[i + 1]) in heap[p[i]].values
  }

  /** There is a way from `a` to `b` over one reference or more. */
  ghost predicate Reaches(heap: Heap, a: Id, b: Id) {
    exists p: seq<Id> :: IsPath(heap, p) && |p| >= 2 && p[0] == a && p[|p|-1] == b
  }

  lemma OneFurther(heap: Heap, a: Id, b: Id, c: Id)
    requires b in heap && c in heap && Ref(c) in heap[b].values && (a == b || Reaches(heap, a, b))
    ensures Reaches(heap, a, c)
  {
    if a == b {
      assert IsPath(heap, [a, c]);
    } else {
      var p: seq<Id> :| IsPath(heap, p) && |p| >= 2 && p[0] == a && p[|p|-1] == b;
      var q := p + [c];
      forall i | 0 <= i < |q| - 1
        ensures Ref(q[i + 1]) in heap[q[i]].values
      {
        assert q[i] == p[i] && (i + 1 < |p| ==> q[i + 1] == p[i + 1]);
      }
      assert IsPath(heap, q);
    }
  }

  /** No regular expression lies on a cycle. */
  ghost predicate CycleFree(heap: Heap) {
    forall id | id in heap && !Tracked(heap[id].kind) :: !Reaches(heap, id, id)
  }

  /** What is on the stack is remembered, or is a regular expression that reaches the value. */
  ghost predicate StackOk(heap: Heap, v: Val, seen: seq<Id>, stack: set<Id>) {
    forall id | id in stack ::
      id in heap && if Tracked(heap[id].kind) then id in seen else v.Ref? ==> Reaches(heap, id, v.id)
  }

  lemma StackBelow(heap: Heap, id: Id, seen: seq<Id>, stack: set<Id>, v: Val)
    requires Closed(heap) && id in heap && StackOk(heap, Ref(id), seen, stack) && v in heap[id].values
    ensures StackOk(heap, v, if Tracked(heap[id].kind) then seen + [id] else seen, stack + {id})
  {
    if v.Ref? {
      assert ValueIn(heap, v);
      forall s | s in stack + {id} && !Tracked(heap[s].kind)
        ensures Reaches(heap, s, v.id)
      {
        OneFurther(heap, s, id, v.id);
      }
    }
  }

  /**
    If no regular expression lies on a cycle, nothing throws, whatever other cycles there are: in
    particular if there are no regular expressions.
   */
  lemma {:induction false} NeverThrows(heap: Heap, v: Val, seen: seq<Id>, stack: set<Id>)
    requires Closed(heap) && ValueIn(heap, v) && CycleFree(heap) && StackOk(heap, v, seen, stack)
    ensures Visit(heap, v, seen, stack).Ok?
    decreases heap.Keys - SetOf(seen), heap.Keys - stack, 0
  {
    if v.Ref? && v.id !in stack && !(Tracked(heap[v.id].kind) && v.id in seen) {
      var seen' := if Tracked(heap[v.id].kind) then seen + [v.id] else seen;
      assert Tracked(heap[v.id].kind) ==> v.id in SetOf(seen') && v.id !in SetOf(seen);
      forall w | w in heap[v.id].values
        ensures StackOk(heap, w, seen', stack + {v.id})
      {
        StackBelow(heap, v.id, seen, stack, w);
      }
      NeverThrowsAll(heap, heap[v.id].values, seen', stack + {v.id});
    }
  }

  lemma {:induction false} NeverThrowsAll(heap: Heap, vs: seq<Val>, seen: seq<Id>, stack: set<Id>)
    requires Closed(heap) && (forall v | v in vs :: ValueIn(heap, v)) && CycleFree(heap)
    requires forall v | v in vs :: StackOk(heap, v, seen, stack)
    ensures VisitAll(heap, vs, seen, stack).Ok?
    decreases heap.Keys - SetOf(seen), heap.Keys - stack, |vs|
  {
    if vs != [] {
      NeverThrows(heap, vs[0], seen, stack);
      var r := Visit(heap, vs[0], seen, stack);
      assert SetOf(seen) <= SetOf(r.seen);
      forall v | v in vs[1..]
        ensures StackOk(heap, v, r.seen, stack)
      {
        assert StackOk(heap, v, seen, stack);
      }
      NeverThrowsAll(heap, vs[1..], r.seen, stack);
    }
  }

  // ------------------------------------------------------------------------
  // Trees.
  // ------------------------------------------------------------------------

  /** `j` is `v` written out in full: every reference is replaced by what it refers to. */
  predicate Unfolds(heap: Heap, v: Val, j: Json)
    requires Closed(heap) && ValueIn(heap, v)
    decreases j, 1
  {
    match v
    case Atom(value) => j == Literal(value)
    case Ref(id) =>
      && j.Struct? && j.id == id && j.kind == heap[id].kind && j.keys == heap[id].keys
      && UnfoldsAll(heap, heap[id].values, j.values)
  }

  predicate UnfoldsAll(heap: Heap, vs: seq<Val>, js: seq<Json>)
    requires Closed(heap) && forall v | v in vs :: ValueIn(heap, v)
    decreases js, 0
  {
    && |vs| == |js|
    && (vs != [] ==> Unfolds(heap, vs[0], js[0]) && UnfoldsAll(heap, vs[1..], js[1..]))
  }

  predicate NoCircular(j: Json)
    decreases j, 1
  {
    match j
    case Literal(_) => true
    case Circular => false
    case Struct(_, _, _, values) => NoCircularAll(values)
  }

  predicate NoCircularAll(js: seq<Json>)
    decreases js, 0
  {
    js == [] || (NoCircular(js[0]) && NoCircularAll(js[1..]))
  }

  /** An output without a cycle mark is the value written out in full. */
  lemma {:induction false} UnmarkedIsFull(heap: Heap, v: Val, seen: seq<Id>, stack: set<Id>)
    requires Closed(heap) && ValueIn(heap, v)
    ensures var r := Visit(heap, v, seen, stack);
            r.Ok? && NoCircular(r.value) ==> Unfolds(heap, v, r.value)
    decreases heap.Keys - SetOf(seen), heap.Keys - stack, 0
  {
    if v.Ref? {
      var node := heap[v.id];
      if !(Tracked(node.kind) && v.id in seen) && v.id !in stack {
        var seen' := if Tracked(node.kind) then seen + [v.id] else seen;
        assert Tracked(node.kind) ==> v.id in SetOf(seen') && v.id !in SetOf(seen);
        UnmarkedAllFull(heap, node.values, seen', stack + {v.id});
      }
    }
  }

  lemma {:induction false} UnmarkedAllFull(heap: Heap, vs: seq<Val>, seen: seq<Id>, stack: set<Id>)
    requires Closed(heap) && forall v | v in vs :: ValueIn(heap, v)
    ensures var r := VisitAll(heap, vs, seen, stack);
            r.Ok? && NoCircularAll(r.value) ==> UnfoldsAll(heap, vs, r.value)
    decreases heap.Keys - SetOf(seen), heap.Keys - stack, |vs|
  {
    if vs != [] {
      UnmarkedIsFull(heap, vs[0], seen, stack);
      var r := Visit(heap, vs[0], seen, stack);
      if r.Ok? {
        assert SetOf(seen) <= SetOf(r.seen);
        UnmarkedAllFull(heap, vs[1..], r.seen, stack);
        var rest := VisitAll(heap, vs[1..], r.seen, stack);
        if rest.Ok? {
          assert ([r.value] + rest.value)[1..] == rest.value;
        }
      }
    }
  }

  function Size(j: Json): nat
    decreases j, 1
  {
    1 + (if j.Struct? then SizeAll(j.values) else 0)
  }

  function SizeAll(js: seq<Json>): nat
    decreases js, 0
  {
    if js == [] then 0 else Size(js[0]) + SizeAll(js[1..])
  }

  /** All objects in an output. */
  function Objects(j: Json): set<Id>
    decreases j, 1
  {
    if j.Struct? then {j.id} + ObjectsAll(j.values) else {}
  }

  function ObjectsAll(js: seq<Json>): set<Id>
    decreases js, 0
  {
    if js == [] then {} else Objects(js[0]) + ObjectsAll(js[1..])
  }

  /** A value can be written out in full in one way only. */
  lemma {:induction false} UnfoldingIsUnique(heap: Heap, v: Val, j: Json, k: Json)
    requires Closed(heap) && ValueIn(heap, v) && Unfolds(heap, v, j) && Unfolds(heap, v, k)
    ensures j == k
    decreases j, 1
  {
    if v.Ref? {
      UnfoldingsAreUnique(heap, heap[v.id].values, j.values, k.values);
    }
  }

  lemma {:induction false} UnfoldingsAreUnique(heap: Heap, vs: seq<Val>, js: seq<Json>, ks: seq<Json>)
    requires Closed(heap) && (forall v | v in vs :: ValueIn(heap, v)) && UnfoldsAll(heap, vs, js) && UnfoldsAll(heap, vs, ks)
    ensures js == ks
    decreases js, 0
  {
    if vs != [] {
      UnfoldingIsUnique(heap, vs[0], js[0], ks[0]);
      UnfoldingsAreUnique(heap, vs[1..], js[1..], ks[1..]);
      assert js == [js[0]] + js[1..] && ks == [ks[0]] + ks[1..];
    }
  }

  /** Each object inside an unfolding has its own unfolding, which is no larger. */
  lemma {:induction false} InnerUnfolding(heap: Heap, v: Val, j: Json, id: Id) returns (k: Json)
    requires Closed(heap) && ValueIn(heap, v) && Unfolds(heap, v, j) && id in Objects(j)
    ensures id in heap && Unfolds(heap, Ref(id), k) && Size(k) <= Size(j)
    decreases j, 1
  {
    if j.id == id {
      k := j;
    } else {
      k := InnerUnfoldingAll(heap, heap[v.id].values, j.values, id);
    }
  }

  lemma {:induction false} InnerUnfoldingAll(heap: Heap, vs: seq<Val>, js: seq<Json>, id: Id) returns (k: Json)
    requires Closed(heap) && (forall v | v in vs :: ValueIn(heap, v)) && UnfoldsAll(heap, vs, js) && id in ObjectsAll(js)
    ensures id in heap && Unfolds(heap, Ref(id), k) && Size(k) <= SizeAll(js)
    decreases js, 0
  {
    if id in Objects(js[0]) {
      k := InnerUnfolding(heap, vs[0], js[0], id);
    } else {
      k := InnerUnfoldingAll(heap, vs[1..], js[1..], id);
    }
  }

  /** So an object with a full form is not part of itself. */
  lemma NotInItself(heap: Heap, id: Id, j: Json)
    requires Closed(heap) && id in heap && Unfolds(heap, Ref(id), j)
    ensures id !in ObjectsAll(j.values)
  {
    if id in ObjectsAll(j.values) {
      var k := InnerUnfoldingAll(heap, heap[id].values, j.values, id);
      UnfoldingIsUnique(heap, Ref(id), j, k);
    }
  }

  /** A value whose full form has each remembered object once is written in its full form. */
  lemma {:induction false} TreeIsFull(heap: Heap, v: Val, j: Json, seen: seq<Id>, stack: set<Id>)
    requires Closed(heap) && ValueIn(heap, v) && Unfolds(heap, v, j)
    requires Distinct(seen + Expanded(j)) && Objects(j) !! stack
    ensures Visit(heap, v, seen, stack) == Ok(j, seen + Expanded(j))
    decreases j, 1
  {
    if v.Ref? {
      var node := heap[v.id];
      var seen' := if Tracked(node.kind) then seen + [v.id] else seen;
      assert seen' + ExpandedAll(j.values) == seen + Expanded(j);
      if Tracked(node.kind) {
        assert (seen + Expanded(j))[|seen|] == v.id;
        assert forall i :: 0 <= i < |seen| ==> (seen + Expanded(j))[i] == seen[i];
      }
      NotInItself(heap, v.id, j);
      TreesAreFull(heap, node.values, j.values, seen', stack + {v.id});
    } else {
      assert seen + [] == seen;
    }
  }

  lemma {:induction false} TreesAreFull(heap: Heap, vs: seq<Val>, js: seq<Json>, seen: seq<Id>, stack: set<Id>)
    requires Closed(heap) && (forall v | v in vs :: ValueIn(heap, v)) && UnfoldsAll(heap, vs, js)
    requires Distinct(seen + ExpandedAll(js)) && ObjectsAll(js) !! stack
    ensures VisitAll(heap, vs, seen, stack) == Ok(js, seen + ExpandedAll(js))
    decreases js, 0
  {
    if vs == [] {
      assert seen + [] == seen;
    } else {
      var seen' := seen + Expanded(js[0]);
      assert seen + ExpandedAll(js) == seen' + ExpandedAll(js[1..]);
      DistinctPrefix(seen', ExpandedAll(js[1..]));
      TreeIsFull(heap, vs[0], js[0], seen, stack);
      TreesAreFull(heap, vs[1..], js[1..], seen', stack);
      assert [js[0]] + js[1..] == js;
    }
  }

  lemma DistinctPrefix(a: seq<Id>, b: seq<Id>)
    requires Distinct(a + b)
    ensures Distinct(a)
  {
    assert forall i :: 0 <= i < |a| ==> (a + b)[i] == a[i];
  }

  /** `v` is shaped like a tree: it can be written out in full, with no remembered object twice. */
  ghost predicate IsTree(heap: Heap, v: Val)
    requires Closed(heap) && ValueIn(heap, v)
  {
    exists j: Json :: Unfolds(heap, v, j) && Distinct(Expanded(j))
  }

  /**
    Exactly the tree-shaped values are serialised without a cycle mark (and without throwing),
    and then as plain serialisation would write them.
   */
  lemma PlainIffTree(heap: Heap, v: Val)
    requires Closed(heap) && ValueIn(heap, v)
    ensures var r := Visit(heap, v, [], {});
            && (r.Ok? && NoCircular(r.value) <==> IsTree(heap, v))
            && (r.Ok? && NoCircular(r.value) ==> Unfolds(heap, v, r.value))
            && (r.Ok? ==> Distinct(Expanded(r.value)))
  {
    var r := Visit(heap, v, [], {});
    ExpandsOnce(heap, v, [], {});
    UnmarkedIsFull(heap, v, [], {});
    if r.Ok? {
      assert [] + Expanded(r.value) == Expanded(r.value);
    }
    if IsTree(heap, v) {
      var j: Json :| Unfolds(heap, v, j) && Distinct(Expanded(j));
      assert [] + Expanded(j) == Expanded(j);
      TreeIsFull(heap, v, j, [], {});
      FullIsUnmarked(heap, v, j);
    }
  }

  lemma {:induction false} FullIsUnmarked(heap: Heap, v: Val, j: Json)
    requires Closed(heap) && ValueIn(heap, v) && Unfolds(heap, v, j)
    ensures NoCircular(j)
    decreases j, 1
  {
    if v.Ref? {
      FullAreUnmarked(heap, heap[v.id].values, j.values);
    }
  }

  lemma {:induction false} FullAreUnmarked(heap: Heap, vs: seq<Val>, js: seq<Json>)
    requires Closed(heap) && (forall v | v in vs :: ValueIn(heap, v)) && UnfoldsAll(heap, vs, js)
    ensures NoCircularAll(js)
    decreases js, 0
  {
    if vs != [] {
      FullIsUnmarked(heap, vs[0], js[0]);
      FullAreUnmarked(heap, vs[1..], js[1..]);
    }
  }

  // ------------------------------------------------------------------------
  // A regular expression that leads back to itself.
  // ------------------------------------------------------------------------

  lemma {:induction false} ExpandedAreObjects(j: Json)
    ensures forall id | id in Expanded(j) :: id in Objects(j)
    decreases j, 1
  {
    if j.Struct? {
      ExpandedAllAreObjects(j.values);
    }
  }

  lemma {:induction false} ExpandedAllAreObjects(js: seq<Json>)
    ensures forall id | id in ExpandedAll(js) :: id in ObjectsAll(js)
    decreases js, 0
  {
    if js != [] {
      ExpandedAreObjects(js[0]);
      ExpandedAllAreObjects(js[1..]);
    }
  }

  /** A value that was met: written out, or remembered; and no regular expression on the stack. */
  predicate Met(heap: Heap, v: Val, objects: set<Id>, seen: seq<Id>, stack: set<Id>) {
    v.Ref? ==>
      && v.id in heap
      && (v.id in objects || (Tracked(heap[v.id].kind) && v.id in seen))
      && (v.id in stack ==> Tracked(heap[v.id].kind))
  }

  predicate AllMet(heap: Heap, from: set<Id>, objects: set<Id>, seen: seq<Id>, stack: set<Id>) {
    forall id | id in from :: id in heap && forall v | v in heap[id].values :: Met(heap, v, objects, seen, stack)
  }

  lemma {:induction false} VisitMeets(heap: Heap, v: Val, seen: seq<Id>, stack: set<Id>)
    requires Closed(heap) && ValueIn(heap, v)
    ensures var r := Visit(heap, v, seen, stack);
            r.Ok? ==> Met(heap, v, Objects(r.value), r.seen, stack)
                      && AllMet(heap, Objects(r.value), Objects(r.value), r.seen, stack)
    decreases heap.Keys - SetOf(seen), heap.Keys - stack, 0
  {
    if v.Ref? {
      var node := heap[v.id];
      if !(Tracked(node.kind) && v.id in seen) && v.id !in stack {
        var seen' := if Tracked(node.kind) then seen + [v.id] else seen;
        assert Tracked(node.kind) ==> v.id in SetOf(seen') && v.id !in SetOf(seen);
        VisitAllMeets(heap, node.values, seen', stack + {v.id});
      }
    }
  }

  lemma {:induction false} VisitAllMeets(heap: Heap, vs: seq<Val>, seen: seq<Id>, stack: set<Id>)
    requires Closed(heap) && forall v | v in vs :: ValueIn(heap, v)
    ensures var r := VisitAll(heap, vs, seen, stack);
            r.Ok? ==> (forall v | v in vs :: Met(heap, v, ObjectsAll(r.value), r.seen, stack))
                      && AllMet(heap, ObjectsAll(r.value), ObjectsAll(r.value), r.seen, stack)
    decreases heap.Keys - SetOf(seen), heap.Keys - stack, |vs|
  {
    if vs != [] {
      VisitMeets(heap, vs[0], seen, stack);
      var r := Visit(heap, vs[0], seen, stack);
      if r.Ok? {
        assert SetOf(seen) <= SetOf(r.seen);
        VisitAllMeets(heap, vs[1..], r.seen, stack);
        var rest := VisitAll(heap, vs[1..], r.seen, stack);
        if rest.Ok? {
          assert ([r.value] + rest.value)[1..] == rest.value;
          assert vs == [vs[0]] + vs[1..];
        }
      }
    }
  }

  /** The objects of the path, up to one that refers to `id`, are all written out. */
  lemma {:induction false} PathIsMet(heap: Heap, p: seq<Id>, objects: set<Id>, seen: seq<Id>, stack: set<Id>, i: nat)
    requires IsPath(heap, p) && i < |p| - 1 && p[0] in objects && AllMet(heap, objects, objects, seen, stack)
    requires forall id | id in p && Tracked(heap[id].kind) && id in seen :: id in objects
    ensures p[i] in objects && Met(heap, Ref(p[i + 1]), objects, seen, stack)
  {
    if i > 0 {
      PathIsMet(heap, p, objects, seen, stack, i - 1);
      assert p[i] in p;
    }
  }

  /** None of the objects is remembered. */
  predicate Open(heap: Heap, p: seq<Id>, seen: seq<Id>) {
    forall id | id in p :: id in heap && (Tracked(heap[id].kind) ==> id !in seen)
  }

  /** A way from a regular expression back to itself, over objects that are not remembered. */
  predicate OpenCycle(heap: Heap, p: seq<Id>, seen: seq<Id>) {
    IsPath(heap, p) && |p| >= 2 && p[|p|-1] == p[0] && !Tracked(heap[p[0]].kind) && Open(heap, p, seen)
  }

  /**
    A regular expression throws when it comes up and leads back to itself over objects that are not
    remembered by then: whatever else comes up before the cycle closes.
   */
  lemma CyclicRegExpThrows(heap: Heap, p: seq<Id>, seen: seq<Id>, stack: set<Id>)
    requires Closed(heap) && Distinct(seen) && OpenCycle(heap, p, seen)
    ensures Visit(heap, Ref(p[0]), seen, stack).Throws?
  {
    var r := Visit(heap, Ref(p[0]), seen, stack);
    if r.Ok? {
      var inner := VisitAll(heap, heap[p[0]].values, seen, stack + {p[0]});
      var objects := Objects(r.value);
      VisitAllMeets(heap, heap[p[0]].values, seen, stack + {p[0]});
      ExpandsOnce(heap, Ref(p[0]), seen, stack);
      ExpandedAreObjects(r.value);
      assert AllMet(heap, objects, objects, r.seen, stack + {p[0]});
      PathIsMet(heap, p, objects, r.seen, stack + {p[0]}, |p| - 2);
    }
  }

  /** So one that comes up first throws if it lies on any cycle. */
  lemma FirstRegExpThrows(heap: Heap, id: Id)
    requires Closed(heap) && id in heap && !Tracked(heap[id].kind) && Reaches(heap, id, id)
    ensures Visit(heap, Ref(id), [], {}).Throws?
  {
    var p: seq<Id> :| IsPath(heap, p) && |p| >= 2 && p[0] == id && p[|p|-1] == id;
    CyclicRegExpThrows(heap, p, [], {});
  }

  // ------------------------------------------------------------------------
  // Exactly when it throws.
  // ------------------------------------------------------------------------

  /** The traversal comes upon object `id`, and lets it through, when `s` are remembered. */
  predicate ComesUp(heap: Heap, v: Val, seen: seq<Id>, stack: set<Id>, id: Id, s: seq<Id>)
    requires Closed(heap) && ValueIn(heap, v)
    decreases heap.Keys - SetOf(seen), heap.Keys - stack, 0
  {
    v.Ref? && !(Tracked(heap[v.id].kind) && v.id in seen) && v.id !in stack &&
    var seen' := if Tracked(heap[v.id].kind) then seen + [v.id] else seen;
    assert Tracked(heap[v.id].kind) ==> v.id in SetOf(seen') && v.id !in SetOf(seen);
    (v.id == id && s == seen) || ComesUpIn(heap, heap[v.id].values, seen', stack + {v.id}, id, s)
  }

  predicate ComesUpIn(heap: Heap, vs: seq<Val>, seen: seq<Id>, stack: set<Id>, id: Id, s: seq<Id>)
    requires Closed(heap) && forall v | v in vs :: ValueIn(heap, v)
    decreases heap.Keys - SetOf(seen), heap.Keys - stack, |vs|
  {
    vs != [] &&
    (ComesUp(heap, vs[0], seen, stack, id, s) ||
     var r := Visit(heap, vs[0], seen, stack);
     r.Ok? && (assert SetOf(seen) <= SetOf(r.seen); ComesUpIn(heap, vs[1..], r.seen, stack, id, s)))
  }

  /** Where something throws that comes up, the whole throws. */
  lemma {:induction false} ThrowsWithin(heap: Heap, v: Val, seen: seq<Id>, stack: set<Id>, p: seq<Id>, s: seq<Id>)
    requires Closed(heap) && ValueIn(heap, v) && Distinct(seen)
    requires OpenCycle(heap, p, s) && ComesUp(heap, v, seen, stack, p[0], s)
    ensures Visit(heap, v, seen, stack).Throws?
    decreases heap.Keys - SetOf(seen), heap.Keys - stack, 0
  {
    var node := heap[v.id];
    var seen' := if Tracked(node.kind) then seen + [v.id] else seen;
    assert Tracked(node.kind) ==> v.id in SetOf(seen') && v.id !in SetOf(seen);
    if v.id == p[0] && s == seen {
      CyclicRegExpThrows(heap, p, seen, stack);
    } else {
      DistinctSnoc(seen, v.id);
      ThrowsWithinAll(heap, node.values, seen', stack + {v.id}, p, s);
    }
  }

  lemma {:induction false} ThrowsWithinAll(heap: Heap, vs: seq<Val>, seen: seq<Id>, stack: set<Id>, p: seq<Id>, s: seq<Id>)
    requires Closed(heap) && (forall v | v in vs :: ValueIn(heap, v)) && Distinct(seen)
    requires OpenCycle(heap, p, s) && ComesUpIn(heap, vs, seen, stack, p[0], s)
    ensures VisitAll(heap, vs, seen, stack).Throws?
    decreases heap.Keys - SetOf(seen), heap.Keys - stack, |vs|
  {
    if ComesUp(heap, vs[0], seen, stack, p[0], s) {
      ThrowsWithin(heap, vs[0], seen, stack, p, s);
    } else {
      var r := Visit(heap, vs[0], seen, stack);
      assert SetOf(seen) <= SetOf(r.seen);
      ExpandsOnce(heap, vs[0], seen, stack);
      ThrowsWithinAll(heap, vs[1..], r.seen, stack, p, s);
    }
  }

  /** What makes a value throw: a cycle that closes below it, or a way to a regular expression on the stack. */
  datatype Cause = Within(cycle: seq<Id>, seen: seq<Id>) | Above(way: seq<Id>)

  ghost predicate WayUp(heap: Heap, p: seq<Id>, v: Val, seen: seq<Id>, stack: set<Id>) {
    IsPath(heap, p) && Open(heap, p, seen) && v == Ref(p[0]) && p[|p|-1] in stack && !Tracked(heap[p[|p|-1]].kind)
  }

  ghost predicate Explains(heap: Heap, v: Val, seen: seq<Id>, stack: set<Id>, c: Cause)
    requires Closed(heap) && ValueIn(heap, v)
  {
    match c
    case Within(p, s) => OpenCycle(heap, p, s) && ComesUp(heap, v, seen, stack, p[0], s)
    case Above(p) => WayUp(heap, p, v, seen, stack)
  }

  predicate Remembered(heap: Heap, seen: seq<Id>, stack: set<Id>) {
    forall id | id in stack :: id in heap && (Tracked(heap[id].kind) ==> id in seen)
  }

  lemma OneBefore(heap: Heap, id: Id, p: seq<Id>)
    requires IsPath(heap, p) && id in heap && Ref(p[0]) in heap[id].values
    ensures IsPath(heap, [id] + p)
  {
    var q := [id] + p;
    forall i | 0 <= i < |q| - 1
      ensures Ref(q[i + 1]) in heap[q[i]].values
    {
      assert i > 0 ==> q[i] == p[i - 1] && q[i + 1] == p[i];
    }
  }

  lemma {:induction false} ThrowsBecause(heap: Heap, v: Val, seen: seq<Id>, stack: set<Id>) returns (c: Cause)
    requires Closed(heap) && ValueIn(heap, v) && Remembered(heap, seen, stack)
    requires Visit(heap, v, seen, stack).Throws?
    ensures Explains(heap, v, seen, stack, c)
    decreases heap.Keys - SetOf(seen), heap.Keys - stack, 0
  {
    var node := heap[v.id];
    if v.id in stack {
      c := Above([v.id]);
    } else {
      var seen' := if Tracked(node.kind) then seen + [v.id] else seen;
      assert Tracked(node.kind) ==> v.id in SetOf(seen') && v.id !in SetOf(seen);
      var w;
      c, w := ThrowsInBecause(heap, node.values, seen', stack + {v.id});
      if c.Above? {
        OneBefore(heap, v.id, c.way);
        if c.way[|c.way|-1] == v.id {
          c := Within([v.id] + c.way, seen);
        } else {
          c := Above([v.id] + c.way);
        }
      }
    }
  }

  lemma {:induction false} ThrowsInBecause(heap: Heap, vs: seq<Val>, seen: seq<Id>, stack: set<Id>)
    returns (c: Cause, w: Val)
    requires Closed(heap) && (forall v | v in vs :: ValueIn(heap, v)) && Remembered(heap, seen, stack)
    requires VisitAll(heap, vs, seen, stack).Throws?
    ensures match c
            case Within(p, s) => OpenCycle(heap, p, s) && ComesUpIn(heap, vs, seen, stack, p[0], s)
            case Above(p) => w in vs && WayUp(heap, p, w, seen, stack)
    decreases heap.Keys - SetOf(seen), heap.Keys - stack, |vs|
  {
    var r := Visit(heap, vs[0], seen, stack);
    if r.Throws? {
      w := vs[0];
      c := ThrowsBecause(heap, w, seen, stack);
    } else {
      assert SetOf(seen) <= SetOf(r.seen);
      c, w := ThrowsInBecause(heap, vs[1..], r.seen, stack);
    }
  }

  /**
    Serialising throws if and only if the traversal comes upon a regular expression that leads back
    to itself over objects that are not remembered at that moment.
   */
  lemma ThrowsIff(heap: Heap, v: Val)
    requires Closed(heap) && ValueIn(heap, v)
    ensures Visit(heap, v, [], {}).Throws? <==>
            exists p: seq<Id>, s: seq<Id> :: OpenCycle(heap, p, s) && ComesUp(heap, v, [], {}, p[0], s)
  {
    if Visit(heap, v, [], {}).Throws? {
      var c := ThrowsBecause(heap, v, [], {});
    }
    forall p: seq<Id>, s: seq<Id> | OpenCycle(heap, p, s) && ComesUp(heap, v, [], {}, p[0], s)
      ensures Visit(heap, v, [], {}).Throws?
    {
      ThrowsWithin(heap, v, [], {}, p, s);
    }
  }

  // ------------------------------------------------------------------------
  // The serialisation as it runs, over one growing list of remembered objects.
  // ------------------------------------------------------------------------

  function Append(js: seq<Json>, r: Outcome<seq<Json>>): Outcome<seq<Json>> {
    if r.Throws? then Throws else Ok(js + r.value, r.seen)
  }

  lemma AppendNothing(r: Outcome<seq<Json>>)
    ensures Append([], r) == r
  {
    if r.Ok? {
      assert [] + r.value == r.value;
    }
  }

  lemma AppendEnd(js: seq<Json>, seen: seq<Id>)
    ensures Append(js, Ok([], seen)) == Ok(js, seen)
  {
    assert js + [] == js;
  }

  /** The next of the values, and then the rest. */
  lemma VisitNext(heap: Heap, vs: seq<Val>, i: nat, seen: seq<Id>, stack: set<Id>, js: seq<Json>)
    requires Closed(heap) && (forall v | v in vs :: ValueIn(heap, v)) && i < |vs|
    ensures var f := Visit(heap, vs[i], seen, stack);
            Append(js, VisitAll(heap, vs[i..], seen, stack)) ==
            if f.Throws? then Throws else Append(js + [f.value], VisitAll(heap, vs[i + 1..], f.seen, stack))
  {
    assert vs[i..][0] == vs[i] && vs[i..][1..] == vs[i + 1..];
    var f := Visit(heap, vs[i], seen, stack);
    if f.Ok? {
      var rest := VisitAll(heap, vs[i + 1..], f.seen, stack);
      if rest.Ok? {
        Assoc(js, [f.value], rest.value);
      }
    }
  }

  class Serializer {
    const heap: Heap
    var seen: seq<Id>

    constructor (heap: Heap)
      ensures this.heap == heap && seen == []
    {
      this.heap, seen := heap, [];
    }

    /** The replacer: objects that were let through before are replaced. */
    method Replace(id: Id) returns (circular: bool)
      requires id in heap
      modifies this
      ensures circular == (Tracked(heap[id].kind) && id in old(seen))
      ensures seen == if Tracked(heap[id].kind) && !circular then old(seen) + [id] else old(seen)
    {
      circular := false;
      if Tracked(heap[id].kind) {
        if id in seen {
          return true;
        }
        seen := seen + [id];
      }
    }

    /** `None` if it throws. */
    method Serialize(v: Val, stack: set<Id>) returns (r: Option<Json>)
      requires Closed(heap) && ValueIn(heap, v)
      modifies this
      ensures var f := Visit(heap, v, old(seen), stack);
              if f.Throws? then r == None else r == Some(f.value) && seen == f.seen
      decreases heap.Keys - SetOf(seen), heap.Keys - stack, 0
    {
      if v.Atom? {
        return Some(Literal(v.value));
      }
      var node := heap[v.id];
      ghost var before := SetOf(seen);
      var circular := Replace(v.id);
      if circular {
        return Some(Circular);
      }
      if v.id in stack {
        return None;
      }
      assert Tracked(node.kind) ==> v.id in SetOf(seen) && v.id !in before;
      var values := SerializeAll(node.values, stack + {v.id});
      r := if values.Some? then Some(Struct(v.id, node.kind, node.keys, values.value)) else None;
    }

    method SerializeAll(vs: seq<Val>, stack: set<Id>) returns (r: Option<seq<Json>>)
      requires Closed(heap) && forall v | v in vs :: ValueIn(heap, v)
      modifies this
      ensures var f := VisitAll(heap, vs, old(seen), stack);
              if f.Throws? then r == None else r == Some(f.value) && seen == f.seen
      decreases heap.Keys - SetOf(seen), heap.Keys - stack, |vs| + 1
    {
      var js: seq<Json> := [];
      AppendNothing(VisitAll(heap, vs, seen, stack));
      assert vs[0..] == vs;
      for i := 0 to |vs|
        invariant old(seen) <= seen
        invariant VisitAll(heap, vs, old(seen), stack) == Append(js, VisitAll(heap, vs[i..], seen, stack))
      {
        VisitNext(heap, vs, i, seen, stack, js);
        assert SetOf(old(seen)) <= SetOf(seen);
        var j := Serialize(vs[i], stack);
        if j.None? {
          return None;
        }
        js := js + [j.value];
      }
      AppendEnd(js, seen);
      assert vs[|vs|..] == [];
      r := Some(js);
    }
  }

  // ------------------------------------------------------------------------
  // The logged text.
  // ------------------------------------------------------------------------

  /** The JSON value that an output is. */
  function AsJson(j: Json): J.Json
    decreases j, 1
  {
    match j
    case Literal(value) => value
    case Circular => J.Str("[Circular]")
    case Struct(_, kind, keys, values) => if kind.ArrayKind? then J.Array(AsItems(values)) else J.Obj(AsFields(keys, values))
  }

  function AsItems(js: seq<Json>): (items: seq<J.Json>)
    ensures |items| == |js| && forall i :: 0 <= i < |js| ==> items[i] == AsJson(js[i])
    decreases js, 0
  {
    if js == [] then [] else [AsJson(js[0])] + AsItems(js[1..])
  }

  /** The values, each under its key. */
  function AsFields(keys: seq<string>, js: seq<Json>): (fs: J.Fields)
    ensures |fs| == if |keys| < |js| then |keys| else |js|
    ensures forall i :: 0 <= i < |fs| ==> fs[i] == J.Field(keys[i], AsJson(js[i]))
    decreases js, 0
  {
    if js == [] || keys == [] then [] else [J.Field(keys[0], AsJson(js[0]))] + AsFields(keys[1..], js[1..])
  }

  /** The text of an output. */
  function Render(j: Json, finite: string -> bool): string {
    T.Compact(AsJson(j), finite)
  }

  /** No object but an array has two properties of one name. */
  predicate NamesOnce(heap: Heap) {
    forall id | id in heap && !heap[id].kind.ArrayKind? ::
      forall i, k :: 0 <= i < k < |heap[id].keys| ==> heap[id].keys[i] != heap[id].keys[k]
  }

  /** An output has the shape of the objects it was made from. */
  predicate ShapedLike(heap: Heap, j: Json)
    decreases j, 1
  {
    j.Struct? ==>
      && j.id in heap && j.kind == heap[j.id].kind && j.keys == heap[j.id].keys && |j.values| == |j.keys|
      && AllShapedLike(heap, j.values)
  }

  predicate AllShapedLike(heap: Heap, js: seq<Json>)
    decreases js, 0
  {
    js == [] || (ShapedLike(heap, js[0]) && AllShapedLike(heap, js[1..]))
  }

  lemma {:induction false} OutputIsShaped(heap: Heap, v: Val, seen: seq<Id>, stack: set<Id>)
    requires Closed(heap) && ValueIn(heap, v)
    ensures var r := Visit(heap, v, seen, stack); r.Ok? ==> ShapedLike(heap, r.value)
    decreases heap.Keys - SetOf(seen), heap.Keys - stack, 0
  {
    if v.Ref? {
      var node := heap[v.id];
      if !(Tracked(node.kind) && v.id in seen) && v.id !in stack {
        var seen' := if Tracked(node.kind) then seen + [v.id] else seen;
        assert Tracked(node.kind) ==> v.id in SetOf(seen') && v.id !in SetOf(seen);
        OutputsAreShaped(heap, node.values, seen', stack + {v.id});
      }
    }
  }

  lemma {:induction false} OutputsAreShaped(heap: Heap, vs: seq<Val>, seen: seq<Id>, stack: set<Id>)
    requires Closed(heap) && forall v | v in vs :: ValueIn(heap, v)
    ensures var r := VisitAll(heap, vs, seen, stack); r.Ok? ==> AllShapedLike(heap, r.value)
    decreases heap.Keys - SetOf(seen), heap.Keys - stack, |vs|
  {
    if vs != [] {
      OutputIsShaped(heap, vs[0], seen, stack);
      var r := Visit(heap, vs[0], seen, stack);
      if r.Ok? {
        assert SetOf(seen) <= SetOf(r.seen);
        OutputsAreShaped(heap, vs[1..], r.seen, stack);
        var rest := VisitAll(heap, vs[1..], r.seen, stack);
        if rest.Ok? {
          assert ([r.value] + rest.value)[1..] == rest.value;
        }
      }
    }
  }

  lemma {:induction false} ShapedIsProper(heap: Heap, j: Json)
    requires ShapedLike(heap, j) && NamesOnce(heap)
    ensures J.Proper(AsJson(j))
    decreases j, 1
  {
    if j.Struct? {
      AllShapedAreProper(heap, j.values);
    }
  }

  lemma {:induction false} AllShapedAreProper(heap: Heap, js: seq<Json>)
    requires AllShapedLike(heap, js) && NamesOnce(heap)
    ensures forall i :: 0 <= i < |js| ==> J.Proper(AsJson(js[i]))
    decreases js, 0
  {
    if js != [] {
      ShapedIsProper(heap, js[0]);
      AllShapedAreProper(heap, js[1..]);
      assert js == [js[0]] + js[1..];
    }
  }

  /** The text of what was serialised is JSON, and is parsed as the output with its cycle marks. */
  lemma RenderedIsRead(heap: Heap, v: Val, number: string -> string, finite: string -> bool)
    requires Closed(heap) && ValueIn(heap, v) && NamesOnce(heap) && T.Faithful(number, finite)
    ensures var r := Visit(heap, v, [], {});
            r.Ok? ==> T.Parse(Render(r.value, finite), number) == Some(J.Finite(AsJson(r.value), finite))
  {
    var r := Visit(heap, v, [], {});
    if r.Ok? {
      OutputIsShaped(heap, v, [], {});
      ShapedIsProper(heap, r.value);
      T.WrittenIsRead(AsJson(r.value), T.Style("", finite), number, "");
      assert Render(r.value, finite) + "" == Render(r.value, finite);
    }
  }

  /**
    A JSON value depicts a value of the heap: a primitive as itself, an array item by item, and any
    other object property by property; arrays and objects may be replaced by a cycle mark.
   */
  predicate Depicts(heap: Heap, v: Val, j: J.Json, finite: string -> bool)
    requires Closed(heap) && ValueIn(heap, v)
    decreases j
  {
    if v.Atom? then j == J.Finite(v.value, finite)
    else
      var node := heap[v.id];
      if j == J.Str("[Circular]") then !node.kind.RegExpKind?
      else if node.kind.ArrayKind? then
        && j.Array? && |j.items| == |node.values|
        && forall i :: 0 <= i < |j.items| ==> node.values[i] in node.values && Depicts(heap, node.values[i], j.items[i], finite)
      else
        && j.Obj? && |j.fields| == |node.values|
        && forall i :: 0 <= i < |j.fields| ==>
             j.fields[i].key == node.keys[i] && node.values[i] in node.values &&
             Depicts(heap, node.values[i], j.fields[i].value, finite)
  }

  predicate AllDepicted(heap: Heap, vs: seq<Val>, js: seq<Json>, finite: string -> bool)
    requires Closed(heap)
  {
    |js| == |vs| && forall i :: 0 <= i < |vs| ==> ValueIn(heap, vs[i]) && Depicts(heap, vs[i], J.Finite(AsJson(js[i]), finite), finite)
  }

  lemma StructDepicts(heap: Heap, id: Id, js: seq<Json>, finite: string -> bool)
    requires Closed(heap) && id in heap && AllDepicted(heap, heap[id].values, js, finite)
    ensures Depicts(heap, Ref(id), J.Finite(AsJson(Struct(id, heap[id].kind, heap[id].keys, js)), finite), finite)
  {
    var node := heap[id];
    assert forall i :: 0 <= i < |node.values| ==> node.values[i] in node.values;
    assert |AsFields(node.keys, js)| == |js|;
  }

  lemma {:induction false} OutputDepicts(heap: Heap, v: Val, seen: seq<Id>, stack: set<Id>, finite: string -> bool)
    requires Closed(heap) && ValueIn(heap, v)
    ensures var r := Visit(heap, v, seen, stack); r.Ok? ==> Depicts(heap, v, J.Finite(AsJson(r.value), finite), finite)
    decreases heap.Keys - SetOf(seen), heap.Keys - stack, 0
  {
    if v.Ref? {
      var node := heap[v.id];
      if !(Tracked(node.kind) && v.id in seen) && v.id !in stack {
        var seen' := if Tracked(node.kind) then seen + [v.id] else seen;
        assert Tracked(node.kind) ==> v.id in SetOf(seen') && v.id !in SetOf(seen);
        OutputsDepict(heap, node.values, seen', stack + {v.id}, finite);
        var r := VisitAll(heap, node.values, seen', stack + {v.id});
        if r.Ok? {
          StructDepicts(heap, v.id, r.value, finite);
        }
      }
    }
  }

  lemma {:induction false} OutputsDepict(heap: Heap, vs: seq<Val>, seen: seq<Id>, stack: set<Id>, finite: string -> bool)
    requires Closed(heap) && forall v | v in vs :: ValueIn(heap, v)
    ensures var r := VisitAll(heap, vs, seen, stack); r.Ok? ==> AllDepicted(heap, vs, r.value, finite)
    decreases heap.Keys - SetOf(seen), heap.Keys - stack, |vs|
  {
    if vs != [] {
      OutputDepicts(heap, vs[0], seen, stack, finite);
      var r := Visit(heap, vs[0], seen, stack);
      if r.Ok? {
        assert SetOf(seen) <= SetOf(r.seen);
        OutputsDepict(heap, vs[1..], r.seen, stack, finite);
        var rest := VisitAll(heap, vs[1..], r.seen, stack);
        if rest.Ok? {
          OneMoreDepicted(heap, vs, r.value, rest.value, finite);
        }
      }
    }
  }

  lemma OneMoreDepicted(heap: Heap, vs: seq<Val>, j: Json, js: seq<Json>, finite: string -> bool)
    requires Closed(heap) && vs != [] && AllDepicted(heap, vs[1..], js, finite)
    requires ValueIn(heap, vs[0]) && Depicts(heap, vs[0], J.Finite(AsJson(j), finite), finite)
    ensures AllDepicted(heap, vs, [j] + js, finite)
  {
    forall i | 0 <= i < |vs|
      ensures ValueIn(heap, vs[i]) && Depicts(heap, vs[i], J.Finite(AsJson(([j] + js)[i]), finite), finite)
    {
      if i > 0 {
        assert vs[i] == vs[1..][i - 1] && ([j] + js)[i] == js[i - 1];
      }
    }
  }

  /** What is read back from the text depicts the value that was serialised. */
  lemma TextDepicts(heap: Heap, v: Val, number: string -> string, finite: string -> bool)
    requires Closed(heap) && ValueIn(heap, v) && NamesOnce(heap) && T.Faithful(number, finite)
    requires Visit(heap, v, [], {}).Ok?
    ensures var read := T.Parse(Render(Visit(heap, v, [], {}).value, finite), number);
            read.Some? && Depicts(heap, v, read.value, finite)
  {
    RenderedIsRead(heap, v, number, finite);
    OutputDepicts(heap, v, [], {}, finite);
  }

  /** A logged argument: a value, `undefined`, or an error with its stack. */
  datatype Arg = Value(value: Val) | Undefined | Error(stack: string, text: string)

  function Massaged(a: Arg): Val {
    match a
    case Value(v) => v
    case Undefined => Atom(J.Str("undefined"))
    case Error(stack, text) => Atom(J.Str(if stack != "" then stack else text))
  }

  /** The heap with the array of arguments, which is an object of its own. */
  function WithArgs(heap: Heap, root: Id, args: seq<Arg>): Heap {
    heap[root := Node(ArrayKind, seq(|args|, _ => ""), seq(|args|, i requires 0 <= i < |args| => Massaged(args[i])))]
  }

  predicate ArgsIn(heap: Heap, args: seq<Arg>) {
    forall a | a in args :: a.Value? ==> ValueIn(heap, a.value)
  }

  lemma ArgsAreClosed(heap: Heap, root: Id, args: seq<Arg>)
    requires Closed(heap) && root !in heap && ArgsIn(heap, args)
    ensures Closed(WithArgs(heap, root, args))
  {
    var h := WithArgs(heap, root, args);
    forall v | v in h[root].values
      ensures ValueIn(h, v)
    {
      var i :| 0 <= i < |args| && h[root].values[i] == v;
      assert args[i] in args;
    }
    forall id | id in heap
      ensures |h[id].keys| == |h[id].values| && forall v | v in h[id].values :: ValueIn(h, v)
    {
      if id != root {
        assert forall v | v in heap[id].values :: ValueIn(heap, v);
      }
    }
  }

  /** The text that is logged, or one of the two messages that are logged in its place. */
  datatype Logged = Rendered(text: string) | TooLarge | NotInspectable

  /** `finite` says which texts are those of finite numbers. */
  method SafeToString(heap: Heap, root: Id, args: seq<Arg>, finite: string -> bool) returns (res: Logged)
    requires Closed(heap) && root !in heap && ArgsIn(heap, args)
    ensures Closed(WithArgs(heap, root, args))
    ensures res ==
            match Visit(WithArgs(heap, root, args), Ref(root), [], {})
            case Throws => NotInspectable
            case Ok(j, _) => if |Render(j, finite)| > MAX_LENGTH then TooLarge else Rendered(Render(j, finite))
    ensures CycleFree(WithArgs(heap, root, args)) ==> !res.NotInspectable?
    ensures IsTree(WithArgs(heap, root, args), Ref(root)) ==>
              exists j: Json ::
                && Unfolds(WithArgs(heap, root, args), Ref(root), j)
                && res == if |Render(j, finite)| > MAX_LENGTH then TooLarge else Rendered(Render(j, finite))
  {
    ArgsAreClosed(heap, root, args);
    var h := WithArgs(heap, root, args);
    PlainIffTree(h, Ref(root));
    var s := new Serializer(h);
    var j := s.Serialize(Ref(root), {});
    if j.None? {
      assert !CycleFree(h) by {
        if CycleFree(h) {
          NeverThrows(h, Ref(root), [], {});
        }
      }
      return NotInspectable;
    }
    var text := Render(j.value, finite);
    res := if |text| > MAX_LENGTH then TooLarge else Rendered(text);
  }

  lemma {:induction false} ItemIsIts(heap: Heap, vs: seq<Val>, seen: seq<Id>, stack: set<Id>, i: nat)
    requires Closed(heap) && (forall v | v in vs :: ValueIn(heap, v)) && i < |vs| && vs[i].Atom?
    requires VisitAll(heap, vs, seen, stack).Ok?
    ensures VisitAll(heap, vs, seen, stack).value[i] == Literal(vs[i].value)
    decreases |vs|
  {
    if i > 0 {
      ItemIsIts(heap, vs[1..], Visit(heap, vs[0], seen, stack).seen, stack, i - 1);
    }
  }

  /**
    The text that is logged is a JSON array with an item for each argument: `undefined` as that word, an
    error as its stack or else as its text, and a primitive as itself.
   */
  lemma ArgumentsAreRead(heap: Heap, root: Id, args: seq<Arg>, number: string -> string, finite: string -> bool, i: nat)
    requires Closed(heap) && NamesOnce(heap) && root !in heap && ArgsIn(heap, args) && T.Faithful(number, finite)
    requires i < |args| && Closed(WithArgs(heap, root, args)) && Visit(WithArgs(heap, root, args), Ref(root), [], {}).Ok?
    ensures var read := T.Parse(Render(Visit(WithArgs(heap, root, args), Ref(root), [], {}).value, finite), number);
            && read.Some? && read.value.Array? && |read.value.items| == |args|
            && (args[i] == Undefined ==> read.value.items[i] == J.Str("undefined"))
            && (args[i].Error? ==> read.value.items[i] == J.Str(if args[i].stack != "" then args[i].stack else args[i].text))
            && (args[i].Value? && args[i].value.Atom? ==> read.value.items[i] == J.Finite(args[i].value.value, finite))
  {
    var h := WithArgs(heap, root, args);
    RenderedIsRead(h, Ref(root), number, finite);
    ArgumentIs(heap, root, args, i);
    ItemRead(Visit(h, Ref(root), [], {}).value, finite, i);
  }

  lemma ItemRead(j: Json, finite: string -> bool, i: nat)
    requires j.Struct? && j.kind.ArrayKind? && i < |j.values|
    ensures var v := J.Finite(AsJson(j), finite);
            v.Array? && |v.items| == |j.values| && v.items[i] == J.Finite(AsJson(j.values[i]), finite)
  {
  }

  /** What is written for an argument that is a primitive, or is made one. */
  lemma ArgumentIs(heap: Heap, root: Id, args: seq<Arg>, i: nat)
    requires Closed(heap) && root !in heap && ArgsIn(heap, args) && i < |args|
    requires Closed(WithArgs(heap, root, args)) && Visit(WithArgs(heap, root, args), Ref(root), [], {}).Ok?
    ensures var j := Visit(WithArgs(heap, root, args), Ref(root), [], {}).value;
            && j.Struct? && j.kind.ArrayKind? && |j.values| == |args|
            && (Massaged(args[i]).Atom? ==> j.values[i] == Literal(Massaged(args[i]).value))
  {
    var h := WithArgs(heap, root, args);
    assert [] + [root] == [root] && {} + {root} == {root};
    if h[root].values[i].Atom? {
      ItemIsIts(h, h[root].values, [root], {root}, i);
    }
  }

  /** An array that holds the same object twice is no cycle, but its second element is marked as one. */
  lemma SharedIsMarked()
    ensures var heap := map[0 := Node(ArrayKind, ["", ""], [Ref(1), Ref(1)]), 1 := Node(ObjectKind, [], [])];
            && Closed(heap)
            && Visit(heap, Ref(0), [], {}) ==
               Ok(Struct(0, ArrayKind, ["", ""], [Struct(1, ObjectKind, [], []), Circular]), [0, 1])
  {
    var heap := map[0 := Node(ArrayKind, ["", ""], [Ref(1), Ref(1)]), 1 := Node(ObjectKind, [], [])];
    var vs := [Ref(1), Ref(1)];
    assert vs[1..] == [Ref(1)] && vs[1..][1..] == [];
    assert [0] + [1] == [0, 1] && [] + [0] == [0] && {} + {0} == {0};
    assert VisitAll(heap, [], [0, 1], {0}) == Ok([], [0, 1]);
    assert Visit(heap, Ref(1), [0], {0}) == Ok(Struct(1, ObjectKind, [], []), [0, 1]);
    assert Visit(heap, Ref(1), [0, 1], {0}) == Ok(Circular, [0, 1]);
    assert [Circular] + [] == [Circular];
    assert VisitAll(heap, [Ref(1)], [0, 1], {0}) == Ok([Circular], [0, 1]) by {
      assert [Ref(1)][1..] == [];
    }
    assert [Struct(1, ObjectKind, [], [])] + [Circular] == [Struct(1, ObjectKind, [], []), Circular];
    assert VisitAll(heap, vs, [0], {0}) == Ok([Struct(1, ObjectKind, [], []), Circular], [0, 1]);
  }

  /** A regular expression with a property that is itself makes `JSON.stringify` throw. */
  lemma SelfRegExpThrows()
    ensures var heap := map[0 := Node(RegExpKind, ["self"], [Ref(0)])];
            Closed(heap) && Visit(heap, Ref(0), [], {}) == Throws
  {
    var heap := map[0 := Node(RegExpKind, ["self"], [Ref(0)])];
    assert IsPath(heap, [0, 0]);
    FirstRegExpThrows(heap, 0);
  }

  /** One that lies on a cycle does not, if a remembered object of the cycle is met before it. */
  lemma RegExpCycleNeedNotThrow()
    ensures var heap := map[0 := Node(ObjectKind, ["r"], [Ref(1)]), 1 := Node(RegExpKind, ["o"], [Ref(0)])];
            && Closed(heap)
            && Visit(heap, Ref(0), [], {}) ==
               Ok(Struct(0, ObjectKind, ["r"], [Struct(1, RegExpKind, ["o"], [Circular])]), [0])
            && Visit(heap, Ref(1), [], {}) == Throws
  {
    var heap := map[0 := Node(ObjectKind, ["r"], [Ref(1)]), 1 := Node(RegExpKind, ["o"], [Ref(0)])];
    assert [] + [0] == [0] && {} + {0} == {0} && {} + {1} == {1} && [Ref(0)][1..] == [] && [Ref(1)][1..] == [];
    assert [Circular] + [] == [Circular];
    assert Visit(heap, Ref(0), [0], {0, 1}) == Ok(Circular, [0]);
    assert {0} + {1} == {0, 1} && {1} + {0} == {0, 1};
    assert VisitAll(heap, [Ref(0)], [0], {0, 1}) == Ok([Circular], [0]);
    var r := Struct(1, RegExpKind, ["o"], [Circular]);
    assert Visit(heap, Ref(1), [0], {0}) == Ok(r, [0]);
    assert [r] + [] == [r];
    assert VisitAll(heap, [Ref(1)], [0], {0}) == Ok([r], [0]);
    assert Visit(heap, Ref(1), [0], {0, 1}) == Throws;
    assert VisitAll(heap, [Ref(1)], [0], {0, 1}) == Throws;
    assert Visit(heap, Ref(0), [], {1}) == Throws;
    assert VisitAll(heap, [Ref(0)], [], {1}) == Throws;
  }
}
