/** What wiring and unwiring undo of each other, and what they keep. */
module OverridesProofs {
  import opened Wrappers
  import opened JsonValues
  import opened Overrides

  // ------------------------------------------------------------------------
  // Records.
  // ------------------------------------------------------------------------

  lemma OwnFacts(v: Json)
    ensures DistinctKeys(Own(v)) && (Proper(v) ==> ProperFields(Own(v)))
    ensures v.Obj? && DistinctKeys(v.fields) ==> Own(v) == v.fields
  {
    match v {
      case Obj(fs) =>
        SpreadDistinct([], fs);
        if DistinctKeys(fs) {
          SpreadOverAll([], fs);
        }
        assert Proper(v) ==> ProperFields(fs);
      case Str(s) =>
        var fs := seq(|s|, i requires 0 <= i < |s| => Field(Digits(i), Str([s[i]])));
        SpreadProper([], fs);
      case Array(items) =>
        var fs := seq(|items|, i requires 0 <= i < |items| => Field(Digits(i), items[i]));
        SpreadDistinct([], fs);
        if Proper(v) {
          SpreadProper([], fs);
        }
      case _ =>
    }
  }

  lemma SpreadOverAll(a: Fields, b: Fields)
    requires DistinctKeys(b) && Leads(a, b)
    ensures Spread(a, b) == b
  {
    SpreadOver(a, b, 0);
    assert b[0..] == b;
  }

  lemma BaseFacts(product: Json)
    requires Proper(product)
    ensures ProperFields(BaseAgent(product))
  {
    if Member(product, AGENT).Some? {
      GetProper(product.fields, AGENT);
      OwnFacts(Member(product, AGENT).value);
    }
  }

  lemma ExistingFacts(overrides: Json, base: Fields)
    requires Proper(overrides) && ProperFields(base)
    ensures ProperFields(ExistingAgent(overrides, base))
  {
    if Member(overrides, AGENT).Some? {
      GetProper(overrides.fields, AGENT);
      OwnFacts(Member(overrides, AGENT).value);
    }
  }

  predicate IsKey(routes: seq<Route>, key: string) {
    exists r | r in routes :: r.productKey == key
  }

  lemma {:induction false} UrlsFacts(routes: seq<Route>, k: string)
    ensures ProperFields(Urls(routes)) && (Has(Urls(routes), k) <==> IsKey(routes, k))
    decreases |routes|
  {
    if routes != [] {
      var init, last := routes[..|routes|-1], routes[|routes|-1];
      UrlsFacts(init, k);
      SetFacts(Urls(init), last.productKey, Str(last.url), k);
      SetProper(Urls(init), last.productKey, Str(last.url));
      assert forall r :: r in routes <==> r in init || r == last;
      assert Has(Urls(routes), k) <==> Get(Urls(routes), k).Some?;
    }
  }

  lemma {:induction false} RevertedFacts(agent: Fields, base: Fields, routes: seq<Route>, k: string)
    requires ProperFields(agent) && ProperFields(base)
    ensures ProperFields(Reverted(agent, base, routes))
    ensures Get(Reverted(agent, base, routes), k) == if IsKey(routes, k) then Get(base, k) else Get(agent, k)
    decreases |routes|
  {
    if routes != [] {
      var init, last := routes[..|routes|-1], routes[|routes|-1];
      var before, key := Reverted(agent, base, init), last.productKey;
      RevertedFacts(agent, base, init, k);
      assert IsKey(routes, k) <==> IsKey(init, k) || k == key by {
        assert forall r :: r in routes <==> r in init || r == last;
      }
      if Has(base, key) {
        GetProper(base, key);
        SetFacts(before, key, Get(base, key).value, k);
        SetProper(before, key, Get(base, key).value);
      } else {
        DeleteFacts(before, key, k);
        DeleteProper(before, key);
      }
    }
  }

  // ------------------------------------------------------------------------
  // Wiring.
  // ------------------------------------------------------------------------

  function NewAgent(overrides: Json, base: Fields, urls: Fields): Fields {
    Spread(Spread(base, ExistingAgent(overrides, base)), urls)
  }

  lemma NewAgentFacts(overrides: Json, base: Fields, routes: seq<Route>, k: string)
    requires Proper(overrides) && ProperFields(base)
    ensures ProperFields(NewAgent(overrides, base, Urls(routes)))
    ensures Get(NewAgent(overrides, base, Urls(routes)), k) ==
            if IsKey(routes, k) then Get(Urls(routes), k)
            else if Has(ExistingAgent(overrides, base), k) then Get(ExistingAgent(overrides, base), k)
            else Get(base, k)
  {
    var existing, urls := ExistingAgent(overrides, base), Urls(routes);
    ExistingFacts(overrides, base);
    UrlsFacts(routes, k);
    SpreadFacts(base, existing, k);
    SpreadProper(base, existing);
    SpreadFacts(Spread(base, existing), urls, k);
    SpreadProper(Spread(base, existing), urls);
  }

  lemma WiredValueFacts(overrides: Json, base: Fields, routes: seq<Route>)
    requires Proper(overrides) && ProperFields(base)
    ensures Proper(WiredValue(overrides, base, Urls(routes)))
    ensures overrides.Obj? ==>
              Member(WiredValue(overrides, base, Urls(routes)), AGENT) == Some(Obj(NewAgent(overrides, base, Urls(routes))))
  {
    if overrides.Obj? {
      NewAgentFacts(overrides, base, routes, "");
      SetProper(overrides.fields, AGENT, Obj(NewAgent(overrides, base, Urls(routes))));
      SetFacts(overrides.fields, AGENT, Obj(NewAgent(overrides, base, Urls(routes))), AGENT);
    }
  }

  /** The value that wiring starts from. */
  function StartValue(codec: Codec, files: Files): Json {
    var v := Parsed(codec, files.overrides);
    if v.Some? then v.value else Obj([])
  }

  /** The new agent points every endpoint's key at its URL. */
  lemma NewAgentUrls(overrides: Json, base: Fields, routes: seq<Route>, f: Field)
    requires Proper(overrides) && ProperFields(base) && f in Urls(routes)
    ensures Get(NewAgent(overrides, base, Urls(routes)), f.key) == Some(f.value) && f.value.Str?
  {
    UrlsFacts(routes, f.key);
    NewAgentFacts(overrides, base, routes, f.key);
    var i :| 0 <= i < |Urls(routes)| && Urls(routes)[i] == f;
    IndexUnique(Urls(routes), f.key, i);
    UrlsAreTexts(routes, f);
  }

  lemma {:induction false} UrlsAreTexts(routes: seq<Route>, f: Field)
    requires f in Urls(routes)
    ensures f.value.Str?
    decreases |routes|
  {
    var init := routes[..|routes|-1];
    if f in Urls(init) {
      UrlsAreTexts(init, f);
    }
  }

  /** What wiring writes into an object, read back, has every other field, and the agent's other keys. */
  lemma ReadBackKeeps(v: Json, base: Fields, routes: seq<Route>, finite: string -> bool, key: string)
    requires Proper(v) && v.Obj? && ProperFields(base)
    ensures var read := Finite(WiredValue(v, base, Urls(routes)), finite);
            && Member(read, AGENT) == Some(Obj(FiniteFields(NewAgent(v, base, Urls(routes)), finite)))
            && (key != AGENT ==> Member(read, key) == FiniteIfAny(Member(v, key), finite))
  {
    var agent := NewAgent(v, base, Urls(routes));
    SetFacts(v.fields, AGENT, Obj(agent), AGENT);
    SetFacts(v.fields, AGENT, Obj(agent), key);
    FiniteGet(Set(v.fields, AGENT, Obj(agent)), finite, AGENT);
    FiniteGet(Set(v.fields, AGENT, Obj(agent)), finite, key);
  }

  /** What wiring writes into an object, read back, has every endpoint's URL. */
  lemma ReadBackIsWired(v: Json, base: Fields, routes: seq<Route>, finite: string -> bool)
    requires Proper(v) && v.Obj? && ProperFields(base)
    ensures var agent := Member(Finite(WiredValue(v, base, Urls(routes)), finite), AGENT);
            agent.Some? && agent.value.Obj? &&
            forall f | f in Urls(routes) :: Get(agent.value.fields, f.key) == Some(f.value)
  {
    var agent := NewAgent(v, base, Urls(routes));
    ReadBackKeeps(v, base, routes, finite, AGENT);
    forall f | f in Urls(routes)
      ensures Get(FiniteFields(agent, finite), f.key) == Some(f.value)
    {
      NewAgentUrls(v, base, routes, f);
      FiniteGet(agent, finite, f.key);
    }
  }

  lemma WrittenIsRead(codec: Codec, product: Option<string>, routes: seq<Route>, files: Files)
    requires Lawful(codec) && Parsed(codec, product).Some? && !StartValue(codec, files).Null?
    ensures var (after, ok) := Wire(codec, product, routes, files);
            var base := BaseAgent(Parsed(codec, product).value);
            ok && ProperFields(base) && Proper(StartValue(codec, files)) &&
            Parsed(codec, after.overrides) == Some(Finite(WiredValue(StartValue(codec, files), base, Urls(routes)), codec.finite))
  {
    BaseFacts(Parsed(codec, product).value);
    WiredValueFacts(StartValue(codec, files), BaseAgent(Parsed(codec, product).value), routes);
  }

  /** Wiring leaves the product wired exactly when the product is readable and the overrides can hold a field. */
  lemma WiredIff(codec: Codec, product: Option<string>, routes: seq<Route>, files: Files)
    requires Lawful(codec)
    ensures var (after, ok) := Wire(codec, product, routes, files);
            ok && Wired(codec, routes, after.overrides) <==>
            Parsed(codec, product).Some? && StartValue(codec, files).Obj?
  {
    var p, v := Parsed(codec, product), StartValue(codec, files);
    if p.Some? && !v.Null? {
      WrittenIsRead(codec, product, routes, files);
      if v.Obj? {
        ReadBackIsWired(v, BaseAgent(p.value), routes, codec.finite);
      }
    }
  }

  /** No later endpoint has the same key. */
  predicate LastOfKey(routes: seq<Route>, i: nat)
    requires i < |routes|
  {
    forall j :: i < j < |routes| ==> routes[j].productKey != routes[i].productKey
  }

  /** Each endpoint's key has the URL of that endpoint. */
  lemma {:induction false} UrlIs(routes: seq<Route>, i: nat)
    requires i < |routes| && LastOfKey(routes, i)
    ensures Get(Urls(routes), routes[i].productKey) == Some(Str(routes[i].url))
    decreases |routes|
  {
    var init, last := routes[..|routes|-1], routes[|routes|-1];
    UrlsFacts(init, last.productKey);
    SetFacts(Urls(init), last.productKey, Str(last.url), routes[i].productKey);
    if i < |routes| - 1 {
      assert init[i] == routes[i] && last.productKey != routes[i].productKey;
      UrlIs(init, i);
    }
  }

  lemma StillThere(fs: Fields, key: string, value: Json, f: Field)
    requires f in Set(fs, key, value) && f.key != key
    ensures f in fs
  {
  }

  lemma LastUrl(routes: seq<Route>, f: Field)
    requires routes != [] && f in Urls(routes) && f.key == routes[|routes|-1].productKey
    ensures f.value == Str(routes[|routes|-1].url)
  {
    UrlsFacts(routes, f.key);
    UrlIs(routes, |routes| - 1);
    var k :| 0 <= k < |Urls(routes)| && Urls(routes)[k] == f;
    IndexUnique(Urls(routes), f.key, k);
  }

  /** And the record has nothing else. */
  lemma {:induction false} UrlFrom(routes: seq<Route>, f: Field) returns (i: nat)
    requires f in Urls(routes)
    ensures i < |routes| && LastOfKey(routes, i) && f == Field(routes[i].productKey, Str(routes[i].url))
    decreases |routes|
  {
    i := |routes| - 1;
    if f.key == routes[i].productKey {
      LastUrl(routes, f);
    } else {
      var init, last := routes[..i], routes[i];
      StillThere(Urls(init), last.productKey, Str(last.url), f);
      i := UrlFrom(init, f);
      assert routes[i] == init[i];
    }
  }

  /** The agent is there, and no value that an `if` takes for false. */
  predicate HasAgent(v: Json) {
    Member(v, "defaultChatAgent").Some? && Member(v, "defaultChatAgent").value !in [Null, Bool(false), Number("0"), Str("")]
  }

  /** What it means to be wired: the overrides are read, and point each endpoint's key at its URL. */
  lemma WiredMeans(codec: Codec, routes: seq<Route>, overrides: Option<string>)
    ensures Wired(codec, routes, overrides) <==>
              overrides.Some? && var v := codec.parse(overrides.value);
              && v.Some? && HasAgent(v.value)
              && forall i: nat | i < |routes| && LastOfKey(routes, i) ::
                   Member(Member(v.value, "defaultChatAgent").value, routes[i].productKey) == Some(Str(routes[i].url))
  {
    if overrides.Some? && codec.parse(overrides.value).Some? && Member(codec.parse(overrides.value).value, AGENT).Some? {
      var agent := Member(codec.parse(overrides.value).value, AGENT).value;
      if forall f | f in Urls(routes) :: Member(agent, f.key) == Some(f.value) {
        forall i: nat | i < |routes| && LastOfKey(routes, i)
          ensures Member(agent, routes[i].productKey) == Some(Str(routes[i].url))
        {
          UrlIs(routes, i);
          assert Urls(routes)[IndexOf(Urls(routes), routes[i].productKey)] in Urls(routes);
        }
      }
      if forall i: nat | i < |routes| && LastOfKey(routes, i) :: Member(agent, routes[i].productKey) == Some(Str(routes[i].url)) {
        forall f | f in Urls(routes)
          ensures Member(agent, f.key) == Some(f.value)
        {
          var i := UrlFrom(routes, f);
        }
      }
    }
  }

  /** What wiring wrote, read back, has each endpoint's URL under its key. */
  lemma WiredUrl(codec: Codec, product: Option<string>, routes: seq<Route>, files: Files, i: nat)
    requires Lawful(codec) && Parsed(codec, product).Some? && StartValue(codec, files).Obj?
    requires i < |routes| && LastOfKey(routes, i)
    ensures var now := Parsed(codec, Wire(codec, product, routes, files).0.overrides);
            now.Some? && Member(now.value, "defaultChatAgent").Some? &&
            Member(Member(now.value, "defaultChatAgent").value, routes[i].productKey) == Some(Str(routes[i].url))
  {
    WiredIff(codec, product, routes, files);
    WiredMeans(codec, routes, Wire(codec, product, routes, files).0.overrides);
  }

  /** Wiring keeps every other override, and every key of the agent that is no endpoint's. */
  lemma WireKeepsTheRest(codec: Codec, product: Option<string>, routes: seq<Route>, files: Files, key: string)
    requires Lawful(codec) && Parsed(codec, product).Some? && StartValue(codec, files).Obj?
    ensures var after := Wire(codec, product, routes, files).0;
            var now, before := Parsed(codec, after.overrides), StartValue(codec, files);
            var base := BaseAgent(Parsed(codec, product).value);
            now.Some? && Member(now.value, AGENT).Some? &&
            (key != AGENT ==> Member(now.value, key) == FiniteIfAny(Member(before, key), codec.finite)) &&
            (!IsKey(routes, key) ==>
               Member(Member(now.value, AGENT).value, key) ==
               FiniteIfAny(if Has(ExistingAgent(before, base), key) then Get(ExistingAgent(before, base), key)
                           else Get(base, key), codec.finite))
  {
    var base, v := BaseAgent(Parsed(codec, product).value), StartValue(codec, files);
    WrittenIsRead(codec, product, routes, files);
    ReadBackKeeps(v, base, routes, codec.finite, key);
    NewAgentFacts(v, base, routes, key);
    FiniteGet(NewAgent(v, base, Urls(routes)), codec.finite, key);
  }

  // ------------------------------------------------------------------------
  // The same, in terms of the values themselves.
  // ------------------------------------------------------------------------

  /** The own property of a value: a field, or an item or a character under its index. */
  function PropertyOf(v: Json, key: string): Option<Json> {
    match v
    case Obj(fs) => Get(fs, key)
    case Array(items) => if Decimal(key) < |items| && Digits(Decimal(key)) == key then Some(items[Decimal(key)]) else None
    case Str(s) => if Decimal(key) < |s| && Digits(Decimal(key)) == key then Some(Str([s[Decimal(key)]])) else None
    case _ => None
  }

  lemma IndexedIs(items: seq<Json>, key: string)
    ensures var fs := seq(|items|, i requires 0 <= i < |items| => Field(Digits(i), items[i]));
            && DistinctKeys(fs)
            && Get(fs, key) == if Decimal(key) < |items| && Digits(Decimal(key)) == key then Some(items[Decimal(key)]) else None
  {
    var fs := seq(|items|, i requires 0 <= i < |items| => Field(Digits(i), items[i]));
    forall i: nat | i < |fs|
      ensures Decimal(fs[i].key) == i
    {
      DigitsRead(i);
    }
    if Decimal(key) < |items| && Digits(Decimal(key)) == key {
      IndexUnique(fs, key, Decimal(key));
    }
  }

  /** Spreading a value copies its own properties. */
  lemma OwnIs(v: Json, key: string)
    requires Proper(v)
    ensures Get(Own(v), key) == PropertyOf(v, key)
  {
    match v {
      case Obj(fs) => OwnFacts(v);
      case Array(items) =>
        IndexedIs(items, key);
        SpreadOverAll([], seq(|items|, i requires 0 <= i < |items| => Field(Digits(i), items[i])));
      case Str(s) =>
        var chars := seq(|s|, i requires 0 <= i < |s| => Str([s[i]]));
        IndexedIs(chars, key);
        assert seq(|s|, i requires 0 <= i < |s| => Field(Digits(i), Str([s[i]]))) ==
               seq(|chars|, i requires 0 <= i < |chars| => Field(Digits(i), chars[i]));
        SpreadOverAll([], seq(|chars|, i requires 0 <= i < |chars| => Field(Digits(i), chars[i])));
      case _ =>
    }
  }

  /** The product's own agent, under one key. */
  function OfProduct(product: Json, key: string): Option<Json> {
    var agent := Member(product, "defaultChatAgent");
    if agent.Some? then PropertyOf(agent.value, key) else None
  }

  /** The agent that the overrides had, under one key. */
  function OfOverrides(overrides: Json, key: string): Option<Json> {
    var agent := Member(overrides, "defaultChatAgent");
    if agent.Some? then PropertyOf(agent.value, key) else None
  }

  lemma BaseIs(product: Json, key: string)
    requires Proper(product)
    ensures Get(BaseAgent(product), key) == OfProduct(product, key)
  {
    if Member(product, AGENT).Some? {
      GetProper(product.fields, AGENT);
      OwnIs(Member(product, AGENT).value, key);
    }
  }

  /**
    After wiring, a key of the agent that is no endpoint's has the value that the overrides gave it, or
    else the product's.
   */
  lemma WiredAgentIs(codec: Codec, product: Option<string>, routes: seq<Route>, files: Files, key: string)
    requires Lawful(codec) && Parsed(codec, product).Some? && StartValue(codec, files).Obj? && !IsKey(routes, key)
    ensures var now := Parsed(codec, Wire(codec, product, routes, files).0.overrides);
            var mine, theirs := OfOverrides(StartValue(codec, files), key), OfProduct(Parsed(codec, product).value, key);
            && now.Some? && OfOverrides(now.value, key) == FiniteIfAny(if mine.Some? then mine else theirs, codec.finite)
  {
    var before := StartValue(codec, files);
    WireKeepsTheRest(codec, product, routes, files, key);
    WiredIff(codec, product, routes, files);
    BaseIs(Parsed(codec, product).value, key);
    WrittenIsRead(codec, product, routes, files);
    ReadBackKeeps(before, BaseAgent(Parsed(codec, product).value), routes, codec.finite, key);
    if Member(before, AGENT).Some? && Member(before, AGENT).value != Null {
      GetProper(before.fields, AGENT);
      OwnIs(Member(before, AGENT).value, key);
    }
  }

  lemma NewAgentLeads(overrides: Json, base: Fields, urls: Fields)
    ensures Leads(base, NewAgent(overrides, base, urls))
  {
    var existing := ExistingAgent(overrides, base);
    SpreadLeads(base, existing);
    SpreadLeads(Spread(base, existing), urls);
  }

  lemma UrlsAreThere(agent: Fields, base: Fields, urls: Fields)
    requires DistinctKeys(agent) && Leads(base, agent)
    requires forall f | f in urls :: Get(agent, f.key) == Some(f.value)
    ensures Spread(Spread(base, agent), urls) == agent
  {
    SpreadOverAll(base, agent);
    SpreadSame(agent, urls);
  }

  lemma KeptWhenReadBack(agent: Fields, base: Fields, urls: Fields, finite: string -> bool)
    requires ProperFields(agent) && Leads(base, agent)
    requires forall f | f in urls :: Get(agent, f.key) == Some(f.value) && f.value.Str?
    ensures var read := FiniteFields(agent, finite);
            Own(Obj(read)) == read && Spread(Spread(base, read), urls) == read
  {
    var read := FiniteFields(agent, finite);
    FiniteProper(Obj(agent), finite);
    OwnFacts(Obj(read));
    forall f | f in urls
      ensures Get(read, f.key) == Some(f.value)
    {
      FiniteGet(agent, finite, f.key);
    }
    UrlsAreThere(read, base, urls);
  }

  /** Wiring what was wired and read back gives the same agent, as it was read back. */
  lemma NewAgentAgain(overrides: Json, base: Fields, routes: seq<Route>, finite: string -> bool)
    requires Proper(overrides) && ProperFields(base)
    ensures var urls := Urls(routes);
            var read := FiniteFields(NewAgent(overrides, base, urls), finite);
            Own(Obj(read)) == read && Spread(Spread(base, read), urls) == read
  {
    var agent := NewAgent(overrides, base, Urls(routes));
    NewAgentFacts(overrides, base, routes, "");
    NewAgentLeads(overrides, base, Urls(routes));
    forall f | f in Urls(routes)
      ensures Get(agent, f.key) == Some(f.value) && f.value.Str?
    {
      NewAgentUrls(overrides, base, routes, f);
    }
    KeptWhenReadBack(agent, base, Urls(routes), finite);
  }

  /** Wiring twice writes the same file as wiring once. */
  lemma WireTwice(codec: Codec, product: Option<string>, routes: seq<Route>, files: Files)
    requires Lawful(codec)
    ensures var once := Wire(codec, product, routes, files).0;
            Wire(codec, product, routes, once).0.overrides == once.overrides
  {
    var p, v := Parsed(codec, product), StartValue(codec, files);
    if p.Some? && v.Obj? {
      BaseFacts(p.value);
      var base, urls := BaseAgent(p.value), Urls(routes);
      WiredValueFacts(v, base, routes);
      WiredAgain(v, base, routes, codec.finite);
    }
  }

  lemma WiredAgain(v: Json, base: Fields, routes: seq<Route>, finite: string -> bool)
    requires Proper(v) && v.Obj? && ProperFields(base)
    ensures var read := Finite(WiredValue(v, base, Urls(routes)), finite);
            WiredValue(read, base, Urls(routes)) == read
  {
    ReadBackKeeps(v, base, routes, finite, AGENT);
    NewAgentAgain(v, base, routes, finite);
  }

  // ------------------------------------------------------------------------
  // Unwiring.
  // ------------------------------------------------------------------------

  lemma LikeBaseIff(agent: Fields, base: Fields, routes: seq<Route>, write: Json -> string)
    requires ProperFields(base) && ProperFields(agent)
    ensures ShallowEqual(Reverted(agent, base, routes), base, write) <==>
            forall key :: IsKey(routes, key) || Printed(Get(agent, key), write) == Printed(Get(base, key), write)
  {
    var reverted := Reverted(agent, base, routes);
    RevertedFacts(agent, base, routes, "");
    forall key
      ensures Get(reverted, key) == if IsKey(routes, key) then Get(base, key) else Get(agent, key)
    {
      RevertedFacts(agent, base, routes, key);
    }
    ShallowEqualIff(reverted, base, write);
  }

  /** Without a backup, the endpoints' keys get the product's values; an agent like the product's is dropped. */
  lemma UnwiredIs(codec: Codec, fields: Fields, base: Fields, routes: seq<Route>, agent: Fields, k: string)
    requires ProperFields(fields) && ProperFields(base) && ProperFields(agent)
    requires Get(fields, AGENT) == Some(Obj(agent))
    ensures k != AGENT ==> Get(UnwiredFields(codec, fields, base, routes), k) == Get(fields, k)
    ensures var now := Get(UnwiredFields(codec, fields, base, routes), AGENT);
            (now.None? <==>
               forall key :: IsKey(routes, key) || Printed(Get(agent, key), codec.compact) == Printed(Get(base, key), codec.compact)) &&
            (now.Some? ==>
               now.value.Obj? &&
               Get(now.value.fields, k) == if IsKey(routes, k) then Get(base, k) else Get(agent, k))
  {
    OwnFacts(Obj(agent));
    var reverted := Reverted(agent, base, routes);
    LikeBaseIff(agent, base, routes, codec.compact);
    RevertedFacts(agent, base, routes, k);
    if ShallowEqual(reverted, base, codec.compact) {
      DeleteFacts(fields, AGENT, k);
      DeleteFacts(fields, AGENT, AGENT);
    } else {
      SetFacts(fields, AGENT, Obj(reverted), k);
      SetFacts(fields, AGENT, Obj(reverted), AGENT);
    }
  }

  /** A new agent without overrides, read back, prints like the product's under every key but the endpoints'. */
  lemma NewAgentPrints(codec: Codec, base: Fields, routes: seq<Route>, key: string)
    requires Lawful(codec) && ProperFields(base)
    ensures var read := FiniteFields(NewAgent(Obj([]), base, Urls(routes)), codec.finite);
            IsKey(routes, key) || Printed(Get(read, key), codec.compact) == Printed(Get(base, key), codec.compact)
  {
    NewAgentFacts(Obj([]), base, routes, key);
    FiniteGet(NewAgent(Obj([]), base, Urls(routes)), codec.finite, key);
    if !IsKey(routes, key) && Has(base, key) {
      GetProper(base, key);
    }
  }

  lemma OnlyAgentDropped(codec: Codec, agent: Fields, base: Fields, routes: seq<Route>)
    requires ProperFields(agent) && ProperFields(base)
    requires forall key :: IsKey(routes, key) || Printed(Get(agent, key), codec.compact) == Printed(Get(base, key), codec.compact)
    ensures UnwiredFields(codec, [Field(AGENT, Obj(agent))], base, routes) == []
  {
    var fields := [Field(AGENT, Obj(agent))];
    UnwiredIs(codec, fields, base, routes, agent, "");
    assert Delete(fields, AGENT) == [];
    assert Get(Set(fields, AGENT, Obj(Reverted(Own(Obj(agent)), base, routes))), AGENT).Some?;
  }

  lemma NewAgentAlone(base: Fields, routes: seq<Route>, finite: string -> bool)
    requires ProperFields(base)
    ensures var agent := NewAgent(Obj([]), base, Urls(routes));
            && ProperFields(FiniteFields(agent, finite)) && Proper(WiredValue(Obj([]), base, Urls(routes)))
            && Finite(WiredValue(Obj([]), base, Urls(routes)), finite) == Obj([Field(AGENT, Obj(FiniteFields(agent, finite)))])
  {
    WiredValueFacts(Obj([]), base, routes);
    NewAgentFacts(Obj([]), base, routes, "");
    FiniteProper(Obj(NewAgent(Obj([]), base, Urls(routes))), finite);
  }

  /**
    Without a backup: unwiring throws exactly if the overrides are null, or have an agent while the
    product cannot be read; and it changes nothing if it throws, or finds no agent.
   */
  lemma UnwireThrowsIff(codec: Codec, product: Option<string>, routes: seq<Route>, files: Files)
    requires files.backup.None?
    ensures var (after, ok) := Unwire(codec, product, routes, files);
            var v := Parsed(codec, files.overrides);
            var hasAgent := v.Some? && HasAgent(v.value);
            && (!ok <==> (v == Some(Null) || (hasAgent && Parsed(codec, product).None?)))
            && (!ok || !hasAgent ==> after == files)
  {
  }

  /** The overrides as they are read after unwiring: nothing is left of a file that is gone. */
  function LeftOver(codec: Codec, files: Files): Option<Json> {
    if files.overrides.None? then Some(Obj([])) else Parsed(codec, files.overrides)
  }

  /**
    Without a backup: unwiring keeps every other override; it drops the agent exactly if that prints
    like the product's under every key that is no endpoint's; and otherwise the agent has the
    product's values under the endpoints' keys, and keeps all others.
   */
  lemma UnwiredFile(codec: Codec, product: Option<string>, routes: seq<Route>, files: Files, agent: Fields, key: string)
    requires Lawful(codec) && files.backup.None? && Parsed(codec, product).Some? && Parsed(codec, files.overrides).Some?
    requires Member(Parsed(codec, files.overrides).value, "defaultChatAgent") == Some(Obj(agent))
    ensures var (after, ok) := Unwire(codec, product, routes, files);
            var p, v, left := Parsed(codec, product).value, Parsed(codec, files.overrides).value, LeftOver(codec, after);
            && ok && after.backup == None && left.Some? && left.value.Obj?
            && (key != "defaultChatAgent" ==> Member(left.value, key) == FiniteIfAny(Member(v, key), codec.finite))
            && (Member(left.value, "defaultChatAgent").None? <==>
                  forall k :: IsKey(routes, k) || Printed(Get(agent, k), codec.compact) == Printed(OfProduct(p, k), codec.compact))
            && (Member(left.value, "defaultChatAgent").Some? ==>
                  OfOverrides(left.value, key) ==
                  FiniteIfAny(if IsKey(routes, key) then OfProduct(p, key) else Get(agent, key), codec.finite))
  {
    var p, v := Parsed(codec, product).value, Parsed(codec, files.overrides).value;
    UnwiredLeft(codec, product, routes, files, agent);
    UnwiredReads(codec, p, v.fields, routes, agent, key);
  }

  /** What is left is what the fields that remain print as. */
  lemma UnwiredLeft(codec: Codec, product: Option<string>, routes: seq<Route>, files: Files, agent: Fields)
    requires Lawful(codec) && files.backup.None? && Parsed(codec, product).Some? && Parsed(codec, files.overrides).Some?
    requires Member(Parsed(codec, files.overrides).value, AGENT) == Some(Obj(agent))
    ensures var (after, ok) := Unwire(codec, product, routes, files);
            var v, base := Parsed(codec, files.overrides).value, BaseAgent(Parsed(codec, product).value);
            && ok && after.backup == None && ProperFields(v.fields) && ProperFields(agent) && Proper(Parsed(codec, product).value)
            && LeftOver(codec, after) == Some(Obj(FiniteFields(UnwiredFields(codec, v.fields, base, routes), codec.finite)))
  {
    var v, base := Parsed(codec, files.overrides).value, BaseAgent(Parsed(codec, product).value);
    BaseFacts(Parsed(codec, product).value);
    GetProper(v.fields, AGENT);
    UnwiredProper(codec, v.fields, base, routes, agent);
    assert UnwiredFields(codec, v.fields, base, routes) == [] ==>
           FiniteFields(UnwiredFields(codec, v.fields, base, routes), codec.finite) == [];
  }

  lemma UnwiredReads(codec: Codec, p: Json, fields: Fields, routes: seq<Route>, agent: Fields, key: string)
    requires Proper(p) && ProperFields(fields) && ProperFields(agent) && Get(fields, AGENT) == Some(Obj(agent))
    ensures var left := Obj(FiniteFields(UnwiredFields(codec, fields, BaseAgent(p), routes), codec.finite));
            && (key != AGENT ==> Member(left, key) == FiniteIfAny(Get(fields, key), codec.finite))
            && (Member(left, AGENT).None? <==>
                  forall k :: IsKey(routes, k) || Printed(Get(agent, k), codec.compact) == Printed(OfProduct(p, k), codec.compact))
            && (Member(left, AGENT).Some? ==>
                  OfOverrides(left, key) == FiniteIfAny(if IsKey(routes, key) then OfProduct(p, key) else Get(agent, key), codec.finite))
  {
    UnwiredFrom(codec, p, fields, routes, agent, key);
    FiniteReads(UnwiredFields(codec, fields, BaseAgent(p), routes), codec.finite, key);
  }

  lemma UnwiredFrom(codec: Codec, p: Json, fields: Fields, routes: seq<Route>, agent: Fields, key: string)
    requires Proper(p) && ProperFields(fields) && ProperFields(agent) && Get(fields, AGENT) == Some(Obj(agent))
    ensures var after := UnwiredFields(codec, fields, BaseAgent(p), routes);
            && (key != AGENT ==> Get(after, key) == Get(fields, key))
            && (Get(after, AGENT).None? <==>
                  forall k :: IsKey(routes, k) || Printed(Get(agent, k), codec.compact) == Printed(OfProduct(p, k), codec.compact))
            && (Get(after, AGENT).Some? ==>
                  Get(after, AGENT).value.Obj? &&
                  Get(Get(after, AGENT).value.fields, key) == if IsKey(routes, key) then OfProduct(p, key) else Get(agent, key))
  {
    BaseFacts(p);
    forall k
      ensures Get(BaseAgent(p), k) == OfProduct(p, k)
    {
      BaseIs(p, k);
    }
    UnwiredIs(codec, fields, BaseAgent(p), routes, agent, key);
  }

  lemma FiniteReads(fields: Fields, finite: string -> bool, key: string)
    ensures Get(FiniteFields(fields, finite), key) == FiniteIfAny(Get(fields, key), finite)
    ensures Get(FiniteFields(fields, finite), AGENT).None? <==> Get(fields, AGENT).None?
    ensures Get(fields, AGENT).Some? && Get(fields, AGENT).value.Obj? ==>
              OfOverrides(Obj(FiniteFields(fields, finite)), key) == FiniteIfAny(Get(Get(fields, AGENT).value.fields, key), finite)
  {
    FiniteGet(fields, finite, key);
    FiniteGet(fields, finite, AGENT);
    if Get(fields, AGENT).Some? && Get(fields, AGENT).value.Obj? {
      FiniteGet(Get(fields, AGENT).value.fields, finite, key);
    }
  }

  lemma UnwiredProper(codec: Codec, fields: Fields, base: Fields, routes: seq<Route>, agent: Fields)
    requires ProperFields(fields) && ProperFields(base) && ProperFields(agent) && Get(fields, AGENT) == Some(Obj(agent))
    ensures Proper(Obj(UnwiredFields(codec, fields, base, routes)))
  {
    OwnFacts(Obj(agent));
    RevertedFacts(agent, base, routes, "");
    DeleteProper(fields, AGENT);
    SetProper(fields, AGENT, Obj(Reverted(agent, base, routes)));
  }

  /** What wiring puts into an empty object, unwiring takes out again. */
  lemma EmptyRestored(codec: Codec, base: Fields, routes: seq<Route>)
    requires Lawful(codec) && ProperFields(base)
    ensures var wired := WiredValue(Obj([]), base, Urls(routes));
            var read := Finite(wired, codec.finite);
            && Proper(wired) && read.Obj?
            && Member(read, AGENT).Some? && Truthy(Member(read, AGENT).value)
            && UnwiredFields(codec, read.fields, base, routes) == []
  {
    var agent := FiniteFields(NewAgent(Obj([]), base, Urls(routes)), codec.finite);
    NewAgentAlone(base, routes, codec.finite);
    forall key
      ensures IsKey(routes, key) || Printed(Get(agent, key), codec.compact) == Printed(Get(base, key), codec.compact)
    {
      NewAgentPrints(codec, base, routes, key);
    }
    OnlyAgentDropped(codec, agent, base, routes);
  }

  lemma AbsentRestored(codec: Codec, product: Option<string>, routes: seq<Route>)
    requires Lawful(codec) && Parsed(codec, product).Some?
    ensures var wired := Wire(codec, product, routes, Files(None, None)).0;
            Unwire(codec, product, routes, wired) == (Files(None, None), true)
  {
    BaseFacts(Parsed(codec, product).value);
    EmptyRestored(codec, BaseAgent(Parsed(codec, product).value), routes);
  }

  /**
    Unwiring after wiring gives back the overrides file exactly as it was, whether present, absent or
    unparsable: unless it was absent while a stale backup was lying about. No backup stays behind.
    If the product cannot be read, nothing is wired, and a stale backup is restored all the same.
   */
  lemma RestoredIff(codec: Codec, product: Option<string>, routes: seq<Route>, files: Files)
    requires Lawful(codec)
    ensures var wired := Wire(codec, product, routes, files).0;
            var (after, ok) := Unwire(codec, product, routes, wired);
            && after.backup == None
            && (Parsed(codec, product).Some? ==> ok)
            && (after.overrides == files.overrides <==>
                  if Parsed(codec, product).Some? then files.overrides.Some? || files.backup.None?
                  else files.backup.None? || files.backup == files.overrides)
  {
    if Parsed(codec, product).Some? && files.overrides.None? && files.backup.None? {
      AbsentRestored(codec, product, routes);
    }
  }

  function Cycles(codec: Codec, product: Option<string>, routes: seq<Route>, files: Files, n: nat): Files
    decreases n
  {
    if n == 0 then files
    else Unwire(codec, product, routes, Wire(codec, product, routes, Cycles(codec, product, routes, files, n - 1)).0).0
  }

  /** Any number of times over, with no backup at the start. */
  lemma {:induction false} CyclesRestore(codec: Codec, product: Option<string>, routes: seq<Route>, files: Files, n: nat)
    requires Lawful(codec) && files.backup.None?
    ensures Cycles(codec, product, routes, files, n) == files
    decreases n
  {
    if n > 0 {
      CyclesRestore(codec, product, routes, files, n - 1);
      RestoredIff(codec, product, routes, files);
    }
  }

  /**
    Wiring a second time overwrites the backup with the wired file: unwiring then leaves the product
    wired, and an original that was not wired is lost.
   */
  lemma SecondWireLosesOriginal(codec: Codec, product: Option<string>, routes: seq<Route>, files: Files)
    requires Lawful(codec) && Parsed(codec, product).Some? && StartValue(codec, files).Obj?
    ensures var once := Wire(codec, product, routes, files).0;
            var (after, ok) := Unwire(codec, product, routes, Wire(codec, product, routes, once).0);
            ok && after == Files(once.overrides, None) && Wired(codec, routes, after.overrides) &&
            (!Wired(codec, routes, files.overrides) ==> after.overrides != files.overrides)
  {
    WireTwice(codec, product, routes, files);
    WiredIff(codec, product, routes, files);
  }

  // ------------------------------------------------------------------------
  // Inputs that are not restored, or not wired.
  // ------------------------------------------------------------------------

  /** Overrides that hold an array are written back as they are. */
  lemma ArrayIsNotWired(codec: Codec, product: Option<string>, routes: seq<Route>)
    requires Lawful(codec) && Parsed(codec, product).Some?
    ensures var (after, ok) := Wire(codec, product, routes, Files(Some(codec.pretty(Array([]))), None));
            ok && after.overrides == Some(codec.pretty(Array([]))) && !Wired(codec, routes, after.overrides)
  {
    assert Proper(Array([]));
    WiredIff(codec, product, routes, Files(Some(codec.pretty(Array([]))), None));
  }

  /** A stale backup turns up as the overrides that there never were. */
  lemma StaleBackupIsRestored(codec: Codec, product: Option<string>, routes: seq<Route>, stale: string)
    requires Parsed(codec, product).Some?
    ensures var wired := Wire(codec, product, routes, Files(None, Some(stale))).0;
            Unwire(codec, product, routes, wired) == (Files(Some(stale), None), true)
  {
  }

  /** An override that is a number beyond the largest finite one is written back as null. */
  lemma OverflowBecomesNull(codec: Codec, product: Option<string>, routes: seq<Route>, text: string, key: string, number: string)
    requires Lawful(codec) && Parsed(codec, product).Some? && key != AGENT && !codec.finite(number)
    requires codec.parse(text) == Some(Obj([Field(key, Number(number))]))
    ensures var now := Parsed(codec, Wire(codec, product, routes, Files(Some(text), None)).0.overrides);
            now.Some? && Member(now.value, key) == Some(Null)
  {
    WireKeepsTheRest(codec, product, routes, Files(Some(text), None), key);
  }
}
