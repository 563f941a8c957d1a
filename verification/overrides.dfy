/**
  Pointing a product at the mock server and back: `isWired`, `wireOverrides`,
  `unwireOverrides`, `overrideUrls` and `shallowEqual` of
  scripts/mock-policy-server/server.ts, over the three files they read and write.
 */
module Overrides {
  import opened Wrappers
  import opened JsonValues

  const AGENT := "defaultChatAgent"

  /** An endpoint, as far as wiring is concerned: the key of its URL in the product, and the URL. */
  datatype Route = Route(productKey: string, url: string)

  /**
    `JSON.parse`; `JSON.stringify`, and the same with tabs and a newline at the end; and which texts
    are those of finite numbers.
   */
  datatype Codec = Codec(parse: string -> Option<Json>, compact: Json -> string, pretty: Json -> string,
                         finite: string -> bool)

  /** What is printed is read back, but for numbers that are not finite, which print like `null`. */
  ghost predicate ReadsBack(codec: Codec, write: Json -> string) {
    forall v | Proper(v) :: codec.parse(write(v)) == Some(Finite(v, codec.finite)) && write(Finite(v, codec.finite)) == write(v)
  }

  /** What is parsed names no key twice, and both ways of printing are read back. */
  ghost predicate Lawful(codec: Codec) {
    && (forall text :: codec.parse(text).Some? ==> Proper(codec.parse(text).value))
    && ReadsBack(codec, codec.compact) && ReadsBack(codec, codec.pretty)
  }

  /** The overrides file and its backup; a file that is absent has no text. */
  datatype Files = Files(overrides: Option<string>, backup: Option<string>)

  function Parsed(codec: Codec, text: Option<string>): Option<Json> {
    if text.Some? then codec.parse(text.value) else None
  }

  // ------------------------------------------------------------------------
  // Records.
  // ------------------------------------------------------------------------

  /** The own fields that spreading a value copies. */
  function Own(v: Json): Fields {
    match v
    case Obj(fs) => Spread([], fs)
    case Str(s) => Spread([], seq(|s|, i requires 0 <= i < |s| => Field(Digits(i), Str([s[i]]))))
    case Array(items) => Spread([], seq(|items|, i requires 0 <= i < |items| => Field(Digits(i), items[i])))
    case _ => []
  }

  /** `product?.defaultChatAgent ?? {}` */
  function BaseAgent(product: Json): Fields {
    var agent := Member(product, AGENT);
    if agent.Some? then Own(agent.value) else []
  }

  function Urls(routes: seq<Route>): Fields {
    if routes == [] then []
    else
      var last := routes[|routes|-1];
      Set(Urls(routes[..|routes|-1]), last.productKey, Str(last.url))
  }

  // ------------------------------------------------------------------------
  // The operations.
  // ------------------------------------------------------------------------

  predicate Wired(codec: Codec, routes: seq<Route>, overrides: Option<string>) {
    var v := Parsed(codec, overrides);
    v.Some? && Member(v.value, AGENT).Some? && Truthy(Member(v.value, AGENT).value) &&
    forall f | f in Urls(routes) :: Member(Member(v.value, AGENT).value, f.key) == Some(f.value)
  }

  /** The existing agent, unless it is missing or null. */
  function ExistingAgent(overrides: Json, base: Fields): Fields {
    var agent := Member(overrides, AGENT);
    if agent.Some? && agent.value != Null then Own(agent.value) else base
  }

  /**
    Assigning a field to a value that is no object is lost when it is printed; the script is not in
    strict mode, so it does not throw.
   */
  function WiredValue(overrides: Json, base: Fields, urls: Fields): Json {
    if overrides.Obj? then
      Obj(Set(overrides.fields, AGENT, Obj(Spread(Spread(base, ExistingAgent(overrides, base)), urls))))
    else overrides
  }

  /** The files after wiring, and whether it came to an end without throwing. */
  function Wire(codec: Codec, product: Option<string>, routes: seq<Route>, files: Files): (Files, bool) {
    var p := Parsed(codec, product);
    if p.None? then (files, false)
    else
      var backed := if files.overrides.Some? then files.(backup := files.overrides) else files;
      var v := Parsed(codec, files.overrides);
      var overrides := if v.Some? then v.value else Obj([]);
      if overrides.Null? then (backed, false)
      else (backed.(overrides := Some(codec.pretty(WiredValue(overrides, BaseAgent(p.value), Urls(routes))))), true)
  }

  /** Each endpoint's key as the product has it, or dropped. */
  function Reverted(agent: Fields, base: Fields, routes: seq<Route>): Fields {
    if routes == [] then agent
    else
      var before := Reverted(agent, base, routes[..|routes|-1]);
      var key := routes[|routes|-1].productKey;
      if Has(base, key) then Set(before, key, Get(base, key).value) else Delete(before, key)
  }

  function UnwiredFields(codec: Codec, fields: Fields, base: Fields, routes: seq<Route>): Fields {
    var current := Get(fields, AGENT);
    var agent := Reverted(if current.Some? then Own(current.value) else [], base, routes);
    if ShallowEqual(agent, base, codec.compact) then Delete(fields, AGENT) else Set(fields, AGENT, Obj(agent))
  }

  function Unwire(codec: Codec, product: Option<string>, routes: seq<Route>, files: Files): (Files, bool) {
    if files.backup.Some? then (Files(files.backup, None), true)
    else
      var v := Parsed(codec, files.overrides);
      if v.None? then (files, true)
      else if v.value.Null? then (files, false)
      else if Member(v.value, AGENT).None? || !Truthy(Member(v.value, AGENT).value) then (files, true)
      else
        var p := Parsed(codec, product);
        if p.None? then (files, false)
        else
          var fields := UnwiredFields(codec, v.value.fields, BaseAgent(p.value), routes);
          (files.(overrides := if fields == [] then None else Some(codec.pretty(Obj(fields)))), true)
  }

  // ------------------------------------------------------------------------
  // The workspace.
  // ------------------------------------------------------------------------

  method OverrideUrls(routes: seq<Route>) returns (urls: Fields)
    ensures urls == Urls(routes)
  {
    urls := [];
    for i := 0 to |routes|
      invariant urls == Urls(routes[..i])
    {
      assert routes[..i + 1][..i] == routes[..i];
      urls := Set(urls, routes[i].productKey, Str(routes[i].url));
    }
    assert routes[..|routes|] == routes;
  }

  class Workspace {
    const codec: Codec
    const routes: seq<Route>
    var product: Option<string>
    var overrides: Option<string>
    var backup: Option<string>

    constructor (codec: Codec, routes: seq<Route>, product: Option<string>, files: Files)
      ensures this.codec == codec && this.routes == routes && this.product == product && Current() == files
    {
      this.codec, this.routes, this.product := codec, routes, product;
      overrides, backup := files.overrides, files.backup;
    }

    function Current(): Files
      reads this
    {
      Files(overrides, backup)
    }

    method IsWired() returns (wired: bool)
      ensures wired <==> Wired(codec, routes, overrides)
    {
      var parsed := Parsed(codec, overrides);
      if parsed.None? {
        return false;
      }
      var agent := Member(parsed.value, AGENT);
      if agent.None? || !Truthy(agent.value) {
        return false;
      }
      var urls := OverrideUrls(routes);
      for i := 0 to |urls|
        invariant forall k :: 0 <= k < i ==> Member(agent.value, urls[k].key) == Some(urls[k].value)
      {
        if Member(agent.value, urls[i].key) != Some(urls[i].value) {
          assert urls[i] in urls;
          return false;
        }
      }
      return true;
    }

    method WireOverrides() returns (ok: bool)
      modifies this`overrides, this`backup
      ensures (Current(), ok) == Wire(codec, old(product), routes, old(Current()))
    {
      var p := Parsed(codec, product);
      if p.None? {
        return false;
      }
      var baseAgent := BaseAgent(p.value);
      if overrides.Some? {
        backup := overrides;
      }
      var parsed := Parsed(codec, overrides);
      var value := if parsed.Some? then parsed.value else Obj([]);
      if value.Null? {
        return false;
      }
      var existingAgent := ExistingAgent(value, baseAgent);
      if value.Obj? {
        var urls := OverrideUrls(routes);
        value := Obj(Set(value.fields, AGENT, Obj(Spread(Spread(baseAgent, existingAgent), urls))));
      }
      overrides := Some(codec.pretty(value));
      return true;
    }

    method UnwireOverrides() returns (ok: bool)
      modifies this`overrides, this`backup
      ensures (Current(), ok) == Unwire(codec, old(product), routes, old(Current()))
    {
      if backup.Some? {
        overrides, backup := backup, None;
        return true;
      }
      var parsed := Parsed(codec, overrides);
      if parsed.None? {
        return true;
      }
      if parsed.value.Null? {
        return false;
      }
      var current := Member(parsed.value, AGENT);
      if current.None? || !Truthy(current.value) {
        return true;
      }
      var p := Parsed(codec, product);
      if p.None? {
        return false;
      }
      var baseAgent := BaseAgent(p.value);
      var agent := Own(current.value);
      for i := 0 to |routes|
        invariant agent == Reverted(Own(current.value), baseAgent, routes[..i])
      {
        assert routes[..i + 1][..i] == routes[..i];
        var key := routes[i].productKey;
        if !Has(baseAgent, key) {
          agent := Delete(agent, key);
        } else {
          agent := Set(agent, key, Get(baseAgent, key).value);
        }
      }
      assert routes[..|routes|] == routes;
      var fields := parsed.value.fields;
      if ShallowEqual(agent, baseAgent, codec.compact) {
        fields := Delete(fields, AGENT);
      } else {
        fields := Set(fields, AGENT, Obj(agent));
      }
      if fields == [] {
        overrides := None;
      } else {
        overrides := Some(codec.pretty(Obj(fields)));
      }
      return true;
    }
  }
}
