/**
  Changing what the mock endpoints answer: `applyEndpointUpdates` and `resetEndpointState` of
  scripts/mock-policy-server/server.ts, with the validation in the order the server makes it.
 */
module EndpointUpdates {
  import opened Wrappers
  import opened JsonValues

  datatype Preset = Preset(id: string, status: Option<int>, body: Json)

  datatype EndpointDef = EndpointDef(id: string, mockedByDefault: bool, presets: seq<Preset>)

  datatype EndpointState = EndpointState(status: int, body: Json, active: bool)

  datatype Update = Update(
    endpoint: string,
    preset: Option<string>,
    status: Option<int>,
    body: Option<Json>,
    active: Option<bool>
  )

  /** The reason of a refusal, and the place of the update it is about. */
  datatype Refusal =
    | BodyNotObject
    | UnknownTopLevel
    | EndpointsNotArray
    | NotObject(index: nat)
    | UnknownField(index: nat)
    | EndpointNotString(index: nat)
    | Repeated(endpoint: string)
    | UnknownEndpoint(endpoint: string)
    | NothingToChange(index: nat)
    | PresetNotString(index: nat)
    | UnknownPreset(preset: string)
    | BadStatus(index: nat)
    | ActiveNotBoolean(index: nat)

  const FIELDS: seq<string> := ["endpoint", "preset", "status", "body", "active"]
  const CHANGES: seq<string> := ["preset", "status", "body", "active"]

  type States = map<string, EndpointState>

  // ------------------------------------------------------------------------
  // Definitions.
  // ------------------------------------------------------------------------

  function FindDef(defs: seq<EndpointDef>, id: string): Option<EndpointDef> {
    if defs == [] then None else if defs[0].id == id then Some(defs[0]) else FindDef(defs[1..], id)
  }

  function FindPreset(presets: seq<Preset>, id: string): Option<Preset> {
    if presets == [] then None else if presets[0].id == id then Some(presets[0]) else FindPreset(presets[1..], id)
  }

  function Ids(defs: seq<EndpointDef>): set<string> {
    set d | d in defs :: d.id
  }

  lemma {:induction false} FindDefIff(defs: seq<EndpointDef>, id: string)
    ensures FindDef(defs, id).Some? <==> id in Ids(defs)
    ensures FindDef(defs, id).Some? ==> FindDef(defs, id).value in defs && FindDef(defs, id).value.id == id
  {
    if defs != [] {
      FindDefIff(defs[1..], id);
      assert forall d :: d in defs <==> d == defs[0] || d in defs[1..];
    }
  }

  // ------------------------------------------------------------------------
  // Validation.
  // ------------------------------------------------------------------------

  predicate IsDigit(c: char) {
    '0' <= c <= '9'
  }

  /** An integer from 200 to 599, as it is written. */
  predicate GoodStatus(v: Json) {
    v.Number? && |v.text| == 3 && '2' <= v.text[0] <= '5' && IsDigit(v.text[1]) && IsDigit(v.text[2])
  }

  function StatusOf(v: Json): (status: int)
    requires GoodStatus(v)
    ensures 200 <= status <= 599
  {
    100 * DigitOf(v.text[0]) + 10 * DigitOf(v.text[1]) + DigitOf(v.text[2])
  }

  function DigitOf(c: char): int
    requires IsDigit(c)
  {
    c as int - '0' as int
  }

  /** One update, checked by itself, given the endpoints of the updates before it. */
  function Checked(defs: seq<EndpointDef>, raw: Json, index: nat, seen: set<string>): Result<Update, Refusal> {
    if !raw.Obj? then Failure(NotObject(index))
    else if exists f | f in raw.fields :: f.key !in FIELDS then Failure(UnknownField(index))
    else
      var endpoint := Get(raw.fields, "endpoint");
      if endpoint.None? || !endpoint.value.Str? then Failure(EndpointNotString(index))
      else
        var id := endpoint.value.s;
        if id in seen then Failure(Repeated(id))
        else if FindDef(defs, id).None? then Failure(UnknownEndpoint(id))
        else CheckedFields(FindDef(defs, id).value, raw.fields, id, index)
  }

  function CheckedFields(def: EndpointDef, fs: Fields, id: string, index: nat): Result<Update, Refusal> {
    var preset, status, body, active := Get(fs, "preset"), Get(fs, "status"), Get(fs, "body"), Get(fs, "active");
    if forall c | c in CHANGES :: !Has(fs, c) then Failure(NothingToChange(index))
    else if preset.Some? && !preset.value.Str? then Failure(PresetNotString(index))
    else if preset.Some? && FindPreset(def.presets, preset.value.s).None? then Failure(UnknownPreset(preset.value.s))
    else if status.Some? && !GoodStatus(status.value) then Failure(BadStatus(index))
    else if active.Some? && !active.value.Bool? then Failure(ActiveNotBoolean(index))
    else Success(Update(id,
      if preset.Some? then Some(preset.value.s) else None,
      if status.Some? then Some(StatusOf(status.value)) else None,
      body,
      if active.Some? then Some(active.value.b) else None))
  }

  /** The updates that a request body asks for. */
  function RawUpdates(payload: Json): Result<seq<Json>, Refusal> {
    if !payload.Obj? then Failure(BodyNotObject)
    else if Has(payload.fields, "endpoints") then
      var list := Get(payload.fields, "endpoints").value;
      if exists f | f in payload.fields :: f.key != "endpoints" then Failure(UnknownTopLevel)
      else if !list.Array? || list.items == [] then Failure(EndpointsNotArray)
      else Success(list.items)
    else Success([payload])
  }

  function EndpointsOf(updates: seq<Update>): set<string> {
    set u | u in updates :: u.endpoint
  }

  /** All updates, or the first refusal. */
  function CheckedAll(defs: seq<EndpointDef>, raws: seq<Json>): Result<seq<Update>, Refusal> {
    if raws == [] then Success([])
    else
      var n := |raws| - 1;
      var before := CheckedAll(defs, raws[..n]);
      if before.Failure? then before
      else
        var last := Checked(defs, raws[n], n, EndpointsOf(before.value));
        if last.Failure? then Failure(last.error) else Success(before.value + [last.value])
  }

  function Validated(defs: seq<EndpointDef>, payload: Json): Result<seq<Update>, Refusal> {
    var raws := RawUpdates(payload);
    if raws.Failure? then Failure(raws.error) else CheckedAll(defs, raws.value)
  }

  // ------------------------------------------------------------------------
  // Application.
  // ------------------------------------------------------------------------

  /** What one update makes of the state of its endpoint. */
  function Changed(defs: seq<EndpointDef>, u: Update, e: EndpointState): EndpointState {
    var def := FindDef(defs, u.endpoint);
    var preset := if def.Some? && u.preset.Some? then FindPreset(def.value.presets, u.preset.value) else None;
    var e1 := if preset.None? then e
              else
                var status := if preset.value.status.Some? then preset.value.status.value else 200;
                EndpointState(status, preset.value.body, true);
    var e2 := if u.status.Some? then e1.(status := u.status.value) else e1;
    var e3 := if u.body.Some? then e2.(body := u.body.value) else e2;
    if u.active.Some? then e3.(active := u.active.value) else e3
  }

  function ChangedOne(defs: seq<EndpointDef>, states: States, u: Update): States {
    if u.endpoint in states then states[u.endpoint := Changed(defs, u, states[u.endpoint])] else states
  }

  function ChangedAll(defs: seq<EndpointDef>, states: States, updates: seq<Update>): States {
    if updates == [] then states
    else ChangedOne(defs, ChangedAll(defs, states, updates[..|updates|-1]), updates[|updates|-1])
  }

  /** The states after a request, and why it was refused, if it was. */
  function Applied(defs: seq<EndpointDef>, states: States, payload: Json): (States, Option<Refusal>) {
    match Validated(defs, payload)
    case Failure(e) => (states, Some(e))
    case Success(updates) => (ChangedAll(defs, states, updates), None)
  }

  function Startup(defs: seq<EndpointDef>): States {
    if defs == [] then map[]
    else
      var d := defs[|defs|-1];
      Startup(defs[..|defs|-1])[d.id :=
        if d.presets == [] then EndpointState(200, Obj([]), d.mockedByDefault)
        else EndpointState(if d.presets[0].status.Some? then d.presets[0].status.value else 200,
                           d.presets[0].body, d.mockedByDefault)]
  }

  // ------------------------------------------------------------------------
  // What validation promises.
  // ------------------------------------------------------------------------

  /** An update as it would be read on its own. */
  function Alone(defs: seq<EndpointDef>, raw: Json): Result<Update, Refusal> {
    Checked(defs, raw, 0, {})
  }

  predicate Applicable(defs: seq<EndpointDef>, u: Update) {
    FindDef(defs, u.endpoint).Some? &&
    (u.preset.Some? ==> FindPreset(FindDef(defs, u.endpoint).value.presets, u.preset.value).Some?)
  }

  predicate DistinctEndpoints(updates: seq<Update>) {
    forall i, j :: 0 <= i < j < |updates| ==> updates[i].endpoint != updates[j].endpoint
  }

  lemma CheckedIsAlone(defs: seq<EndpointDef>, raw: Json, index: nat, seen: set<string>)
    ensures Checked(defs, raw, index, seen).Success? <==>
            Alone(defs, raw).Success? && Alone(defs, raw).value.endpoint !in seen
    ensures Checked(defs, raw, index, seen).Success? ==> Checked(defs, raw, index, seen).value == Alone(defs, raw).value
    ensures Alone(defs, raw).Success? ==> Applicable(defs, Alone(defs, raw).value)
  {
  }

  lemma NewEndpoint(updates: seq<Update>, u: Update)
    requires DistinctEndpoints(updates)
    ensures u.endpoint !in EndpointsOf(updates) ==> DistinctEndpoints(updates + [u])
  {
    forall i | 0 <= i < |updates|
      ensures updates[i].endpoint in EndpointsOf(updates)
    {
      assert updates[i] in updates;
    }
  }

  lemma CheckedAllStep(defs: seq<EndpointDef>, raws: seq<Json>)
    requires raws != [] && CheckedAll(defs, raws).Success?
    ensures var before, last := CheckedAll(defs, raws[..|raws|-1]), Alone(defs, raws[|raws|-1]);
            && before.Success? && last.Success? && Applicable(defs, last.value)
            && last.value.endpoint !in EndpointsOf(before.value)
            && CheckedAll(defs, raws).value == before.value + [last.value]
  {
    var n := |raws| - 1;
    CheckedIsAlone(defs, raws[n], n, EndpointsOf(CheckedAll(defs, raws[..n]).value));
  }

  lemma {:induction false} CheckedAllShape(defs: seq<EndpointDef>, raws: seq<Json>)
    ensures var r := CheckedAll(defs, raws);
            r.Success? ==> |r.value| == |raws| && DistinctEndpoints(r.value)
    decreases |raws|
  {
    if raws != [] {
      var n := |raws| - 1;
      CheckedAllShape(defs, raws[..n]);
      if CheckedAll(defs, raws).Success? {
        CheckedAllStep(defs, raws);
        NewEndpoint(CheckedAll(defs, raws[..n]).value, Alone(defs, raws[n]).value);
      }
    }
  }

  lemma {:induction false} CheckedAllAt(defs: seq<EndpointDef>, raws: seq<Json>, i: nat)
    requires CheckedAll(defs, raws).Success? && i < |raws| == |CheckedAll(defs, raws).value|
    ensures Alone(defs, raws[i]) == Success(CheckedAll(defs, raws).value[i])
    ensures Applicable(defs, CheckedAll(defs, raws).value[i])
    decreases |raws|
  {
    CheckedAllStep(defs, raws);
    if i < |raws| - 1 {
      CheckedAllAt(defs, raws[..|raws|-1], i);
    }
  }

  lemma CheckedAllIs(defs: seq<EndpointDef>, raws: seq<Json>)
    ensures var r := CheckedAll(defs, raws);
            r.Success? ==>
              |r.value| == |raws| && DistinctEndpoints(r.value) &&
              forall i :: 0 <= i < |raws| ==>
                Alone(defs, raws[i]) == Success(r.value[i]) && Applicable(defs, r.value[i])
  {
    CheckedAllShape(defs, raws);
    var r := CheckedAll(defs, raws);
    if r.Success? {
      forall i | 0 <= i < |raws|
        ensures Alone(defs, raws[i]) == Success(r.value[i]) && Applicable(defs, r.value[i])
      {
        CheckedAllAt(defs, raws, i);
      }
    }
  }

  lemma ApplicableAll(defs: seq<EndpointDef>, raws: seq<Json>)
    requires CheckedAll(defs, raws).Success?
    ensures forall u :: u in CheckedAll(defs, raws).value ==> Applicable(defs, u)
  {
    CheckedAllIs(defs, raws);
  }

  lemma NotAmong(updates: seq<Update>, endpoint: string)
    requires forall i :: 0 <= i < |updates| ==> updates[i].endpoint != endpoint
    ensures endpoint !in EndpointsOf(updates)
  {
  }

  lemma {:induction false} CheckedAllSucceeds(defs: seq<EndpointDef>, raws: seq<Json>)
    requires forall i :: 0 <= i < |raws| ==> Alone(defs, raws[i]).Success?
    requires forall i, j :: 0 <= i < j < |raws| ==>
               Alone(defs, raws[i]).value.endpoint != Alone(defs, raws[j]).value.endpoint
    ensures CheckedAll(defs, raws).Success?
    decreases |raws|
  {
    if raws != [] {
      var n := |raws| - 1;
      CheckedAllSucceeds(defs, raws[..n]);
      CheckedAllIs(defs, raws[..n]);
      var before := CheckedAll(defs, raws[..n]);
      CheckedIsAlone(defs, raws[n], n, EndpointsOf(before.value));
      NotAmong(before.value, Alone(defs, raws[n]).value.endpoint);
    }
  }

  /** Updates go through together exactly when each would alone and no endpoint appears twice. */
  lemma AcceptedIff(defs: seq<EndpointDef>, raws: seq<Json>)
    ensures CheckedAll(defs, raws).Success? <==>
            (forall i :: 0 <= i < |raws| ==> Alone(defs, raws[i]).Success?) &&
            forall i, j :: 0 <= i < j < |raws| ==>
              Alone(defs, raws[i]).value.endpoint != Alone(defs, raws[j]).value.endpoint
  {
    CheckedAllIs(defs, raws);
    if (forall i :: 0 <= i < |raws| ==> Alone(defs, raws[i]).Success?) &&
       (forall i, j :: 0 <= i < j < |raws| ==>
          Alone(defs, raws[i]).value.endpoint != Alone(defs, raws[j]).value.endpoint) {
      CheckedAllSucceeds(defs, raws);
    }
  }

  lemma {:induction false} FirstRefusal(defs: seq<EndpointDef>, raws: seq<Json>, n: nat)
    requires n <= |raws| && CheckedAll(defs, raws[..n]).Failure?
    ensures CheckedAll(defs, raws) == CheckedAll(defs, raws[..n])
    decreases |raws|
  {
    if n < |raws| {
      assert raws[..|raws|-1][..n] == raws[..n];
      FirstRefusal(defs, raws[..|raws|-1], n);
    } else {
      assert raws[..n] == raws;
    }
  }

  // ------------------------------------------------------------------------
  // What is refused, and what is read.
  // ------------------------------------------------------------------------

  lemma DecimalOfThree(text: string)
    requires |text| == 3 && IsDigit(text[0]) && IsDigit(text[1]) && IsDigit(text[2])
    ensures Decimal(text) == 100 * DigitOf(text[0]) + 10 * DigitOf(text[1]) + DigitOf(text[2])
  {
    assert text[..2][..1] == text[..1] && text[..1][..0] == "";
    assert Decimal(text[..1]) == DigitOf(text[0]);
    assert Decimal(text[..2]) == 10 * Decimal(text[..1]) + DigitOf(text[1]);
  }

  lemma DigitIs(d: nat)
    requires d < 10
    ensures IsDigit(("0123456789")[d]) && DigitOf(("0123456789")[d]) == d
  {
  }

  lemma DigitsOfThree(n: nat)
    requires 100 <= n < 1000
    ensures var text := Digits(n);
            |text| == 3 && text == [("0123456789")[n / 100], ("0123456789")[n / 10 % 10], ("0123456789")[n % 10]]
  {
    assert Digits(n / 100) == [("0123456789")[n / 100]];
    assert n / 10 / 10 == n / 100;
    assert Digits(n / 10) == Digits(n / 100) + [("0123456789")[n / 10 % 10]];
  }

  /** The statuses that are accepted are the whole numbers from 200 to 599, as they are written, and are read as what they are. */
  lemma StatusIs(v: Json, n: nat)
    ensures GoodStatus(v) ==> StatusOf(v) == Decimal(v.text) && v.text == Digits(Decimal(v.text))
    ensures v == Number(Digits(n)) ==> (GoodStatus(v) <==> 200 <= n <= 599)
  {
    if GoodStatus(v) {
      DecimalOfThree(v.text);
      DigitsOfThree(StatusOf(v));
      SameDigits(v.text, StatusOf(v));
    }
    DigitsRead(n);
    if v == Number(Digits(n)) && 200 <= n <= 599 {
      DigitsOfThree(n);
      DigitIs(n / 100);
      DigitIs(n / 10 % 10);
      DigitIs(n % 10);
    }
  }

  lemma DigitsApart(a: nat, b: nat, c: nat)
    requires a < 10 && b < 10 && c < 10
    ensures var n := 100 * a + 10 * b + c; n / 100 == a && n / 10 % 10 == b && n % 10 == c
  {
  }

  lemma SameDigits(text: string, n: nat)
    requires |text| == 3 && IsDigit(text[0]) && IsDigit(text[1]) && IsDigit(text[2])
    requires n == 100 * DigitOf(text[0]) + 10 * DigitOf(text[1]) + DigitOf(text[2])
    ensures text == [("0123456789")[n / 100], ("0123456789")[n / 10 % 10], ("0123456789")[n % 10]]
  {
    DigitsApart(DigitOf(text[0]), DigitOf(text[1]), DigitOf(text[2]));
    ThreeChars(text, n / 100, n / 10 % 10, n % 10);
  }

  lemma ThreeChars(text: string, a: nat, b: nat, c: nat)
    requires |text| == 3 && IsDigit(text[0]) && IsDigit(text[1]) && IsDigit(text[2])
    requires a == DigitOf(text[0]) && b == DigitOf(text[1]) && c == DigitOf(text[2])
    ensures text == [("0123456789")[a], ("0123456789")[b], ("0123456789")[c]]
  {
    CharOf(text[0]);
    CharOf(text[1]);
    CharOf(text[2]);
  }

  lemma CharOf(c: char)
    requires IsDigit(c)
    ensures ("0123456789")[DigitOf(c)] == c
  {
  }

  /** The endpoint that is meant is the first with the id, and so is the preset. */
  lemma {:induction false} FindDefFirst(defs: seq<EndpointDef>, id: string, i: nat)
    requires i < |defs| && defs[i].id == id && forall j :: 0 <= j < i ==> defs[j].id != id
    ensures FindDef(defs, id) == Some(defs[i])
    decreases i
  {
    if i > 0 {
      FindDefFirst(defs[1..], id, i - 1);
    }
  }

  lemma {:induction false} FindPresetFirst(presets: seq<Preset>, id: string, i: nat)
    requires i < |presets| && presets[i].id == id && forall j :: 0 <= j < i ==> presets[j].id != id
    ensures FindPreset(presets, id) == Some(presets[i])
    decreases i
  {
    if i > 0 {
      FindPresetFirst(presets[1..], id, i - 1);
    }
  }

  lemma {:induction false} FindPresetIff(presets: seq<Preset>, id: string)
    ensures FindPreset(presets, id).Some? <==> exists p | p in presets :: p.id == id
    ensures FindPreset(presets, id).Some? ==> FindPreset(presets, id).value in presets && FindPreset(presets, id).value.id == id
  {
    if presets != [] {
      FindPresetIff(presets[1..], id);
      assert forall p :: p in presets <==> p == presets[0] || p in presets[1..];
    }
  }

  /** Each thing that can be wrong with the fields of an update, in the order in which it is looked for. */
  function FieldComplaints(def: EndpointDef, fs: Fields, index: nat): seq<Refusal> {
    (if !Has(fs, "preset") && !Has(fs, "status") && !Has(fs, "body") && !Has(fs, "active") then [NothingToChange(index)] else []) +
    (if !Has(fs, "preset") then []
     else if !Get(fs, "preset").value.Str? then [PresetNotString(index)]
     else if forall q | q in def.presets :: q.id != Get(fs, "preset").value.s then [UnknownPreset(Get(fs, "preset").value.s)]
     else []) +
    (if Has(fs, "status") && !GoodStatus(Get(fs, "status").value) then [BadStatus(index)] else []) +
    (if Has(fs, "active") && !Get(fs, "active").value.Bool? then [ActiveNotBoolean(index)] else [])
  }

  /** What an accepted update says, field by field. */
  predicate ReadsAs(fs: Fields, u: Update) {
    && Get(fs, "endpoint") == Some(Str(u.endpoint))
    && Get(fs, "preset") == (if u.preset.Some? then Some(Str(u.preset.value)) else None)
    && (u.status.Some? <==> Has(fs, "status"))
    && (u.status.Some? ==> Get(fs, "status").value.Number? && u.status.value == Decimal(Get(fs, "status").value.text))
    && u.body == Get(fs, "body")
    && Get(fs, "active") == (if u.active.Some? then Some(Bool(u.active.value)) else None)
  }

  lemma CheckedFieldsIs(def: EndpointDef, fs: Fields, id: string, index: nat)
    requires Get(fs, "endpoint") == Some(Str(id))
    ensures var r, wrong := CheckedFields(def, fs, id, index), FieldComplaints(def, fs, index);
            if wrong != [] then r == Failure(wrong[0]) else r.Success? && ReadsAs(fs, r.value)
  {
    if Has(fs, "preset") && Get(fs, "preset").value.Str? {
      FindPresetIff(def.presets, Get(fs, "preset").value.s);
    }
    if Has(fs, "status") {
      StatusIs(Get(fs, "status").value, 0);
    }
    assert (forall c | c in CHANGES :: !Has(fs, c)) <==>
           !Has(fs, "preset") && !Has(fs, "status") && !Has(fs, "body") && !Has(fs, "active") by {
      assert CHANGES[0] == "preset" && CHANGES[1] == "status" && CHANGES[2] == "body" && CHANGES[3] == "active";
    }
  }

  /** An update is refused for the first thing that is wrong with it, and else read field by field. */
  lemma CheckedIs(defs: seq<EndpointDef>, raw: Json, index: nat, seen: set<string>)
    ensures var r := Checked(defs, raw, index, seen);
            if !raw.Obj? then r == Failure(NotObject(index))
            else if exists f | f in raw.fields :: f.key !in ["endpoint", "preset", "status", "body", "active"]
            then r == Failure(UnknownField(index))
            else
              var endpoint := Get(raw.fields, "endpoint");
              if endpoint.None? || !endpoint.value.Str? then r == Failure(EndpointNotString(index))
              else if endpoint.value.s in seen then r == Failure(Repeated(endpoint.value.s))
              else if endpoint.value.s !in Ids(defs) then r == Failure(UnknownEndpoint(endpoint.value.s))
              else
                FindDef(defs, endpoint.value.s).Some? &&
                var wrong := FieldComplaints(FindDef(defs, endpoint.value.s).value, raw.fields, index);
                if wrong != [] then r == Failure(wrong[0]) else r.Success? && ReadsAs(raw.fields, r.value)
  {
    if Member(raw, "endpoint").Some? && Member(raw, "endpoint").value.Str? {
      var id := Member(raw, "endpoint").value.s;
      FindDefIff(defs, id);
      if FindDef(defs, id).Some? {
        CheckedFieldsIs(FindDef(defs, id).value, raw.fields, id, index);
      }
    }
  }

  /** A list is refused for its first update that is refused, given the endpoints of those before it. */
  lemma {:induction false} RefusedFor(defs: seq<EndpointDef>, raws: seq<Json>) returns (n: nat)
    requires CheckedAll(defs, raws).Failure?
    ensures n < |raws| && CheckedAll(defs, raws[..n]).Success?
    ensures Checked(defs, raws[n], n, EndpointsOf(CheckedAll(defs, raws[..n]).value)) == Failure(CheckedAll(defs, raws).error)
    decreases |raws|
  {
    n := |raws| - 1;
    if CheckedAll(defs, raws[..n]).Failure? {
      var m := RefusedFor(defs, raws[..n]);
      assert raws[..n][..m] == raws[..m];
      n := m;
    }
  }

  /** A request is one update, or the list under "endpoints" if it has nothing else and is not empty. */
  lemma RequestIs(payload: Json)
    ensures RawUpdates(payload) ==
            if !payload.Obj? then Failure(BodyNotObject)
            else
              var list := Get(payload.fields, "endpoints");
              if list.None? then Success([payload])
              else if exists f | f in payload.fields :: f.key != "endpoints" then Failure(UnknownTopLevel)
              else if list.value.Array? && |list.value.items| > 0 then Success(list.value.items)
              else Failure(EndpointsNotArray)
  {
  }

  // ------------------------------------------------------------------------
  // What application promises.
  // ------------------------------------------------------------------------

  /** Each endpoint named gets its update, and no other changes. */
  lemma {:induction false} ChangedAllIs(defs: seq<EndpointDef>, states: States, updates: seq<Update>)
    requires DistinctEndpoints(updates)
    ensures ChangedAll(defs, states, updates).Keys == states.Keys
    ensures forall u :: u in updates && u.endpoint in states ==>
              ChangedAll(defs, states, updates)[u.endpoint] == Changed(defs, u, states[u.endpoint])
    ensures forall id :: id in states && id !in EndpointsOf(updates) ==>
              ChangedAll(defs, states, updates)[id] == states[id]
    decreases |updates|
  {
    if updates != [] {
      var init, last := updates[..|updates|-1], updates[|updates|-1];
      ChangedAllIs(defs, states, init);
      assert forall u :: u in updates <==> u in init || u == last;
      assert EndpointsOf(updates) == EndpointsOf(init) + {last.endpoint};
      assert last.endpoint !in EndpointsOf(init);
      forall u | u in init
        ensures u.endpoint != last.endpoint
      {
        assert u.endpoint in EndpointsOf(init);
      }
    }
  }

  /** An explicit status, body or flag wins over the preset's, and the preset over what was there. */
  lemma ChangedIs(defs: seq<EndpointDef>, u: Update, e: EndpointState, i: nat, j: nat)
    requires i < |defs| && defs[i].id == u.endpoint && forall k :: 0 <= k < i ==> defs[k].id != u.endpoint
    requires u.preset.Some? ==>
               j < |defs[i].presets| && defs[i].presets[j].id == u.preset.value &&
               forall k :: 0 <= k < j ==> defs[i].presets[k].id != u.preset.value
    ensures var e' := Changed(defs, u, e);
            && (u.status.Some? ==> e'.status == u.status.value)
            && (u.body.Some? ==> e'.body == u.body.value)
            && (u.active.Some? ==> e'.active == u.active.value)
            && (u.preset.Some? ==>
                  && (u.status.None? ==> Some(e'.status) == if defs[i].presets[j].status.Some? then defs[i].presets[j].status else Some(200))
                  && (u.body.None? ==> e'.body == defs[i].presets[j].body)
                  && (u.active.None? ==> e'.active))
            && (u.preset.None? ==>
                  && (u.status.None? ==> e'.status == e.status)
                  && (u.body.None? ==> e'.body == e.body)
                  && (u.active.None? ==> e'.active == e.active))
  {
    FindDefFirst(defs, u.endpoint, i);
    if u.preset.Some? {
      FindPresetFirst(defs[i].presets, u.preset.value, j);
    }
  }

  lemma SameUpdatesSameStates(defs: seq<EndpointDef>, states: States, a: seq<Update>, b: seq<Update>)
    requires DistinctEndpoints(a) && DistinctEndpoints(b) && forall u :: u in a <==> u in b
    ensures ChangedAll(defs, states, a) == ChangedAll(defs, states, b)
  {
    ChangedAllIs(defs, states, a);
    ChangedAllIs(defs, states, b);
    forall id | id in states
      ensures ChangedAll(defs, states, a)[id] == ChangedAll(defs, states, b)[id]
    {
      if id in EndpointsOf(a) {
        var u :| u in a && u.endpoint == id;
        assert u in b;
      } else {
        assert id !in EndpointsOf(b);
      }
    }
  }

  /** Requests one after the other, each with one update, until one is refused. */
  function OneByOne(defs: seq<EndpointDef>, states: States, raws: seq<Json>): (States, Option<Refusal>)
    decreases |raws|
  {
    if raws == [] then (states, None)
    else
      var (before, refusal) := OneByOne(defs, states, raws[..|raws|-1]);
      if refusal.Some? then (before, refusal) else Applied(defs, before, raws[|raws|-1])
  }

  function UpdatesAlone(defs: seq<EndpointDef>, raws: seq<Json>): (r: seq<Update>)
    requires forall i :: 0 <= i < |raws| ==> Alone(defs, raws[i]).Success?
    ensures |r| == |raws| && forall i :: 0 <= i < |raws| ==> r[i] == Alone(defs, raws[i]).value
  {
    seq(|raws|, i requires 0 <= i < |raws| => Alone(defs, raws[i]).value)
  }

  lemma NoOtherField(defs: seq<EndpointDef>, raw: Json, key: string)
    requires Alone(defs, raw).Success? && key !in FIELDS
    ensures !Has(raw.fields, key)
  {
    HasIffKey(raw.fields, key);
  }

  lemma IsSingle(defs: seq<EndpointDef>, raw: Json)
    requires Alone(defs, raw).Success?
    ensures RawUpdates(raw) == Success([raw])
  {
    NoOtherField(defs, raw, "endpoints");
  }

  lemma CheckedOne(defs: seq<EndpointDef>, raw: Json)
    requires Alone(defs, raw).Success?
    ensures CheckedAll(defs, [raw]) == Success([Alone(defs, raw).value])
  {
    var raws := [raw];
    CheckedAllSucceeds(defs, raws);
    CheckedAllIs(defs, raws);
    assert Alone(defs, raws[0]) == Success(CheckedAll(defs, raws).value[0]);
    assert CheckedAll(defs, raws).value == [Alone(defs, raw).value];
  }

  lemma OneApplied(defs: seq<EndpointDef>, states: States, raw: Json)
    requires Alone(defs, raw).Success?
    ensures Applied(defs, states, raw) == (ChangedOne(defs, states, Alone(defs, raw).value), None)
  {
    IsSingle(defs, raw);
    CheckedOne(defs, raw);
    var us := [Alone(defs, raw).value];
    assert us[..|us|-1] == [];
    assert ChangedAll(defs, states, us[..|us|-1]) == states;
  }

  lemma {:induction false} OneByOneIs(defs: seq<EndpointDef>, states: States, raws: seq<Json>)
    requires forall i :: 0 <= i < |raws| ==> Alone(defs, raws[i]).Success?
    ensures OneByOne(defs, states, raws) == (ChangedAll(defs, states, UpdatesAlone(defs, raws)), None)
    decreases |raws|
  {
    if raws != [] {
      var n := |raws| - 1;
      OneByOneIs(defs, states, raws[..n]);
      assert UpdatesAlone(defs, raws)[..n] == UpdatesAlone(defs, raws[..n]);
      OneApplied(defs, OneByOne(defs, states, raws[..n]).0, raws[n]);
    }
  }

  lemma TwicePlaced<T>(s: seq<T>, i: nat, j: nat)
    requires i < j < |s| && s[i] == s[j]
    ensures multiset(s)[s[i]] >= 2
  {
    assert s == s[..j] + ([s[j]] + s[j + 1..]);
    assert s[i] in s[..j];
  }

  lemma TwicePlaces<T>(s: seq<T>, x: T) returns (i: nat, j: nat)
    requires multiset(s)[x] >= 2
    ensures i < |s| && j < |s| && i != j && s[i] == s[j] == x
  {
    assert x in s;
    i :| 0 <= i < |s| && s[i] == x;
    assert s == s[..i] + [x] + s[i + 1..];
    assert multiset(s) == multiset(s[..i]) + multiset{x} + multiset(s[i + 1..]);
    if x in s[..i] {
      j :| 0 <= j < i && s[..i][j] == x;
    } else {
      assert x in s[i + 1..];
      var k :| 0 <= k < |s[i + 1..]| && s[i + 1..][k] == x;
      j := i + 1 + k;
    }
  }

  lemma SameUpdates(defs: seq<EndpointDef>, raws: seq<Json>, order: seq<Json>)
    requires CheckedAll(defs, raws).Success? && multiset(order) == multiset(raws)
    ensures forall i :: 0 <= i < |order| ==> Alone(defs, order[i]).Success?
    ensures forall u :: u in UpdatesAlone(defs, order) <==> u in CheckedAll(defs, raws).value
  {
    var updates := CheckedAll(defs, raws).value;
    CheckedAllIs(defs, raws);
    forall i | 0 <= i < |order|
      ensures Alone(defs, order[i]).Success? && Alone(defs, order[i]).value in updates
    {
      assert order[i] in multiset(order);
      var k :| 0 <= k < |raws| && raws[k] == order[i];
      assert updates[k] in updates;
    }
    var singles := UpdatesAlone(defs, order);
    forall u | u in updates
      ensures u in singles
    {
      var k :| 0 <= k < |updates| && updates[k] == u;
      assert raws[k] in multiset(raws);
      var i :| 0 <= i < |order| && order[i] == raws[k];
      assert singles[i] == u;
    }
  }

  lemma StillDistinct<T(!new)>(raws: seq<T>, order: seq<T>, key: T -> string, i: nat, j: nat)
    requires multiset(order) == multiset(raws) && i < j < |order|
    requires forall k, l :: 0 <= k < l < |raws| ==> key(raws[k]) != key(raws[l])
    ensures key(order[i]) != key(order[j])
  {
    if order[i] == order[j] {
      TwicePlaced(order, i, j);
      var k, l := TwicePlaces(raws, order[i]);
    } else {
      assert order[i] in multiset(order) && order[j] in multiset(order);
      var k :| 0 <= k < |raws| && raws[k] == order[i];
      var l :| 0 <= l < |raws| && raws[l] == order[j];
    }
  }

  /** An accepted bulk request does what its updates do as single requests, in any order, all accepted. */
  lemma BulkIsSinglesInAnyOrder(defs: seq<EndpointDef>, states: States, payload: Json, order: seq<Json>)
    requires Applied(defs, states, payload).1.None? && multiset(order) == multiset(RawUpdates(payload).value)
    ensures OneByOne(defs, states, order) == Applied(defs, states, payload)
  {
    var raws := RawUpdates(payload).value;
    CheckedAllIs(defs, raws);
    SameUpdates(defs, raws, order);
    var key := raw => if Alone(defs, raw).Success? then Alone(defs, raw).value.endpoint else "";
    forall i, j | 0 <= i < j < |order|
      ensures UpdatesAlone(defs, order)[i].endpoint != UpdatesAlone(defs, order)[j].endpoint
    {
      StillDistinct(raws, order, key, i, j);
    }
    OneByOneIs(defs, states, order);
    SameUpdatesSameStates(defs, states, UpdatesAlone(defs, order), CheckedAll(defs, raws).value);
  }

  lemma ChangedTwice(defs: seq<EndpointDef>, u: Update, e: EndpointState)
    ensures Changed(defs, u, Changed(defs, u, e)) == Changed(defs, u, e)
  {
  }

  lemma ChangedAllAgain(defs: seq<EndpointDef>, states: States, updates: seq<Update>)
    requires DistinctEndpoints(updates)
    ensures ChangedAll(defs, ChangedAll(defs, states, updates), updates) == ChangedAll(defs, states, updates)
  {
    var once := ChangedAll(defs, states, updates);
    ChangedAllIs(defs, states, updates);
    ChangedAllIs(defs, once, updates);
    forall id | id in states
      ensures ChangedAll(defs, once, updates)[id] == once[id]
    {
      if id in EndpointsOf(updates) {
        var u :| u in updates && u.endpoint == id;
        ChangedTwice(defs, u, states[id]);
      }
    }
  }

  /** Sending the same request again changes nothing more. */
  lemma AppliedAgain(defs: seq<EndpointDef>, states: States, payload: Json)
    ensures Applied(defs, Applied(defs, states, payload).0, payload) == Applied(defs, states, payload)
  {
    var v := Validated(defs, payload);
    if v.Success? {
      CheckedAllIs(defs, RawUpdates(payload).value);
      ChangedAllAgain(defs, states, v.value);
    }
  }

  lemma {:induction false} StartupKeys(defs: seq<EndpointDef>)
    ensures Startup(defs).Keys == Ids(defs)
    decreases |defs|
  {
    if defs != [] {
      var init, last := defs[..|defs|-1], defs[|defs|-1];
      StartupKeys(init);
      assert forall d :: d in defs <==> d in init || d == last;
    }
  }

  /** Each endpoint starts with its first preset, or with an empty body, and active if it is mocked by default. */
  lemma {:induction false} StartupIs(defs: seq<EndpointDef>, i: nat)
    requires i < |defs| && forall j :: i < j < |defs| ==> defs[j].id != defs[i].id
    ensures defs[i].id in Startup(defs)
    ensures var e := Startup(defs)[defs[i].id];
            && e.active == defs[i].mockedByDefault
            && (defs[i].presets == [] ==> e.status == 200 && e.body == Obj([]))
            && (defs[i].presets != [] ==>
                  && e.body == defs[i].presets[0].body
                  && Some(e.status) == if defs[i].presets[0].status.Some? then defs[i].presets[0].status else Some(200))
    decreases |defs|
  {
    if i < |defs| - 1 {
      assert defs[..|defs|-1][i] == defs[i] && defs[|defs|-1].id != defs[i].id;
      StartupIs(defs[..|defs|-1], i);
    }
  }

  // ------------------------------------------------------------------------
  // The server.
  // ------------------------------------------------------------------------

  class PolicyServer {
    const endpoints: seq<EndpointDef>
    var state: States

    /** Every endpoint has a state, and nothing else has. */
    predicate Valid()
      reads this
    {
      state.Keys == Ids(endpoints)
    }

    constructor (endpoints: seq<EndpointDef>)
      ensures this.endpoints == endpoints && state == Startup(endpoints) && Valid()
    {
      this.endpoints, state := endpoints, map[];
      new;
      ResetEndpointState();
    }

    method ResetEndpointState()
      modifies this
      ensures state == Startup(endpoints) && Valid()
    {
      state := map[];
      for i := 0 to |endpoints|
        invariant state == Startup(endpoints[..i])
      {
        var endpoint := endpoints[i];
        assert endpoints[..i + 1][..i] == endpoints[..i];
        var entry := EndpointState(200, Obj([]), endpoint.mockedByDefault);
        if endpoint.presets != [] {
          var preset := endpoint.presets[0];
          entry := EndpointState(if preset.status.Some? then preset.status.value else 200,
                                 preset.body, endpoint.mockedByDefault);
        }
        state := state[endpoint.id := entry];
      }
      assert endpoints[..|endpoints|] == endpoints;
      StartupKeys(endpoints);
    }

    /** The first pass: nothing is changed, and the first refusal ends it. */
    method Validate(rawUpdates: seq<Json>) returns (r: Result<seq<Update>, Refusal>)
      ensures r == CheckedAll(endpoints, rawUpdates)
    {
      var updates: seq<Update> := [];
      var seen: set<string> := {};
      for i := 0 to |rawUpdates|
        invariant CheckedAll(endpoints, rawUpdates[..i]) == Success(updates)
        invariant seen == EndpointsOf(updates)
      {
        assert rawUpdates[..i + 1][..i] == rawUpdates[..i];
        var update := Checked(endpoints, rawUpdates[i], i, seen);
        if update.Failure? {
          FirstRefusal(endpoints, rawUpdates, i + 1);
          return Failure(update.error);
        }
        updates := updates + [update.value];
        CheckedIsAlone(endpoints, rawUpdates[i], i, seen);
        seen := seen + {update.value.endpoint};
      }
      assert rawUpdates[..|rawUpdates|] == rawUpdates;
      return Success(updates);
    }

    method Change(update: Update, before: EndpointState) returns (entry: EndpointState)
      requires Applicable(endpoints, update)
      ensures entry == Changed(endpoints, update, before)
    {
      var def := FindDef(endpoints, update.endpoint).value;
      entry := before;
      if update.preset.Some? {
        var preset := FindPreset(def.presets, update.preset.value).value;
        entry := entry.(status := if preset.status.Some? then preset.status.value else 200);
        entry := entry.(body := preset.body);
        entry := entry.(active := true);
      }
      if update.status.Some? {
        entry := entry.(status := update.status.value);
      }
      if update.body.Some? {
        entry := entry.(body := update.body.value);
      }
      if update.active.Some? {
        entry := entry.(active := update.active.value);
      }
    }

    method ApplyEndpointUpdates(payload: Json) returns (refusal: Option<Refusal>)
      requires Valid()
      modifies this
      ensures Valid()
      ensures (state, refusal) == Applied(endpoints, old(state), payload)
      ensures refusal.Some? ==> state == old(state)
    {
      var raws := RawUpdates(payload);
      if raws.Failure? {
        return Some(raws.error);
      }
      var checked := Validate(raws.value);
      if checked.Failure? {
        return Some(checked.error);
      }
      assert Validated(endpoints, payload) == checked;
      ApplicableAll(endpoints, raws.value);
      var nextState := Rebuild(checked.value);
      assert state + nextState == nextState;
      state := state + nextState;
      return None;
    }

    /** The second pass: a copy of the states, changed one update after the other. */
    method Rebuild(updates: seq<Update>) returns (nextState: States)
      requires Valid() && forall u | u in updates :: Applicable(endpoints, u)
      ensures nextState == ChangedAll(endpoints, state, updates) && nextState.Keys == state.Keys
    {
      nextState := state;
      for i := 0 to |updates|
        invariant nextState == ChangedAll(endpoints, state, updates[..i]) && nextState.Keys == state.Keys
      {
        assert updates[..i + 1][..i] == updates[..i];
        assert updates[i] in updates;
        FindDefIff(endpoints, updates[i].endpoint);
        var entry := Change(updates[i], nextState[updates[i].endpoint]);
        nextState := nextState[updates[i].endpoint := entry];
      }
      assert updates[..|updates|] == updates;
    }
  }
}
