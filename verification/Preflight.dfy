/** The preflight check of a suite against a contract, and why its verdict still holds for the steps
    that are rendered and validated again when they run. */
module Preflight {
  import opened Redis
  import opened Json
  import opened Models
  import opened Text
  import opened PathTemplates
  import opened Rendering
  import Percent
  import R = References

  /** An entry of the operation table: the path template and the operation object. */
  datatype Operation = Operation(path: string, definition: map<string, Json>)

  datatype Contract = Contract(document: Json, operations: map<string, Operation>)

  datatype Fault = UnknownOperation | PathParameters | NotDeclared | NotAnObject | Reference(fault: R.Fault)
    | AssertionKey

  datatype Result<+T> = Ok(value: T) | Err(fault: Fault)

  // Responses

  /** str(n) */
  function Numeral(n: int): string { Spelled(Number(n)) }

  /** responses.get(str(status), responses.get(range, responses.get("default"))): a null entry is an
      undeclared status, whatever the less specific entries say. */
  function Declared(responses: map<string, Json>, status: int): Json {
    if Numeral(status) in responses then responses[Numeral(status)]
    else if Numeral(status / 100) + "XX" in responses then responses[Numeral(status / 100) + "XX"]
    else if "default" in responses then responses["default"]
    else JNull
  }

  lemma {:induction false} NoX(n: nat)
    ensures 'X' !in Decimal(n)
  {
    if n >= 10 { NoX(n / 10); }
  }

  /** The numeral of a status has its value, without leading zeros; that of a valid status has three digits, and
      the first of them names its range. */
  lemma NumeralMeans(status: nat)
    ensures IsCanonical(Numeral(status)) && Value(Numeral(status)) == status
    ensures 100 <= status <= 599 ==> |Numeral(status)| == 3 && Numeral(status / 100) == Numeral(status)[..1]
  {
    NumberSpelled(status);
    if 100 <= status <= 599 {
      assert status / 10 / 10 == status / 100;
      assert Decimal(status) == Decimal(status / 10) + [Digit(status % 10)];
      assert Decimal(status / 10) == Decimal(status / 100) + [Digit(status / 10 % 10)];
      assert Decimal(status / 100) == [Digit(status / 100)];
    }
  }

  /** The three keys a status is looked up under are different. */
  lemma KeysDiffer(status: nat)
    ensures Numeral(status) != Numeral(status / 100) + "XX" && Numeral(status) != "default"
              && Numeral(status / 100) + "XX" != "default"
  {
    NoX(status);
    var range := Numeral(status / 100) + "XX";
    assert range[|range| - 1] == 'X' && "default"[6] == 't';
    assert IsDigit(Numeral(status)[0]) && !IsDigit("default"[0]);
  }

  /** The most specific entry counts: declaring a response under a further key matters for a status only if
      it is one of its three keys and no more specific one is there. */
  lemma MostSpecificFirst(responses: map<string, Json>, status: nat, key: string, definition: Json)
    ensures var exact, range := Numeral(status), Numeral(status / 100) + "XX";
      Declared(responses[key := definition], status) ==
        if key == exact || (exact !in responses && (key == range || (range !in responses && key == "default")))
        then definition else Declared(responses, status)
  {
    KeysDiffer(status);
  }

  function Dereference(document: Json, value: Json): Result<Json> {
    var r := R.Chase(document, value, {}, R.Refs(document) + R.Refs(value));
    if r.Ok? then Ok(r.value) else Err(Reference(r.fault))
  }

  function ResponseDefinition(contract: Contract, operation: map<string, Json>, status: int): Result<Json> {
    var responses := if "responses" in operation then operation["responses"] else JObj(map[]);
    if !responses.JObj? then Err(NotAnObject)
    else
      var definition := Declared(responses.fields, status);
      if definition == JNull then Err(NotDeclared) else Dereference(contract.document, definition)
  }

  /** An operation of a loaded contract: its response objects lie in the document. */
  ghost predicate OperationLoaded(contract: Contract, operation: map<string, Json>) {
    "responses" in operation && operation["responses"].JObj?
    && forall k :: k in operation["responses"].fields ==> R.Loaded(contract.document, operation["responses"].fields[k])
  }

  /** For an operation of a loaded contract, the only reasons to have no definition are that none of the
      three entries exists and that the reference chain never ends; otherwise it is an object without $ref. */
  lemma LoadedResponses(contract: Contract, operation: map<string, Json>, status: int)
    requires OperationLoaded(contract, operation)
    ensures var fields, r := operation["responses"].fields, ResponseDefinition(contract, operation, status);
      && (r == Err(NotDeclared) <==>
            Numeral(status) !in fields && Numeral(status / 100) + "XX" !in fields && "default" !in fields)
      && (r.Ok? ==> r.value.JObj? && "$ref" !in r.value.fields)
      && (r.Err? && r != Err(NotDeclared) ==> r == Err(Reference(R.Cyclic)))
      && (r == Err(Reference(R.Cyclic)) <==>
            r != Err(NotDeclared) && R.Endless(contract.document, Declared(fields, status)))
  {
    hide R.Chase, R.Endless, R.Inspect, R.Refs;
    var fields := operation["responses"].fields;
    var definition := Declared(fields, status);
    if Numeral(status) in fields || Numeral(status / 100) + "XX" in fields || "default" in fields {
      assert R.Loaded(contract.document, definition);
      R.DerefMeaning(contract.document, definition);
    }
  }

  /** Without response objects no status is declared. */
  lemma NoResponses(contract: Contract, operation: map<string, Json>, status: int)
    requires "responses" !in operation
    ensures ResponseDefinition(contract, operation, status) == Err(NotDeclared)
  {
  }

  // The check

  function StepFault(contract: Contract, step: Step): Option<Fault> {
    if step.operation !in contract.operations then Some(UnknownOperation)
    else
      var operation := contract.operations[step.operation];
      if !Matches(operation.path, step.pathParams.Keys) then Some(PathParameters)
      else
        var definition := ResponseDefinition(contract, operation.definition, step.status);
        if definition.Err? then Some(definition.fault)
        else if exists k | k in step.jsonEquals :: k != "" && k[0] != '/' then Some(AssertionKey)
        else None
  }

  /** The operation exists, the placeholders of its path are named like the path parameters, the expected status
      has a definition, and the assertions are keyed by JSON pointers. */
  ghost predicate StepOk(contract: Contract, step: Step) {
    && step.operation in contract.operations
    && var operation := contract.operations[step.operation];
    && (forall n :: n in FindAll(operation.path) <==> n in step.pathParams)
    && ResponseDefinition(contract, operation.definition, step.status).Ok?
    && forall k :: k in step.jsonEquals ==> k == "" || k[0] == '/'
  }

  /** The first of these that is not so names the fault. */
  ghost predicate Raises(contract: Contract, step: Step, fault: Fault) {
    if step.operation !in contract.operations then fault == UnknownOperation
    else
      var operation := contract.operations[step.operation];
      var definition := ResponseDefinition(contract, operation.definition, step.status);
      if exists n :: n in FindAll(operation.path) && n !in step.pathParams then fault == PathParameters
      else if exists n :: n in step.pathParams && n !in FindAll(operation.path) then fault == PathParameters
      else if definition.Err? then fault == definition.fault
      else fault == AssertionKey && exists k :: k in step.jsonEquals && k != "" && k[0] != '/'
  }

  lemma FaultMeans(contract: Contract, step: Step)
    ensures StepFault(contract, step).None? <==> StepOk(contract, step)
    ensures StepFault(contract, step).Some? ==> Raises(contract, step, StepFault(contract, step).value)
  {
    hide ResponseDefinition, FindAll;
    if step.operation in contract.operations {
      var names := FindAll(contract.operations[step.operation].path);
      assert forall n :: n in names <==> n in (set x | x in names);
      assert forall n :: n in step.pathParams <==> n in step.pathParams.Keys;
    }
  }

  function StepsOf(c: Case): seq<Step> { c.setup + c.steps + c.teardown }

  function AllSteps(cases: seq<Case>): seq<Step> {
    if cases == [] then [] else StepsOf(cases[0]) + AllSteps(cases[1..])
  }

  lemma {:induction false} AllStepsPlus(a: seq<Case>, c: Case)
    ensures AllSteps(a + [c]) == AllSteps(a) + StepsOf(c)
  {
    if a == [] {
      assert (a + [c])[1..] == [];
    } else {
      assert (a + [c])[1..] == a[1..] + [c];
      AllStepsPlus(a[1..], c);
    }
  }

  lemma {:induction false} AllStepsPrefix(cases: seq<Case>, i: nat)
    requires i <= |cases|
    ensures AllSteps(cases[..i]) <= AllSteps(cases)
  {
    if i > 0 {
      assert cases[..i][1..] == cases[1..][..i - 1];
      AllStepsPrefix(cases[1..], i - 1);
    }
  }

  /** Accepts exactly when every step of every case is fine, and raises the fault of the first that is not, named
      by the first condition it does not meet. */
  method ValidateSuite(contract: Contract, cases: seq<Case>) returns (r: Option<Fault>)
    ensures r.None? <==> forall i :: 0 <= i < |AllSteps(cases)| ==> StepOk(contract, AllSteps(cases)[i])
    ensures r.Some? ==> exists i :: 0 <= i < |AllSteps(cases)| && !StepOk(contract, AllSteps(cases)[i])
                                 && Raises(contract, AllSteps(cases)[i], r.value)
                                 && forall j :: 0 <= j < i ==> StepOk(contract, AllSteps(cases)[j])
  {
    hide StepFault, StepOk, Raises;
    ghost var all := AllSteps(cases);
    for c := 0 to |cases|
      invariant AllSteps(cases[..c]) <= all
      invariant forall j :: 0 <= j < |AllSteps(cases[..c])| ==> StepOk(contract, all[j])
    {
      ghost var done := AllSteps(cases[..c]);
      var steps := StepsOf(cases[c]);
      AllStepsPlus(cases[..c], cases[c]);
      assert cases[..c + 1] == cases[..c] + [cases[c]];
      AllStepsPrefix(cases, c + 1);
      for s := 0 to |steps|
        invariant forall j :: 0 <= j < |done| + s ==> StepOk(contract, all[j])
      {
        assert all[|done| + s] == steps[s];
        FaultMeans(contract, steps[s]);
        r := StepFault(contract, steps[s]);
        if r.Some? { return; }
      }
    }
    assert cases[..|cases|] == cases;
    r := None;
  }

  // model_dump and model_validate of a step

  function DumpExpectation(step: Step): Json {
    JObj(map[
      "status" := JInt(step.status),
      "json_equals" := JObj(step.jsonEquals),
      "max_latency_ms" := if step.maxLatencyMs.Some? then JFloat(step.maxLatencyMs.value) else JNull])
  }

  function Texts(m: map<string, string>): map<string, Json> { map k | k in m :: JStr(m[k]) }

  function Dump(step: Step): Json {
    JObj(map[
      "name" := JStr(step.name),
      "operation" := JStr(step.operation),
      "path_params" := JObj(step.pathParams),
      "query" := JObj(step.query),
      "headers" := JObj(Texts(step.headers)),
      "json_body" := step.jsonBody,
      "expect" := DumpExpectation(step),
      "allow_invalid_request" := JBool(step.allowInvalidRequest)])
  }

  function GetOr(fields: map<string, Json>, key: string, fallback: Json): Json {
    if key in fields then fields[key] else fallback
  }

  datatype Expectation = Expectation(status: int, jsonEquals: map<string, Json>, maxLatencyMs: Option<real>)

  function ReadExpectation(j: Json): Option<Expectation> {
    if !j.JObj? || !(j.fields.Keys <= {"status", "json_equals", "max_latency_ms"}) then None
    else
      var status := GetOr(j.fields, "status", JNull);
      var equals := GetOr(j.fields, "json_equals", JObj(map[]));
      var latency := GetOr(j.fields, "max_latency_ms", JNull);
      if !status.JInt? || !(100 <= status.n <= 599) || !equals.JObj? then None
      else if latency == JNull then Some(Expectation(status.n, equals.fields, None))
      else if latency.JFloat? && latency.x > 0.0 then Some(Expectation(status.n, equals.fields, Some(latency.x)))
      else None
  }

  const STEP_KEYS: set<string> := {"name", "operation", "path_params", "query", "headers", "json_body", "expect",
                                   "allow_invalid_request"}

  /** Strict in the types, with the defaults of absent members and no member beyond the known ones. */
  function ReadStep(j: Json): Option<Step> {
    if !j.JObj? || !(j.fields.Keys <= STEP_KEYS) then None
    else
      var name := GetOr(j.fields, "name", JNull);
      var operation := GetOr(j.fields, "operation", JNull);
      var pathParams := GetOr(j.fields, "path_params", JObj(map[]));
      var query := GetOr(j.fields, "query", JObj(map[]));
      var headers := GetOr(j.fields, "headers", JObj(map[]));
      var body := GetOr(j.fields, "json_body", JNull);
      var wanted := ReadExpectation(GetOr(j.fields, "expect", JNull));
      var allow := GetOr(j.fields, "allow_invalid_request", JBool(false));
      if !name.JStr? || !(1 <= |name.s| <= 120) || !operation.JStr? || !pathParams.JObj? || !query.JObj? then None
      else if !headers.JObj? || (exists k | k in headers.fields :: !headers.fields[k].JStr?) then None
      else if wanted.None? || !allow.JBool? then None
      else Some(Step(name.s, operation.s, pathParams.fields, query.fields,
                     map k | k in headers.fields :: if headers.fields[k].JStr? then headers.fields[k].s else "",
                     body, wanted.value.status, wanted.value.jsonEquals, wanted.value.maxLatencyMs, allow.b))
  }

  /** What a member stands for when it is left out of a step. */
  function DefaultOf(key: string): Json {
    if key == "path_params" || key == "query" || key == "headers" || key == "json_equals" then JObj(map[])
    else if key == "allow_invalid_request" then JBool(false)
    else JNull
  }

  /** The members of one object are those of another, except that members with a default value may be missing. */
  ghost predicate LeavesOutDefaults(read: map<string, Json>, dumped: map<string, Json>) {
    && read.Keys <= dumped.Keys
    && forall k :: k in dumped ==> GetOr(read, k, DefaultOf(k)) == dumped[k]
  }

  predicate IsExpectation(step: Step) {
    100 <= step.status <= 599 && (step.maxLatencyMs.Some? ==> step.maxLatencyMs.value > 0.0)
  }

  predicate IsStep(step: Step) { 1 <= |step.name| <= 120 && IsExpectation(step) }

  lemma DumpExpectationReads(step: Step)
    ensures ReadExpectation(DumpExpectation(step)) ==
      if IsExpectation(step) then Some(Expectation(step.status, step.jsonEquals, step.maxLatencyMs)) else None
  {
  }

  lemma TextsRead(m: map<string, string>)
    ensures var texts := Texts(m);
      && (forall k :: k in texts ==> texts[k].JStr?)
      && (map k | k in texts :: if texts[k].JStr? then texts[k].s else "") == m
  {
  }

  /** Reading back a dumped step gives the step exactly when it is a valid one; otherwise it is refused. */
  lemma DumpReads(step: Step)
    ensures ReadStep(Dump(step)) == if IsStep(step) then Some(step) else None
  {
    hide Texts, ReadExpectation, DumpExpectation;
    DumpExpectationReads(step);
    TextsRead(step.headers);
  }

  lemma ExpectationIsDump(j: Json, step: Step)
    requires ReadExpectation(j) == Some(Expectation(step.status, step.jsonEquals, step.maxLatencyMs))
    ensures j.JObj? && LeavesOutDefaults(j.fields, DumpExpectation(step).fields)
  {
  }

  lemma HeadersRead(headers: map<string, Json>)
    requires forall k :: k in headers ==> headers[k].JStr?
    ensures Texts(map k | k in headers :: if headers[k].JStr? then headers[k].s else "") == headers
  {
  }

  lemma StepMembers(j: Json)
    requires ReadStep(j).Some?
    ensures var s := ReadStep(j).value;
      && j.JObj? && j.fields.Keys <= STEP_KEYS && 1 <= |s.name| <= 120
      && GetOr(j.fields, "name", JNull) == JStr(s.name) && GetOr(j.fields, "operation", JNull) == JStr(s.operation)
      && GetOr(j.fields, "path_params", JObj(map[])) == JObj(s.pathParams)
      && GetOr(j.fields, "query", JObj(map[])) == JObj(s.query)
      && GetOr(j.fields, "headers", JObj(map[])) == JObj(Texts(s.headers))
      && GetOr(j.fields, "json_body", JNull) == s.jsonBody
      && GetOr(j.fields, "allow_invalid_request", JBool(false)) == JBool(s.allowInvalidRequest)
      && ReadExpectation(GetOr(j.fields, "expect", JNull)) == Some(Expectation(s.status, s.jsonEquals, s.maxLatencyMs))
  {
    hide ReadExpectation, Texts;
    HeadersRead(GetOr(j.fields, "headers", JObj(map[])).fields);
  }

  lemma DumpKeys(step: Step)
    ensures Dump(step).JObj? && Dump(step).fields.Keys == STEP_KEYS
    ensures DumpExpectation(step).JObj?
              && DumpExpectation(step).fields.Keys == {"status", "json_equals", "max_latency_ms"}
  {
  }

  lemma MembersAreDump(fields: map<string, Json>, s: Step)
    requires fields.Keys <= STEP_KEYS
    requires GetOr(fields, "name", JNull) == JStr(s.name) && GetOr(fields, "operation", JNull) == JStr(s.operation)
    requires GetOr(fields, "path_params", JObj(map[])) == JObj(s.pathParams)
    requires GetOr(fields, "query", JObj(map[])) == JObj(s.query)
    requires GetOr(fields, "headers", JObj(map[])) == JObj(Texts(s.headers))
    requires GetOr(fields, "json_body", JNull) == s.jsonBody
    requires GetOr(fields, "allow_invalid_request", JBool(false)) == JBool(s.allowInvalidRequest)
    ensures LeavesOutDefaults(fields["expect" := DumpExpectation(s)], Dump(s).fields)
  {
    hide DumpExpectation, Texts;
    var read, dumped := fields["expect" := DumpExpectation(s)], Dump(s).fields;
    assert dumped.Keys == STEP_KEYS by { DumpKeys(s); }
    forall k | k in dumped ensures GetOr(read, k, DefaultOf(k)) == dumped[k] {
      if k != "expect" { assert GetOr(read, k, DefaultOf(k)) == GetOr(fields, k, DefaultOf(k)); }
    }
  }

  lemma ExpectationIsValid(j: Json)
    requires ReadExpectation(j).Some?
    ensures 100 <= ReadExpectation(j).value.status <= 599
    ensures ReadExpectation(j).value.maxLatencyMs.Some? ==> ReadExpectation(j).value.maxLatencyMs.value > 0.0
  {
  }

  /** Conversely, only dumps of valid steps are read, in which members may be left out that have their default. */
  lemma OnlyDumpsRead(j: Json)
    requires ReadStep(j).Some?
    ensures var step := ReadStep(j).value;
      && IsStep(step) && j.JObj? && "expect" in j.fields && j.fields["expect"].JObj?
      && LeavesOutDefaults(j.fields["expect"].fields, DumpExpectation(step).fields)
      && LeavesOutDefaults(j.fields["expect" := DumpExpectation(step)], Dump(step).fields)
  {
    hide ReadExpectation, DumpExpectation, ReadStep, LeavesOutDefaults;
    var step := ReadStep(j).value;
    StepMembers(j);
    ExpectationIsValid(GetOr(j.fields, "expect", JNull));
    ExpectationIsDump(GetOr(j.fields, "expect", JNull), step);
    MembersAreDump(j.fields, step);
  }

  // Soundness

  /** The step the executor sends for a configured one, if rendering and validation succeed. */
  function Rendered(step: Step, env: Env): Option<Step> {
    var j := Render(Dump(step), env);
    if j.None? then None else ReadStep(j.value)
  }

  lemma RenderedField(fields: map<string, Json>, env: Env, k: string)
    requires Render(JObj(fields), env).Some? && k in fields
    ensures var j := Render(JObj(fields), env).value;
            j.JObj? && j.fields.Keys == fields.Keys && Render(fields[k], env) == Some(j.fields[k])
  {
  }

  lemma ReadExpectationFields(j: Json)
    requires ReadExpectation(j).Some? && j.JObj? && j.fields.Keys == {"status", "json_equals", "max_latency_ms"}
    ensures var f, e := j.fields, ReadExpectation(j).value;
      && 100 <= e.status <= 599 && (e.maxLatencyMs.Some? ==> e.maxLatencyMs.value > 0.0)
      && f["status"] == JInt(e.status) && f["json_equals"] == JObj(e.jsonEquals)
      && f["max_latency_ms"] == if e.maxLatencyMs.Some? then JFloat(e.maxLatencyMs.value) else JNull
  {
  }

  lemma ReadStepFields(j: Json)
    requires ReadStep(j).Some? && j.JObj? && j.fields.Keys == STEP_KEYS
    ensures var f, s := j.fields, ReadStep(j).value;
      && f["name"] == JStr(s.name) && f["json_body"] == s.jsonBody && f["headers"] == JObj(Texts(s.headers))
      && IsStep(s) && ReadExpectation(f["expect"]) == Some(Expectation(s.status, s.jsonEquals, s.maxLatencyMs))
      && f["operation"] == JStr(s.operation) && f["path_params"] == JObj(s.pathParams) && f["query"] == JObj(s.query)
      && f["headers"].JObj? && f["headers"].fields.Keys == s.headers.Keys
      && f["allow_invalid_request"] == JBool(s.allowInvalidRequest)
  {
    hide ReadExpectation;
    ExpectationIsValid(j.fields["expect"]);
    HeadersRead(j.fields["headers"].fields);
  }

  lemma ObjectRenders(fields: map<string, Json>, env: Env)
    requires Render(JObj(fields), env).Some?
    ensures Render(JObj(fields), env).value.JObj? && Render(JObj(fields), env).value.fields.Keys == fields.Keys
  {
  }

  lemma RenderedExpectation(step: Step, env: Env)
    requires Render(DumpExpectation(step), env).Some? && ReadExpectation(Render(DumpExpectation(step), env).value).Some?
    ensures var e := ReadExpectation(Render(DumpExpectation(step), env).value).value;
            && e.status == step.status && e.jsonEquals.Keys == step.jsonEquals.Keys
            && Render(JObj(step.jsonEquals), env) == Some(JObj(e.jsonEquals)) && e.maxLatencyMs == step.maxLatencyMs
  {
    hide RenderText, ReadExpectation;
    DumpKeys(step);
    var fields := DumpExpectation(step).fields;
    RenderedField(fields, env, "status");
    RenderedField(fields, env, "json_equals");
    RenderedField(fields, env, "max_latency_ms");
    ReadExpectationFields(Render(DumpExpectation(step), env).value);
    ObjectRenders(step.jsonEquals, env);
  }

  lemma BoolRenders(b: bool, env: Env)
    ensures Render(JBool(b), env) == Some(JBool(b))
  {
  }

  /** A rendered step is its configuration with every part rendered: dictionaries keep their keys, and the expected
      status, the latency bound and the flag stay. */
  lemma RenderedKeeps(step: Step, env: Env)
    requires Rendered(step, env).Some?
    ensures var s := Rendered(step, env).value;
      && s.pathParams.Keys == step.pathParams.Keys && s.query.Keys == step.query.Keys
      && s.headers.Keys == step.headers.Keys && s.jsonEquals.Keys == step.jsonEquals.Keys
      && s.status == step.status && s.maxLatencyMs == step.maxLatencyMs
      && s.allowInvalidRequest == step.allowInvalidRequest
      && IsStep(s) && Render(JStr(step.operation), env) == Some(JStr(s.operation))
      && Render(JStr(step.name), env) == Some(JStr(s.name)) && Render(step.jsonBody, env) == Some(s.jsonBody)
      && Render(JObj(step.pathParams), env) == Some(JObj(s.pathParams))
      && Render(JObj(step.query), env) == Some(JObj(s.query))
      && Render(JObj(Texts(step.headers)), env) == Some(JObj(Texts(s.headers)))
      && Render(JObj(step.jsonEquals), env) == Some(JObj(s.jsonEquals))
  {
    hide Render, ReadStep, ReadExpectation, DumpExpectation;
    DumpKeys(step);
    var fields := Dump(step).fields;
    var j := Render(Dump(step), env).value;
    RenderedField(fields, env, "name");
    RenderedField(fields, env, "json_body");
    RenderedField(fields, env, "operation");
    RenderedField(fields, env, "path_params");
    RenderedField(fields, env, "query");
    RenderedField(fields, env, "headers");
    RenderedField(fields, env, "expect");
    RenderedField(fields, env, "allow_invalid_request");
    ReadStepFields(j);
    ObjectRenders(step.pathParams, env);
    ObjectRenders(step.query, env);
    ObjectRenders(Texts(step.headers), env);
    RenderedExpectation(step, env);
    BoolRenders(step.allowInvalidRequest, env);
  }

  /** Whatever the templates are, a rendered step passes the preflight exactly when the configured step
      would pass it under its rendered operation name. */
  lemma PreflightAfterRendering(contract: Contract, step: Step, env: Env)
    requires Rendered(step, env).Some?
    ensures var s := Rendered(step, env).value;
            StepFault(contract, s) == StepFault(contract, step.(operation := s.operation))
  {
    hide Rendered, Matches, ResponseDefinition;
    RenderedKeeps(step, env);
    var s := Rendered(step, env).value;
    assert forall k :: k in s.jsonEquals <==> k in s.jsonEquals.Keys;
    assert forall k :: k in step.jsonEquals <==> k in step.jsonEquals.Keys;
  }

  lemma KeysMatch(contract: Contract, step: Step)
    requires StepOk(contract, step)
    ensures Matches(contract.operations[step.operation].path, step.pathParams.Keys)
    ensures ResponseDefinition(contract, contract.operations[step.operation].definition, step.status).Ok?
  {
    hide ResponseDefinition, FindAll;
  }

  /** If the preflight accepted a suite whose operation names contain no placeholder, every step that
      renders and validates is accepted again: its operation is found, its path parameters are those of
      the template and the expected status has the very definition the preflight found. */
  lemma PreflightIsSound(contract: Contract, step: Step, env: Env)
    requires StepOk(contract, step) && TextNames(step.operation) == {} && Rendered(step, env).Some?
    ensures var s := Rendered(step, env).value;
      && s.operation == step.operation && s.operation in contract.operations && StepOk(contract, s)
      && Matches(contract.operations[s.operation].path, s.pathParams.Keys)
      && s.status == step.status
      && ResponseDefinition(contract, contract.operations[s.operation].definition, s.status).Ok?
  {
    hide Rendered, Matches, ResponseDefinition, TextNames, Render;
    RenderFails(JStr(step.operation), env);
    assert AllNames(JStr(step.operation)) == {};
    RenderedKeeps(step, env);
    PreflightAfterRendering(contract, step, env);
    FaultMeans(contract, step);
    FaultMeans(contract, Rendered(step, env).value);
    KeysMatch(contract, Rendered(step, env).value);
  }

  /** And its request has a path without placeholder, unless a value renders to a dot segment; text is
      the str() of a value. */
  lemma RequestAfterPreflight(contract: Contract, step: Step, env: Env, params: seq<Param>, text: Json -> string)
      returns (pieces: seq<Piece>)
    requires StepOk(contract, step) && TextNames(step.operation) == {} && Rendered(step, env).Some?
    requires Unnested(contract.operations[step.operation].path)
    requires DistinctKeys(params)
    requires Table(params)
               == map k | k in Rendered(step, env).value.pathParams :: text(Rendered(step, env).value.pathParams[k])
    ensures IsReading(pieces) && Flatten(pieces) == contract.operations[step.operation].path
    ensures match Sequential(contract.operations[step.operation].path, params)
      case DotSegment => exists i :: 0 <= i < |params| && (params[i].text == "." || params[i].text == "..")
      case Path(p) =>
        && p == Flatten(FillAll(pieces, Table(params))) && FindAll(p) == []
        && Occurs(p, '/') == LiteralSlashes(pieces)
  {
    hide Rendered, Matches, ResponseDefinition, TextNames, Render, Flatten, FillAll, Occurs, Sequential, Table,
         IsReading, FindAll, Unnested, Percent.Quote;
    PreflightIsSound(contract, step, env);
    assert Table(params).Keys == Rendered(step, env).value.pathParams.Keys;
    pieces := RequestPath(contract.operations[step.operation].path, params);
  }

  lemma ObjectRendersTo(from: map<string, Json>, to: map<string, Json>, env: Env)
    requires from.Keys == to.Keys && forall k :: k in from ==> Render(from[k], env) == Some(to[k])
    ensures Render(JObj(from), env) == Some(JObj(to))
  {
    assert Render(JObj(from), env).value.fields == to;
  }

  /** A valid step without any placeholder is sent as it is configured. */
  lemma PlainStep(step: Step, env: Env)
    requires IsStep(step) && AllNames(Dump(step)) == {}
    ensures Rendered(step, env) == Some(step)
  {
    RenderFails(Dump(step), env);
    DumpReads(step);
  }

  // An accepted step that renders to an unknown operation

  /** What the executor renders the steps of a case with. */
  function CaseEnv(namespace: string, seed: int, caseId: string, runId: string, environ: map<string, string>): Env {
    Env(map["namespace" := Words(namespace), "seed" := Number(seed), "case_id" := Words(caseId),
        "run_id" := Words(runId)],
        environ)
  }

  /** The variables of a case: its namespace, case id and run id as texts and the seed as a number, and the
      environment of the worker; every other name is an error. */
  lemma CaseVariables(namespace: string, seed: int, caseId: string, runId: string, environ: map<string, string>,
                      name: string)
    requires name != "" && '}' !in name
    ensures var env := CaseEnv(namespace, seed, caseId, runId, environ);
      Render(JStr("${" + name + "}"), env) ==
        if name == "namespace" then Some(JStr(namespace))
        else if name == "seed" then Some(JInt(seed))
        else if name == "case_id" then Some(JStr(caseId))
        else if name == "run_id" then Some(JStr(runId))
        else if |name| >= 4 && name[..4] == "env:" && name[4..] in environ then Some(JStr(environ[name[4..]]))
        else None
  {
    hide Render;
    var env := CaseEnv(namespace, seed, caseId, runId, environ);
    if |name| >= 4 && name[..4] == "env:" {
      assert name[0] == name[..4][0] == 'e';
      assert name == "env:" + name[4..] && "${env:" + name[4..] + "}" == "${" + name + "}";
      EnvironmentRenders(name[4..], env, "", "");
    } else {
      VariableRenders(name, env, "", "");
    }
  }

  const TEMPLATED := Step("s", "${case_id}", map[], map[], map[], JNull, 200, map[], None, false)
  const ANY_RESPONSE := JObj(map["description" := JStr("ok")])
  const RESPONSES := JObj(map["default" := ANY_RESPONSE])
  const GET := map["operationId" := JStr("${case_id}"), "responses" := RESPONSES]

  /** A document with one path and one operation, and the contract it gives. */
  const DOCUMENT := JObj(map["openapi" := JStr("3.1.0"), "paths" := JObj(map["/x" := JObj(map["get" := JObj(GET)])])])
  const CONTRACT := Contract(DOCUMENT, map["${case_id}" := Operation("/x", GET)])

  lemma InspectText(document: Json, t: string)
    ensures R.Inspect(document, JStr(t))
  {
  }

  /** A key that does not begin with '$' has no special meaning. */
  predicate Ordinary(key: string) { key != "" && key[0] != '$' }

  lemma OrdinaryKeys(document: Json, fields: map<string, Json>)
    requires forall key :: key in fields ==> Ordinary(key) && R.Inspect(document, fields[key])
    ensures R.Inspect(document, JObj(fields))
  {
    forall key | key in fields ensures !R.Forbidden(key) && key != "$ref" { assert Ordinary(key); }
  }

  lemma ResponsesLoad()
    ensures R.Inspect(DOCUMENT, RESPONSES)
  {
    hide R.Inspect;
    InspectText(DOCUMENT, "ok");
    OrdinaryKeys(DOCUMENT, map["description" := JStr("ok")]);
    OrdinaryKeys(DOCUMENT, map["default" := ANY_RESPONSE]);
  }

  lemma OperationLoads()
    ensures R.Inspect(DOCUMENT, JObj(GET))
  {
    hide R.Inspect;
    ResponsesLoad();
    InspectText(DOCUMENT, "${case_id}");
    OrdinaryKeys(DOCUMENT, GET);
  }

  lemma DocumentLoads()
    ensures R.Inspect(DOCUMENT, DOCUMENT)
  {
    hide R.Inspect;
    OperationLoads();
    OrdinaryKeys(DOCUMENT, map["get" := JObj(GET)]);
    OrdinaryKeys(DOCUMENT, map["/x" := JObj(map["get" := JObj(GET)])]);
    InspectText(DOCUMENT, "3.1.0");
    OrdinaryKeys(DOCUMENT, DOCUMENT.fields);
  }

  lemma TemplatedIsAccepted()
    ensures StepOk(CONTRACT, TEMPLATED)
  {
    var definition := CONTRACT.operations["${case_id}"].definition;
    assert definition["responses"] == RESPONSES;
    assert Declared(RESPONSES.fields, 200) == ANY_RESPONSE;
    assert ResponseDefinition(CONTRACT, definition, 200).Ok?;
    assert FindAll("/x") == [];
  }

  lemma FixedFields(step: Step, k: string)
    requires step == TEMPLATED && k in Dump(step).fields && k != "operation"
    ensures AllNames(Dump(step).fields[k]) == {}
  {
    hide Render, ReadStep;
    if k == "name" {
      assert TextNames("s") == {};
    } else if k == "expect" {
      forall e | e in DumpExpectation(step).fields ensures AllNames(DumpExpectation(step).fields[e]) == {} { }
    }
  }

  lemma TemplatedRenders(env: Env, id: string)
    requires Resolve("case_id", env) == Some(Words(id))
    ensures Rendered(TEMPLATED, env) == Some(TEMPLATED.(operation := id))
  {
    hide ReadStep;
    var other := TEMPLATED.(operation := id);
    var from, to := Dump(TEMPLATED).fields, Dump(other).fields;
    forall k | k in from ensures Render(from[k], env) == Some(to[k]) {
      if k == "operation" {
        assert "${case_id}" == "${" + "case_id" + "}";
        WholeIsTyped("case_id", env);
      } else {
        assert to[k] == from[k];
        FixedFields(TEMPLATED, k);
        RenderFails(from[k], env);
      }
    }
    ObjectRendersTo(from, to, env);
    DumpReads(other);
  }

  /** Without the condition on operation names the guarantee fails, in every case of every run: the accepted
      step renders to an operation named by the case id, which the loaded contract does not have. */
  lemma TemplatedOperationEscapes(namespace: string, seed: int, caseId: string, runId: string,
                                  environ: map<string, string>)
    requires IsId(caseId)
    ensures R.Inspect(DOCUMENT, DOCUMENT) && StepOk(CONTRACT, TEMPLATED)
    ensures var rendered := Rendered(TEMPLATED, CaseEnv(namespace, seed, caseId, runId, environ));
            rendered.Some? && StepFault(CONTRACT, rendered.value) == Some(UnknownOperation)
  {
    hide Rendered, R.Inspect;
    DocumentLoads();
    TemplatedIsAccepted();
    var env := CaseEnv(namespace, seed, caseId, runId, environ);
    assert "case_id"[..4][0] == 'c' && "env:"[0] == 'e';
    TemplatedRenders(env, caseId);
    assert caseId != "${case_id}" by { assert !IsAlnum("${case_id}"[0]); }
  }
}
