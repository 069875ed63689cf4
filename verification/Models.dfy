/** Suites, cases, steps and reports. */
module Models {
  import opened Redis
  import opened Json

  datatype Status = Passed | Failed | Error
  datatype Phase = Setup | Test | Teardown

  datatype Step = Step(
    name: string,
    operation: string,
    pathParams: map<string, Json>,
    query: map<string, Json>,
    headers: map<string, string>,
    jsonBody: Json,
    status: int,
    jsonEquals: map<string, Json>,
    maxLatencyMs: Option<real>,
    allowInvalidRequest: bool)

  datatype Case = Case(id: string, replaySafe: bool, setup: seq<Step>, steps: seq<Step>, teardown: seq<Step>)

  datatype StepResult = StepResult(
    name: string, phase: Phase, status: Status, httpStatus: Option<int>, attempts: int)

  datatype CaseResult = CaseResult(
    caseId: string, status: Status, workerId: string, delivery: int,
    steps: seq<StepResult>, message: Option<string>)

  datatype RunReport = RunReport(
    runId: string, expected: nat, results: seq<CaseResult>, infrastructureError: Option<string>)
  {
    /** 1 stands for tests that failed, 2 for everything that kept the run from being complete. */
    function ExitCode(): (code: int)
      ensures 0 <= code <= 2
      ensures code == 1 <==>
        && (infrastructureError == None || infrastructureError == Some("")) && |results| == expected
        && (forall i :: 0 <= i < |results| ==> results[i].status != Error)
        && exists i :: 0 <= i < |results| && results[i].status == Failed
      ensures code == 2 <==>
        || (infrastructureError != None && infrastructureError != Some("")) || |results| != expected
        || exists i :: 0 <= i < |results| && results[i].status == Error
    {
      if (infrastructureError.Some? && infrastructureError.value != "") || |results| != expected then 2
      else if exists i :: 0 <= i < |results| && results[i].status == Error then 2
      else if exists i :: 0 <= i < |results| && results[i].status == Failed then 1
      else 0
    }
  }

  predicate IsAlnum(c: char) {
    'a' <= c <= 'z' || 'A' <= c <= 'Z' || '0' <= c <= '9'
  }

  /** A letter or digit followed by at most 99 letters, digits, underscores, dots or hyphens:
      the pattern of case ids, and of run ids. */
  predicate IsId(s: string) {
    1 <= |s| <= 100 && IsAlnum(s[0]) && forall i :: 0 < i < |s| ==> IsAlnum(s[i]) || s[i] in "_.-"
  }

  ghost predicate IsSuite(cases: seq<Case>) {
    && 1 <= |cases| <= 10000
    && (forall i :: 0 <= i < |cases| ==> IsId(cases[i].id))
    && (forall i, j :: 0 <= i < j < |cases| ==> cases[i].id != cases[j].id)
  }

  const SAMPLE_STEP := Step("s", "o", map[], map[], map[], JNull, 200, map[], None, false)
  const SAMPLE := Case("a", true, [], [SAMPLE_STEP], [])

  /** The cases of a validated suite: at least one, with well-formed and pairwise different ids. */
  type Suite = cases: seq<Case> | IsSuite(cases) witness [SAMPLE]
}
