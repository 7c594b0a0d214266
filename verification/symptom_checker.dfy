/**
 The symptom-checker page: the three-field form, its change handler, the
 validation that runs before the analysis request, the submit handler with the
 remote analysis service reduced to an abstract outcome, and the
 "Start New Analysis" reset.
 */
module SymptomChecker {
  import opened Wrappers
  import opened Text
  import opened Symptoms
  import opened JsParseInt

  // ---------------------------------------------------------------------------
  // Data
  // ---------------------------------------------------------------------------

  /** The form fields, held as the strings the input elements deliver. */
  datatype FormData = FormData(age: string, gender: string, symptom: string)

  const EmptyForm: FormData := FormData("", "", "")

  /** One possible condition in the service's answer. */
  datatype Condition = Condition(
    name: string,
    probability: real,
    explanation: string,
    suggestedMedications: seq<string>)

  /** The analysis returned by the service. */
  datatype AnalysisResult = AnalysisResult(
    age: int,
    gender: string,
    conditions: seq<Condition>,
    recommendation: string,
    disclaimer: string)

  /** The page's React state. */
  datatype PageState = PageState(
    form: FormData,
    loading: bool,
    result: Option<AnalysisResult>,
    error: Option<string>)

  const InitialPage: PageState := PageState(EmptyForm, false, None, None)

  /** The request body posted to the analysis service. */
  datatype SymptomRequest = SymptomRequest(age: int, gender: string, symptoms: seq<string>)

  /** What the analysis service did with a posted request. */
  datatype ApiOutcome =
    | Answered(result: AnalysisResult)
    | Refused(message: Option<string>)

  // ---------------------------------------------------------------------------
  // handleChange
  // ---------------------------------------------------------------------------

  const AgeId: string := "age"
  const GenderId: string := "gender"
  const SymptomId: string := "symptom"

  /** Stores `value` under the field whose element id is `id`; an id that names
      no field leaves the three fields as they are. */
  function HandleChange(form: FormData, id: string, value: string): (r: FormData)
    ensures r.age == (if id == AgeId then value else form.age)
    ensures r.gender == (if id == GenderId then value else form.gender)
    ensures r.symptom == (if id == SymptomId then value else form.symptom)
  {
    if id == AgeId then form.(age := value)
    else if id == GenderId then form.(gender := value)
    else if id == SymptomId then form.(symptom := value)
    else form
  }

  /** Field value as the input element with that id shows it. */
  function FieldValue(form: FormData, id: string): Option<string> {
    if id == AgeId then Some(form.age)
    else if id == GenderId then Some(form.gender)
    else if id == SymptomId then Some(form.symptom)
    else None
  }

  /** After a change, the changed field reads back the new value and every other
      field reads back what it held. */
  lemma ChangeReadBack(form: FormData, id: string, value: string, other: string)
    requires FieldValue(form, id).Some?
    ensures FieldValue(HandleChange(form, id, value), id) == Some(value)
    ensures other != id ==> FieldValue(HandleChange(form, id, value), other) == FieldValue(form, other)
  {
  }

  /** Changes to two different fields commute. */
  lemma ChangesCommute(form: FormData, id1: string, v1: string, id2: string, v2: string)
    requires id1 != id2
    ensures HandleChange(HandleChange(form, id1, v1), id2, v2)
         == HandleChange(HandleChange(form, id2, v2), id1, v1)
  {
  }

  /** A second change to the same field overwrites the first. */
  lemma LastChangeWins(form: FormData, id: string, v1: string, v2: string)
    ensures HandleChange(HandleChange(form, id, v1), id, v2) == HandleChange(form, id, v2)
  {
  }

  // ---------------------------------------------------------------------------
  // Validation (the prefix of handleSubmit)
  // ---------------------------------------------------------------------------

  const AllowedGenders: set<string> := {"male", "female", "other"}
  const MinAge: int := 1
  const MaxAge: int := 120

  const InvalidAgeMessage: string := "Please enter a valid age"
  const AgeRangeMessage: string := "Age must be between 1 and 120"
  const GenderMessage: string := "Please select a valid gender"
  const SymptomMessage: string := "Please enter at least one symptom"
  const AnalysisFailedMessage: string := "An error occurred during analysis"

  /** The checks `handleSubmit` makes before posting, first failure wins. A
      request is built only when every check passes; its age is the parsed age
      and its symptom list is `formatSymptoms` of the text. */
  function Validate(form: FormData): (r: Result<SymptomRequest, string>)
    ensures r.Success? <==>
      && ParseInt(form.age).Some?
      && MinAge <= ParseInt(form.age).value <= MaxAge
      && form.gender in AllowedGenders
      && !Blank(form.symptom)
    ensures r.Success? ==>
      && r.value.age == ParseInt(form.age).value
      && r.value.gender == form.gender
      && r.value.symptoms == FormatSymptoms(form.symptom)
    ensures r.Failure? ==>
      r.error in {InvalidAgeMessage, AgeRangeMessage, GenderMessage, SymptomMessage}
  {
    match ParseInt(form.age)
    case None => Failure(InvalidAgeMessage)
    case Some(age) =>
      if age < MinAge || age > MaxAge then Failure(AgeRangeMessage)
      else if form.gender !in AllowedGenders then Failure(GenderMessage)
      else if Blank(form.symptom) then Failure(SymptomMessage)
      else Success(SymptomRequest(age, form.gender, FormatSymptoms(form.symptom)))
  }

  /** One named check of the validation sequence. */
  datatype Check = Check(passes: bool, message: string)

  /** The four checks in the order the page makes them, each stated on its own. */
  function Checks(form: FormData): seq<Check> {
    var age := ParseInt(form.age);
    [ Check(age.Some?, InvalidAgeMessage),
      Check(age.Some? && MinAge <= age.value <= MaxAge, AgeRangeMessage),
      Check(form.gender in AllowedGenders, GenderMessage),
      Check(!Blank(form.symptom), SymptomMessage) ]
  }

  /** The message of the first failing check, if any. */
  function FirstFailure(checks: seq<Check>): Option<string> {
    if checks == [] then None
    else if !checks[0].passes then Some(checks[0].message)
    else FirstFailure(checks[1..])
  }

  /** Validation rejects exactly when some check fails, and then with the
      message of the first failing check in the page's order. */
  lemma ValidateIsFirstFailure(form: FormData)
    ensures Validate(form).Failure? <==> FirstFailure(Checks(form)).Some?
    ensures Validate(form).Failure? ==> Validate(form).error == FirstFailure(Checks(form)).value
  {
    var age := ParseInt(form.age);
    FirstFailureOfFour(
      Check(age.Some?, InvalidAgeMessage),
      Check(age.Some? && MinAge <= age.value <= MaxAge, AgeRangeMessage),
      Check(form.gender in AllowedGenders, GenderMessage),
      Check(!Blank(form.symptom), SymptomMessage));
  }

  lemma FirstFailureOfFour(a: Check, b: Check, c: Check, d: Check)
    ensures FirstFailure([a, b, c, d]) ==
      if !a.passes then Some(a.message)
      else if !b.passes then Some(b.message)
      else if !c.passes then Some(c.message)
      else if !d.passes then Some(d.message)
      else None
  {
    var s4: seq<Check> := [d];
    var s3: seq<Check> := [c, d];
    var s2: seq<Check> := [b, c, d];
    var s1: seq<Check> := [a, b, c, d];
    assert s4[1..] == [] && s3[1..] == s4 && s2[1..] == s3 && s1[1..] == s2;
    assert FirstFailure(s4) == if !d.passes then Some(d.message) else None;
    assert FirstFailure(s3) == if !c.passes then Some(c.message) else FirstFailure(s4);
    assert FirstFailure(s2) == if !b.passes then Some(b.message) else FirstFailure(s3);
    assert FirstFailure(s1) == if !a.passes then Some(a.message) else FirstFailure(s2);
  }

  /** Text made only of commas passes the non-blank check, so a request can go
      out with an empty symptom list. */
  lemma CommasPassValidation(age: nat)
    requires MinAge <= age <= MaxAge
    ensures Validate(FormData(Decimal(age), "male", ",,,")).Success?
    ensures Validate(FormData(Decimal(age), "male", ",,,")).value.symptoms == []
  {
    assert Decimal(age) + [] == Decimal(age);
    ParseDecimal(age, []);
    OnlyCommas();
  }

  // ---------------------------------------------------------------------------
  // handleSubmit
  // ---------------------------------------------------------------------------

  /** The page after a submit, and the request it posted, if any. */
  datatype Submission = Submission(page: PageState, request: Option<SymptomRequest>)

  /** The message shown when the service refuses: its own message when it sent
      a non-empty one, a fixed text otherwise. */
  function RefusalText(message: Option<string>): (r: string)
    ensures r != []
    ensures message.Some? && message.value != [] ==> r == message.value
    ensures !(message.Some? && message.value != []) ==> r == AnalysisFailedMessage
  {
    if message.Some? && message.value != [] then message.value else AnalysisFailedMessage
  }

  /** `handleSubmit`, from the click to the `finally` block. A request is posted
      exactly when validation passes; otherwise the first failing check's
      message is shown and nothing is posted. A new result appears only when a
      posted request was answered. The form itself is never touched. */
  function HandleSubmit(page: PageState, api: ApiOutcome): (r: Submission)
    ensures r.request.Some? <==> Validate(page.form).Success?
    ensures r.request.Some? ==> r.request.value == Validate(page.form).value
    ensures Validate(page.form).Failure? ==>
      r.page.error == Some(Validate(page.form).error) && r.page.result == page.result
    ensures r.page.error.None? <==> r.request.Some? && api.Answered?
    ensures r.page.result != page.result ==> r.request.Some? && api.Answered?
    ensures r.request.Some? && api.Answered? ==> r.page.result == Some(api.result)
    ensures r.request.Some? && api.Refused? ==>
      r.page.error == Some(RefusalText(api.message)) && r.page.result == page.result
    ensures r.page.form == page.form && !r.page.loading
  {
    match Validate(page.form)
    case Failure(message) =>
      Submission(page.(loading := false, error := Some(message)), None)
    case Success(request) =>
      match api
      case Answered(result) =>
        Submission(page.(loading := false, error := None, result := Some(result)), Some(request))
      case Refused(message) =>
        Submission(page.(loading := false, error := Some(RefusalText(message))), Some(request))
  }

  // ---------------------------------------------------------------------------
  // Start New Analysis
  // ---------------------------------------------------------------------------

  /** The "Start New Analysis" button: drops the result and empties the three
      fields; loading flag and error are left as they were. */
  function StartOver(page: PageState): (r: PageState)
    ensures r.result.None?
    ensures r.form.age == [] && r.form.gender == [] && r.form.symptom == []
    ensures r.loading == page.loading && r.error == page.error
  {
    page.(result := None, form := EmptyForm)
  }

  // ---------------------------------------------------------------------------
  // The page as a transition system
  // ---------------------------------------------------------------------------

  /** What the user can do on the page. */
  datatype Event =
    | Edit(id: string, value: string)
    | Submit(api: ApiOutcome)
    | NewAnalysis

  /** The form (fields and submit button) is rendered only while there is no
      result; the "Start New Analysis" button only while there is one. An event
      whose control is not on screen changes nothing. */
  function Step(page: PageState, e: Event): (r: PageState)
    ensures page.result.Some? && !e.NewAnalysis? ==> r == page
    ensures page.result.None? && e.NewAnalysis? ==> r == page
    ensures page.result.None? && r.result.Some? ==> e.Submit? && e.api.Answered? && r.error.None?
    ensures page.result.Some? && r.result.None? ==> e.NewAnalysis? && r.form == EmptyForm
  {
    match e
    case Edit(id, value) =>
      if page.result.None? then page.(form := HandleChange(page.form, id, value)) else page
    case Submit(api) =>
      if page.result.None? then HandleSubmit(page, api).page else page
    case NewAnalysis =>
      if page.result.Some? then StartOver(page) else page
  }

  function Run(page: PageState, events: seq<Event>): PageState
    decreases |events|
  {
    if events == [] then page else Run(Step(page, events[0]), events[1..])
  }

  /** Between events the page is never loading, and a shown result never sits
      beside an error message. */
  predicate Settled(page: PageState) {
    !page.loading && (page.result.Some? ==> page.error.None?)
  }

  lemma StepSettled(page: PageState, e: Event)
    requires Settled(page)
    ensures Settled(Step(page, e))
  {
  }

  /** Every page reachable from the initial one is settled. */
  lemma {:induction false} RunSettled(page: PageState, events: seq<Event>)
    requires Settled(page)
    ensures Settled(Run(page, events))
    decreases |events|
  {
    if events != [] {
      StepSettled(page, events[0]);
      RunSettled(Step(page, events[0]), events[1..]);
    }
  }

  /** On a settled page showing a result, "Start New Analysis" restores the
      page's initial state. */
  lemma StartOverRestoresInitial(page: PageState)
    requires Settled(page) && page.result.Some?
    ensures StartOver(page) == InitialPage
  {
  }

  /** Wherever the user has got to, "Start New Analysis" on a shown result
      brings the page back to its initial state. */
  lemma NewAnalysisAfterAnyRun(events: seq<Event>)
    ensures var p := Run(InitialPage, events);
      p.result.Some? ==> Step(p, NewAnalysis) == InitialPage
  {
    RunSettled(InitialPage, events);
  }
}
