/** The request validators of server/src/middlewares/validation.js, which the routes run before
  * the poll-creation and vote handlers. */
module Validation {
  import opened Base
  import opened Text
  import opened Replies

  /** The `options` field of a request body: absent (or null), some value that is not an
    * array, or an array whose elements are strings or absent (null/undefined). */
  datatype OptionsField = Missing | NotAnArray | Items(items: seq<Option<string>>)

  /** The body of `POST /polls`, with `null` and `undefined` both read as `None`. */
  datatype CreateBody = CreateBody(question: Option<string>, options: OptionsField, durationInMinutes: Option<int>)

  /** A body that passed validation, as the handler then reads it (nothing is trimmed yet). */
  datatype PollInput = PollInput(question: string, options: seq<string>, duration: int)

  /** `!x || x.trim().length === 0`. */
  predicate Blank(x: Option<string>) {
    x.None? || IsBlank(x.value)
  }

  /** The index of the first blank element at or after `from`. */
  function FirstBlank(items: seq<Option<string>>, from: nat): (r: Option<nat>)
    requires from <= |items|
    ensures r.Some? ==> from <= r.value < |items| && Blank(items[r.value])
                        && forall j :: from <= j < r.value ==> !Blank(items[j])
    ensures r.None? <==> forall j :: from <= j < |items| ==> !Blank(items[j])
    decreases |items| - from
  {
    if from == |items| then None
    else if Blank(items[from]) then Some(from)
    else FirstBlank(items, from + 1)
  }

  /** The guard chain of `validatePollCreation`: question, then option count, then each option
    * in turn, then duration; the first failing check decides the reply and only a body that
    * passes all four reaches the handler. No upper bound is checked on the number of options
    * or on the duration. */
  function CheckPollCreation(body: CreateBody): (r: Result<PollInput, Failure>)
    ensures r == Err(QuestionRequired) <==> Blank(body.question)
    ensures r == Err(TwoOptionsRequired) <==>
      !Blank(body.question) && (!body.options.Items? || |body.options.items| < 2)
    ensures r.Err? && r.error.OptionEmpty? ==>
      && !Blank(body.question) && body.options.Items? && |body.options.items| >= 2
      && 1 <= r.error.position <= |body.options.items|
      && Blank(body.options.items[r.error.position - 1])
      && forall j :: 0 <= j < r.error.position - 1 ==> !Blank(body.options.items[j])
    ensures r == Err(DurationRequired) <==>
      && !Blank(body.question) && body.options.Items? && |body.options.items| >= 2
      && (forall j :: 0 <= j < |body.options.items| ==> !Blank(body.options.items[j]))
      && (body.durationInMinutes.None? || body.durationInMinutes.value < 1)
    ensures r.Ok? <==>
      && !Blank(body.question) && body.options.Items? && |body.options.items| >= 2
      && (forall j :: 0 <= j < |body.options.items| ==> !Blank(body.options.items[j]))
      && body.durationInMinutes.Some? && body.durationInMinutes.value >= 1
    ensures r.Ok? ==>
      && Some(r.value.question) == body.question
      && Some(r.value.duration) == body.durationInMinutes
      && |r.value.options| == |body.options.items|
      && forall j :: 0 <= j < |r.value.options| ==> Some(r.value.options[j]) == body.options.items[j]
    ensures r.Err? ==> r.error in {QuestionRequired, TwoOptionsRequired, DurationRequired} || r.error.OptionEmpty?
  {
    if Blank(body.question) then Err(QuestionRequired)
    else if !body.options.Items? || |body.options.items| < 2 then Err(TwoOptionsRequired)
    else
      var items := body.options.items;
      match FirstBlank(items, 0)
      case Some(i) => Err(OptionEmpty(i + 1))
      case None =>
        if body.durationInMinutes.None? || body.durationInMinutes.value < 1 then Err(DurationRequired)
        else Ok(PollInput(body.question.value,
                          seq(|items|, j requires 0 <= j < |items| => items[j].value),
                          body.durationInMinutes.value))
  }

  /** A body whose question and options are all present and non-blank is decided by its
    * duration alone. */
  lemma CompleteBodyDecidedByDuration(body: CreateBody)
    requires !Blank(body.question) && body.options.Items? && |body.options.items| >= 2
    requires forall j :: 0 <= j < |body.options.items| ==> !Blank(body.options.items[j])
    ensures CheckPollCreation(body).Ok? <==> body.durationInMinutes.Some? && body.durationInMinutes.value >= 1
  {}

  /** `validatePollCreation` as the source runs it: the option checks are a loop that returns at
    * the first blank option. */
  method ValidatePollCreation(body: CreateBody) returns (r: Result<PollInput, Failure>)
    ensures r == CheckPollCreation(body)
  {
    if Blank(body.question) {
      return Err(QuestionRequired);
    }
    if !body.options.Items? || |body.options.items| < 2 {
      return Err(TwoOptionsRequired);
    }
    var items := body.options.items;
    var texts: seq<string> := [];
    for i := 0 to |items|
      invariant forall j :: 0 <= j < i ==> !Blank(items[j])
      invariant |texts| == i && forall j :: 0 <= j < i ==> Some(texts[j]) == items[j]
    {
      if Blank(items[i]) {
        assert FirstBlank(items, 0) == Some(i);
        return Err(OptionEmpty(i + 1));
      }
      texts := texts + [items[i].value];
    }
    if body.durationInMinutes.None? || body.durationInMinutes.value < 1 {
      return Err(DurationRequired);
    }
    assert texts == seq(|items|, j requires 0 <= j < |items| => items[j].value);
    r := Ok(PollInput(body.question.value, texts, body.durationInMinutes.value));
  }

  /** `validateVote`: an absent index is refused first, then a negative one; every
    * non-negative index passes (the upper bound is the vote handler's check). */
  function ValidateVote(optionIndex: Option<int>): (r: Result<nat, Failure>)
    ensures optionIndex.None? ==> r == Err(OptionIndexRequired)
    ensures optionIndex.Some? && optionIndex.value < 0 ==> r == Err(OptionIndexNegative)
    ensures optionIndex.Some? && optionIndex.value >= 0 ==> r == Ok(optionIndex.value)
  {
    match optionIndex
    case None => Err(OptionIndexRequired)
    case Some(k) => if k < 0 then Err(OptionIndexNegative) else Ok(k)
  }
}
