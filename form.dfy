/** The poll editor of client/src/components/polls/CreatePoll.jsx: the question, the option list
  * (between two and ten entries) and the duration, the handlers that edit them in place, and
  * the submit handler that builds the request body and resets the form after a success. */
module PollEditor {
  import opened Base
  import opened Text
  import opened Query
  import opened Validation

  const MinOptions: nat := 2
  const MaxOptions: nat := 10
  const DefaultDuration: int := 60
  const MinDuration: int := 1
  const MaxDuration: int := 43200

  /** The body sent to `POST /polls`. */
  datatype Payload = Payload(question: string, options: seq<string>, durationInMinutes: int)

  predicate NonBlank(o: string) {
    Trim(o) != ""
  }

  /** The options that are not blank once trimmed, in their order, untrimmed. */
  function ValidOptions(options: seq<string>): (r: seq<string>)
    ensures |r| <= |options|
    ensures forall x :: x in r <==> x in options && NonBlank(x)
  {
    Filter(options, NonBlank)
  }

  /** `handleSubmit` before the request: no request for a blank question or fewer than two
    * non-blank options; otherwise the trimmed question, the non-blank options and the duration. */
  function BuildPayload(question: string, options: seq<string>, duration: int): (p: Option<Payload>)
    ensures p.Some? <==> Trim(question) != "" && |ValidOptions(options)| >= MinOptions
    ensures p.Some? ==> p.value.question == Trim(question) && p.value.durationInMinutes == duration
    ensures p.Some? ==> p.value.options == ValidOptions(options) && |p.value.options| >= MinOptions
  {
    if Trim(question) == "" then None
    else
      var valid := ValidOptions(options);
      if |valid| < MinOptions then None else Some(Payload(Trim(question), valid, duration))
  }

  /** `options.filter((_, i) => i !== index)`: entry `index` removed, the rest in order; an index
    * outside the list removes nothing. */
  function DropIndex(s: seq<string>, index: int): (r: seq<string>)
    ensures 0 <= index < |s| ==> |r| == |s| - 1
    ensures 0 <= index < |s| ==> forall j :: 0 <= j < index ==> r[j] == s[j]
    ensures 0 <= index < |s| ==> forall j :: index <= j < |r| ==> r[j] == s[j + 1]
    ensures !(0 <= index < |s|) ==> r == s
  {
    if 0 <= index < |s| then s[..index] + s[index + 1..] else s
  }

  /** `parseInt(value) || 1`: an unparsable input (`NaN`) or zero becomes 1; any other number,
    * negative ones included, is kept. */
  function ParseDuration(parsed: Option<int>): (d: int)
    ensures d != 0
    ensures parsed.Some? && parsed.value != 0 ==> d == parsed.value
    ensures parsed.None? || parsed.value == 0 ==> d == 1
  {
    if parsed.None? || parsed.value == 0 then 1 else parsed.value
  }

  /** JavaScript's `%`: the remainder takes the sign of the dividend. */
  function JsRem(a: int, b: int): (r: int)
    requires b > 0
    ensures a >= 0 ==> 0 <= r < b && r == a % b
    ensures a < 0 ==> -b < r <= 0 && r == -((-a) % b)
  {
    if a >= 0 then a % b else -((-a) % b)
  }

  /** The "N hours M minutes" line: `Math.floor(d / 60)` and `d % 60`. */
  datatype DurationText = DurationText(hours: int, minutes: int)

  function DurationDisplay(d: int): (t: DurationText)
    ensures t.minutes == JsRem(d, 60)
    ensures t.hours * 60 <= d < (t.hours + 1) * 60
  {
    DurationText(d / 60, JsRem(d, 60))
  }

  /** For a non-negative duration the two parts add back up to it, with the minutes in 0..59. */
  lemma DurationDisplaySplits(d: int)
    requires d >= 0
    ensures DurationDisplay(d).hours * 60 + DurationDisplay(d).minutes == d
    ensures 0 <= DurationDisplay(d).minutes < 60
  {}

  /** The body the server's `validatePollCreation` receives for a payload. */
  function BodyOf(p: Payload): CreateBody {
    CreateBody(Some(p.question), Items(seq(|p.options|, i requires 0 <= i < |p.options| => Some(p.options[i]))),
               Some(p.durationInMinutes))
  }

  /** A payload with a non-blank question and at least two non-blank options passes the
    * server's validation exactly when its duration is at least one minute. */
  lemma NonBlankPayloadCheck(p: Payload)
    requires Trim(p.question) != "" && |p.options| >= MinOptions
    requires forall j :: 0 <= j < |p.options| ==> NonBlank(p.options[j])
    ensures CheckPollCreation(BodyOf(p)).Ok? <==> p.durationInMinutes >= 1
  {
    BodyItemsNonBlank(p);
    CompleteBodyDecidedByDuration(BodyOf(p));
  }

  /** The body carries the payload's options one for one, so none of them is blank. */
  lemma BodyItemsNonBlank(p: Payload)
    requires forall j :: 0 <= j < |p.options| ==> NonBlank(p.options[j])
    ensures |BodyOf(p).options.items| == |p.options|
    ensures forall j :: 0 <= j < |p.options| ==> !Blank(BodyOf(p).options.items[j])
  {
    var items := BodyOf(p).options.items;
    forall j | 0 <= j < |items| ensures !Blank(items[j]) {
      assert items[j] == Some(p.options[j]);
    }
  }

  /** Every payload the form sends passes the server's poll validation exactly when its
    * duration is at least one minute: the form already refuses a blank question and fewer than
    * two non-blank options. */
  lemma PayloadPassesServerCheck(question: string, options: seq<string>, duration: int)
    requires BuildPayload(question, options, duration).Some?
    ensures CheckPollCreation(BodyOf(BuildPayload(question, options, duration).value)).Ok? <==> duration >= 1
  {
    PayloadNonBlank(question, options, duration);
    NonBlankPayloadCheck(BuildPayload(question, options, duration).value);
  }

  /** The payload's question and options are all non-blank. */
  lemma PayloadNonBlank(question: string, options: seq<string>, duration: int)
    requires BuildPayload(question, options, duration).Some?
    ensures var p := BuildPayload(question, options, duration).value;
      && Trim(p.question) != "" && |p.options| >= MinOptions
      && forall j :: 0 <= j < |p.options| ==> NonBlank(p.options[j])
  {
    var p := BuildPayload(question, options, duration).value;
    TrimIdempotent(question);
    forall j | 0 <= j < |p.options| ensures NonBlank(p.options[j]) {
      assert p.options[j] in ValidOptions(options);
    }
  }

  /** The browser's constraint validation, which runs before `handleSubmit` and blocks the
    * submit when it fails: the question and every option input are `required` (not empty), and
    * the duration input is `required` with `min="1"` and `max="43200"`. */
  predicate BrowserAllows(question: string, options: seq<string>, duration: int) {
    && question != ""
    && (forall i :: 0 <= i < |options| ==> options[i] != "")
    && MinDuration <= duration <= MaxDuration
  }

  /** What pressing the submit button sends: nothing when the browser blocks the form, and
    * otherwise what `handleSubmit` builds. A sent payload has a duration within the input's
    * bounds and only non-empty options. */
  function SubmitPayload(question: string, options: seq<string>, duration: int): (p: Option<Payload>)
    ensures p.Some? <==> BrowserAllows(question, options, duration) && BuildPayload(question, options, duration).Some?
    ensures p.Some? ==> p == BuildPayload(question, options, duration)
    ensures p.Some? ==> MinDuration <= p.value.durationInMinutes <= MaxDuration
    ensures p.Some? ==> forall j :: 0 <= j < |p.value.options| ==> p.value.options[j] in options
  {
    if BrowserAllows(question, options, duration) then
      var built := BuildPayload(question, options, duration);
      assert built.Some? ==> forall j :: 0 <= j < |built.value.options| ==> built.value.options[j] in ValidOptions(options);
      built
    else None
  }

  /** Every payload the form sends passes the server's `validatePollCreation`. */
  lemma SentPayloadPassesServerCheck(question: string, options: seq<string>, duration: int)
    requires SubmitPayload(question, options, duration).Some?
    ensures CheckPollCreation(BodyOf(SubmitPayload(question, options, duration).value)).Ok?
  {
    PayloadPassesServerCheck(question, options, duration);
  }

  class PollForm {
    var question: string
    var options: seq<string>
    var duration: int

    ghost predicate Valid()
      reads this
    {
      MinOptions <= |options| <= MaxOptions && duration != 0
    }

    /** The initial state: an empty question, two empty options and 60 minutes. */
    constructor()
      ensures question == "" && options == ["", ""] && duration == DefaultDuration
      ensures Valid()
    {
      question := "";
      options := ["", ""];
      duration := DefaultDuration;
    }

    /** `addOption`: one more empty option, unless there are ten already. */
    method AddOption()
      requires Valid()
      modifies this
      ensures Valid()
      ensures old(|options|) < MaxOptions ==> options == old(options) + [""]
      ensures old(|options|) >= MaxOptions ==> options == old(options)
      ensures question == old(question) && duration == old(duration)
    {
      if |options| < MaxOptions {
        options := options + [""];
      }
    }

    /** `removeOption(index)`: removes entry `index`, unless only two are left. */
    method RemoveOption(index: int)
      requires Valid()
      modifies this
      ensures Valid()
      ensures old(|options|) > MinOptions ==> options == DropIndex(old(options), index)
      ensures old(|options|) <= MinOptions ==> options == old(options)
      ensures question == old(question) && duration == old(duration)
    {
      if |options| > MinOptions {
        options := DropIndex(options, index);
      }
    }

    /** `updateOption(index, value)`, called for an option on screen: entry `index` only. */
    method UpdateOption(index: nat, value: string)
      requires Valid() && index < |options|
      modifies this
      ensures Valid()
      ensures options == old(options)[index := value]
      ensures question == old(question) && duration == old(duration)
    {
      options := options[index := value];
    }

    /** The question input. */
    method SetQuestion(value: string)
      requires Valid()
      modifies this
      ensures Valid()
      ensures question == value && options == old(options) && duration == old(duration)
    {
      question := value;
    }

    /** The duration input. */
    method SetDuration(parsed: Option<int>)
      requires Valid()
      modifies this
      ensures Valid()
      ensures duration == ParseDuration(parsed)
      ensures question == old(question) && options == old(options)
    {
      duration := ParseDuration(parsed);
    }

    /** The submit button: when the browser's constraint validation lets the form through,
      * `handleSubmit` sends the payload if there is one; `accepted` is whether the server
      * answered with success, after which the form is reset. Otherwise the form is kept. */
    method Submit(accepted: bool) returns (sent: Option<Payload>)
      requires Valid()
      modifies this
      ensures Valid()
      ensures sent == SubmitPayload(old(question), old(options), old(duration))
      ensures sent.Some? && accepted ==> question == "" && options == ["", ""] && duration == DefaultDuration
      ensures sent.None? || !accepted ==>
        question == old(question) && options == old(options) && duration == old(duration)
    {
      if !BrowserAllows(question, options, duration) {
        return None;
      }
      sent := BuildPayload(question, options, duration);
      if sent.Some? && accepted {
        question := "";
        options := ["", ""];
        duration := DefaultDuration;
      }
    }
  }
}
