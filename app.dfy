/**
 * The form component's state and its event handlers. Each handler's state
 * update is a method; the list expressions they compute live in Statements,
 * and the form-mode payload in Payload.
 *
 * `parse` stands for JSON.parse: the value a text denotes, or None when
 * JSON.parse throws. The backend call in handleTranslate is split at its
 * `await`: StartTranslate runs up to the request, FinishTranslate runs once
 * the request has settled with the given outcome.
 */
module App {
  import opened Wrappers
  import opened Json
  import opened Statements
  import opened Payload

  datatype Mode = FormMode | JsonMode

  /** The body of POST /translate (the fixed user record is not part of this model). */
  datatype Request = Request(text: Json, targetLanguage: string)

  /** How the request settled: the response's `translated_text`, or a rejection. */
  datatype HttpOutcome = Responded(translatedText: Json) | RequestFailed

  const InvalidJsonAlert := "Invalid JSON format. Please correct it."
  const TranslationFailedAlert := "Translation failed. Check console for details."
  const InitialLanguage := "hindi"

  /**
   * The Translate button's `disabled` attribute: always disabled while a
   * request is in flight; otherwise enabled in form mode, and enabled in JSON
   * mode exactly when the JSON box was judged valid.
   */
  function TranslateDisabled(loading: bool, mode: Mode, isJsonValid: bool): (disabled: bool)
    ensures loading ==> disabled
    ensures !loading && mode == FormMode ==> !disabled
    ensures !loading && mode == JsonMode ==> (disabled <==> !isJsonValid)
  {
    loading || (mode == JsonMode && !isJsonValid)
  }

  class FormController {
    const parse: string -> Option<Json>

    var mode: Mode
    var texts: seq<Statement>
    var jsonInput: string
    var isJsonValid: bool
    var targetLanguage: string
    var translatedText: Json
    var loading: bool

    /** Whether the JSON box has been edited yet; until then `jsonInput` is the initial "". */
    ghost var jsonEdited: bool

    /**
     * The ids are 1..N, there is always a statement, and once the JSON box has
     * been edited the validity flag says whether its text parses.
     */
    ghost predicate Valid()
      reads this
    {
      && SequentialIds(texts)
      && |texts| >= 1
      && (jsonEdited ==> isJsonValid == parse(jsonInput).Some?)
      && (!jsonEdited ==> jsonInput == "" && isJsonValid)
    }

    /** The initial state of the component. */
    constructor (parse: string -> Option<Json>)
      ensures Valid()
      ensures this.parse == parse
      ensures mode == FormMode
      ensures texts == [Statement(1, "")]
      ensures jsonInput == "" && isJsonValid && !jsonEdited
      ensures targetLanguage == InitialLanguage
      ensures translatedText == JObject([])
      ensures !loading
    {
      this.parse := parse;
      mode := FormMode;
      texts := [Statement(1, "")];
      jsonInput := "";
      isJsonValid := true;
      targetLanguage := InitialLanguage;
      translatedText := JObject([]);
      loading := false;
      jsonEdited := false;
    }

    function Disabled(): bool
      reads this
    {
      TranslateDisabled(loading, mode, isJsonValid)
    }

    /** The radio buttons' `setMode`. */
    method SetMode(m: Mode)
      requires Valid()
      modifies this`mode
      ensures Valid() && mode == m
    {
      mode := m;
    }

    /** The language selector's `setTargetLanguage`. */
    method SetTargetLanguage(language: string)
      requires Valid()
      modifies this`targetLanguage
      ensures Valid() && targetLanguage == language
    {
      targetLanguage := language;
    }

    /** handleChange(id, newValue). */
    method HandleChange(id: int, newValue: string)
      requires Valid()
      modifies this`texts
      ensures Valid()
      ensures texts == Changed(old(texts), id, newValue)
    {
      ChangedSequential(texts, id, newValue);
      texts := Changed(texts, id, newValue);
    }

    /** handleAdd(). */
    method HandleAdd()
      requires Valid()
      modifies this`texts
      ensures Valid()
      ensures texts == Added(old(texts))
    {
      AddedSequential(texts);
      texts := Added(texts);
    }

    /** handleRemove(id), reachable only from a Remove button, shown while there are two or more statements. */
    method HandleRemove(id: int)
      requires Valid()
      requires |texts| > 1
      modifies this`texts
      ensures Valid()
      ensures texts == Removed(old(texts), id)
    {
      RemovedSequential(texts, id);
      texts := Removed(texts, id);
    }

    /** handleJsonChange: store the text and record whether JSON.parse accepts it. */
    method HandleJsonChange(value: string)
      requires Valid()
      modifies this`jsonInput, this`isJsonValid, this`jsonEdited
      ensures Valid()
      ensures jsonInput == value
      ensures isJsonValid == parse(value).Some?
      ensures jsonEdited
    {
      jsonInput := value;
      isJsonValid := parse(value).Some?;
      jsonEdited := true;
    }

    /**
     * handleTranslate up to its `await`: set loading, build the payload, and
     * either return the request to send or abort on unparsable JSON.
     */
    method StartTranslate() returns (request: Option<Request>, alert: Option<string>)
      requires Valid()
      requires !Disabled()
      modifies this`loading
      ensures Valid()
      ensures mode == FormMode ==>
        request == Some(Request(JObject(FormMembers(texts)), targetLanguage)) && alert == None
      ensures mode == JsonMode && parse(jsonInput).Some? ==>
        request == Some(Request(parse(jsonInput).value, targetLanguage)) && alert == None
      ensures mode == JsonMode && parse(jsonInput).None? ==>
        request == None && alert == Some(InvalidJsonAlert)
      ensures loading == request.Some?
      ensures request.Some? ==> Disabled()
    {
      loading := true;
      var payloadText: Json;
      if mode == FormMode {
        var members := BuildFormPayload(texts);
        payloadText := JObject(members);
      } else {
        var parsed := parse(jsonInput);
        if parsed.None? {
          alert := Some(InvalidJsonAlert);
          loading := false;
          request := None;
          return;
        }
        payloadText := parsed.value;
      }
      request := Some(Request(payloadText, targetLanguage));
      alert := None;
    }

    /** handleTranslate after its `await`: store the result or alert, then clear loading. */
    method FinishTranslate(outcome: HttpOutcome) returns (alert: Option<string>)
      requires Valid()
      modifies this`translatedText, this`loading
      ensures Valid()
      ensures !loading
      ensures outcome.Responded? ==> translatedText == outcome.translatedText && alert == None
      ensures outcome.RequestFailed? ==> translatedText == old(translatedText) && alert == Some(TranslationFailedAlert)
    {
      match outcome {
        case Responded(result) =>
          translatedText := result;
          alert := None;
        case RequestFailed =>
          alert := Some(TranslationFailedAlert);
      }
      loading := false;
    }

    /** handleTranslate as a whole, with the request settling as `outcome` if one is sent. */
    method HandleTranslate(outcome: HttpOutcome) returns (request: Option<Request>, alert: Option<string>)
      requires Valid()
      requires !Disabled()
      modifies this`translatedText, this`loading
      ensures Valid()
      ensures !loading
      ensures request ==
        if mode == FormMode then Some(Request(JObject(FormMembers(texts)), targetLanguage))
        else if parse(jsonInput).Some? then Some(Request(parse(jsonInput).value, targetLanguage))
        else None
      ensures translatedText == if request.Some? && outcome.Responded? then outcome.translatedText else old(translatedText)
      ensures alert ==
        if request.None? then Some(InvalidJsonAlert)
        else if outcome.RequestFailed? then Some(TranslationFailedAlert)
        else None
    {
      request, alert := StartTranslate();
      if request.Some? {
        assert Disabled();
        alert := FinishTranslate(outcome);
      }
    }
  }

  /** Once the JSON box has been edited, an enabled button in JSON mode means its text parses. */
  lemma EnabledJsonParses(c: FormController)
    requires c.Valid() && c.jsonEdited && c.mode == JsonMode && !c.Disabled()
    ensures c.parse(c.jsonInput).Some?
  {
  }

  /**
   * Before the JSON box is edited, JSON mode has an enabled button although
   * the empty text does not parse: submission then aborts with the alert.
   */
  lemma PristineJsonModeEnabled(c: FormController)
    requires c.Valid() && !c.jsonEdited && c.mode == JsonMode && !c.loading
    requires c.parse("") == None
    ensures !c.Disabled() && c.parse(c.jsonInput) == None
  {
  }
}
