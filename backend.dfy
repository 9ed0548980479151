/**
 * The backend's POST /translate handler: translate the request's object,
 * assemble the response record, build the stored record, and map every
 * failure to a 400 error.
 *
 * The database insert is the parameter `insert`: its acknowledgement, or the
 * message of the exception it raised. Timestamps are not part of this model.
 */
module Backend {
  import opened Wrappers
  import opened Json
  import opened Translator
  import Decimal

  const HTTP_400_BAD_REQUEST: nat := 400
  const HTTP_500_INTERNAL_SERVER_ERROR: nat := 500

  datatype User = User(name: string, email: string)

  datatype TranslationRequest = TranslationRequest(text: seq<Member>, targetLanguage: string, user: User)

  datatype TranslationResponse = TranslationResponse(
    originalText: seq<Member>,
    translatedText: seq<Member>,
    sourceLanguage: string,
    targetLanguage: string)

  datatype HttpError = HttpError(status: nat, detail: string)

  datatype InsertOutcome = Acknowledged | NotAcknowledged | InsertRaised(message: string)

  /** What `str(e)` gives for an HTTPException: status code, colon, detail. */
  function ExceptionText(e: HttpError): (s: string)
    ensures |s| >= |e.detail| + 3
    ensures '0' <= s[0] <= '9'
    ensures s[|s| - |e.detail|..] == e.detail
  {
    Decimal.NatToDecimal(e.status) + ": " + e.detail
  }

  /** The error the handler's `except Exception as e` clause raises. */
  function BadRequest(message: string): (e: HttpError)
    ensures e.status == HTTP_400_BAD_REQUEST
  {
    HttpError(HTTP_400_BAD_REQUEST, "Translation failed: " + message)
  }

  /** `user.dict()`. */
  function UserData(u: User): (ms: seq<Member>)
    ensures Keys(ms) == ["name", "email"]
    ensures Lookup(ms, "name") == Some(JString(u.name))
    ensures Lookup(ms, "email") == Some(JString(u.email))
  {
    [Member("name", JString(u.name)), Member("email", JString(u.email))]
  }

  /** `translation_data.dict()`, without the timestamp. */
  function ResponseData(r: TranslationResponse): (ms: seq<Member>)
    ensures Keys(ms) == ["original_text", "translated_text", "source_language", "target_language"]
    ensures DistinctKeys(ms)
  {
    [ Member("original_text", JObject(r.originalText)),
      Member("translated_text", JObject(r.translatedText)),
      Member("source_language", JString(r.sourceLanguage)),
      Member("target_language", JString(r.targetLanguage)) ]
  }

  /** `db_data`: the response's fields, then `user_data` assigned into it. */
  function StoredRecord(r: TranslationResponse, u: User): (ms: seq<Member>)
    ensures "user_data" !in Keys(ResponseData(r))
    ensures |ms| == 5 && ms[4] == Member("user_data", JObject(UserData(u)))
  {
    Set(ResponseData(r), "user_data", JObject(UserData(u)))
  }

  /** `user_data` is a new key, so it is appended after the response's four fields. */
  lemma StoredRecordLayout(r: TranslationResponse, u: User)
    ensures StoredRecord(r, u) == ResponseData(r) + [Member("user_data", JObject(UserData(u)))]
    ensures DistinctKeys(StoredRecord(r, u))
  {
    assert Keys(ResponseData(r)) == ["original_text", "translated_text", "source_language", "target_language"];
  }

  /**
   * The stored record has the keys original_text, translated_text,
   * source_language, target_language and user_data, in that order, holding
   * the response's fields and the request's user.
   */
  lemma StoredRecordFields(r: TranslationResponse, u: User)
    ensures Keys(StoredRecord(r, u)) == ["original_text", "translated_text", "source_language", "target_language", "user_data"]
    ensures Lookup(StoredRecord(r, u), "original_text") == Some(JObject(r.originalText))
    ensures Lookup(StoredRecord(r, u), "translated_text") == Some(JObject(r.translatedText))
    ensures Lookup(StoredRecord(r, u), "source_language") == Some(JString(r.sourceLanguage))
    ensures Lookup(StoredRecord(r, u), "target_language") == Some(JString(r.targetLanguage))
    ensures Lookup(StoredRecord(r, u), "user_data") == Some(JObject(UserData(u)))
  {
    StoredRecordLayout(r, u);
    var db := StoredRecord(r, u);
    LookupDistinct(db, 0);
    LookupDistinct(db, 1);
    LookupDistinct(db, 2);
    LookupDistinct(db, 3);
    LookupDistinct(db, 4);
  }

  /** The error raised inside the handler when the insert is not acknowledged. */
  const SaveFailed := HttpError(HTTP_500_INTERNAL_SERVER_ERROR, "Failed to save translation to database.")

  /** Its text, as the 400 error's detail quotes it, starts with the status code. */
  lemma SaveFailedText()
    ensures ExceptionText(SaveFailed) == "500" + ": " + SaveFailed.detail
  {
    assert Decimal.NatToDecimal(5) == "5";
    assert Decimal.NatToDecimal(50) == "50";
  }

  /** translate_text: the response or the HTTP error, and the record handed to the insert, if any. */
  method TranslateText(request: TranslationRequest, tr: Service, insert: InsertOutcome)
    returns (outcome: Result<TranslationResponse, HttpError>, stored: Option<seq<Member>>)
    ensures outcome.Failure? ==> outcome.error.status == HTTP_400_BAD_REQUEST
    ensures outcome.Success? <==>
      TranslateRecursive(JObject(request.text), request.targetLanguage, tr).Success? && insert == Acknowledged
    ensures outcome.Success? ==>
      && outcome.value.originalText == request.text
      && TranslateRecursive(JObject(request.text), request.targetLanguage, tr) == Success(JObject(outcome.value.translatedText))
      && outcome.value.sourceLanguage == "auto"
      && outcome.value.targetLanguage == request.targetLanguage
    ensures TranslateRecursive(JObject(request.text), request.targetLanguage, tr).Failure? ==>
      stored == None &&
      outcome == Failure(BadRequest(TranslateRecursive(JObject(request.text), request.targetLanguage, tr).error))
    ensures stored.Some? <==> TranslateRecursive(JObject(request.text), request.targetLanguage, tr).Success?
    ensures stored.Some? ==>
      && Keys(stored.value) == ["original_text", "translated_text", "source_language", "target_language", "user_data"]
      && Lookup(stored.value, "original_text") == Some(JObject(request.text))
      && Lookup(stored.value, "translated_text") == TranslateRecursive(JObject(request.text), request.targetLanguage, tr).ToOption()
      && Lookup(stored.value, "source_language") == Some(JString("auto"))
      && Lookup(stored.value, "target_language") == Some(JString(request.targetLanguage))
      && Lookup(stored.value, "user_data") == Some(JObject(UserData(request.user)))
    ensures insert == NotAcknowledged && stored.Some? ==> outcome == Failure(BadRequest(ExceptionText(SaveFailed)))
    ensures insert.InsertRaised? && stored.Some? ==> outcome == Failure(BadRequest(insert.message))
  {
    var translated := TranslateRecursive(JObject(request.text), request.targetLanguage, tr);
    if translated.Failure? {
      outcome, stored := Failure(BadRequest(translated.error)), None;
      return;
    }
    var translationData := TranslationResponse(request.text, translated.value.members, "auto", request.targetLanguage);

    var dbData := ResponseData(translationData);
    dbData := Set(dbData, "user_data", JObject(UserData(request.user)));
    StoredRecordFields(translationData, request.user);
    stored := Some(dbData);

    match insert
    case Acknowledged =>
      outcome := Success(translationData);
    case NotAcknowledged =>
      outcome := Failure(BadRequest(ExceptionText(SaveFailed)));
    case InsertRaised(message) =>
      outcome := Failure(BadRequest(message));
  }
}
