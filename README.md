# FastAPI Translator: form controller and recursive translator

This project models the two pieces of logic in the FastAPI Translator
application and proves properties of them in Dafny.

- **The React form (App.js).** The form keeps an ordered list of statements
  `{id, value}`. `handleChange`, `handleAdd` and `handleRemove` rewrite that
  list. `handleJsonChange` records whether the raw JSON box parses. The
  Translate button is enabled or disabled by a predicate. `handleTranslate`
  builds the request text: in form mode it folds the statements into
  `key1..keyN`, and in JSON mode it parses the box. Then it sends the
  request, stores the result and clears `loading`.
- **The FastAPI backend (main.py).** `translate_recursive` walks a JSON-like
  value. Objects keep their keys, arrays keep their length, strings go through
  the translation service, and every other value passes through unchanged.
  `translate_text` assembles the response record and the stored record, and
  turns every failure into a 400 error.

Modules:

- `Wrappers`: `Option` and `Result`.
- `Json`: JSON values. An object is an ordered list of members. Python dicts
  keep insertion order, and so do JavaScript objects for keys that are not
  array indices. `Json.Set` is assignment `o[k] = v`: an existing key keeps
  its position, and a new key is appended.
- `Decimal`: how `${n}` and f-strings write a natural number.
- `Statements`: the statement list and the pure list expressions of the
  handlers.
- `Payload`: the form-mode request text, and the `forEach` loop that builds it.
- `App`: the component state as the class `FormController`, with one method
  per handler.
- `Translator`: `translate_recursive` and its shape-preservation lemmas.
- `Backend`: `translate_text`.

External collaborators are parameters:

- JSON.parse is the controller's constant `parse: string -> Option<Json>`.
  `None` means JSON.parse throws.
- How the HTTP request settles is an `HttpOutcome` argument.
- The Google translation service is `tr(target, text)`. It returns the
  translation or the message of the exception it raised.
- The MongoDB insert is an `InsertOutcome` argument: acknowledged, not
  acknowledged, or raised.

The model follows the code on one point where a design-level reading says
otherwise. It is tempting to read the code as "in JSON mode, Translate is
enabled only when the raw text parses". The code starts with
`jsonInput = ""` and `isJsonValid = true`, and JSON.parse rejects `""`. So
switching to JSON mode before typing shows an enabled button for unparsable
text. Submission then aborts with the "Invalid JSON format" alert.
`App.PristineJsonModeEnabled` states this case. `App.EnabledJsonParses`
states the invariant that does hold once the box has been edited.

## Model

| member | source | states |
|---|---|---|
| `Json.Set` | App.js:81 | `o[k] = v`: for a present key the key list is unchanged; an absent key is appended as a new last member holding `v` |
| `Json.SetLookup` | App.js:81 | after `o[k] = v`, `k` looks up `v`; every other key looks up what it did before; an object without repeated keys still has none |
| `Payload.KeyName` | App.js:81 | the template literal `key${n}`; what it is is stated by `Payload.KeyNameShape` and `Payload.KeyNameInjective` |
| `Payload.KeyNameShape` | App.js:81 | `key${n}` is "key" followed by one or more decimal digits and nothing else, at least two digits exactly when n >= 10 |
| `Decimal.NatToDecimal` | App.js:81 | the decimal text of `n` is a non-empty run of digits, at least two long exactly when `n >= 10`, ending in the digit `n % 10`; which number the digits spell is stated by `Decimal.NatToDecimalRoundTrip` |
| `Decimal.NatToDecimalRoundTrip` | App.js:81 | the decimal text of `n`, read back digit by digit (most significant first) by the independent reader `DecimalValue`, is `n` |
| `Decimal.NatToDecimalNoLeadingZero` | App.js:81 | the text starts with '0' exactly when `n` is 0, so there are no leading zeros |
| `Decimal.NatToDecimalInjective` | App.js:81 | different numbers have different decimal texts, since each reads back as itself |
| `Statements.Changed` | App.js:34-36 | the length and every id are kept; entries with the given id get the new value; all other entries are untouched |
| `Statements.ChangedSequential` | App.js:34-36 | on a 1..N list, ids stay 1..N; for an id in 1..N, the value list is the old one with position id-1 replaced; any other id changes nothing |
| `Statements.Added` | App.js:40-42 | one more entry; every earlier entry is unchanged; the new last entry is `{id: old length + 1, value: ""}` |
| `Statements.AddedSequential` | App.js:40-42 | on a 1..N list, ids stay 1..N+1, and the values are the old values followed by `""` |
| `Statements.Filtered` | App.js:47 | the filtered list is never longer than the input |
| `Statements.FilteredMembership` | App.js:47 | an entry is kept exactly when it was in the list and its id differs from the removed id |
| `Statements.FilteredAppend` | App.js:47 | filtering keeps relative order: it distributes over concatenation |
| `Statements.FilteredConsecutive` | App.js:47 | on a list with consecutive ids, filtering an id in range drops exactly the entry at its position, and filtering any other id drops nothing |
| `Statements.Renumbered` | App.js:48 | the ids become 1..len in order, and the values are kept in order |
| `Statements.Removed` | App.js:46-50 | whatever the input, the resulting ids are exactly 1..len in order, and the values are those of the filtered list, in order |
| `Statements.RemovedSequential` | App.js:46-50 | on a 1..N list with 1 <= id <= N, the result has N-1 entries, and its values are the old values with position id-1 taken out; any other id leaves the list unchanged |
| `Payload.KeyNameInjective` | App.js:81 | `key${a}` and `key${b}` are equal only when a = b |
| `Payload.FormMembers` | App.js:78-82 | one member per statement, in list order; member i is `key(i+1)` holding the i-th statement's value as a string |
| `Payload.FormPayloadKeys` | App.js:78-82 | the payload's keys are distinct and are exactly key1..keyN; `key(i+1)` looks up the i-th statement's value |
| `Payload.BuildFormPayload` | App.js:75-82 | the `forEach` that assigns `payloadText[key(index+1)] = t.value` into an empty object produces exactly `FormMembers(texts)` |
| `Payload.TwoStatementsExample` | App.js:78-82 | statements "a" and "b" become `{key1: "a", key2: "b"}` |
| `App.TranslateDisabled` | App.js:214 | the Translate button is disabled whenever `loading` is true; otherwise it is enabled in form mode, and in JSON mode it is disabled exactly when the JSON text was judged invalid |
| `App.FormController.Valid` | App.js:15-67 | the class invariant every handler keeps: the ids are 1..N in order, at least one statement remains, and once the JSON box has been edited the validity flag says whether its text parses (before that the text is "" and the flag is true) |
| `App.FormController.constructor` | App.js:12-30 | initial state: form mode, one entry `{id: 1, value: ""}`, empty JSON text marked valid, target language "hindi", empty translation object, not loading; the class invariant holds |
| `App.FormController.SetMode` | App.js:128-143 | the radio buttons set the mode and nothing else; the invariant is kept |
| `App.FormController.SetTargetLanguage` | App.js:199-203 | the selector sets the target language and nothing else |
| `App.FormController.HandleChange` | App.js:34-36 | only the list changes, to `Changed(old list, id, v)`; the ids stay 1..N |
| `App.FormController.HandleAdd` | App.js:40-42 | only the list changes, to `Added(old list)`; the ids stay 1..N |
| `App.FormController.HandleRemove` | App.js:46-50 | when there are at least two entries (the Remove button's guard at App.js:160), only the list changes, to `Removed(old list, id)`; the ids stay 1..N and at least one entry remains |
| `App.FormController.HandleJsonChange` | App.js:54-67 | stores the text; the validity flag is true exactly when JSON.parse accepts it; the box counts as edited from now on; nothing else changes |
| `App.FormController.StartTranslate` | App.js:71-103 | reachable only from an enabled Translate button (App.js:213-214); form mode sends `{text: FormMembers(texts), target_language}`; JSON mode sends the parsed text; unparsable JSON sends nothing, alerts "Invalid JSON format. Please correct it." and resets `loading`; `loading` is true exactly when a request is in flight, and then the Translate button is disabled, so a second start, which requires an enabled button, cannot follow |
| `App.FormController.FinishTranslate` | App.js:104-113 | a response stores its `translated_text`; a failure keeps the previous translation and alerts "Translation failed. Check console for details."; `loading` is false afterwards |
| `App.FormController.HandleTranslate` | App.js:71-115 | reachable only from an enabled Translate button (App.js:213-214); the whole handler: which request is sent, if any; the translation changes only when a request was sent and answered; the alert shown; `loading` is false on every path |
| `App.EnabledJsonParses` | App.js:54-66 | once the JSON box has been edited, an enabled button in JSON mode means its text parses |
| `App.PristineJsonModeEnabled` | App.js:18-21 | before any edit, JSON mode shows an enabled button although `""` does not parse |
| `Translator.TranslateRecursive` | main.py:64-82 | a successful translation has the same shape as its input: same kinds, same keys in order, same lengths, same scalars; only string texts may differ |
| `Translator.TranslateMembers` | main.py:67-68 | the dict comprehension keeps the number of members and every key, and each value keeps its shape |
| `Translator.TranslateItems` | main.py:70-71 | the list comprehension keeps the length, and each element keeps its shape |
| `Translator.FirstError` | main.py:64-82 | none exactly when the service translates every string; otherwise it is the error of some failing string, and every earlier string succeeds |
| `Translator.TranslateFailsAtFirstError` | main.py:64-82 | a translation fails exactly when one of the value's strings fails, and then with the error of the first such string in document order |
| `Translator.MembersFailAtFirstError` | main.py:67-68 | the same, for the members of an object, left to right |
| `Translator.ItemsFailAtFirstError` | main.py:70-71 | the same, for the elements of a list, left to right |
| `Translator.TranslateSucceedsIffAllStringsDo` | main.py:64-82 | a translation succeeds exactly when the service succeeds on every string of the value |
| `Translator.TranslateObject` | main.py:67-68 | a dict translates to r exactly when r is a dict with the same keys in the same order and each value is the translation of the original value; the key list is unchanged |
| `Translator.TranslateMembersPointwise` | main.py:67-68 | the member list translates to ms' exactly when ms' has the same length and keys, and member i's value is the translation of the original's |
| `Translator.TranslateArray` | main.py:70-71 | a list translates to r exactly when r is a list of the same length whose element i is the translation of element i |
| `Translator.TranslateItemsPointwise` | main.py:70-71 | the element list translates to items' exactly when items' has the same length and element i is the translation of element i |
| `Translator.TranslateString` | main.py:73-77 | a string becomes the service's translation of it into the target language, or fails with the service's error |
| `Translator.TranslateScalar` | main.py:81-82 | null, booleans and numbers are returned unchanged |
| `Translator.TranslateFixesUntouchedStrings` | main.py:64-82 | when the service returns each of the value's strings unchanged, the whole value is returned unchanged |
| `Translator.MembersFixUntouchedStrings` | main.py:67-68 | the same, for an object's members |
| `Translator.ItemsFixUntouchedStrings` | main.py:70-71 | the same, for a list's elements |
| `Translator.TranslateWithoutStrings` | main.py:64-82 | a value containing no strings is returned unchanged, whatever the service does |
| `Translator.TranslateWithIdentity` | main.py:64-82 | with an identity service, every value is returned unchanged |
| `Backend.BadRequest` | main.py:127-131 | the error re-raised by `except Exception` has status 400 |
| `Backend.SaveFailedText` | main.py:121-125 | the message of the unacknowledged-insert error is "500: Failed to save translation to database." |
| `Backend.ExceptionText` | main.py:130 | `str(e)` of an HTTPException: it starts with a digit of the status code and ends with the detail |
| `Backend.UserData` | main.py:92 | `request.user.dict()`: the keys `name` and `email`, holding the user's name and email |
| `Backend.ResponseData` | main.py:109 | `translation_data.dict()`: the keys original_text, translated_text, source_language and target_language, in that order and distinct |
| `Backend.StoredRecord` | main.py:109-110 | `db_data`: `user_data` is not yet a key of the response fields, so the record has five members with `user_data`, holding the user's fields, last |
| `Backend.StoredRecordLayout` | main.py:109-110 | `user_data` is a key the response does not have, so assigning it appends it after the response's four fields, and the record's keys stay distinct |
| `Backend.StoredRecordFields` | main.py:109-110 | `db_data` has the keys original_text, translated_text, source_language, target_language and user_data, in that order; the first four hold the response's fields, and user_data holds the request's user |
| `Backend.TranslateText` | main.py:87-131 | success exactly when the translation succeeds and the insert is acknowledged; the response then has `original_text` equal to the request text, `translated_text` equal to the translation, `source_language` "auto" and the target echoed; a record is handed to the insert exactly when the translation succeeds, and it holds those fields plus the user; every failure is status 400 with detail "Translation failed: " and the message: the service's error, the insert's exception, or the 500 error's text for an unacknowledged insert |

## Left out

- JSX rendering and layout (App.js:120-230) are left out. The exceptions are the Translate button's `disabled` predicate (App.js:214, the function `App.TranslateDisabled`) and the Remove button's guard `texts.length > 1` (App.js:160), which is the precondition of `HandleRemove`.
- The axios transport (App.js:96-103) is left out. How the request settles is the argument `HttpOutcome`. A response without a `translated_text` field is not modelled.
- `console.error` and the `alert` dialogs are left out. The alert text is returned as a value, not shown.
- The fixed user `{name: "rohit", email: "rohit@example.com"}` sent with every request is not part of `Request`.
- JSON.parse internals are left out. The parser is the abstract function `parse`. No JSON grammar is written.
- The `async`/`await` interleaving is reduced to one split point. `StartTranslate` runs up to the request and `FinishTranslate` runs after it. Other events arriving in between are not modelled. `StartTranslate` ensures that the button is disabled once a request is sent, and it and `HandleTranslate` require an enabled button, so a second `StartTranslate` cannot follow before `FinishTranslate`; `App.TranslateDisabled` ensures the button is disabled whenever `loading` is true.
- GoogleTranslator and `run_in_threadpool` (main.py:74-77) are left out. The service is the parameter `tr`, and thread-pool scheduling is not modelled. `tr` is a mathematical function, so every occurrence of the same string gets the same answer; the real service is called once per occurrence, and a transient failure on a later occurrence of a string that succeeded earlier is not modelled.
- `HttpOutcome.RequestFailed` carries no error detail (the logged error is not modelled), and retries are not modelled.
- Key order for array-index keys (such as "0" or "1") is left out: a JavaScript object lists those first in numeric order, while `Json.Set` appends every new key. The form only assigns `key${n}` keys, which are not array indices, so the form-mode payload is unaffected.
- JSON numbers are modelled as integers. Fractional numbers behave the same in this core (they pass through unchanged) but are not represented.
- Timestamps (`datetime.utcnow`, main.py:104 and 111) are left out of both the response and the stored record, so neither record has a `timestamp` field.
- Backend.SaveFailedText: the 400 detail for an unacknowledged insert assumes that `str()` of an HTTPException is written as "status: detail". That is the HTTP library's own formatting, and it is not modelled beyond this text.
- Pydantic validation of the request (models.py) is left out, including `Dict[str, Any]` and `EmailStr`. The request text is assumed to already be an object, and a malformed body's 422 response is not modelled.
- All of database.py (the Motor client and index creation), the CORS middleware, the startup hook and the root endpoint are left out as pure I/O and setup.
