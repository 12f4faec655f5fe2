# Nutrition-clinic patient controller and client string helpers, in Dafny

This project models two parts of an HL7-based nutrition-clinic system.

- **The client's string helpers** (`client/src/utils/helpers.tsx`). These are
  `classNames`, `toProperCase`, `camelCaseToProperCase`, `removePlural` and the
  time strings built by `generateTimeOptions`. The global replacements of
  `toProperCase` and the camelCase split and capitalisation are recursive
  functions that scan the string as the global `replace` does. `/_/g` is a
  pointwise map, and `/s$/` is a test of the last character. Each replacement
  is tied to a pointwise description. For example, which characters are
  upper-cased, where every input character ends up, and where the inserted
  spaces go. The nested hour/minute loops of
  `generateTimeOptions` are a method with loop invariants.
- **The patient controller of the server** (`server/src/controllers/patient.controller.ts`).
  The document store is a class `PatientStore` holding a map from id to patient
  record. Its methods are the request handlers: get, create, update info,
  update medical history, delete, refer to another clinic, and handle an
  inbound HL7 message. Each method that changes the store (create, update info,
  update medical history, delete, handle an inbound message) is proved equal to
  a pure step function that gives the outcome and the new map. `GetPatient` and
  `ReferPatientToAnotherClinic` have no step function. They state their outcome
  directly, and they leave the store as it is because they have no `modifies`
  clause. The properties are proved about the step functions and these outcomes:
  - e-mail de-duplication;
  - the `ADT` message-type and payload filter;
  - the 404 outcome for an absent id;
  - the key-by-key medical-history merge;
  - how the remote clinic's acknowledgment is read.

Express's `res.status(code).json(...)` and `next(new ErrorHandler(message, code))`
become the `Outcome` datatype. An exception thrown by a helper in the handler
body, which `AsyncErrorCatching` passes to `next`, becomes `NextThrown`. An
exception thrown inside the transport callback becomes `Crash`.

The helpers whose code is not part of this model are `filterObj`, `hl7ToJSON`,
`correctParsedMessage` and `buildHL7ADTMessage`. They enter as parameters. The
filtered body is the handler's input, as an `InfoUpdate` or as a sequence of
entries. The other three are function-typed parameters that answer `None` where
the helper throws. The inbound handler then rejects with that exception
(`HelperThrew`) and stores nothing. A referral whose message cannot be built
ends with `NextThrown`, and nothing is sent.
The transport callback's `(err, ack)` are inputs too.

Modules: `Chars`, `ClassNameHelpers`, `ProperCase`, `CamelCase`, `Plural`,
`TimeOptions` (client), and `Wrappers`, `JsValues`, `PatientController` (server).

Points about the code worth knowing:

- Only `segments[1]` of the acknowledgment is inspected, so an `ERR` segment
  elsewhere is not a rejection (`AckOnlySecondSegmentMatters`,
  `AckErrElsewhereIsSuccess`).
- A transport error and an `ERR` reply both become a 500 error passed to `next`.
- There is no outcome for an acknowledgment that cannot be parsed.
- The comment in `camelCaseToProperCase` says a space goes before every capital
  letter. The regular expression inserts one only between a lower-case letter
  and an upper-case letter. The model follows the regular expression.

## Model

| member | source | states |
|---|---|---|
| `Chars.ToUpper` | client/src/utils/helpers.tsx:27 | the result is never a lower-case ASCII letter; a lower-case letter becomes its upper-case partner and every other character is kept; `\w` and `\s` membership is kept |
| `Chars.ToLower` | client/src/utils/helpers.tsx:27 | the result is never an upper-case ASCII letter; an upper-case letter becomes its lower-case partner and every other character is kept; `\w` and `\s` membership is kept |
| `ClassNameHelpers.NonEmpty` | client/src/utils/helpers.tsx:5 | `filter(Boolean)` on strings keeps exactly the non-empty names, and the result has no empty string |
| `ClassNameHelpers.NonEmptyAppend` | client/src/utils/helpers.tsx:5 | filtering distributes over concatenation, so the kept names stay in their original order |
| `ClassNameHelpers.NonEmptyIsEmpty` | client/src/utils/helpers.tsx:5 | nothing is kept exactly when every name is empty |
| `ClassNameHelpers.JoinLength` | client/src/utils/helpers.tsx:5 | joining non-empty parts with `' '` gives total length plus one separator between neighbours; the join is `""` only for no parts |
| `ClassNameHelpers.Join` | client/src/utils/helpers.tsx:5 | `join(' ')`; no contract of its own; `JoinLength` and `SplitJoin` state its length, when it is empty, and that `split(' ')` inverts it |
| `ClassNameHelpers.JoinSnoc` | client/src/utils/helpers.tsx:5 | appending a part to a non-empty join adds one separator and then the part |
| `ClassNameHelpers.SplitJoin` | client/src/utils/helpers.tsx:5 | `split(' ')` undoes `join(' ')` on parts without spaces |
| `ClassNameHelpers.ClassNames` | client/src/utils/helpers.tsx:4-6 | the result is `""` exactly when every argument is empty; otherwise its length is the kept names' lengths plus one space between each pair of neighbours |
| `ClassNameHelpers.ClassNamesRoundTrip` | client/src/utils/helpers.tsx:4-6 | when no argument has a space and some argument is non-empty, splitting the result on spaces gives back exactly the non-empty arguments, in order |
| `ClassNameHelpers.ClassNamesSnoc` | client/src/utils/helpers.tsx:4-6 | for all arguments, including ones that contain spaces: one more empty argument changes nothing; one more non-empty argument is the whole result after only empty ones, and is otherwise appended after exactly one space; with the empty call giving `""` this determines the result's contents |
| `ProperCase.LowerAll` | client/src/utils/helpers.tsx:27 | `txt.substr(1).toLowerCase()`; no contract of its own; `ToProperCaseAt` states what it does to each character of a match after the first |
| `ProperCase.RunLength` | client/src/utils/helpers.tsx:26 | the greedy `\S*` covers only non-whitespace and stops at whitespace or at the end |
| `ProperCase.ToProperCase` | client/src/utils/helpers.tsx:25-29 | the replacement keeps the length of the string |
| `ProperCase.InMatchMeans` | client/src/utils/helpers.tsx:26 | a position is inside a `\w\S*` match that began earlier exactly when some earlier word character is followed by non-whitespace all the way to it |
| `ProperCase.ToProperCaseAt` | client/src/utils/helpers.tsx:25-29 | pointwise result: whitespace is kept; the first character of a match is upper-cased; the rest of a match is lower-cased; every character outside a match is kept |
| `ProperCase.ToProperCaseKeepsSpaces` | client/src/utils/helpers.tsx:25-29 | the length is kept, and whitespace stays exactly where it was |
| `ProperCase.ToProperCaseIdempotent` | client/src/utils/helpers.tsx:25-29 | applying `toProperCase` twice gives the same string as applying it once |
| `CamelCase.SpaceUnderscores` | client/src/utils/helpers.tsx:33 | every `_` becomes a space and nothing else changes, so no `_` is left |
| `CamelCase.SplitCamel` | client/src/utils/helpers.tsx:36 | the `([a-z])([A-Z])` replacement; no contract of its own; `SplitCamelLength`, `SplitCamelAt` and `SplitCamelChars` pin it down |
| `CamelCase.SplitCamelLength` | client/src/utils/helpers.tsx:36 | `'$1 $2'` on `([a-z])([A-Z])` adds exactly one character per lower/upper pair of the input |
| `CamelCase.SplitCamelAt` | client/src/utils/helpers.tsx:36 | input character `k` moves right by the number of pairs before it, and a space stands right after the lower-case letter of each pair |
| `CamelCase.SplitCamelChars` | client/src/utils/helpers.tsx:36 | the output holds only input characters and spaces |
| `CamelCase.CapitalizeFrom` | client/src/utils/helpers.tsx:39 | the `\b\w` scan keeps the length |
| `CamelCase.CapitalizeWords` | client/src/utils/helpers.tsx:39 | the `\b\w` replacement keeps the length; `CapitalizeWordsAt` says which characters it upper-cases |
| `CamelCase.CapitalizeWordsAt` | client/src/utils/helpers.tsx:39 | exactly the word characters at the start or after a non-word character are upper-cased; all other characters are kept |
| `CamelCase.CamelCaseToProperCase` | client/src/utils/helpers.tsx:31-40 | the three replacements in order; no contract of its own; `CamelCaseAt`, `CamelCaseLength`, `CamelCaseNoUnderscore` and `CamelCaseWordStartsUpper` pin it down |
| `CamelCase.CamelCaseNoUnderscore` | client/src/utils/helpers.tsx:31-40 | the output contains no `_` |
| `CamelCase.CamelCaseLength` | client/src/utils/helpers.tsx:31-40 | output length is input length plus the number of lower/upper pairs in the input |
| `CamelCase.CamelCaseWordStartsUpper` | client/src/utils/helpers.tsx:39 | every word start of the output is not a lower-case letter |
| `CamelCase.CamelCaseAt` | client/src/utils/helpers.tsx:31-40 | input character `k` ends up at `k` plus the pairs before it, as itself (`_` as a space) or upper-cased exactly where it starts a word; after the first letter of each pair stands the inserted space |
| `Plural.RemovePlural` | client/src/utils/helpers.tsx:43-45 | a string ending in `s` loses exactly that last character; any other string is unchanged; at most one character goes |
| `Plural.RemovePluralOfPlural` | client/src/utils/helpers.tsx:43-45 | removing the plural undoes appending one `s` |
| `Plural.RemovePluralOfSingular` | client/src/utils/helpers.tsx:43-45 | a string not ending in `s` is left alone |
| `Plural.RemovePluralNotIdempotent` | client/src/utils/helpers.tsx:43-45 | `"ss"` becomes `"s"` and then `""`, so the function is not idempotent |
| `TimeOptions.DecimalString` | client/src/utils/helpers.tsx:54 | `n.toString()` is never empty; `TwoDigits` states its digits below 100 |
| `TimeOptions.Fill` | client/src/utils/helpers.tsx:54 | `n` copies of the fill character: length `n`, every character the fill |
| `TimeOptions.PadStart` | client/src/utils/helpers.tsx:54 | `padStart` returns the string itself when it is already wide enough, and otherwise exactly enough fill characters followed by the string |
| `TimeOptions.TimeLabel` | client/src/utils/helpers.tsx:54 | the string each loop step pushes; no contract of its own; `TimeLabelRoundTrip` states that it is an `HH:MM` clock string for the given time |
| `TimeOptions.TwoDigits` | client/src/utils/helpers.tsx:54 | a number below 100, zero-padded to width 2, is its two decimal digits |
| `TimeOptions.TimeLabelRoundTrip` | client/src/utils/helpers.tsx:54 | the label for an hour and minutes below 100 is a 5-character `HH:MM` string, and reading it back gives `hour * 60 + minutes` |
| `TimeOptions.SlotMinuteDigits` | client/src/utils/helpers.tsx:52-54 | every option's minutes are `00` or `30` |
| `TimeOptions.SlotMinutes` | client/src/utils/helpers.tsx:50-54 | option `i` is a clock string for 09:00 plus `30 * i` minutes |
| `TimeOptions.FirstAndLastSlots` | client/src/utils/helpers.tsx:50-54 | the first option is `"09:00"` and the 26th is `"21:30"` |
| `TimeOptions.AllSlots` | client/src/utils/helpers.tsx:50-54 | a 26-long sequence of the slots starts at `"09:00"`, ends at `"21:30"`, and holds `HH:MM` strings 30 minutes apart with minutes `00` or `30` |
| `TimeOptions.GenerateTimeOptions` | client/src/utils/helpers.tsx:48-63 | the nested loops yield exactly 26 strings; they start at `"09:00"` and end at `"21:30"`; each is a zero-padded `HH:MM` with minutes `00` or `30`; each is 30 minutes after the one before |
| `PatientController.CreatePatientStep` | server/src/controllers/patient.controller.ts:38-52 | an e-mail already on record gives 400 "Patient already exists" and the store is unchanged; otherwise exactly the body is added under a fresh id, nothing else changes, and the answer is 201; unique e-mails stay unique |
| `PatientController.ApplyInfo` | server/src/controllers/patient.controller.ts:55-60 | an info update never touches the medical history |
| `PatientController.ApplyInfoIdempotent` | server/src/controllers/patient.controller.ts:55-60 | the same update applied twice equals applying it once; an empty update changes nothing |
| `PatientController.UpdateInfoStep` | server/src/controllers/patient.controller.ts:54-72 | an absent id gives 404 and the store is unchanged; otherwise only that record changes, to the updated one, and the response carries the updated record |
| `PatientController.UpdateInfoCanDuplicateEmail` | server/src/controllers/patient.controller.ts:55-60 | an info update does not check e-mails, so it can make two records share one |
| `JsValues.Truthy` | server/src/controllers/patient.controller.ts:97 | JavaScript truthiness; no contract of its own; `MergeHistoryAt` states its role in the merge |
| `JsValues.Get` | server/src/controllers/patient.controller.ts:97 | `obj[key]`, `undefined` for a missing key; no contract of its own; `MergeHistoryAt` states its role in the merge |
| `PatientController.MergeHistory` | server/src/controllers/patient.controller.ts:92-101 | the merge never adds or removes a medical-history field, and never creates or drops the sub-document |
| `PatientController.ValueFor` | server/src/controllers/patient.controller.ts:99 | a body value that is found is one of the body's entries; a value that is not found is under no entry |
| `PatientController.MergeHistoryAt` | server/src/controllers/patient.controller.ts:92-101 | with distinct body keys, a field is overwritten exactly when the body names it and its current value is truthy; falsy fields and fields the body does not name keep their value |
| `PatientController.MergeWithoutHistory` | server/src/controllers/patient.controller.ts:97 | without a medical-history sub-document nothing is written |
| `PatientController.MedicalHistoryStep` | server/src/controllers/patient.controller.ts:73-112 | an absent id gives 404 and the store is unchanged; otherwise only that record's medical history changes, by the merge, and the response carries the saved record |
| `PatientController.DeleteStep` | server/src/controllers/patient.controller.ts:113-124 | an absent id gives 404 and the store is unchanged; otherwise exactly that record is removed, the others are kept, and the answer is 204 |
| `PatientController.AbsentIdIsNotFound` | server/src/controllers/patient.controller.ts:54-124 | update-info, update-medical-history and delete all answer an absent id with 404 and leave the store as it was |
| `PatientController.AckOutcome` | server/src/controllers/patient.controller.ts:139-157 | a transport error gives 500 "Error sending message to clinic". Otherwise an `ERR` second segment gives a 500 carrying its first field's text verbatim, or a crash when it has no field. Anything else succeeds with 200, naming the patient's first name and the clinic id |
| `PatientController.AckOnlySecondSegmentMatters` | server/src/controllers/patient.controller.ts:149 | two acknowledgments with the same second segment (or both without one) give the same outcome |
| `PatientController.AckErrElsewhereIsSuccess` | server/src/controllers/patient.controller.ts:149-156 | an `ERR` segment in third place does not prevent a success |
| `PatientController.AckRejectionExample` | server/src/controllers/patient.controller.ts:149-151 | a reply whose second segment is `ERR` with text "Unknown facility" gives a 500 error with exactly that text |
| `PatientController.HandleReceivedStep` | server/src/controllers/patient.controller.ts:172-207 | a message that is not `ADT`, or has no payload, is ignored and the store is unchanged. If `hl7ToJSON` throws, the handler rejects with that exception and nothing is stored. A parsed e-mail already on record throws 400 "Patient already exists" and nothing is stored. If `correctParsedMessage` throws, nothing is stored. Otherwise exactly one record, the corrected parse, is added, the others are kept, and the handler returns status "success" |
| `PatientController.HandleReceivedKeepsEmailsUnique` | server/src/controllers/patient.controller.ts:185-200 | when the correction keeps the e-mail, an inbound message keeps e-mails unique |
| `PatientController.HandleReceivedChecksUncorrectedEmail` | server/src/controllers/patient.controller.ts:185-200 | the duplicate check reads the e-mail before correction: when the parsed address is free but the corrected record's address is already on record, the handler still succeeds and two records share that address |
| `PatientController.PatientStore.FindById` | server/src/controllers/patient.controller.ts:23 | `findById` finds a record exactly when the id is present, and returns that record |
| `PatientController.PatientStore.FindOne` | server/src/controllers/patient.controller.ts:39 | `findOne({email})` finds a record exactly when one has that e-mail, and returns such a record |
| `PatientController.PatientStore.Create` | server/src/controllers/patient.controller.ts:45 | `create` stores the record under the counter's current id, which no record holds, advances the counter and changes nothing else; no handler lowers the counter, so a deleted id is never handed out again |
| `PatientController.PatientStore.GetPatient` | server/src/controllers/patient.controller.ts:22-35 | a present id answers 200 with its record; an absent id gives 404 |
| `PatientController.PatientStore.CreatePatient` | server/src/controllers/patient.controller.ts:36-53 | the handler's outcome and new store are those of `CreatePatientStep` |
| `PatientController.PatientStore.UpdatePatientInfo` | server/src/controllers/patient.controller.ts:54-72 | the handler's outcome and new store are those of `UpdateInfoStep` |
| `PatientController.PatientStore.UpdatePatientMedicalHistory` | server/src/controllers/patient.controller.ts:73-112 | the in-place `forEach` loop over the body's keys, followed by `save`, gives the outcome and store of `MedicalHistoryStep` |
| `PatientController.PatientStore.DeletePatient` | server/src/controllers/patient.controller.ts:113-124 | the handler's outcome and new store are those of `DeleteStep` |
| `PatientController.PatientStore.ReferPatientToAnotherClinic` | server/src/controllers/patient.controller.ts:126-170 | an absent id gives 404; a message that `buildHL7ADTMessage` cannot build ends with that exception passed to `next`; otherwise the outcome is `AckOutcome` of the callback's error and acknowledgment, the record's first name and the clinic id |
| `PatientController.PatientStore.HandleReceivedHL7Message` | server/src/controllers/patient.controller.ts:172-207 | the handler's outcome and new store are those of `HandleReceivedStep` |

## Left out

- `fireModal` (client/src/utils/helpers.tsx:8-23): a UI dialog built on sweetalert2 with a promise callback. It has no string logic.
- The JSX `<option>` elements of `generateTimeOptions`: only the time strings are modelled.
- `client/tailwind.config.js`: static styling configuration.
- `getPatients`: it lists the collection and has no decision logic.
- Express plumbing (`res.status(...).json`, `next`, `AsyncErrorCatching`): it becomes the `Outcome` datatype. The response's constant `status: "success"` is implicit in `Respond`.
- The simple-hl7 TCP client, the port from `OTHER_CLINIC_TCP_PORT`, and all `console.log` calls: these are network I/O, environment and logging. The callback's `(err, ack)` are parameters instead.
- `buildHL7ADTMessage`, `hl7ToJSON`, `correctParsedMessage` and `filterObj`: their code is not part of this model. No codec and no round-trip law is claimed for them.
- Mongoose behaviour: schema validation and `runValidators`, defaults, a failing `Patient.create` or `save`, and the format of document ids. An id is a natural number handed out by a counter.
- The race between `findOne` and `create`: each store call is modelled as one atomic step on the map.
- A request body without an `email`: a query `{email: undefined}` depends on Mongoose's filter rules. Every e-mail in the model is a string.
- `PatientController.MergeHistory`: reads only the sub-document's own fields. A key naming an inherited property (such as `constructor`) is read as `undefined` rather than as that property.
- `JsValues.Truthy`: numbers are integers, so `NaN` and fractional values are not modelled.
- `PatientController.HandleReceivedStep`: an absent payload is modelled as `undefined` only. A `null` payload would pass the check and fail later, in `data.msg.log()`; the model does not include that case.
- `PatientController.PatientStore.ReferPatientToAnotherClinic`: once the message is built, it always produces an outcome from the callback's `(err, ack)`. In the source no timeout is set, so a remote clinic that never replies leaves the request without any response; the model does not include that case. A synchronous throw from `message.log()` or `client.send` is not modelled either; the request would then end with that error passed to `next`.
- `PatientController.AckOutcome`: when the `ERR` segment has no field, reading `fields[0].value` throws. This is modelled as `Crash`, and the exception's exact text is not modelled.
- `Chars.ToUpper`: maps only ASCII letters, because JavaScript's full Unicode case mapping (which can change a string's length, as for `ß`) is not modelled.
- `Chars.ToLower`: maps only ASCII letters, for the same reason.
- Strings are sequences of Unicode code points, while JavaScript strings are UTF-16 code units. A character outside the Basic Multilingual Plane counts once here.
