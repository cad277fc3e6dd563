# Patient and note store of the serverless API handler

This project models the serverless handler `netlify/functions/api.js` of a small
patient-tracking backend. The handler keeps two module-level arrays: `patients`
holds patient records, each naming an MRN (medical record number), and `notes`
holds clinical notes, each normally naming a patient MRN. It is meant to route each HTTP
request by method and path to one of seven outcomes:

- list patients;
- create a patient, with its status forced to `Active`;
- update the first patient with a given MRN by shallow merge;
- list the notes of an MRN;
- create a note under a fresh id;
- discharge a patient, which updates the patient and appends a system note;
- list the distinct specialties.

Anything else gets a 404 `{error: 'Not Found'}`. A thrown exception gets a 500
`{error: 'Internal Server Error'}`. As the handler is written, the update, the
note listing and the discharge are never reached (see Findings): those requests
get the 404 `Not Found` too. The handler is modelled with both dispatches, and a
flag picks one. The effects of update, note listing and discharge described below
hold under the corrected dispatch.

Modules:

- `Json` (`json.dfy`): parsed JSON values and records (`map<string, Value>`). It
  also holds the string conversion a template literal applies. That conversion
  builds the discharge note text, and it can throw.
- `Router` (`router.dfy`): the function-path prefix strip, `split('/')`, the
  `[\w-]+` segment match, and the `switch (true)` cascade. The cascade exists
  twice: as written and as intended (see Findings).
- `Records` (`records.dfy`): the pure operations.
  - `findIndex` is `FindIndex`; `filter` is `Filter`.
  - Object spread is `Merge`.
  - The record each route stores is built by `Activated`, `WithId`,
    `Discharged` and `DischargeNote`.
  - The `Set` de-duplication of specialties is `Distinct`.
- `Api` (`api.dfy`): the class `Store`, with the two arrays as sequence fields.
  It has one method per route and the dispatching method `Handle`.
- `Scenarios` (`scenarios.dfy`): request sequences against a fresh store.

The store's operations take as parameters what the source obtains from outside:
- the request body, already parsed (`None` when parsing fails);
- the fresh id that `uuidv4()` returns;
- the two clock readings the discharge takes (lines 68 and 73 each call
  `new Date().toISOString()`, so the discharge date and the note date may
  differ).

On these points the model follows what the code does:
- Patient status is not one-way: a PUT merges any `status` the body supplies,
  `Active` included.
- Parsing happens before the lookup. Under the corrected dispatch, an
  unparsable body on update or discharge gives 500, even for an unknown MRN.
- The note listing of this handler has no date filter. That filter exists only
  in the SQL of the long-running server variant.
- A discharge is not atomic. The patient is replaced (line 65) before the note
  text is built (line 74). If building the text throws, the patient stays
  discharged, no note is appended, and the response is 500. Building the text
  throws when `dischargeNotes` is an object with its own `toString` key, or has
  such an object among its array elements at any depth.

## Model

| member | source | states |
|---|---|---|
| `Router.StripPrefix` | netlify/functions/api.js:8 | The path loses its leading `/.netlify/functions/api` when it has one, and is otherwise unchanged. |
| `Router.JoinSplit` | netlify/functions/api.js:31 | Joining the pieces of `split(d)` with `d` gives back the original string. |
| `Router.SplitJoin` | netlify/functions/api.js:31 | Splitting a join of separator-free pieces gives back exactly those pieces. |
| `Router.SplitPiecesFree` | netlify/functions/api.js:31 | No piece of a split contains the separator. |
| `Router.SplitFree` | netlify/functions/api.js:31 | A string without the separator splits into itself alone. |
| `Router.SplitCons` | netlify/functions/api.js:31 | A separator-free head followed by the separator is split off as one piece. |
| `Router.MatchSegment` | netlify/functions/api.js:30 | A match of `^prefix[\w-]+suffix$` returns a non-empty word-character segment, and the path is exactly prefix, segment, suffix. |
| `Router.MatchSegmentComplete` | netlify/functions/api.js:43 | Every path built as prefix, non-empty word segment, suffix matches, and the match yields that segment. |
| `Router.SegmentIsThirdComponent` | netlify/functions/api.js:44 | For `/patients/<seg>` followed by nothing or by a `/`-led suffix, `path.split('/')[2]` exists and equals `seg`. |
| `Router.PatientsPrefixSplit` | netlify/functions/api.js:31 | `split('/')` of a path starting `/patients/` begins with an empty piece and the piece `patients`, followed by the pieces of the rest. |
| `Router.MatchedIdComponent` | netlify/functions/api.js:60-61 | On every path the parametric pattern matches, the identifier taken by `split('/')[2]` is the matched segment. |
| `Router.Route` | netlify/functions/api.js:14-92 | The corrected dispatch selects each fixed route exactly for its method and path. A parametric route is selected only for its method with `/patients/<seg>[/notes\|/discharge]`, and it carries that `seg`. |
| `Router.RouteToUpdate` | netlify/functions/api.js:30-31 | `PUT /patients/<seg>` reaches the update of `seg`. |
| `Router.RouteToNotes` | netlify/functions/api.js:43-44 | `GET /patients/<seg>/notes` reaches the note listing of `seg`. |
| `Router.RouteToDischarge` | netlify/functions/api.js:60-61 | `POST /patients/<seg>/discharge` reaches the discharge of `seg`. |
| `Router.AsWrittenDispatch` | netlify/functions/api.js:14-92 | The dispatch as written never selects a parametric route, because such a request falls to the default 404. On every other request it agrees with the corrected dispatch. |
| `Router.AsWrittenRejectsUpdate` | netlify/functions/api.js:30 | `PUT /patients/A1` gets no route as written, while the corrected dispatch routes it to the update of `A1`. |
| `Records.FindIndex` | netlify/functions/api.js:33 | The result is -1 exactly when no record has the key equal to the string. Otherwise it is the first index whose record does. |
| `Records.FindIndexAfterReplace` | netlify/functions/api.js:63-65 | Replacing the found patient by one with the same MRN keeps the lookup on that index, so a second discharge hits the same patient. |
| `Records.Filter` | netlify/functions/api.js:45 | The listing holds only matching records. It holds every stored matching record and is never longer than the store. |
| `Records.FilterAppend` | netlify/functions/api.js:45 | The filter of a concatenation is the concatenation of the filters, so the stored order is kept. |
| `Records.FilterCount` | netlify/functions/api.js:45 | Each matching record occurs as often as it is stored, and a non-matching record never occurs. |
| `Records.FilterNone` | netlify/functions/api.js:44-49 | An MRN without notes lists as the empty sequence, not as an error. |
| `Records.ListAfterCreateNote` | netlify/functions/api.js:52-54 | A created note is listed last under the MRN its body names, and under no other MRN. |
| `Records.ListAfterDischarge` | netlify/functions/api.js:70-76 | The discharge note is listed last under the discharged MRN. |
| `Records.Merge` | netlify/functions/api.js:35 | The merged record has the union of the keys. Each key takes the update's value where the update supplies one, and the old value otherwise. |
| `Records.Activated` | netlify/functions/api.js:22-23 | A created patient has status `Active`, overriding any supplied status, with every other field of the body kept. |
| `Records.WithId` | netlify/functions/api.js:52-53 | A created note has its `id` replaced by the fresh id, with every other field of the body kept. |
| `Records.Discharged` | netlify/functions/api.js:65-69 | A discharged patient has status `Discharged` and the given discharge date, with every other field kept. |
| `Records.DischargeNote` | netlify/functions/api.js:70-76 | The discharge note has exactly the keys id, patientMrn, date, note and user. Its text is `Discharge notes: ` followed by the converted notes, and its user is `System`. |
| `Records.Distinct` | netlify/functions/api.js:85 | The specialty list holds exactly the values present across patients. No primitive value is repeated. |
| `Records.DistinctSnoc` | netlify/functions/api.js:85 | Adding one more value to the `Set` leaves the listing unchanged when the value is primitive and already present, and appends it otherwise. |
| `Records.DistinctCount` | netlify/functions/api.js:85 | A primitive specialty occurs once if present. An array or object specialty occurs once per patient holding it, because a `Set` compares objects by identity. |
| `Records.DistinctFirstOccurrence` | netlify/functions/api.js:85 | Primitive specialties are listed in the order of their first occurrence. |
| `Json.JoinTexts` | netlify/functions/api.js:74 | An array joined into the note text fails exactly when converting one of its elements fails. |
| `Json.ToTextFails` | netlify/functions/api.js:74 | Converting `dischargeNotes` into the note text throws exactly when some object in it has its own `toString` key. |
| `Json.TemplateTextOfString` | netlify/functions/api.js:74 | A string is substituted verbatim, and a missing `dischargeNotes` as the word `undefined`. |
| `Json.NatToDecimal` | netlify/functions/api.js:74 | An integer in the note text is written as digits without leading zeros. |
| `Json.DecimalRoundTrip` | netlify/functions/api.js:74 | Reading back the decimal digits of a number gives the number. |
| `Api.Store.constructor` | netlify/functions/api.js:4-5 | The store starts with no patients and no notes. |
| `Api.Store.ListPatients` | netlify/functions/api.js:15-19 | Answers 200 with all patients in stored order. Every listed patient has a status, because the store keeps that invariant. |
| `Api.Store.CreatePatient` | netlify/functions/api.js:21-28 | An unparsable body gives 500 and changes nothing. Otherwise the activated body is appended and returned with 201, and the notes are unchanged. |
| `Api.Store.UpdatePatient` | netlify/functions/api.js:30-41 | An unparsable body gives 500. An unknown MRN gives 404 `Patient not found`. In both cases nothing changes. Otherwise only the first matching patient is replaced by the merge and returned with 200. The notes never change. |
| `Api.Store.ListNotes` | netlify/functions/api.js:43-49 | Answers 200 with the notes of that MRN in stored order. Every listed note has an id, because the store keeps that invariant. |
| `Api.Store.CreateNote` | netlify/functions/api.js:51-58 | An unparsable body gives 500 and changes nothing. Otherwise the body with the fresh id is appended and returned with 201. The patients never change. |
| `Api.Store.Discharge` | netlify/functions/api.js:60-82 | An unparsable body gives 500, and an unknown MRN 404; both change nothing. Otherwise the first matching patient is discharged. If the note text converts, exactly one system note is appended and the response is 200 with the patient. If it does not, the response is 500 and the patient stays discharged without a note. |
| `Api.Store.ListSpecialties` | netlify/functions/api.js:84-89 | Answers 200 with the de-duplicated specialties of all patients. |
| `Api.Store.Handle` | netlify/functions/api.js:7-98 | The handler strips the prefix and routes the request. With the dispatch as written, every update, note-listing and discharge request gets 404 `Not Found` and changes nothing. An unmatched request gets 404 `Not Found` and changes nothing. A body route that is reached with an unparsable body gives 500 and changes nothing. Under the corrected dispatch (see Findings), every route has its operation's effect on both arrays; the fixed routes have it under both dispatches. |
| `Scenarios.CreateDischargeList` | netlify/functions/api.js:21-82 | A created patient is `Active`. After discharge it is `Discharged`, has its discharge date and keeps its other fields, name and specialty included. Its notes then list exactly one note, with text `Discharge notes: stable` by `System`. Discharge and listing are called directly, as the corrected dispatch would. |
| `Scenarios.DischargeA1` | netlify/functions/api.js:60-82 | On a store holding one patient with MRN A1, the discharge keeps the MRN, sets status and date, appends one note, and answers 200 with the updated patient. |
| `Scenarios.DischargeTwice` | netlify/functions/api.js:60-82 | Calling the discharge twice succeeds both times, overwrites the discharge date and leaves two notes. |
| `Scenarios.RouteUpdateUnknown` | netlify/functions/api.js:8-31 | Under the corrected dispatch (see Findings), `PUT /patients/UNKNOWN`, which has no function prefix to strip, is routed to the update of `UNKNOWN`. |
| `Scenarios.UpdateUnknown` | netlify/functions/api.js:30-41 | Under the corrected dispatch (see Findings), `PUT /patients/UNKNOWN` with `{}` answers 404 `Patient not found` through the handler and leaves the patients exactly as they were and the notes empty. |
| `Scenarios.UpdateAsWritten` | netlify/functions/api.js:14-92 | Through the handler as written, `PUT /patients/<mrn>` answers 404 `Not Found` for every MRN, stored or not, and leaves the patients exactly as they were and the notes empty. |
| `Scenarios.FirstOccurrences` | netlify/functions/api.js:85 | `[c, n, c]` de-duplicates to `[c, n]`. |
| `Scenarios.SpecialtiesOfThree` | netlify/functions/api.js:84-89 | Patients with specialties Cardiology, Neurology, Cardiology list as `["Cardiology", "Neurology"]`. |

## Findings

| source | as written | input that shows it | evidently intended | confidence | as-written member | corrected member |
|---|---|---|---|---|---|---|
| netlify/functions/api.js:30-60 | `switch (true)` compares each case with `===`. For the three parametric routes, `method === 'X' && path.match(re)` evaluates to the match array (or `null`), never to `true`. So PUT `/patients/{mrn}`, GET `/patients/{mrn}/notes` and POST `/patients/{mrn}/discharge` always fall to the default 404 `Not Found`. | `PUT /patients/A1` | A case is selected when its expression is truthy, so these requests reach update, note listing and discharge. | high (not executed) | `Router.RouteAsWritten`, shown by `Router.AsWrittenRejectsUpdate` and `Router.AsWrittenDispatch` | `Router.Route`, with `Router.RouteToUpdate`, `Router.RouteToNotes` and `Router.RouteToDischarge`; `Api.Store.Handle` dispatches with it when `asWritten` is false, and with `Router.RouteAsWritten` otherwise (`Scenarios.UpdateAsWritten`) |

## Left out

- `server.js`: every route there passes SQL to a MySQL pool. That includes the
  date filter on notes. There is no logic of its own to model.
- `JSON.parse` and `JSON.stringify`: a request body is taken already parsed, and
  `None` stands for a parse failure. A body that parses to a non-object (`null`,
  a number, an array) is out of scope. The response body is the value before
  serialisation. Records are maps, so the key order `JSON.stringify` writes is
  not modelled; for example, on a create whose body has no `status`, `status`
  is written last.
- `uuidv4()` and `new Date().toISOString()` become parameters. Their uniqueness
  and format are not modelled.
- Logging (`console.log`, `console.error`), `async`, and concurrent invocations
  sharing the module arrays. The model handles one request at a time.
- A missing `event.path` makes line 8 throw outside the `try`. That rejection of
  the handler's promise is not modelled, because every modelled event has a path.
- `Json.Value`: JSON numbers are modelled as exact integers. Fractional numbers
  are left out. So is the exponent form JavaScript uses for integers of
  magnitude 10^21 or more when they are converted into the note text.
- Json.IntToDecimal, Json.NatToDecimal, Json.DecimalRoundTrip: the digits agree
  with JavaScript's `Number::toString` only for integers of magnitude at most
  2^53. Above that a JavaScript number is a rounded double and is written with
  the shortest digits that read back to the same double (`${2**60}` gives
  `1152921504606847000`), while the model writes the exact integer.
- Aliasing: responses carry the stored records as values. The sharing between
  the pushed object and the returned one is not modelled, because JSON
  serialisation makes it unobservable.
