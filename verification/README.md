# Survey platform storage and service layer, in Dafny

This project models the in-memory core of a survey management backend
written in Go: the survey store (a map from survey ID to survey), the
response store (a map from survey ID to the responses for that survey, in
insertion order), and the survey service that validates input, assigns IDs
and timestamps, and delegates to the two stores. It also models the
persistence snapshot that combines both maps.

Layout, one module per source component:

- `models.dfy` (`Models`): `Survey`, `Question`, `Answer`, `Response`, `DBEntry`,
  an opaque `Id` with a distinguished nil value, the `Result` type with the
  `NotFound` and `Invalid` error kinds.
- `generators.dfy` (`Generators`): the injected ID generator as a counter
  (`IdSupply`) and the injected clock as a reading that moves forward on
  every read (`Clock`).
- `surveyrepo.dfy` (`SurveyStore`): class `SurveyRepo` with a `surveys` map
  field, plus the multiset `ValueBag` that specifies `GetAll` up to order.
- `responserepo.dfy` (`ResponseStore`): class `ResponseRepo` with a
  `responses` map field, plus `WithResponse`, the append-or-insert step.
- `surveyservice.dfy` (`Service`): class `SurveyService` holding
  `maxQuestions`, both stores, the ID supply and the clock. It also holds the
  invariant `Consistent()` that the service's own operations preserve, and an
  end-to-end scenario.

Methods that change a store carry `modifies` and relate the new map to
`old(...)`. Read-only methods state their result outright. The loops that
assign question IDs in `CreateSurvey` and `UpdateSurvey`, and the loop that
collects the surveys in `GetAll`, are proved with invariants. The source does
not validate a loaded snapshot, so the service's invariants are stated as
preservation (`old(Consistent()) ==> Consistent()`) and not as preconditions.

## Model

| member | source | states |
|---|---|---|
| `Generators.IdSupply.Peek` | pkg/idgenerator/ksuidgenerator/ksuidgenerator_test.go:11 | an ID still to be drawn is non-nil and differs from every ID drawn so far |
| `Generators.IdSupply.constructor` | pkg/idgenerator/ksuidgenerator/ksuidgenerator.go:8-10 | the supply's first draw has the given serial, so it can be started past the serials of a loaded snapshot |
| `Generators.IdSupply.Generate` | pkg/idgenerator/idgenerator.go:8-10 | each draw returns the next fresh ID and advances the supply by one |
| `Generators.Clock.Now` | pkg/timegenerator/timegenerator.go:8-10 | returns the current reading and moves the clock strictly forward |
| `SurveyStore.SurveyRepo.constructor` | internal/repositories/surveyrepo/surveyrepo.go:15-23 | a nil map gives an empty store; otherwise the store holds exactly the given map |
| `SurveyStore.SurveyRepo.Create` | internal/repositories/surveyrepo/surveyrepo.go:25-30 | always succeeds and returns its argument; the survey sits under its own ID, overwriting any entry there; every other key keeps its survey |
| `SurveyStore.SurveyRepo.Get` | internal/repositories/surveyrepo/surveyrepo.go:32-40 | succeeds exactly when the ID is stored, returning that survey; otherwise NotFound |
| `SurveyStore.SurveyRepo.Update` | internal/repositories/surveyrepo/surveyrepo.go:42-50 | NotFound with the map unchanged when the ID is absent; otherwise the entry under the given ID (not the survey's own ID) is replaced wholesale |
| `SurveyStore.SurveyRepo.Delete` | internal/repositories/surveyrepo/surveyrepo.go:52-60 | NotFound with the map unchanged when absent; otherwise exactly that key is removed |
| `SurveyStore.SurveyRepo.GetAll` | internal/repositories/surveyrepo/surveyrepo.go:62-73 | NotFound exactly when the store is empty; otherwise one survey per entry: same length as the map, same multiset as the stored surveys, and membership in both directions |
| `SurveyStore.BagListing` | internal/repositories/surveyrepo/surveyrepo.go:62-73 | a list with the same multiset as the stored surveys has one element per entry and holds exactly the stored surveys |
| `SurveyStore.SurveyRepo.Entries` | internal/repositories/surveyrepo/surveyrepo.go:75-79 | returns the current map |
| `SurveyStore.ValueBagRemove` | internal/repositories/surveyrepo/surveyrepo.go:69-71 | the multiset of stored surveys splits off any chosen entry, whatever order the map is walked in |
| `SurveyStore.ValueBagSize` | internal/repositories/surveyrepo/surveyrepo.go:69-71 | the multiset of stored surveys has exactly one element per entry |
| `SurveyStore.ValueBagMembers` | internal/repositories/surveyrepo/surveyrepo.go:69-71 | a survey is in the multiset exactly when some entry stores it |
| `ResponseStore.ResponseRepo.constructor` | internal/repositories/responserepo/responserepo.go:15-23 | a nil map gives an empty store; otherwise the store holds exactly the given map |
| `ResponseStore.WithResponse` | internal/repositories/responserepo/responserepo.go:25-36 | a new key gets the one-element sequence; an existing key keeps its earlier responses in order and grows by exactly one at the end; other keys are untouched |
| `ResponseStore.WithResponseFiled` | internal/repositories/responserepo/responserepo.go:25-36 | appending keeps every response filed under the ID of the survey it answers |
| `ResponseStore.ResponseRepo.Create` | internal/repositories/responserepo/responserepo.go:25-36 | never fails, returns its argument, and the new map is the old one with the response appended under its survey ID |
| `ResponseStore.ResponseRepo.GetBySurveyID` | internal/repositories/responserepo/responserepo.go:38-46 | succeeds exactly when the key exists, returning the stored sequence verbatim; otherwise NotFound |
| `ResponseStore.ResponseRepo.Entries` | internal/repositories/responserepo/responserepo.go:48-52 | returns the current map |
| `Service.SurveyService.constructor` | internal/services/surveyservice/surveyservice.go:22-32 | the five collaborators are held as given; a service over empty stores starts with the service invariant holding |
| `Service.SurveyService.CreateSurvey` | internal/services/surveyservice/surveyservice.go:34-53 | too many questions, then no questions, then an empty name are rejected in that order with store and providers untouched; otherwise the survey ID is drawn first and one ID per question in order, texts and name are kept, both stamps are one clock reading, and the survey is stored under its new ID; all IDs are non-nil, pairwise distinct and no question shares the survey's ID, the clock has moved past the stamp, with the service invariant holding, the new ID was not in use; the invariant is preserved |
| `Service.SurveyService.AssignQuestionIds` | internal/services/surveyservice/surveyservice.go:46-48 | every question, whatever its ID, gets the next drawn ID in order, its text kept; the supply advances by the number of questions |
| `Service.CreatedIdsDistinct` | internal/services/surveyservice/surveyservice.go:44-48 | a survey ID followed by one consecutive draw per question, as `CreateSurvey` draws them, gives pairwise distinct, non-nil IDs, none equal to the survey's |
| `Service.SurveyService.GetSurvey` | internal/services/surveyservice/surveyservice.go:55-57 | the store's Get result, unchanged |
| `Service.NilsBefore` | internal/services/surveyservice/surveyservice.go:62-66 | the number of question IDs drawn by an update is the number of questions that had no ID |
| `Service.NilsBeforeCounts` | internal/services/surveyservice/surveyservice.go:62-66 | the drawn-ID count up to a position is the number of earlier questions that had no ID |
| `Service.NilsBeforeGrows` | internal/services/surveyservice/surveyservice.go:62-66 | each question without an ID draws a later ID than every such question before it |
| `Service.Filled` | internal/services/surveyservice/surveyservice.go:61-67 | after filling, every question has an ID, texts and order are kept, and questions that had an ID keep it |
| `Service.FilledFresh` | internal/services/surveyservice/surveyservice.go:61-67 | every ID an update draws, the last one included, has a serial at or above the supply's position before the update, so none was drawn earlier; the drawn IDs are pairwise distinct |
| `Service.SurveyService.FillMissingQuestionIds` | internal/services/surveyservice/surveyservice.go:61-67 | the filled questions are exactly `Filled` of the input from the supply's position, and the supply advances by the number of questions without an ID |
| `Service.StoreKeepsInvariants` | internal/services/surveyservice/surveyservice.go:59-70 | storing a survey under its own issued ID, with identified questions and a current update stamp, keeps the store keyed by ID, its questions identified, its keys issued and its stamps in the past |
| `Service.SurveyService.UpdateSurvey` | internal/services/surveyservice/surveyservice.go:59-70 | ID taken from the path, only missing question IDs filled, update stamp from the clock, creation stamp and name as supplied, no validation; NotFound with the store unchanged when absent; the update stamp moves strictly forward and the invariant is preserved |
| `Service.SurveyService.DeleteSurvey` | internal/services/surveyservice/surveyservice.go:72-74 | the store's Delete result; the response store is untouched, so responses of a deleted survey remain |
| `Service.SurveyService.GetAllSurveys` | internal/services/surveyservice/surveyservice.go:76-78 | the store's GetAll result, including NotFound on an empty store |
| `Service.SurveyService.SaveResponse` | internal/services/surveyservice/surveyservice.go:80-92 | an unknown survey gives NotFound before the answer count is looked at; too many answers are rejected; in both cases nothing is appended and no ID or clock reading is used; otherwise one fresh ID and the clock reading are assigned, the clock moves on, and the response is appended under its survey ID |
| `Service.SurveyService.GetResponses` | internal/services/surveyservice/surveyservice.go:94-96 | the store's GetBySurveyID result, unchanged |
| `Service.SurveyService.Entries` | internal/services/surveyservice/surveyservice.go:98-103 | the snapshot's surveys are the survey store's map and its responses the response store's map |
| `Service.OrphanedResponseScenario` | internal/services/surveyservice/surveyservice.go:72-96 | answer a stored two-question survey, with the ID supply started past the stored IDs, and delete it: the response gets an ID other than the survey's, and it is still returned, with its answers in order, after the delete |
| `Service.DeleteTwiceScenario` | internal/services/surveyservice/surveyservice.go:34-74 | create and delete a survey: looking it up and deleting it again both give NotFound |

## Left out

- Locking: the `sync.RWMutex` fields and all lock calls are concurrency. Each operation is one atomic step. The read lock in `GetAll` that is released before the map is read, and the non-atomic check-then-append in `SaveResponse`, are race issues outside a sequential model.
- `SurveyStore.SurveyRepo.GetAll`: the order of the result follows Go map iteration order, which is unspecified. The model states the result only up to permutation.
- Aliasing: the Go code passes surveys by pointer, shares the caller's question slice when assigning IDs, and hands out the live maps from `Entries`. Dafny values are immutable, so these are copies here.
- ID and clock sources: KSUID generation and `time.Now` are replaced by a counter and a clock that moves forward on every read. KSUID bytes, their time ordering and `time.Time` are not modelled. The source also treats an ID whose string form is empty as missing; a KSUID's string form is never empty, so only the nil test is modelled.
- `Service.SurveyService.UpdateSurvey`: the strictly later update stamp, and the `UpdatedBefore` part of `Consistent()`, rest on the model's clock, which reads strictly later each time. Go's `time.Now` (pkg/timegenerator/timegenerator.go:9) does not promise that, and a fixed clock would give an equal stamp.
- ID supply over a loaded snapshot: the supply is a counter started at a chosen serial. Started at or below a serial already stored in a loaded snapshot, it can draw a stored key again, and `CreateSurvey` then overwrites that survey. KSUIDs do not collide like this. The service invariant `Consistent()`, which guards the "new ID not in use" clause, holds only when the supply starts above every stored serial.
- Logging: the `log.Println` in `SaveResponse` (internal/services/surveyservice/surveyservice.go:83) is output only, and is dropped.
- Error messages: only error kinds are modelled. The message "more than 3 questions" is fixed text in the source, whatever `maxQuestions` is.
- The HTTP handlers, process start-up and shutdown, and file persistence are not part of this model; the load/dump round trip of the snapshot goes through JSON marshalling, which is library code.
- The nil-collaborator cases used in the Go tests (a service built with nil stores) are not modelled; every collaborator is a real object.
