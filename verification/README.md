# Ustaz.ai teacher assistant — a Dafny model of its core

Ustaz.ai is a web application for Kazakh school teachers. It builds school
documents from templates, keeps a weekly timetable, drafts notices to
parents, stores generated PDFs with a history, and runs a voice assistant.
The voice assistant records speech, sends it to an n8n webhook and turns the
answer into a PDF or plays it back. This project models the logic behind
these features as pure Dafny functions over immutable data, and proves what
the code promises about them.

One module per source file:

- `Api`: the REST client. It covers the token and its browser-storage keys,
  the `Authorization` header, the error message of a failed request, the
  list envelopes, and the paging loop of `getClasses` / `getTeachers`.
- `Storage`: the PDF store and the history of each document.
- `Schedule`: the timetable page.
- `Templates`: the document table, the figures the reports compute, and the
  conditional sections of each template.
- `DocBuilder`: the document-builder page. It covers type resolution, field
  changes, select options, name substitution, form initialisation and the
  list loading.
- `Messages`: the parent-notice generator.
- `Auth`: the authentication context, including its demo-mode fallback.
- `RegisterPage`: the registration form.
- `MyDocuments`: search, delete, view, download and the history panel.
- `VoiceAgent`: the recorder and the webhook upload.
- `VoiceReport`: the voice-report page, with its state machine and the
  handling of the answer.

Shared helpers:

- `Webhook`: the reply format of the assistant.
- `Catalog`: the `{id, name, nameKz}` lists.
- `JsText`: the JavaScript string operations the code relies on: `trim`,
  `includes`, `split`, `join`, `parseInt`, `toLowerCase` and UTF-16 length.
- `Seqs` and `Wrappers`: generic sequence helpers and `Option` / `Result`.

Parameters stand in for everything outside the code. The HTTP server is a
`fetch` function from request to response. `JSON.parse` is a `parse`
function. The clock is a `Clock` value. The microphone is a `micGranted`
flag. The outcome of a PDF generation is a `PdfOutcome`.

## Model

| member | source | states |
|---|---|---|
| Api.EnvelopeItems | src/api/client.ts:306-307 | the list of an envelope is `items` when present, else `data`, else empty |
| Api.DeclaredTotal | src/api/client.ts:308 | the declared total is a truthy `total`, else a truthy `count`, else the length of the first page |
| Api.ItemsComeFromBody | src/api/client.ts:200-219 | a single-request list call returns a list that is in the body (`items`, `data` or the bare array), and nothing when the request failed or the body holds no list |
| Api.FetchAll | src/api/client.ts:298-368 | the imperative aggregation issues between 1 and 100 requests and returns exactly the recursive definition `Aggregate` |
| Api.PageLoop | src/api/client.ts:319-350 | the `while` loop with its page counter agrees with the recursive definition `Walk` and issues at most 99 page requests |
| Api.NextPage | src/api/client.ts:319-350 | one iteration requests the current page, goes on only after a full page that leaves the total unreached and stays within page 100, and leaves what the loop will produce unchanged |
| Api.WalkRequests | src/api/client.ts:319-350 | the loop requests consecutive pages with `limit=100` and the same school scope, never past page 100 |
| Api.WalkItems | src/api/client.ts:319-350 | the loop's result is the accumulated list followed by every page's items in fetch order |
| Api.WalkStops | src/api/client.ts:336-346 | every page but the last was full and left the collected count below the declared total; the last one failed, was empty or short, reached the total, or was page 100 |
| Api.AggregateShape | src/api/client.ts:298-368 | the first request carries only the scope; request k asks for page k+1; the result is the first list followed by every later page's items |
| Api.SingleRequestCases | src/api/client.ts:311-354 | a bare array, a total not above the first page, or an empty first page means no further request is made |
| Api.EmptyPageIsLast | src/api/client.ts:336-339 | a page request that failed or came back empty is the last request issued |
| Api.SetToken | src/api/client.ts:39-50 | a truthy token is stored with the refresh key kept or set to empty; a falsy token removes both keys |
| Api.SetTokenIdempotent | src/api/client.ts:39-50 | setting the same token twice equals setting it once |
| Api.AfterReply | src/api/client.ts:76-80 | a 401 reply clears the token and both keys before the error; any other reply leaves the session alone |
| Api.Authenticate | src/api/client.ts:142-164 | login and register succeed exactly on a token reply; a non-empty access token becomes the request token and the persisted `access_token`, an empty one removes it; a failed call changes the session only as any failed request does |
| Api.RefreshToken | src/api/client.ts:166-184 | without a truthy refresh token no request is made and nothing changes |
| Api.Logout | src/api/client.ts:186-197 | whatever the server answers, the token and both keys are cleared |
| Api.AuthorizationHeader | src/api/client.ts:64-68 | the header is sent exactly for a truthy token, as `Bearer` followed by the token |
| Api.AuthorizationLifecycle | src/api/client.ts:39-197 | after a login with a non-empty token the header carries it; after a logout, and after a 401, no header is sent |
| Api.IssueText | src/api/client.ts:96-98 | a validation issue renders as its `loc` parts joined with `.` (or `undefined` without `loc`), then `: ` and its message |
| Api.ErrorMessage | src/api/client.ts:85-125 | a non-empty string `detail` wins; an issue list gives the issue texts joined with `, ` in order, and so mentions every issue; another truthy `detail` gives its JSON text; then `message`; then the raw JSON; an unparsable body gives the message for 500, 404, 403 or 422, or the generic status text |
| Api.GenericMessageCarriesStatus | src/api/client.ts:109-120 | the generic fallback message starts with its prefix, and the status reads back from it with `parseInt` |
| Api.SurfacedMessage | src/api/client.ts:131-137 | an error naming `Failed to fetch` or `CORS` is replaced by the unreachable-backend message; any other error keeps its own |
| Storage.GetPdfs | src/utils/storage.ts:22-25 | the stored list, or the empty list when nothing is stored |
| Storage.IndexOfId | src/utils/storage.ts:29 | the position of the first document with the id, or -1 exactly when there is none |
| Storage.SavePdf | src/utils/storage.ts:27-52 | a new id goes to the front with one `created` entry; a known id is replaced in place with its history kept |
| Storage.AddHistory | src/utils/storage.ts:54-69 | one stamped entry is appended to the first document with the id; an unknown id changes nothing |
| Storage.DeletePdf | src/utils/storage.ts:71-75 | the documents with another id remain, in their order and with their multiplicities; those with the id are gone |
| Storage.SaveUser | src/utils/storage.ts:83-86 | the saved user is what a later read returns; the documents are left alone |
| Storage.ClearUser | src/utils/storage.ts:87-89 | after clearing, a read finds no user; the documents are left alone |
| Storage.SaveThenFind | src/utils/storage.ts:27-52 | after a save the document is found first under its id, with the expected history |
| Storage.DeleteUndoesNewSave | src/utils/storage.ts:27-75 | saving under a new id and then deleting that id restores the list |
| Storage.HistoryOnlyGrows | src/utils/storage.ts:27-69 | saving and adding history only ever extend a document's history |
| Schedule.NewItem | src/pages/Schedule.tsx:269-272 | the stored entry keeps its id, or gets the clock's id when it had none; it always has an id |
| Schedule.HandleSave | src/pages/Schedule.tsx:265-293 | without an edited item nothing happens; the save is rejected exactly when a surviving entry with another id has the same slot; otherwise the others keep their order and the new entry is appended |
| Schedule.SurvivingKeepsOthers | src/pages/Schedule.tsx:275-277 | the pre-save filter drops exactly the entries with the edited id, and nothing for a new item |
| Schedule.SaveKeepsUniqueSlots | src/pages/Schedule.tsx:265-293 | a successful save keeps at most one entry per day, period and class |
| Schedule.HandleDelete | src/pages/Schedule.tsx:256-263 | a confirmed delete removes exactly the entries in the item's slot, the rest keeping their order and multiplicities; unconfirmed, nothing changes |
| Schedule.DeleteUndoesSave | src/pages/Schedule.tsx:256-293 | deleting a newly added entry gives back the timetable as it was |
| Schedule.CellLookup | src/pages/Schedule.tsx:297-299 | a cell shows the first entry on its day and period, and is empty exactly when there is none |
| Schedule.CellShowsOneClassOnly | src/pages/Schedule.tsx:297-299 | two classes with lessons in the same period are a valid timetable, yet only the first is shown |
| Schedule.DisplayName | src/pages/Schedule.tsx:301-309 | an unknown id is shown as itself; a known one as the `nameKz`, else the `name`, of the first item with the id |
| Schedule.DisplayNameMatchesLabel | src/pages/Schedule.tsx:301-309 | the shown name agrees with the document builder's caption `nameKz \|\| name \|\| id` except for a found item with neither name, which shows as empty |
| Schedule.LoadSchedule | src/pages/Schedule.tsx:82-97 | a stored non-empty array replaces the timetable; a non-empty JSON string or a value with a positive `length` is taken as the timetable although it is not a list; nothing, bad JSON, an empty array or string, or a value without a positive `length` keeps the current one |
| Schedule.SavedScheduleReloads | src/pages/Schedule.tsx:82-97 | a timetable written by a successful save is non-empty, so a reload shows exactly it whatever was shown before |
| Catalog.FindById | src/pages/Schedule.tsx:302 | the found item is the first in the list with the id; none is found exactly when no item has it |
| Catalog.Label | src/pages/DocumentBuilder.tsx:362-365 | the label is `nameKz` when set, else `name` when set, else the id; so it is one of the three and empty only for an empty id |
| Templates.TableIds | src/utils/documentTemplates.ts:23-619 | the table holds the ten templates with their ids, in order |
| Templates.IdsDistinct | src/utils/documentTemplates.ts:23-619 | no two templates share an id |
| Templates.GetTemplateById | src/utils/documentTemplates.ts:621-623 | the found template is in the table with that id; none is found exactly when no template has it |
| Templates.LookupFindsEveryTemplate | src/utils/documentTemplates.ts:621-623 | looking up any template's own id finds that template |
| Templates.SourcedFieldsAreSelects | src/utils/documentTemplates.ts:23-619 | every field fed from an API list is a select |
| Templates.Percent | src/utils/documentTemplates.ts:161-162 | an empty class gives 0 percent |
| Templates.PercentRounds | src/utils/documentTemplates.ts:161-162 | the figure is the exact percentage rounded half up |
| Templates.PercentUnique | src/utils/documentTemplates.ts:161-162 | a value that rounds the exact percentage correctly is the figure |
| Templates.PercentBounds | src/utils/documentTemplates.ts:161-162 | a share of the class is between 0 and 100 percent; none of it is 0 and all of it is 100 |
| Templates.PercentMonotone | src/utils/documentTemplates.ts:161-162 | more of the class never shows a smaller percentage |
| Templates.ControlFigures | src/utils/documentTemplates.ts:161-162 | quality is the share of medium and high results, success the share without low results, both 0 without pupils |
| Templates.ControlFiguresConsistent | src/utils/documentTemplates.ts:157-162 | when the three levels account for every pupil, quality equals success and lies between 0 and 100 |
| Templates.ControlAnalysis | src/utils/documentTemplates.ts:157-191 | each count is the field read with `parseInt` or 0; the difficulties section shows exactly when that field is filled in |
| Templates.PercentShown | src/utils/documentTemplates.ts:377-393 | the table's percentages are rounded shares of the class, 0 without pupils |
| Templates.QualityFigures | src/utils/documentTemplates.ts:352-353 | quality is the share of grades 5 and 4, success the share without grade 2 |
| Templates.GradeRows | src/utils/documentTemplates.ts:373-395 | rows for grades 5, 4 and 3 are always shown, the grade-2 row exactly when some pupil has it, each with its count and share |
| Templates.QualityReport | src/utils/documentTemplates.ts:347-406 | each count is the field read with `parseInt` or 0; the conclusions section shows exactly when that field is filled in |
| Templates.QualityFiguresConsistent | src/utils/documentTemplates.ts:347-353 | when the grades account for the class, quality never exceeds success and both lie between 0 and 100 |
| Templates.ShownSections | src/utils/documentTemplates.ts:294-312 | an optional section appears exactly when its field is filled in |
| Templates.OptionalSectionsAreOptionalFields | src/utils/documentTemplates.ts:271-312 | each optional section belongs to a field of its template that the form does not require |
| Templates.SafetyRows | src/utils/documentTemplates.ts:575-578 | one numbered row per non-blank line of the pupils field, numbered from 1 in input order |
| Templates.SafetyRowsOfNameList | src/utils/documentTemplates.ts:575-578 | names entered one per line come back as rows 1 to n with exactly those names |
| DocBuilder.ResolveDocumentType | src/pages/DocumentBuilder.tsx:21 | the type comes from the navigation state, else from the query, else is `ktp` |
| DocBuilder.DefaultTypeAndJournal | src/pages/DocumentBuilder.tsx:21-39 | with no type the calendar plan is shown; `class-journal` is itself a template |
| DocBuilder.HandleFieldChange | src/pages/DocumentBuilder.tsx:297-317 | the key takes the value; a school change drops the class and the class list; a class change drops the student and the student list; nothing else changes |
| DocBuilder.FieldChangeIdempotent | src/pages/DocumentBuilder.tsx:297-317 | repeating a change changes nothing more |
| DocBuilder.NoStaleSelection | src/pages/DocumentBuilder.tsx:302-314 | after a school change no class is selected or listed; after a class change no student is |
| DocBuilder.GetFieldOptions | src/pages/DocumentBuilder.tsx:320-373 | static options come first; otherwise one option per list item, labelled by its name; otherwise none |
| DocBuilder.GetNameById | src/pages/DocumentBuilder.tsx:375-386 | a known id shows its item's label; an unknown one shows itself; a non-empty id never shows as empty |
| DocBuilder.SelectedOptionShowsItsLabel | src/pages/DocumentBuilder.tsx:320-386 | with distinct ids, choosing an option renders the label the option showed |
| DocBuilder.SubstituteNames | src/pages/DocumentBuilder.tsx:388-398 | the same keys come out; empty values and values of non-list fields are unchanged |
| DocBuilder.SubstituteOne | src/pages/DocumentBuilder.tsx:393-397 | a list field with a value gets the name of that value; every other key keeps its value |
| DocBuilder.SubstitutedNames | src/pages/DocumentBuilder.tsx:388-398 | with distinct keys every filled-in list field renders as the name of its value |
| DocBuilder.InitialValue | src/pages/DocumentBuilder.tsx:279-290 | dates start at today; teacher, class and school start from the user; everything else starts empty |
| DocBuilder.InitialFields | src/pages/DocumentBuilder.tsx:275-295 | the initial form has exactly the templates' field keys |
| DocBuilder.InitialFieldsLastWins | src/pages/DocumentBuilder.tsx:279-291 | a key repeated in the template takes the value of its last field |
| DocBuilder.InitialForm | src/pages/DocumentBuilder.tsx:275-295 | the form is initialised exactly when a user is signed in |
| DocBuilder.InitialFormPerField | src/pages/DocumentBuilder.tsx:275-295 | with distinct keys each field starts at its own initial value |
| DocBuilder.LoadLists | src/pages/DocumentBuilder.tsx:90-227 | in demo mode only the fallback subjects and classes and the user as teacher are set; otherwise each list is what came back, or its fallback |
| DocBuilder.ListsNeverEmpty | src/pages/DocumentBuilder.tsx:95-213 | whatever the server does, the class and subject lists are never empty |
| DocBuilder.SchoolClasses | src/pages/DocumentBuilder.tsx:229-254 | a new school's classes replace the list only when fetched outside demo mode and non-empty |
| DocBuilder.ClassStudents | src/pages/DocumentBuilder.tsx:257-272 | outside demo mode a new class's students replace the list, and a failed request, which answers the empty list, empties it; without a class or in demo mode nothing changes |
| DocBuilder.SchoolPickLoadsItsClasses | src/pages/DocumentBuilder.tsx:229-254 | after picking a school the class list is either empty or what came back for it, never the previous school's; in demo mode it stays empty |
| DocBuilder.ClassPickLoadsItsStudents | src/pages/DocumentBuilder.tsx:257-272 | after picking a class the student list is what came back for it outside demo mode, and empty otherwise |
| Messages.MessageLines | src/pages/MessageBuilder.tsx:33-76 | each known notice starts with the greeting, ends with the signature, has blank separator lines, and the date leads the first paragraph (the second one in a congratulation) |
| Messages.GenerateMessage | src/pages/MessageBuilder.tsx:33-76 | an unknown category gives the empty text; a known one joins its lines with line breaks |
| Messages.MessageIsItsLines | src/pages/MessageBuilder.tsx:33-76 | splitting a notice at line breaks gives back its lines when the fields have none |
| Messages.LinesUnbroken | src/pages/MessageBuilder.tsx:33-76 | no line of a notice contains a line break when the fields contain none |
| Messages.MeetingUnbroken | src/pages/MessageBuilder.tsx:35-42 | no line of a meeting notice contains a line break when the fields contain none |
| Messages.SaturdayUnbroken | src/pages/MessageBuilder.tsx:44-51 | no line of a Saturday notice contains a line break when the fields contain none |
| Messages.MoneyUnbroken | src/pages/MessageBuilder.tsx:53-60 | no line of a collection notice contains a line break when the fields contain none |
| Messages.CongratsUnbroken | src/pages/MessageBuilder.tsx:62-71 | no line of a congratulation contains a line break when the fields contain none |
| Messages.MeetingNamesRoomIff | src/pages/MessageBuilder.tsx:38 | the meeting line ends with the room sentence exactly when a room was given |
| Messages.CongratsRepeatsInfo | src/pages/MessageBuilder.tsx:65-67 | additional information appears twice in a congratulation |
| Messages.MeetingInfoOrDefault | src/pages/MessageBuilder.tsx:40 | a meeting notice's last paragraph is the additional information, or `Келуді сұраймыз.` when it is empty |
| Messages.SaturdayInfoOrDefault | src/pages/MessageBuilder.tsx:49 | a Saturday notice's last paragraph is the additional information, or the 09:00 start time when it is empty |
| Messages.MoneyPurposeOrDefault | src/pages/MessageBuilder.tsx:56 | a collection notice's first paragraph names the date and the additional information as the purpose, or school needs when it is empty |
| Messages.CongratsInfoOrDefault | src/pages/MessageBuilder.tsx:65-67 | a congratulation opens with the additional information or a general wish, and names it, or a special event, as what happens on the date |
| Auth.RegisterRole | src/api/client.ts:157 | the role sent is the given one when truthy, else `teacher` |
| Auth.LocalPart | src/contexts/AuthContext.tsx:59 | the name is the longest prefix of the e-mail without `@` |
| Auth.LoginUser | src/contexts/AuthContext.tsx:57-72 | the user has the e-mail and its local part as name, or a default name in demo mode when that is empty |
| Auth.Login | src/contexts/AuthContext.tsx:53-79 | login always signs in and stores the user; when the server answers with tokens a non-empty access token is persisted, and when the call fails the demo branch persists the demo token |
| Auth.RegisteredUser | src/contexts/AuthContext.tsx:91-97 | the user carries the submitted fields but not the role |
| Auth.Register | src/contexts/AuthContext.tsx:81-117 | registration always signs in with the submitted fields; when the server answers with tokens a non-empty access token is persisted, and when the call fails the demo branch persists the demo token |
| Auth.Logout | src/contexts/AuthContext.tsx:119-128 | logout always signs out, removes the stored user and drops the tokens |
| Auth.Restore | src/contexts/AuthContext.tsx:35-51 | with a truthy token a stored user is restored; loading always ends |
| Auth.Reload | src/api/client.ts:31-37 | a reload loses the in-memory user and keeps browser storage; the new client's token is the persisted `access_token` |
| Auth.LoginSurvivesReload | src/contexts/AuthContext.tsx:35-79 | after a login, a reload restores the same user through the persisted `access_token` and `user` entries |
| Auth.RegisterSurvivesReload | src/contexts/AuthContext.tsx:35-117 | after a registration, a reload restores the registered user through the persisted `access_token` and `user` entries |
| Auth.LogoutSurvivesReload | src/contexts/AuthContext.tsx:35-128 | after a logout, a reload leaves nobody signed in |
| RegisterPage.RegisterDataOf | src/pages/Register.tsx:43-48 | e-mail and name are trimmed, the password is kept, and a blank phone is left out |
| RegisterPage.HandleRegister | src/pages/Register.tsx:25-63 | a mismatch and then a short password stop the submit with their message; otherwise the data is submitted and the page moves on |
| RegisterPage.ResubmitSendsSameData | src/pages/Register.tsx:43-48 | submitting the cleaned values again sends the same data |
| RegisterPage.AcceptedSubmitSignsIn | src/pages/Register.tsx:42-50 | a submit that passes the checks signs the user in under the trimmed e-mail, with no error |
| MyDocuments.Search | src/pages/MyDocuments.tsx:20-22 | exactly the documents whose type contains the query, ignoring case, are listed, in stored order and with their multiplicities |
| MyDocuments.EmptySearchKeepsAll | src/pages/MyDocuments.tsx:20-22 | an empty query lists every document |
| MyDocuments.SearchFindsOwnType | src/pages/MyDocuments.tsx:20-22 | searching for a document's type, in any case, finds it |
| MyDocuments.GetActionLabel | src/pages/MyDocuments.tsx:64-73 | the five actions get their Kazakh label; any other name is shown as it is |
| MyDocuments.StoredActionsLabelled | src/pages/MyDocuments.tsx:64-73 | every stored action is translated and no two share a label |
| MyDocuments.HandleDelete | src/pages/MyDocuments.tsx:24-33 | a confirmed delete removes the document, re-reads the list, and clears the selection exactly when it was that document |
| MyDocuments.DeletedIsGone | src/pages/MyDocuments.tsx:24-33 | after a confirmed delete the document is neither listed nor selected |
| MyDocuments.HandleView | src/pages/MyDocuments.tsx:56-62 | viewing selects the document, adds a `viewed` entry and re-reads the list |
| MyDocuments.ViewAddsOneEntry | src/pages/MyDocuments.tsx:56-62 | viewing a stored document adds exactly one `viewed` entry at the end of its history |
| MyDocuments.HandleDownload | src/pages/MyDocuments.tsx:35-54 | without a link or a fetched file nothing changes; otherwise a `downloaded` entry is added and a selected copy is refreshed |
| MyDocuments.Insert | src/pages/MyDocuments.tsx:208-209 | insertion adds the entry and keeps all others |
| MyDocuments.InsertKeepsOrder | src/pages/MyDocuments.tsx:208-209 | insertion into a newest-first history keeps it newest first |
| MyDocuments.SortNewestFirst | src/pages/MyDocuments.tsx:208-209 | the panel lists the same entries, newest first |
| MyDocuments.SortIdempotent | src/pages/MyDocuments.tsx:208-209 | sorting an ordered history changes nothing |
| VoiceAgent.StartRecording | src/utils/voiceAgent.ts:29-84 | a no-op while recording; a fresh empty recording when the microphone is granted; the microphone error otherwise |
| VoiceAgent.OnData | src/utils/voiceAgent.ts:52-56 | only non-empty chunks are kept |
| VoiceAgent.Feed | src/utils/voiceAgent.ts:52-56 | data events change nothing but the chunks |
| VoiceAgent.StopRecording | src/utils/voiceAgent.ts:89-171 | no blob and no change unless recording with a recorder; otherwise the blob is the chunks, or none when there are none; recording stops and the stream is released only when the browser recorder was active and did not throw, and otherwise the state is unchanged |
| VoiceAgent.StopWithoutEventStaysRecording | src/utils/voiceAgent.ts:89-171 | after a stop on an inactive or throwing recorder a new start is ignored and a later stop hands back the same blob |
| VoiceAgent.Cleanup | src/utils/voiceAgent.ts:258-266 | nothing is held and nothing is recording |
| VoiceAgent.FeedKeepsNonEmpty | src/utils/voiceAgent.ts:52-56 | the chunks are those held before, followed by the non-empty sizes in order |
| VoiceAgent.RecordingRoundTrip | src/utils/voiceAgent.ts:29-171 | the blob a stop gives holds exactly the non-empty chunks since the start; a second stop gives none |
| VoiceAgent.ReplyOf | src/utils/voiceAgent.ts:228-241 | a non-object is a format error; an object gives its filled-in text and its audio |
| VoiceAgent.SendToN8N | src/utils/voiceAgent.ts:176-246 | no URL, an HTTP error, a failed request, bad JSON and an unknown content type each throw their message; an empty JSON body gives an empty reply; audio gives a data URL |
| VoiceAgent.ReplyTextFromAnyField | src/utils/voiceAgent.ts:233-241 | a reply's text is empty exactly when the answer had no text-like field |
| VoiceAgent.FailuresCarryMessages | src/utils/voiceAgent.ts:176-246 | every failure has a message unless a request or parse failed with an empty one |
| Webhook.AudioFields | src/utils/voiceAgent.ts:208-222 | an audio answer has no text, a non-empty data URL as audio, and no PDF link |
| Webhook.TextFallback | src/utils/voiceAgent.ts:234-236 | the fallback is `response`, else `output`, else `message`, and is empty exactly when all three are |
| Webhook.FillText | src/pages/VoiceReport.tsx:233-235 | a present text is kept; a missing one is filled from the fallback; the result is empty exactly when all four fields are |
| Webhook.FillTextIdempotent | src/pages/VoiceReport.tsx:233-235 | filling twice equals filling once |
| VoiceReport.Start | src/pages/VoiceReport.tsx:54-108 | a no-op while recording; recording exactly when the microphone is granted; unchanged otherwise |
| VoiceReport.Stop | src/pages/VoiceReport.tsx:110-129 | a no-op unless recording with a recorder; otherwise the page awaits the answer |
| VoiceReport.Toggle | src/pages/VoiceReport.tsx:372-378 | the button stops while recording, starts from ready or listening, and is ignored while awaiting the answer |
| VoiceReport.ToggleReachesProcessingOnlyFromRecording | src/pages/VoiceReport.tsx:372-378 | a press leads to awaiting the answer exactly from recording with a recorder, or from awaiting it already |
| VoiceReport.ErrorStatus | src/pages/VoiceReport.tsx:322-332 | connection trouble, an HTTP error and any other error each give their status line, never an empty one |
| VoiceReport.ReadBody | src/pages/VoiceReport.tsx:165-216 | JSON is parsed, with an empty or `{}` body as the empty reply; audio gives a data URL; anything else is parsed if possible and otherwise taken as the text |
| VoiceReport.Normalise | src/pages/VoiceReport.tsx:221-235 | a non-object is a format error; a workflow-started message is a configuration error; otherwise the text is filled in |
| VoiceReport.Received | src/pages/VoiceReport.tsx:159-235 | an HTTP error and a failed request throw their message; an OK answer is read and checked |
| VoiceReport.Dispatch | src/pages/VoiceReport.tsx:243-315 | an empty answer goes back to ready; a PDF link comes first, then non-blank text, then audio |
| VoiceReport.ProcessRecording | src/pages/VoiceReport.tsx:131-343 | an empty recording and every error go back to ready with their status; otherwise the answer is acted on |
| VoiceReport.PdfLinkFirst | src/pages/VoiceReport.tsx:254-292 | with a PDF link the text, the audio and the text PDF play no part |
| VoiceReport.TextBeforeAudio | src/pages/VoiceReport.tsx:292-309 | without a link, non-blank text decides before the audio |
| VoiceReport.ErrorsEndReady | src/pages/VoiceReport.tsx:316-342 | every error on the way to the answer ends in ready with a non-empty status |
| VoiceReport.PageAndAgentAgree | src/pages/VoiceReport.tsx:170-235 | the page and the voice agent read a JSON answer to the same text and audio |
| VoiceReport.ReceivedObject | src/pages/VoiceReport.tsx:170-235 | a JSON object answer without the workflow notice is received with its text filled in |
| VoiceReport.StuckAfterPdfFailure | src/pages/VoiceReport.tsx:254-301 | as written, an ordinary failure to fetch the PDF behind a link leaves the page awaiting an answer, and the button ignores every press from then on |
| VoiceReport.EmptyPdfErrorIsOrdinary | src/pages/VoiceReport.tsx:396-398 | the empty-file error names no connection trouble, so it is one of those failures |
| VoiceReport.DispatchFixed | src/pages/VoiceReport.tsx:243-315 | corrected: a PDF failure returns the page to ready with the same status; every other outcome is unchanged |
| VoiceReport.ProcessRecordingFixed | src/pages/VoiceReport.tsx:131-343 | corrected: never leaves the page awaiting an answer, and agrees with the code wherever the code does not |
| VoiceReport.Round | src/pages/VoiceReport.tsx:372-378 | with the correction, a press starts recording, the next press stops it, and after the answer a press records again |

## Left out

- Rendering: the HTML of the pages and templates, the PDF rendering, and the browser download are not modelled. This covers `html2canvas`, `jsPDF`, `saveAs` and `window.open`.
- I/O and timing: timers, `setTimeout` auto-stops, the 200 ms and 100 ms stop delays, the 10-second error hiding, audio playback, clipboard copying and the WhatsApp link are not modelled.
- Concurrency: interleavings of asynchronous callbacks are not modelled. Every operation runs to completion.
- Browser APIs: the HTTP server, `JSON.parse`, the clock, the microphone and the PDF generations are parameters, as described above.
- VoiceReport: the `MediaRecorder` error handler, which returns the page to ready, is not modelled. The PDF store writes made while an answer is handled are not modelled either. The `storage` model covers those writes.
- VoiceReport: an answer whose `message` field is truthy but not a string is not modelled. There, `includes` throws a `TypeError`. Each reply field is modelled as a string, with the empty string standing for absent or falsy.
- VoiceReport.Round: its contract assumes the microphone is granted and the recorder exists. The failure paths are covered by `Start` and `Stop`.
- VoiceAgent: a failure of the `MediaRecorder` constructor is not modelled. It throws the same error as a refused microphone, but the stream obtained at src/utils/voiceAgent.ts:37 stays held until `cleanup`.
- VoiceAgent: the recorder's `onerror` handler, which clears the recording flag (src/utils/voiceAgent.ts:65-68), is not modelled. A recorder error is a browser event outside the modelled calls.
- VoiceAgent.SendToN8N: a JSON answer without `audio` returns `audio: undefined`. The model returns the empty string.
- JsText.ToLower: the case mapping covers ASCII, Cyrillic and the Kazakh letters only. Other scripts are compared as they are.
- JsText.ParseInt: reads decimal digits only. The `0x` prefix is left out.
- Templates.Percent: computes the percentage in exact arithmetic. The source divides and then multiplies in floating point, which can differ on exact halves.
- MyDocuments.GetActionLabel: names inherited from `Object.prototype`, such as `toString`, are not modelled.
- MyDocuments.SortNewestFirst: it is an insertion sort. Stability, and the order among equal timestamps in `Array.prototype.sort`, are not proved. Invalid dates (`NaN`) are not modelled: the time of an entry is an integer parameter.
- Auth.Restore: a stored `user` entry that parses to something other than a user object is treated like a user.
- The `ustaz_user` key used by `src/utils/storage.ts` and the `user` key used by the authentication context are separate entries. The model keeps them separate.
- Schedule.DisplayName: follows the code. An item found with an empty `nameKz` and an empty `name` shows as the empty string, not as its id.
- Api.FetchAll: follows the code. A failure of the first request is caught and gives the empty list, rather than being passed on.
- Api.FetchAll: returns the lists only. A 401 answer to any of its requests also clears the stored tokens and sends the browser to `/login` (src/api/client.ts:76-82); that session effect is modelled for a single request by `Api.AfterReply`, not inside the page loop.
- Schedule.LoadSchedule: the elements of a stored array are taken to be timetable entries; an array of other values, and a `length` field that is a numeric string, are not modelled.
- VoiceAgent.StopRecording: the last chunk that `requestData` asks for arrives as an ordinary data event, which the caller feeds with `OnData` before the stop. A recorder that stops on its own during the 200 ms delay fires the replaced stop handler and is modelled as an active one. A `stop()` that throws inside the delayed callback is outside the `try` and leaves the promise unsettled; that case is not modelled.
- Storage: a `ustaz_pdfs` entry that is not valid JSON, on which `getPDFs` throws (src/utils/storage.ts:24), is not modelled. The store's own writes always serialise an array, so they cannot produce one.
- Storage.SaveUser: the user is stored as a value. The `JSON.stringify` and `JSON.parse` round trip of a record of strings is taken as the identity.
- The `getStudents`, `getSchools` and `getSubjects` request wrappers are covered by `Api.ItemsComeFromBody`. Their HTTP plumbing is not modelled.

## Findings

| source | as written | input that shows it | evidently intended | confidence | as-written member | corrected member |
|---|---|---|---|---|---|---|
| src/pages/VoiceReport.tsx:285-301 | when the PDF behind `pdf_url` fails for a reason other than the connection, or the PDF made from the text fails, the status changes but the state stays `processing`; the record button is disabled in that state (line 699) and `toggleRecording` ignores it (lines 372-378), so the page can no longer record | a JSON answer with a `pdf_url` whose file is empty, so that the download throws `PDF файл пуст` | the page returns to a state where it can record again, showing the same status | not executed | VoiceReport.StuckAfterPdfFailure | VoiceReport.ProcessRecordingFixed |
