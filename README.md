# mini-rusaint in Dafny

mini-rusaint scrapes the course-grades screen (application `ZCMB3W0017`) of
Soongsil University's SAP WebDynpro portal. It replays the browser's part of
the WebDynpro protocol over plain HTTP, in four steps:

- **Bootstrap.** It fetches an application's start page and reads the hidden
  fields of the `sap.client.SsrClient.form` form: the action URL, charset,
  secure id, application name and beacon flag.
- **Requests.** Every later request is a POST to the action URL. It carries
  those fields and, optionally, an encoded event queue (`SAPEVENTQUEUE`).
- **Navigation.** The screen is driven by events: select a year, select a
  semester, press a course's detail button, close the popup. The rows of the
  grade tables are read out of each answer.
- **Decoding.** The event encoding is decoded in two passes: five structural
  escapes `~E001`..`~E005`, then `~XXXX` code-point escapes.

The model has one module per concern:

- `Wrappers`: Option and Result.
- `Html`: a parsed page as a node tree. It covers the two selector kinds the
  program uses (tag name, and attribute equal to a value, which also covers
  `#id`) and the attribute lookup.
- `Http`: requests, and the client as a class. The class holds the log of
  requests sent and a server oracle that answers a log with a response, or
  with nothing when the request could not be sent. Reading a response's body
  can fail on its own.
- `Event`: the decoder.
  - The method `Decode` runs the structural loop once per entry of the
    escape map, in an iteration order given as a parameter. It is proved
    equal to the order-free reference `Decoded` for every order.
  - The lemmas characterise `Decoded` piece by piece: each escape kind, text
    without `~`, no rescanning, and decoding of concatenated pieces.
- `EventVectors`: the unit-test vectors and the edge cases, proved.
- `SsrClient`: `SapSsrClient::new` of the workspace package.
  - The method `ScanForms` is the nested loop over five locals. It is proved
    to compute the fold `Extract`.
  - The lemmas state what `Extract` yields in terms of the page: the
    defaults, the last form's action, the last matching input for each field,
    and that unrecognised inputs are ignored.
- `FixedSsrClient`: the root crate's `SapSsrClient::new`
  (src/webdynpro/client.rs), whose start page is a constant. The constant is
  proved to be the URL `SsrClient` builds for `ZCMB3W0017`.
- `Applications`: `Application` with `send_request` and `new`. The form-field
  list is proved to have the order, keys and values the source sends.
- `CourseGrades`: `CourseGradesApplication`.
  - Each operation that talks to the server is a method proved equal to a
    specification function of the request log: the result, and the log after
    the call.
  - The lemmas state the order of the requests and the row-selection rule.
    They also state that a failed lookup aborts the remaining rows, and that
    nothing follows the two selections when no details are asked for.

Two behaviours of the code are worth knowing:

- A start page without the hidden form still gives an `Ok` client, with four
  empty strings and `false` (`SsrClient.ExtractWithoutForm`).
- In two places (src/applications/course_grades.rs, lines 156 and 191) the
  code calls `unwrap`, which panics. The model gives each its own error
  value: `MissingButtonId` and `MissingDetailTable`.

Errors keep the source's variants. A request that cannot be sent fails inside
`send_request` as `ApplicationError::RequestError`, and the screen's methods
pass it on wrapped, as `ApplicationError(RequestError)`. A body that cannot be
read is the screen's own `RequestError`.

## Model

| member | source | states |
|---|---|---|
| Event.EscapeAtPrefix | src/webdynpro/event.rs:7-12 | Exactly the five escapes `~E001`..`~E005` are recognised, case-sensitively: EscapeAt names entry k exactly when the text starts with entry k's key, and finds nothing exactly when the text starts with none of them |
| Event.Decode | src/webdynpro/event.rs:5-39 | For every iteration order of the five-entry map, the structural loop followed by the hex pass yields `Decoded(encoded)`, so the map's unspecified order does not change the result |
| Event.ReplaceEscape | src/webdynpro/event.rs:15-18 | One more `str::replace`, applied to the text in which some escapes are already replaced, equals a single left-to-right scan that replaces all of them: escapes neither overlap nor create one another |
| Event.UnreplacedEscapeCopied | src/webdynpro/event.rs:15-18 | An escape whose entry has not yet been applied passes through the earlier replacements verbatim |
| Event.StructuralPassNothing | src/webdynpro/event.rs:15 | Before any entry is applied, the text is the input |
| Event.StructuralEscapeDecoded | src/webdynpro/event.rs:7-18 | Each structural escape decodes to its character (newline, `{`, `}`, `:`, `,`), and structural decoding resumes right after it |
| Event.HexValue | src/webdynpro/event.rs:28 | Four hexadecimal digits denote a value below 0x10000, so `from_str_radix` cannot fail on a match |
| Event.HexEscapeDecoded | src/webdynpro/event.rs:21-36 | `~` and four hex digits (either case) become the character with that code point, or stay verbatim when that code point is a surrogate. The scan resumes after the match, so produced text is not rescanned |
| Event.HexPassNoMatch | src/webdynpro/event.rs:21-25 | A `~` not followed by four hex digits is copied, and the scan moves on by one character |
| Event.StructuralPassNoTilde | src/webdynpro/event.rs:15-18 | The structural pass leaves text without `~` unchanged |
| Event.HexPassNoTilde | src/webdynpro/event.rs:24-36 | The hex pass leaves text without `~` unchanged |
| Event.NoTildeUnchanged | src/webdynpro/event.rs:15-38 | An input that contains no `~` decodes to itself |
| Event.StructuralPassAppend | src/webdynpro/event.rs:15-18 | When no escape can straddle the boundary, the structural pass of a concatenation is the concatenation of the passes |
| Event.HexPassAppend | src/webdynpro/event.rs:24-36 | When no match can straddle the boundary, the hex pass of a concatenation is the concatenation of the passes |
| Event.DecodedAppend | src/webdynpro/event.rs:5-39 | Two pieces that decode on their own decode independently when concatenated, and their concatenation again decodes on its own |
| Event.PlainPiece | src/webdynpro/event.rs:15-38 | Text without `~` is a piece that decodes to itself |
| Event.StructuralPiece | src/webdynpro/event.rs:7-18 | Each structural escape on its own is a piece that decodes to its single character |
| Event.HexPiece | src/webdynpro/event.rs:21-30 | A hex escape that is not a structural one and names a scalar value is a piece that decodes to that character |
| EventVectors.StructuralBeforeHex | src/webdynpro/event.rs:14-24 | The structural pass runs first: `~E004` decodes to `:` and not to U+E004 |
| EventVectors.LowercaseEscapeIsHex | src/webdynpro/event.rs:7-30 | `~e004` is not a structural escape, so the hex rule decodes it to U+E004 |
| EventVectors.SurrogatePiece | src/webdynpro/event.rs:28-34 | `~D800` names a surrogate, so `~D800` is kept verbatim |
| EventVectors.SurrogateKept | src/webdynpro/event.rs:24-36 | After a kept surrogate escape, decoding continues: `~D800~0041` gives `~D800A` |
| EventVectors.OutputNotRescanned | src/webdynpro/event.rs:24-36 | A produced `~` is not rescanned: `~007E0041` gives `~0041` |
| EventVectors.ClientInspectorVector | src/webdynpro/event.rs:45-51 | The ClientInspector/Notify input decodes to the text the unit test expects |
| EventVectors.ButtonPressVector | src/webdynpro/event.rs:53-58 | The Button/Press input decodes to the text the unit test expects. tests/event_tests.rs, lines 3-8, asserts the same vector |
| EventVectors.FormRequestVector | src/webdynpro/event.rs:60-65 | The Form/Request input, which mixes structural and hex escapes, decodes to the text the unit test expects |
| Html.Lookup | packages/mini-rusaint/src/webdynpro/client.rs:50-58 | `attr(key)` finds a value exactly when some attribute has that key |
| Html.LookupFirst | packages/mini-rusaint/src/webdynpro/client.rs:50-58 | The value found is that of the first attribute with the key |
| Html.Select | packages/mini-rusaint/src/webdynpro/client.rs:49 | Every selected node matches the selector |
| Html.SelectAppend | packages/mini-rusaint/src/webdynpro/client.rs:49 | Selection keeps document order across sibling runs: selecting from two forests side by side gives the selections of each, in turn |
| Http.Client.Send | src/applications.rs:60 | Sending appends the request to the session's log and nothing else; the reply is the server's answer to the log: a response, or nothing when the request could not be sent |
| SsrClient.BootstrapUrlInjective | packages/mini-rusaint/src/webdynpro/client.rs:28-32 | The start page is the base URL, `/sap/bc/webdynpro/SAP/`, the application name and `?sap-wd-stableids=x`, so two applications are never fetched from the same URL |
| SsrClient.ScanForms | packages/mini-rusaint/src/webdynpro/client.rs:43-68 | The nested loop over the forms and their inputs, with five locals starting empty or false, computes `Extract(page)` |
| SsrClient.New | packages/mini-rusaint/src/webdynpro/client.rs:24-77 | One GET of the start page is logged. The result is RequestError when the GET cannot be sent or its body cannot be read; otherwise construction always succeeds with `Extract(page)`, even when fields are blank |
| SsrClient.ExtractWithoutForm | packages/mini-rusaint/src/webdynpro/client.rs:43-49 | A page without the bootstrap form yields four empty strings and a cleared beacon flag |
| SsrClient.ExtractFields | packages/mini-rusaint/src/webdynpro/client.rs:49-64 | The action URL is the `action` of the last form, or "" when it has none. Each string field is the value of the last input with its name across all forms, where a missing value counts as "". The beacon flag is set exactly when the last `fesrUseBeacon` input's value is exactly "true" |
| SsrClient.ApplyInputsFields | packages/mini-rusaint/src/webdynpro/client.rs:56-67 | A form's inputs leave the action URL alone and set each field to its last recognised value, or leave it as it was |
| SsrClient.ApplyFormsFields | packages/mini-rusaint/src/webdynpro/client.rs:49-68 | Across forms, the action comes from the last form and every field from the last matching input of all forms in order |
| SsrClient.UnrecognisedInputIgnored | packages/mini-rusaint/src/webdynpro/client.rs:57-65 | An input whose name is absent or not one of the four can be removed without changing any field |
| SsrClient.LastValueFound | packages/mini-rusaint/src/webdynpro/client.rs:56-63 | A last value exists exactly when some input carries the name |
| SsrClient.LastValueIsLast | packages/mini-rusaint/src/webdynpro/client.rs:56-63 | The last value is the value of an input carrying the name, and no later input carries it |
| SsrClient.LastValueAppend | packages/mini-rusaint/src/webdynpro/client.rs:49-68 | Later inputs win: the last value over two runs is the second run's when it has one |
| FixedSsrClient.StartPageIsBootstrapUrl | src/webdynpro/client.rs:6-7 | The fixed start page is the URL the workspace package builds for application `ZCMB3W0017` |
| FixedSsrClient.New | src/webdynpro/client.rs:25-70 | One GET of the fixed page is logged. The result is RequestError when the GET cannot be sent or its body cannot be read; otherwise it is `Ok(Extract(page))`, computed by the same loop over lines 36-61 |
| Applications.BoolString | src/applications.rs:45 | `bool::to_string` gives "true" exactly for true |
| Applications.PostUrl | src/applications.rs:39-43 | The POST target is the base URL, then "/", then the bootstrap action URL |
| Applications.FormFields | src/applications.rs:46-58 | The form starts with exactly `charset`, `sap-wd-secure-id`, `fesrAppName` and `fesrUseBeacon`, in that order. `SAPEVENTQUEUE` follows exactly when a queue is given |
| Applications.FormFieldValues | src/applications.rs:45-58 | Field values are copied verbatim from the bootstrap record; the `sap-charset` value is sent under `charset`. The beacon is "true" or "false". The queue field carries the queue exactly when one is given |
| Applications.EventQueueLast | src/applications.rs:56-58 | A given queue is the fifth and last field |
| Applications.BeaconRoundTrip | src/applications.rs:45-53 | The beacon text sent reads back as the flag under the bootstrap rule |
| Applications.Application.BuildForm | src/applications.rs:45-58 | The four fields, with the queue pushed when given, are `FormFields` |
| Applications.Application.SendRequest | src/applications.rs:35-63 | Exactly one POST of `PostUrl` and `FormFields`, built from the stored bootstrap record, is logged. The result is the response, body unread, or RequestError when the POST could not be sent |
| Applications.New | src/applications.rs:26-31 | One bootstrap GET is logged. Success comes exactly when the page is sent and read, and the new application keeps the client and the record read as constants that every later request reuses. Otherwise the error is SsrClientError |
| CourseGrades.DecimalRoundTrip | src/applications/course_grades.rs:233 | The year key is decimal text without a leading zero, and it reads back as the year |
| CourseGrades.SelectionEvents | src/applications/course_grades.rs:228-264 | Each selection is one ComboBox/Select event whose parameters are `Id` (the combo box constant) and then `Key`: the year's decimal text, or the semester's key |
| CourseGrades.FirstChildSkipped | src/applications/course_grades.rs:83 | The first child node of a table body is skipped whatever it is, even a row that would be kept |
| CourseGrades.KeptRowsMembers | src/applications/course_grades.rs:84-86 | A node is among the rows exactly when it is an element named `tr` whose `rr` is not "0" (an absent `rr` keeps it) |
| CourseGrades.KeptRowsAppend | src/applications/course_grades.rs:83-91 | Rows keep document order within a body |
| CourseGrades.TableRowsAppend | src/applications/course_grades.rs:80-92 | Rows keep document order across bodies |
| CourseGrades.KeptChildren | src/applications/course_grades.rs:83-91 | The inner loop over a body's child nodes collects `KeptRows` of them |
| CourseGrades.CollectRows | src/applications/course_grades.rs:78-94 | The loop over the table bodies collects `TableRows` of them |
| CourseGrades.CourseGradesApplication.GetAllSemesterGrades | src/applications/course_grades.rs:64-95 | Exactly one request, without an event queue, is logged. The result is ApplicationError(RequestError) when it cannot be sent, RequestError when its body cannot be read, and otherwise the selected rows of the summary table |
| CourseGrades.CourseGradesApplication.SelectYear | src/applications/course_grades.rs:228-243 | Exactly one request, carrying the year selection event, is logged. The result is the unread response, or ApplicationError(RequestError) when it cannot be sent |
| CourseGrades.CourseGradesApplication.SelectSemester | src/applications/course_grades.rs:246-264 | Exactly one request, carrying the semester selection event, is logged. The result is the unread response, or ApplicationError(RequestError) when it cannot be sent |
| CourseGrades.CourseGradesApplication.ClosePopupWindow | src/applications/course_grades.rs:208-225 | Exactly one request, pressing the popup's close button, is logged. The result is the unread response, or ApplicationError(RequestError) when it cannot be sent |
| CourseGrades.CourseGradesApplication.GetCourseGradesDetails | src/applications/course_grades.rs:145-205 | The result and the log after the lookup are `DetailSpec` of the log before it |
| CourseGrades.DetailTrace | src/applications/course_grades.rs:145-205 | A missing or non-element fifth child node gives HtmlParseError with nothing sent, and only then. A cell without a `ct="B"` element gives no details with nothing sent. Otherwise the lookup sends the ClientInspector/Notify + Button/Press queue and then the popup close. It succeeds exactly when both were sent. It fails with ApplicationError(RequestError) exactly when the last request logged could not be sent, and with RequestError exactly when the detail page was answered but its body could not be read |
| CourseGrades.CourseGradesApplication.GetSemesterGradesDetails | src/applications/course_grades.rs:99-142 | The result and the log after the call are `SemesterSpec` of the log before it |
| CourseGrades.CourseGradesApplication.CollectCourseGrades | src/applications/course_grades.rs:118-141 | The nested row loop, with a lookup per row when asked to, gives `RowsSpec` of the selected rows: result and log |
| CourseGrades.RowsStep | src/applications/course_grades.rs:126-135 | One more kept row after successful ones adds one grade: not fetched, or with its lookup's detail. A failed lookup's error is the result |
| CourseGrades.RowsAbort | src/applications/course_grades.rs:131 | Once a lookup has failed, later rows send nothing and the failure is the result |
| CourseGrades.AbortRemainingRows | src/applications/course_grades.rs:120-139 | A failure at any row of any body is the outcome of the whole table |
| CourseGrades.RowsWithoutDetails | src/applications/course_grades.rs:127-135 | Without details, no request is sent and the result is one not-fetched grade per row, in order |
| CourseGrades.RowsLogGrows | src/applications/course_grades.rs:120-139 | Row processing only appends to the log |
| CourseGrades.SelectionsFirst | src/applications/course_grades.rs:105-108 | The year selection is sent first, and the semester selection follows only if the year request could be sent. A selection that cannot be sent fails with ApplicationError(RequestError). Only the semester page is read, and an unreadable one fails with RequestError. Without details nothing follows the two selections |
| CourseGrades.New | src/applications/course_grades.rs:56-61 | Opening the screen logs one bootstrap GET of `ZCMB3W0017`, and succeeds exactly when its page is sent and read; otherwise the error is ApplicationError(SsrClientError) |

## Left out

- Session login (packages/mini-rusaint/src/session.rs and src/session.rs) is not part of this model. The HTTP client with its cookie jar is the `Http.Client` class given to the constructors.
- `SemesterGrade::from_html_element`, `CourseGrade::from_html_element` and `create_detailed_grades` are not part of this model. Results are the table rows and the detail table those readers would be given.
- `SemesterType::key()` is not part of this model: a semester is given by its key string.
- `SapEventBuilder`, `SapEventQueueBuilder` and their `Display` serialiser are not part of this model. The `SAPEVENTQUEUE` field keeps the events as structured values (event, control, ordered parameters), and the builders' error paths, which cannot fire on these fixed events, are not modelled.
- HTML parsing and CSS selector parsing (`scraper`) are abstracted. A page is its node tree, and comments and text are both `Text` nodes.
- `reqwest`, `async` and `Arc` are abstracted. Sending is a log append plus a server oracle that answers the log. A send that fails is logged as attempted before its error is returned.
- The `unwrap` panics at src/applications/course_grades.rs, lines 156 and 191, are error values (`MissingButtonId`, `MissingDetailTable`) rather than aborts of the process.
- The iteration order of the escape `HashMap` is a permutation parameter of `Event.Decode`.
- CourseGrades.CourseGradesApplication.GetAllSemesterGrades: the two nested loops live in the helper methods `CollectRows` and `KeptChildren`.
- CourseGrades.CourseGradesApplication.GetSemesterGradesDetails: its row loops live in the helper method `CollectCourseGrades`.
- Applications.New: src/applications.rs calls `SapSsrClient::new(client, app_name)` and uses `SapSsrClient::SSU_WEBDYNPRO_BASE_URL`. This matches the workspace package's `SapSsrClient` rather than src/webdynpro/client.rs, so the model uses the package's variant.
- The FFI wrappers, src/main.rs, packages/mini-rusaint/src/lib.rs and the live-network tests are not part of this model. The encoder fragments asserted by tests/event_tests.rs, lines 10-45, are not modelled either, since the serialiser is not part of this model.
- tests/event_tests.rs calls the decoder `decode_sap_event`, a name the decoder module does not define. The model treats it as `decode_sap_event_encoding`.
