# Student statistics dashboard: edit form and tab state

This project models the state core of a small browser dashboard. The dashboard shows one
record of student counts: boys, girls, their total, and a last-updated timestamp. An
administrator edits the counts in a form. Saving writes the record to the browser's local
storage under the key `school_stats_v3`. Other open tabs pick the record up through the
browser's storage event.

The model has six modules:

- `Wrappers`: `Option` and `Result`.
- `Stats`: the `StudentStats` record of `types.ts`, with the predicates `Consistent` (total is
  boys plus girls) and `NonNegative`.
- `JsParseInt`: JavaScript's `parseInt` with no radix argument, as section 19.2.5 of ECMA-262
  defines it. It skips leading white space and line terminators, takes an optional sign, reads
  a `0x`/`0X` prefix as hexadecimal, and reads the longest run of digits. `None` stands for NaN.
- `Persistence`: the profile's storage as a class `Storage` over a `map<string, string>`, shared
  by every tab. JSON is a `Codec`, a pair of functions `serialize` and `parse`. The predicate
  `Lawful` states what the application relies on: parsing a serialized record gives it back, and
  empty text does not parse.
- `Admin`: the edit form as a class `AdminPanel`. It holds the draft `boys` and `girls`, the
  `error` message and the `isSaved` flag. The change handler, the submit handler, the disabled
  submit button and the flag-reset timer are its methods. `Submission` is the pure
  specification of a submit.
- `AppState`: one tab as a class `App`. It holds the in-memory `stats`, the `isAdmin` flag, the
  shared `Storage` and the `Codec`. It has the initial load with its default fallback, the
  storage-event handler, the save handler (`onSave`) and the admin-flag test. Two scenario
  methods run whole flows: two tabs sharing one store, and an edit starting from the default
  record.

The clock is a parameter. `now` is the time of a submit. `bootTime` is the time the
application module was loaded, which stamps the default record.

The code does not reconcile records by timestamp: a storage event applies the incoming
record whatever its timestamp. It has no URL snapshot token, no broadcast channel and no
polling. It does not clamp negative input to 0 when typed: `-5` is stored and only rejected on
submit. The total cannot be edited directly; it is always the sum of the two counts.

## Model

| member | source | states |
|---|---|---|
| `JsParseInt.TrimStart` | AdminPanel.tsx:43 | Trimming never lengthens the text, and the trimmed text does not start with white space or a line terminator. |
| `JsParseInt.TrimStartStrips` | AdminPanel.tsx:43 | The trimmed text is a suffix of the input, and everything cut off is white space or a line terminator. |
| `JsParseInt.DigitRunLength` | AdminPanel.tsx:43 | The digit run never extends past the end of the text. |
| `JsParseInt.DigitRunIsMaximal` | AdminPanel.tsx:43 | The digit run is the longest prefix of radix digits: every character before its end is a digit, and the one at its end is not. |
| `JsParseInt.ParseIntDecimal` | AdminPanel.tsx:43 | parseInt reads back any integer from its decimal text followed by text that cannot continue it: a non-digit, and not an `x` right after a lone `0`. |
| `JsParseInt.ParseIntRoundTrip` | AdminPanel.tsx:43 | parseInt inverts the decimal rendering of every integer, negative ones included. |
| `JsParseInt.ParseIntHex` | AdminPanel.tsx:43 | A `0x` or `0X` prefix, after an optional sign, makes parseInt read hexadecimal. |
| `JsParseInt.ParseIntSkipsWhiteSpace` | AdminPanel.tsx:43 | Leading white space and line terminators never change parseInt's result. |
| `JsParseInt.ParseIntNaN` | AdminPanel.tsx:43 | Text with no decimal digit, the empty text included, gives NaN. |
| `JsParseInt.ParseIntNaNExamples` | AdminPanel.tsx:43 | `""`, `"abc"` and `"-"` give NaN. |
| `JsParseInt.ParseIntNegativeExample` | AdminPanel.tsx:43 | `"-5"` gives -5. |
| `JsParseInt.ParseIntPrefixExamples` | AdminPanel.tsx:43 | `"12abc"` gives 12 and `"3.9"` gives 3. |
| `JsParseInt.ParseIntHexExample` | AdminPanel.tsx:43 | `"0x1a"` gives 26. |
| `Admin.FieldValueNaNIsZero` | AdminPanel.tsx:46 | Text without a decimal digit, such as `""` or `"abc"`, is stored as 0. |
| `Admin.FieldValueOfNumeral` | AdminPanel.tsx:43-46 | The decimal text of any integer is stored as that integer, so `"-5"` stores -5 and is not clamped. |
| `Admin.Submission` | AdminPanel.tsx:24-34 | A submit succeeds iff both counts are non-negative. Failure carries "Negative values are not allowed.". Success gives a record with the draft's counts, the given time, total equal to boys plus girls, and no negative count. |
| `Admin.AdminPanel.constructor` | AdminPanel.tsx:11-16 | The draft starts as the given record's boys and girls, with no error and the saved flag down. |
| `Admin.AdminPanel.HandleChange` | AdminPanel.tsx:41-48 | Only the count named by the input changes, to the input's text read through parseInt with NaN as 0. The other count, the error and the saved flag are unchanged. |
| `Admin.AdminPanel.HandleSubmit` | AdminPanel.tsx:20-37 | The draft is unchanged. With a negative count, the error is the message, onSave is not called, and the saved flag keeps its value. Otherwise the error is cleared, onSave receives the `Submission` record, whose total is the draft's live total, and the saved flag goes up. |
| `Admin.AdminPanel.Submit` | AdminPanel.tsx:108-110 | While the saved flag is up the button is disabled and nothing changes. Otherwise the submit handler runs. |
| `Admin.AdminPanel.SavedTimerElapsed` | AdminPanel.tsx:38 | The timer drops the saved flag and changes nothing else. |
| `Persistence.SerializedNonEmpty` | App.tsx:47 | The stored text of a record is never empty, given a lawful codec. |
| `Persistence.Storage.GetItem` | App.tsx:18 | getItem returns the key's stored value, or nothing when the key is absent. |
| `Persistence.Storage.SetItem` | App.tsx:47 | setItem overwrites one key, and every other key keeps its value. |
| `AppState.DefaultStats` | App.tsx:9-14 | The default record is 140 = 60 boys + 80 girls. It is consistent and non-negative, and stamped with the load time. |
| `AppState.InitialStats` | App.tsx:17-27 | The initial load never fails. It gives the parsed record when the slot holds text that parses. It gives the default when the slot is missing, empty or unparsable. |
| `AppState.StorageEventEffect` | App.tsx:36-40 | An event is ignored iff its key is not `school_stats_v3` or its new value is null or empty. Otherwise the parsed record is applied, or the parse throws: there is no fallback. The tab's current record is not consulted. |
| `AppState.QueryGet` | App.tsx:32-33 | URLSearchParams.get gives the value of the first parameter with the name, and nothing iff no parameter has it. |
| `AppState.IsAdminIff` | App.tsx:33 | Admin mode is on iff the first `admin` parameter is exactly `"true"`. |
| `AppState.IsAdminExamples` | App.tsx:33 | `admin=true` turns admin mode on. `admin=True`, `admin=1`, no parameter, and `admin=false` before `admin=true` leave it off. |
| `AppState.ReloadAfterUpdate` | App.tsx:45-48 | After a save of r, loading from the store gives r back, given a lawful codec. |
| `AppState.InitialStatsIgnoresOtherKeys` | App.tsx:18 | Writing any other key never changes what the initial load gives. |
| `AppState.StorageEventDeliversSavedRecord` | App.tsx:37-38 | The storage event for a saved record applies exactly that record, given a lawful codec. |
| `AppState.MalformedSlotTreatment` | App.tsx:20-24 | Non-empty unparsable text gives the default at load but a thrown parse in the storage handler. |
| `AppState.App.constructor` | App.tsx:17-29 | A tab starts with the initial load of its store's slot, and admin mode off. |
| `AppState.App.ReadAdminFlag` | App.tsx:32-33 | The mount effect sets the admin flag from the query parameters and leaves the record alone. |
| `AppState.App.HandleStorage` | App.tsx:36-40 | The tab's record becomes the event's record when the event applies, whatever the timestamps. It is unchanged when the event is ignored or its parse throws. |
| `AppState.App.HandleUpdateStats` | App.tsx:45-48 | The in-memory record becomes the given record and the slot holds its serialization. No other storage key changes. |
| `AppState.App.SubmitFromPanel` | App.tsx:70 | Only in admin mode, which it keeps. A form submit that produces a record updates the tab and the slot with it; one that produces none changes neither. A disabled button or a negative count produces none and leaves the slot alone, with the error message set in the negative case. An enabled submit with non-negative counts publishes `{boys+girls, boys, girls, now}`, clears the error and raises the saved flag. The draft never changes. |
| `AppState.TwoTabs` | App.tsx:36-48 | A save in one tab reaches a second tab through the storage event, and a tab opened afterwards loads the saved record. |
| `AppState.EditFromDefault` | App.tsx:70 | An empty store shows the default record. In admin mode, typing `70` for boys and saving publishes total 150, boys 70, girls 80. |

## Left out

- Timestamp reconciliation, the URL snapshot token, the broadcast channel and periodic polling are not in the code, so they are not modelled.
- `Persistence.Lawful`: the JSON text format is not modelled. JSON is a pair of functions, and the round trip is a precondition of the lemmas that need it, not a proved fact.
- `AppState.InitialStats`: the parse is typed to give a record or fail. In the source, JSON.parse of text such as `null` or `42` succeeds with a value that is not a record, and that value becomes the tab's state unchecked.
- `Admin.FieldValue`: parseInt returns a double. Values beyond 2^53 are rounded, and numerals with over 20 significant digits may be approximated. The model keeps exact integers and identifies -0 with 0.
- `Admin.AdminPanel.HandleChange`: an input with a name other than `boys` or `girls` would add an extra property to the draft. The model leaves both counts unchanged and does not record the extra property.
- `AppState.App.HandleUpdateStats`: a setItem that throws, for example on a full quota, is not modelled. The in-memory record would already be updated in that case.
- `AppState.App.HandleStorage`: the escaping exception is recorded as the `Threw` effect. Its propagation to the page's error handler is not modelled.
- Query-string decoding (percent escapes, `+`) is not modelled. The query is given as a sequence of decoded name and value pairs.
- The 2500 ms delay of the saved-flag timer is not modelled, only its effect.
- React rendering, state batching, effect subscription and teardown are not modelled. The browser delivers the storage event only to tabs other than the writer; the scenario delivers it explicitly.
- The form takes a snapshot of the record when it is built and does not follow later changes of the tab's record. The model does the same.
- Navigation to the public view (AdminPanel.tsx:54) and date formatting are presentation only.
- `PublicDashboard.tsx` is presentation only; its percentage uses floating-point arithmetic.
- The insight service in `geminiService.ts` is a remote call and is not modelled. `InsightData` and `ViewMode` are not used by the modelled code.
