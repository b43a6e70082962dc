# Dream Fitness Gym — a model of the client-side member logic

The gym's web front end keeps a list of member records (name, age, contact
details, plan duration in months, payment mode with its UTR or receiver name,
amount, verified flag, joining date `DOJ` and `planStarted`). All rules the
front end enforces live in four React components. This project models them:

- **the member table**: six conjunctive filters over the list, the
  click-to-sort serial-number and name columns with their ascending/descending
  toggle, the "valid upto" date (`setMonth` on the joining date) and the
  delete dialog guarded by a PIN;
- **the dashboard**: total, male and female counts, the 12-bin plan-duration
  histogram, and the chart's list of non-empty labelled bins;
- **the registration form**: the next serial number (maximum plus one), the
  record it submits (the payment-mode companion field, `DOJ` and `planStarted`
  from one date) and the Zod schema that gates submission;
- **the member details page**: a state machine over `isEditing`,
  `showUpdateModal`, `pin` and `formData`. It covers loading, per-input
  coercion, edit, save, PIN confirmation with server success or failure, and
  cancel.

Modules:

| module | content |
|---|---|
| `Common` | `Option`, ASCII lower-casing, `String.prototype.includes`, and `parseInt` as section 21.1.2.13 of ECMA-262 defines it |
| `Dates` | calendar days as (year, 0-based month, day); the `MakeDay` normalisation of ECMA-262; a mutable `JsDate` class with `getMonth`/`setMonth` (section 21.4.4.25); the `yyyy-mm-dd` date-only format (section 21.4.1.32) and its parser |
| `Seqs` | `Array.prototype.filter`, subsequences, and a stable insertion sort standing for `Array.prototype.sort` |
| `Js` | JavaScript values and the plain object the forms build |
| `Validation` | a Zod object schema as a list of field rules, `safeParse`, and its issues |
| `Members` | the member record and the PIN constant |
| `MemberList`, `Dashboard`, `RegisterForm`, `MemberDetails` | one module per component; component state is a class whose fields are the `useState` variables |

Foreign behaviour is abstract:

- `localeCompare` is a function parameter `collate`. The name-sorting lemma assumes only that it is a total preorder (`IsCollation`).
- Zod's `.email()` is a predicate parameter `isEmail`.
- `toLocaleDateString('en-GB')` texts are compared as the calendar days they name.
- The current date is a parameter `today`.
- `window.confirm` is a boolean parameter.
- Each server call (`deleteMember`, `addMember`, `updateMember`) is a boolean saying whether it succeeds. The method returns the request it would send.

## Model

| member | source | states |
|---|---|---|
| Common.IncludesIff | src/ui/components/MemberList.tsx:34 | `includes` holds exactly when the query occurs at some index of the name |
| Common.ParseIntOfNatString | src/ui/components/MemberList.tsx:49 | parseInt reads a natural number's decimal text back, whatever non-alphanumeric text follows it |
| Dates.MakeDay | src/ui/components/MemberList.tsx:120 | the normalised date is always a real calendar day |
| Dates.MakeDayNumber | src/ui/components/MemberList.tsx:120 | the normalised day is the first of the carried month plus `day - 1` days, so months carry into years and days into months |
| Dates.CarryDaysNumber | src/ui/components/MemberList.tsx:120 | carrying a day month by month keeps its day number: the result lies `dt - 1` days after the first of the starting month |
| Dates.DayNumberInjective | src/ui/components/MemberList.tsx:124-126 | two valid days with the same day number are the same day |
| Dates.NormalizeValid | src/ui/components/MemberList.tsx:124-126 | a valid date is unchanged by normalisation |
| Dates.AddMonthsInMonth | src/ui/components/MemberList.tsx:118-122 | moving by `k` months lands on month `(m+k) mod 12` of year `y+(m+k) div 12` with the same day, when that day exists there |
| Dates.AddMonthsOverflow | src/ui/components/MemberList.tsx:118-122 | a day beyond the target month's length spills into the following month by the excess |
| Dates.AddMonthsCarry | src/ui/components/MemberList.tsx:119-120 | on a valid date, moving by `k` months is carrying day `d` of month `(m+k) mod 12` of year `y+(m+k) div 12` |
| Dates.JsDate.constructor | src/ui/components/MemberList.tsx:119 | `new Date(d)` holds the normalised day |
| Dates.JsDate.SetMonth | src/ui/components/MemberList.tsx:120 | the new day is `MakeDay(year, m, day)` of the old year and day |
| Dates.ParseIsoDateOfString | src/ui/components/RegisterForm.tsx:44 | a `yyyy-mm-dd` string made from a valid date parses back to that date |
| Seqs.FilterIsSubsequence | src/ui/components/MemberList.tsx:29-61 | a filtered list is an order-preserving subsequence of its input |
| Seqs.FilterFilter | src/ui/components/MemberList.tsx:32-50 | filtering twice is filtering once by the conjunction |
| Seqs.InsertionSortSorted | src/ui/components/MemberList.tsx:71-82 | under a strict order the sort yields no inverted pair and a permutation |
| Seqs.InsertionSortNoOrder | src/ui/components/MemberList.tsx:81 | a comparator that never says "before" leaves the list as it is |
| Js.Set | src/ui/components/MemberDetails.tsx:115-125 | the named property takes the new value and every other property is unchanged |
| Validation.Issues | src/ui/components/RegisterForm.tsx:74-79 | there are no issues exactly when every rule admits its field; each issue names a failing field |
| Validation.IssuesComplete | src/ui/components/RegisterForm.tsx:74-79 | every field whose rule fails is among the reported issues |
| Validation.SafeParseAppend | src/ui/components/MemberDetails.tsx:11-37 | a schema extended with more fields accepts exactly when both parts accept |
| Validation.MemberShapeIff | src/ui/components/RegisterForm.tsx:9-22 | the shared schema accepts exactly when each field meets its rule: numbers with their minima, string lengths, enums, and `.optional()` admitting only an absent value |
| MemberList.CalculateValidUpto | src/ui/components/MemberList.tsx:118-122 | the mutable-Date computation equals the start moved on by `duration` months; an invalid start stays invalid |
| MemberList.ValidUptoCalendar | src/ui/components/MemberList.tsx:118-122 | valid upto keeps the day in month `(m+d) mod 12` of year `y+(m+d) div 12`, or overflows into the next month |
| MemberList.KeepsIff | src/ui/components/MemberList.tsx:32-58 | a member is kept exactly when it passes each active filter: lower-cased name contains the lower-cased query; 'verified' keeps verified and any other value unverified; same gender; duration equals parseInt of the text; same joining day; same valid-upto day |
| MemberList.PassesJoined | src/ui/components/MemberList.tsx:52-54 | an active joining-date filter keeps a member exactly when the text parses to the normalised joining day |
| MemberList.PassesValidUpto | src/ui/components/MemberList.tsx:56-58 | an active valid-upto filter keeps a member exactly when the text parses to the joining day moved on by `duration` months |
| MemberList.DurationFilterOfNumeral | src/ui/components/MemberList.tsx:48-50 | a duration filter holding the numeral of `d` keeps exactly the members with duration `d` |
| MemberList.FilterMembersSubsequence | src/ui/components/MemberList.tsx:29-61 | the filtered list is an order-preserving subsequence of `members` |
| MemberList.FilterMembersMembership | src/ui/components/MemberList.tsx:29-61 | a member is in the filtered list exactly when it is in `members` and is kept |
| MemberList.FilterMembersNoFilter | src/ui/components/MemberList.tsx:29-61 | with every filter empty the list equals `members` |
| MemberList.ValidUptoFilterIgnoresPlanStarted | src/ui/components/MemberList.tsx:56-58 | the valid-upto filter does not read `planStarted` |
| MemberList.ValidUptoFilterDisagreesWithColumn | src/ui/components/MemberList.tsx:223-231 | a member whose filter date (2024-02-15, from `DOJ`) differs from its displayed valid upto (2024-04-01, from `planStarted`) |
| MemberList.ValidUptoFilterAgreesWhenStartedOnJoining | src/ui/components/MemberList.tsx:56-58 | when `planStarted` is the joining day, the valid-upto filter keeps a member exactly when its text names the day the column shows |
| MemberList.StageStep | src/ui/components/MemberList.tsx:32-58 | each `if (text) filtered = filtered.filter(...)` step turns the list after `n` filters into the list after `n+1` |
| MemberList.StageFirst | src/ui/components/MemberList.tsx:30 | the pipeline starts from `members` |
| MemberList.StageLast | src/ui/components/MemberList.tsx:60 | after all six steps the list is the conjunctive filter of `members` |
| MemberList.Narrow | src/ui/components/MemberList.tsx:32-58 | one filter step, proved to yield the next stage |
| MemberList.SortPermutation | src/ui/components/MemberList.tsx:71-82 | sorting returns a permutation of the shown list |
| MemberList.SortBySerial | src/ui/components/MemberList.tsx:72-75 | by serial number the list is non-decreasing ('asc') or non-increasing ('desc'), a missing serial counting as 0 |
| MemberList.SortByName | src/ui/components/MemberList.tsx:76-79 | by name, with a collation that is a total preorder, no later name sorts before an earlier one in the chosen direction |
| MemberList.SortByOtherField | src/ui/components/MemberList.tsx:81 | any other field leaves the order unchanged |
| MemberList.SortToggle | src/ui/components/MemberList.tsx:67-69 | a new field starts ascending; clicking the same field again flips the order |
| MemberList.MemberListView.constructor | src/ui/components/MemberList.tsx:15-27 | filters empty, list empty, no sort field, ascending, PIN empty, dialog closed |
| MemberList.MemberListView.RunFilterEffect | src/ui/components/MemberList.tsx:29-61 | the list becomes the conjunctive filter of `members` in original order, discarding any earlier sort; with `members` undefined it throws when a filter is active, and otherwise stores undefined |
| MemberList.MemberListView.ChangeFilter | src/ui/components/MemberList.tsx:155-189 | a toolbar input stores its text and reruns the filter effect: the list becomes the filter of `members`, stays as it was when the effect throws, and is undefined when `members` is undefined and no filter is active |
| MemberList.MemberListView.HandleSort | src/ui/components/MemberList.tsx:67-86 | `sortBy` records the field and the toggled order, and the list becomes the shown list sorted by them; an undefined list throws and nothing changes |
| MemberList.MemberListView.HandleDeleteClick | src/ui/components/MemberList.tsx:108-111 | remembers the member and opens the dialog |
| MemberList.MemberListView.SetPin | src/ui/components/MemberList.tsx:271-272 | stores the typed PIN only |
| MemberList.MemberListView.CancelDelete | src/ui/components/MemberList.tsx:283-288 | closes the dialog only |
| MemberList.MemberListView.ConfirmDeleteMember | src/ui/components/MemberList.tsx:88-102 | a delete is requested exactly when the PIN is '191800' and a member is remembered; success closes the dialog and clears the PIN and member; a wrong PIN or a failure changes nothing |
| Dashboard.Tally | src/ui/components/Dashboard.tsx:29-44 | the total is the list length, male plus female is at most the total, there are 12 bins and they sum to at most the total |
| Dashboard.GenderCountsBound | src/ui/components/Dashboard.tsx:29-30 | exact "male" and "female" matches together number at most the list length |
| Dashboard.BinsSum | src/ui/components/Dashboard.tsx:32-37 | the first `n` bins sum to the number of members with duration in `1..n` |
| Dashboard.HistogramSum | src/ui/components/Dashboard.tsx:34-36 | the bins sum to the number of members with duration in 1..12, which is at most the total |
| Dashboard.DurationCountAppend | src/ui/components/Dashboard.tsx:33-37 | one more member adds one to the count of its own duration only |
| Dashboard.HistogramAppend | src/ui/components/Dashboard.tsx:33-37 | one more member in range increments exactly its bin; out of range changes nothing |
| Dashboard.CountDurations | src/ui/components/Dashboard.tsx:32-37 | the in-place `forEach` over a 12-slot array yields the histogram: bin `i` counts members with duration `i+1` |
| Dashboard.StatsView.constructor | src/ui/components/Dashboard.tsx:20-25 | all counts zero, 12 zero bins |
| Dashboard.StatsView.OnQueryUpdate | src/ui/components/Dashboard.tsx:27-46 | statistics become the tally of `members` when present and not loading, and are unchanged otherwise |
| Dashboard.DurationLabelParses | src/ui/components/Dashboard.tsx:60 | the label is `n` followed by " Month" for 1 and " Months" above, and parseInt reads `n` back |
| Dashboard.DurationLabelInjective | src/ui/components/Dashboard.tsx:60 | different durations get different labels |
| Dashboard.FilteredDurationCountsSpec | src/ui/components/Dashboard.tsx:59-61 | the labelled bins are exactly the non-zero bins, each with its count and its duration's label, in strictly ascending duration order |
| Dashboard.FilteredDurationCountsMembership | src/ui/components/Dashboard.tsx:59-61 | a (count, label of `d`) pair appears exactly when bin `d` is non-zero and holds that count |
| Dashboard.PlanDataAligned | src/ui/components/Dashboard.tsx:63-70 | labels and data have the same length, and the i-th label names the bin whose count is the i-th datum |
| RegisterForm.MaxSerial | src/ui/components/RegisterForm.tsx:48 | the maximum of `serialNumber \|\| 1` bounds every member's and is attained |
| RegisterForm.NextSerialFresh | src/ui/components/RegisterForm.tsx:46-51 | the new serial exceeds every existing one by at least one, is one more than some member's, and is at least 2 when some serial is positive |
| RegisterForm.RecordCompanionFields | src/ui/components/RegisterForm.tsx:67-68 | `utr` is present exactly for "upi" and `receiverName` exactly for "cash", each with the typed text |
| RegisterForm.TypedAgeIsSent | src/ui/components/RegisterForm.tsx:61 | the age sent is `parseInt` of the typed text: a decimal numeral goes out as its value and an empty age as NaN |
| RegisterForm.RecordDatesAgree | src/ui/components/RegisterForm.tsx:70-71 | `DOJ` and `planStarted` are the same date, parsed from the one joining-date input |
| RegisterForm.RegisterAcceptedIff | src/ui/components/RegisterForm.tsx:74-80 | the schema accepts the record exactly when name is non-empty, age ≥ 1, the email passes, gender and payment mode are in their enums, phone has 10..15 characters, emergency contact ≥ 10, duration ≥ 1, amount non-empty, the serial is a number and the joining date parses |
| RegisterForm.RegisterSchemaIff | src/ui/components/RegisterForm.tsx:8-23 | the registration schema accepts an object exactly when the shared shape holds and `DOJ` is a valid Date |
| RegisterForm.RecordShape | src/ui/components/RegisterForm.tsx:56-72 | the shared shape check of the built record, field by field in terms of the inputs |
| RegisterForm.EmptyEmailRejected | src/ui/components/RegisterForm.tsx:13 | an empty email is sent as `""`, which `.optional()` does not excuse, so it is rejected |
| RegisterForm.ShortEmergencyContactRejected | src/ui/components/RegisterForm.tsx:17 | an emergency contact shorter than 10 characters, including an empty one, is rejected |
| RegisterForm.ScheduleAndCompanionUnchecked | src/ui/components/RegisterForm.tsx:18-21 | an accepted record stays accepted with any duration ≥ 1 and with empty UTR and receiver name |
| RegisterForm.RegisterFormView.constructor | src/ui/components/RegisterForm.tsx:30-44 | not loading; every text empty, serial and duration 0, joining date today's `yyyy-mm-dd` |
| RegisterForm.RegisterFormView.OnMembersChanged | src/ui/components/RegisterForm.tsx:46-51 | a non-empty list sets the serial to max + 1; an empty or missing list changes nothing |
| RegisterForm.RegisterFormView.Change | src/ui/components/RegisterForm.tsx:106-262 | one input's setter: serial and duration store parseInt of the text, others the text |
| RegisterForm.RegisterFormView.ChangeText | src/ui/components/RegisterForm.tsx:106-262 | a text input's setter stores the text as typed in its own field only |
| RegisterForm.RegisterFormView.HandleSubmit | src/ui/components/RegisterForm.tsx:53-91 | the reported issues are the schema's; the record is sent exactly when the schema accepts it; `loading` stays true after a rejection and is false after the call; navigation exactly on success |
| MemberDetails.UpdateAcceptedIff | src/ui/components/MemberDetails.tsx:11-37 | the update schema accepts exactly when the shared shape holds, `verified` is a boolean and `planStarted` is a string that parses as a date |
| MemberDetails.FormWithShapeIff | src/ui/components/MemberDetails.tsx:91-113 | a loaded form meets the shared shape exactly when the member is updatable |
| MemberDetails.LoadedFormWithAcceptedIff | src/ui/components/MemberDetails.tsx:91-113 | with a parseable plan-start text, a loaded form is accepted exactly when the member is updatable |
| MemberDetails.LoadedFormAcceptedIff | src/ui/components/MemberDetails.tsx:91-113 | saving an unedited loaded form passes validation exactly when the member is updatable |
| MemberDetails.FormPlanStartedParses | src/ui/components/MemberDetails.tsx:108-110 | the plan-start text (the member's, or today) parses back as that day |
| MemberDetails.MissingEmailBlocksUpdate | src/ui/components/MemberDetails.tsx:97 | a member stored without email is shown `""` and can not be saved |
| MemberDetails.EditedAmountRejected | src/ui/components/MemberDetails.tsx:425-433 | the amount input is a number input, so any edit of it makes the form unacceptable |
| MemberDetails.NumberInputStoresValue | src/ui/components/MemberDetails.tsx:115-125 | a decimal numeral typed into a number input or the duration select is stored as its number; an emptied one as `""` |
| MemberDetails.AcceptedPlanStartIsDate | src/ui/components/MemberDetails.tsx:145-150 | for an accepted form the `planStarted` sent is a valid date |
| MemberDetails.DateValueOfIsoString | src/ui/components/MemberDetails.tsx:148 | `new Date` of a valid day's `yyyy-mm-dd` text holds that day |
| MemberDetails.MemberDetailsView.constructor | src/ui/components/MemberDetails.tsx:70-89 | not editing, modal closed, PIN empty, the zero form with today's plan start |
| MemberDetails.MemberDetailsView.OnMemberLoaded | src/ui/components/MemberDetails.tsx:91-113 | a loaded member replaces the form by the member-to-form mapping; nothing else changes |
| MemberDetails.MemberDetailsView.HandleChange | src/ui/components/MemberDetails.tsx:115-125 | only the named property changes, to the coerced value |
| MemberDetails.MemberDetailsView.ToggleVerified | src/ui/components/MemberDetails.tsx:448-462 | while editing, `verified` becomes `checked`; otherwise the disabled checkbox changes nothing |
| MemberDetails.MemberDetailsView.UserInput | src/ui/components/MemberDetails.tsx:216-445 | typing reaches `handleChange` only while editing, never for the read-only serial number, and for `utr`/`receiverName` only in their payment mode |
| MemberDetails.MemberDetailsView.SetPin | src/ui/components/MemberDetails.tsx:509-514 | stores the PIN only |
| MemberDetails.MemberDetailsView.HandleEdit | src/ui/components/MemberDetails.tsx:164-167 | only sets `isEditing` |
| MemberDetails.MemberDetailsView.HandleSave | src/ui/components/MemberDetails.tsx:127-130 | only opens the modal |
| MemberDetails.MemberDetailsView.CloseModal | src/ui/components/MemberDetails.tsx:524-530 | only closes the modal |
| MemberDetails.MemberDetailsView.HandleConfirmUpdate | src/ui/components/MemberDetails.tsx:132-162 | a wrong PIN sends nothing and changes nothing; with the right PIN the issues are the schema's, and the update is sent exactly when the schema accepts, with `planStarted` as a date; success stops editing, closes the modal, clears the PIN and navigates; failure closes the modal and clears the PIN but keeps `isEditing` |
| MemberDetails.MemberDetailsView.HandleCancel | src/ui/components/MemberDetails.tsx:169-198 | a confirmed cancel stops editing and, with a member present, resets the form by the same mapping as on load; otherwise nothing changes |

## Left out

- `isExpiringSoon` (row highlighting). It reads the wall clock, takes the floating-point ceiling of millisecond differences, and re-parses an 'en-GB' text with implementation-defined `Date.parse`.
- `handleUpgradeClick`. It is identical to `handleDeleteClick` and nothing calls it.
- `handlePreview`, the invoice modal, the Excel download and PDF generation. These are calls into document libraries.
- The plan-renewal forms (`UpdateForm`, `UpdatePlan`) and the older copies under `src/components/`. The renewal forms post to an endpoint that the API slice does not export. The older copies are superseded by the `src/ui/components` versions.
- Server routes, MongoDB persistence, the email route, the RTK Query cache and its refetching. These are I/O.
- Toasts, router navigation (a boolean result), the loader and all rendering other than which inputs are read-only or shown.
- The gender pie chart data (`genderData`). It only copies the two counts.
- HTML `required` attributes and the browser's constraint validation. These could stop a submit before the handlers run.
- Time zones. Every date is a UTC calendar day, so `toISOString().split("T")[0]` and `toLocaleDateString` name the same day.
- `toLocaleDateString` text. It is modelled as the calendar day it names, with "Invalid Date" equal to itself.
- Date values beyond the ECMAScript time range (±8.64e15 ms) and times of day. A date is a day triple.
- Common.ToLower: lower-cases ASCII letters only, not the full Unicode case mapping of `toLowerCase`.
- String lengths count code points, not UTF-16 code units.
- Dates.ParseIsoDate: accepts only the `yyyy-mm-dd` date-only form and rejects impossible days. `Date.parse` also accepts implementation-specific formats, and browsers differ on rollover. The date inputs always produce this form.
- Common.ParseInt: yields an unbounded integer. It does not model rounding to a double for numerals above 2^53, or `Infinity`.
- JS numbers are integers or NaN. The components only store parseInt results and integer fields.
- Validation.Issues: reports the failing field's key, not Zod's message text. The contract says which fields are reported, not the order or the multiplicity of the issues.
- MemberList.FilterMembers: models `filterDOJ` and `filterValidUpto` as strings. The page renders no input for them (`MemberListView.Valid` keeps them empty); the model still covers them through `Filters`.
- Dates.JsDate: holds a valid day only, never an invalid Date. `CalculateValidUpto` returns early for an invalid start, which `toLocaleDateString` would print as "Invalid Date".
- MemberList.SortMembers: uses a stable insertion sort. For comparators that are not consistent orders, the arrangement `Array.prototype.sort` produces is implementation-defined.
