# Gym sign-in and milestone bookkeeping, modelled in Dafny

The server (`index.js`) records class sign-ins for a martial-arts gym in a document
store and keeps per-user gi / no-gi class counters. This project models the store as
a `Store` class with two collections, and its three request handlers as methods on it:

- **POST /signins** (`Server.Store.RecordSignIn`): overwrites the document
  `class_signins/<today>/<className>/<uid>`. It then classifies the class name
  case-insensitively: containing `no-gi` beats containing `gi`, which beats neither.
  It merge-writes only the counter that moved into `users/<uid>`. The server's date
  `today` is a parameter.
- **GET /signins/:date** (`Server.Store.SignInsOn`): groups the date's documents by
  class collection into a map.
- **GET /milestones** (`Server.Store.ScanMilestones`): walks the users in enumeration
  order. A user fires when `giCount + nogiCount` (missing fields count as 0) is above
  `totalMilestone` (missing is 0) and is a multiple of 25. Each firing user yields an
  event and has `totalMilestone` set to the total straight away.

Modules:

- `Wrappers` holds `Option`, for absent fields and documents.
- `Text` holds ASCII lower-casing and substring search, proved equal to a reference
  definition of containment.
- `Profiles` holds the user document, the merge-write, the classifier and the counter update.
- `Milestones` holds the firing test, the events and the acknowledgement.
- `Tables` holds document lookup and the enumeration order of a collection.
- `SignIns` holds sign-in documents and the per-date grouping.
- `Server` holds the `Store` class.

Each collection is a `map` plus a sequence that fixes the order in which the store
lists its documents. Every key appears in that sequence exactly once, and a new
document goes last. Counters are `Option<nat>`, with `None` meaning the field is absent.

Points where the code's behaviour is easy to misread:

- A sign-in to a class that contains neither marker still issues `set({}, {merge: true})`.
  On a user with no document, this creates an empty document (`SignInUntracked`).
- One would expect `totalMilestone <= giCount + nogiCount` to hold for every user. The
  scan itself enforces it only for the users it fires for; a stored `totalMilestone` above
  the total is left alone (`AfterCheckEffect`). From an empty store, however, the handlers
  never break it: `RecordSignIn` and `ScanMilestones` both preserve it for the whole user
  table (`Milestones.AllBounded`). It can fail only for data written into the store by
  something other than these handlers.
- The sign-in handler reads counters with `|| 0` and the scan with `?? 0`. On absent or
  natural-number fields these agree, and the model has no other kind of field.

## Model

| member | source | states |
|---|---|---|
| Text.Lower | index.js:117-119 | lower-casing keeps the length and folds each character on its own; A-Z map to a-z and nothing is left upper-case |
| Text.Includes | index.js:117-119 | `includes` is true exactly when the pattern occurs at some position of the string |
| Text.OccursTransitive | index.js:117-120 | a string containing a pattern contains every substring of that pattern |
| Profiles.Merge | index.js:123 | a merge-write replaces exactly the carried fields and keeps name, email and every field not carried; carrying nothing changes nothing |
| Profiles.MergeIdempotent | index.js:123 | repeating a merge-write with the same fields changes nothing more |
| Profiles.SetMerge | index.js:123 | a merge-write to an absent user creates a document with no name or email, whose counters and totalMilestone are exactly the carried ones; an existing document is merged into |
| Profiles.Classify | index.js:117-121 | no-gi exactly when the lower-cased name contains "no-gi"; gi exactly when it contains "gi" but not "no-gi"; untracked otherwise |
| Profiles.NoGiAlsoMatchesGi | index.js:117-120 | every no-gi class name also contains "gi", so testing no-gi first is what keeps no-gi classes off the gi counter |
| Profiles.SignInNoGi | index.js:117-118 | a no-gi class raises nogiCount by one over its old value (absent counts as 0) and changes no other field, giCount included |
| Profiles.SignInGi | index.js:119-120 | a gi class that is not no-gi raises giCount by one and changes no other field, nogiCount included |
| Profiles.SignInUntracked | index.js:115-123 | a class with neither marker leaves an existing user document unchanged and gives an absent user an empty document |
| Profiles.FirstGiSignIn | index.js:111-113 | with no user document, a gi sign-in yields a document whose only field is giCount = 1 |
| Profiles.NoGiPrefixIsNoGi | index.js:117-118 | every class name beginning "No-Gi" counts as no-gi |
| Profiles.NoGiOpenMatIsNoGi | index.js:117-118 | "No-Gi Open Mat" counts as no-gi, not gi |
| Profiles.BeginnerIsGi | index.js:119-120 | "Beginner" counts as gi, because matching is on substrings |
| Profiles.OpenMatIsUntracked | index.js:117-121 | "Open Mat" moves no counter |
| Profiles.ReplayCounts | index.js:107-123 | after a series of sign-ins, giCount and nogiCount have risen by exactly the number of gi and of no-gi class names in it, and together by at most its length |
| Profiles.ReplayKeepsOtherFields | index.js:123 | sign-ins never change displayName, email or totalMilestone |
| Milestones.EventFor | index.js:70-74 | an event carries the fixed label and the user's total; its name is displayName, or email when displayName is absent |
| Milestones.FiresOnlyOnPositiveMultiples | index.js:64-69 | a user fires only with a positive multiple of 25; a total of 0 never fires |
| Milestones.AfterCheckEffect | index.js:69-78 | a firing user gets totalMilestone = total and nothing else; any other user is unchanged; totals are kept and totalMilestone never decreases |
| Milestones.AfterCheckQuiet | index.js:67-77 | a user just acknowledged does not fire again |
| Milestones.AfterScan | index.js:59-79 | the scan neither adds nor removes users |
| Milestones.ScannedStep | index.js:62-78 | looking at the current user appends its event exactly when it fires, and the acknowledgement write extends the users looked at by that one user, leaving every later user as read |
| Milestones.ScannedAll | index.js:62-79 | once every listed user has been looked at, the user table is the snapshot with each firing user acknowledged, and each user that fired has totalMilestone equal to its total |
| Milestones.ScanEventsAppend | index.js:62-79 | events follow user enumeration order: scanning one list then another gives the events of the first followed by those of the second |
| Milestones.ScanEventsMembers | index.js:62-75 | an event is returned exactly when some listed user fires with that event |
| Milestones.ScanEventsWellFormed | index.js:69-74 | every returned event has the fixed label and a positive multiple of 25 as its count |
| Milestones.RescanIsQuiet | index.js:62-78 | a scan right after a scan returns no events |
| Milestones.AfterScanIdempotent | index.js:76-77 | a second scan changes no user document |
| Milestones.TwentyFiveClassesScenario | index.js:64-77 | 12 gi plus 13 no-gi with nothing acknowledged gives one event with count 25 and totalMilestone 25, and then an empty rescan |
| Milestones.SignInRaisesTotal | index.js:111-123 | a sign-in never lowers a user's total and never changes totalMilestone |
| Milestones.HappeningRaisesTotal | index.js:64-123 | neither a sign-in nor a scan lowers a user's total |
| Milestones.PassedThresholdNeverAnnounced | index.js:64-77 | once a user's total is above m, no series of later sign-ins and scans announces m for that user: every later event of theirs is above m |
| Milestones.SkippedThresholdNotAnnounced | index.js:69 | a total that jumped from 20 to 30 does not fire at 30, and no later scan ever announces 25 for that user |
| Milestones.SignInKeepsBounded | index.js:111-123 | a sign-in keeps totalMilestone at or below the total, and a new user starts within the bound |
| Milestones.SignInWriteKeepsBounded | index.js:107-123 | if every user is within the bound, every user still is after a sign-in's write |
| Milestones.AfterCheckKeepsBounded | index.js:69-77 | looking at a user keeps totalMilestone at or below the total |
| Milestones.AfterScanKeepsBounded | index.js:62-78 | if every user is within the bound before a scan, every user is after it |
| Tables.Get | index.js:108-111 | a document read yields a value exactly when the document exists, and that value is the stored one |
| Tables.Enrol | index.js:95-105 | writing a document keeps the existing enumeration order as a prefix, lists the written key, adds no other key and repeats no key |
| Tables.EnrolEnumerates | index.js:95-105 | after a write, the enumeration still lists every document of the collection exactly once |
| SignIns.ClassesOn | index.js:40-43 | the class collections under a date are listed once each, and are exactly the class names with a document on that date |
| SignIns.RecordsOfMembers | index.js:44-46 | a record is listed for (date, class) exactly when it is the document of some user in that class on that date |
| SignIns.RecordedIsListed | index.js:44-46 | every stored sign-in document is listed by the query for its date and class |
| SignIns.RecordsOfCount | index.js:44-46 | over a repetition-free listing, the records of (date, class) number exactly the listed documents of (date, class): none twice, none missing |
| SignIns.RecordsOfStoredCount | index.js:44-46 | the query lists exactly one record per stored document of (date, class) |
| SignIns.RecordThenQuery | index.js:95-105 | after a sign-in is written, its date lists its class, and that class lists the submitted record |
| SignIns.RecordThenQueryCount | index.js:95-105 | after a sign-in is written, its class lists one more record if the user had none there that day, and the same number otherwise: a repeat sign-in replaces the old record |
| Server.Store.constructor | index.js:28 | the store starts with no sign-ins and no users |
| Server.Store.RecordSignIn | index.js:89-123 | the sign-in at (today, className, uid) is replaced by the submitted record and every other sign-in is kept; the user document becomes the one-counter update of its old value and every other user is kept; if no user had totalMilestone above their total, none has afterwards |
| Server.Store.SignInsOn | index.js:34-49 | the keys of the result are exactly the class names with a sign-in on the date, each listing that class's records, exactly one per stored document, none empty; a date without sign-ins gives the empty map |
| Server.Store.ScanMilestones | index.js:57-81 | the events are those of the firing users in enumeration order; the user table becomes the snapshot with each firing user acknowledged; each user that fired has totalMilestone equal to its total; the bound totalMilestone <= total is kept; sign-ins and the user order are untouched |

## Left out

- Credential loading, `process.exit` and the two `initializeApp` calls (index.js:5-28): process start-up and a foreign SDK.
- Express routing, JSON body parsing, CORS, status codes, response bodies, logging and `app.listen` (index.js:30-31, 49-53, 81-85, 125-134): HTTP plumbing. The handlers return their payload as a value.
- The wall clock and date formatting at index.js:91: `today` is a parameter of `RecordSignIn`.
- Timestamp parsing (`new Date(...)`, `Timestamp.fromDate`, index.js:104): the timestamp is stored as the value submitted. A parse failure is not modelled.
- Class names, uids and query dates that the store does not take as one plain path segment (index.js:39, 95-99, 108): the model treats every string as one plain segment. The store's own path rules are not modelled:
  - It rejects an empty id, an id with an inner `/` that leaves the path one segment short or long, an id holding `//`, and the reserved ids `.`, `..` and `__…__`. A sign-in with such a class name or uid fails with nothing written and no counter moved; the model records and counts it ("Gi/No-Gi", for one, counts as no-gi).
  - It strips a leading or trailing `/`, so the class names "Gi/" and "/Gi" name the class "Gi" and the uid "u1/" names the user "u1". Such a sign-in overwrites that day's "Gi" record of the user and is listed under "Gi"; the model keeps "Gi/" as a class of its own and leaves the "Gi" record in place.
  - It places a class name with two inner `/` at a deeper path, under a document that does not exist. The date query lists that name's first segment with an empty array; `SignInsOn` never returns an empty list, and lists the whole name with its record.
  - A query date with an inner `/` makes the date lookup fail and GET /signins/:date answer 500; `SignInsOn` returns the empty map for it.
- Store failures, the resulting 500 responses, and the partial state they leave (the try/catch blocks at index.js:38-53, 58-85, 93-129): every store operation succeeds in the model.
- Concurrency: the lost counter update between concurrent sign-ins, and duplicate events from concurrent scans, arise from interleaving requests. Each method runs as one sequential step.
- Text.Lower: folds ASCII letters only; JavaScript's `toLowerCase` also folds non-ASCII letters.
- Enumeration order: the store's real listing order (by document id) is not modelled. Each collection carries its own fixed order, with new documents last.
- Field values that are not absent and not natural numbers (strings, negative or fractional numbers) are not modelled: counters and `totalMilestone` are `Option<nat>`.
- Sign-in documents do not carry a user id in the query result, as `doc.data()` does not; the per-user view of a class is available through `signins` directly.
