# KolConnection job board — a Dafny model of its client-side core

KolConnection is a browser-only job board. Seekers apply to jobs, posters
review applications and send offers, seekers accept or decline them, and an
admin screen keeps users, categories and packages. Everything lives in
`localStorage`; every handler reads a stored list, changes it, and writes it
back.

This project models that core. It covers `script.js` (the workflow
handlers, the job list and the helpers they use) and `admin.js` (the admin
screen). Each stored list is a field of a class. Each handler is a method
whose new state is a function of the old one. The properties live in lemmas
about those functions.

| file | module | what it holds |
|---|---|---|
| `seqs.dfy` | `Seqs` | `Option`, `findIndex` (`FirstIndex`), `filter` (`Filter`) |
| `text.dfy` | `Text` | `String.prototype.trim` over the ECMAScript white-space set, `split`/`join`, `split('\n').filter(Boolean)`, `getEmailName` |
| `forms.dfy` | `Forms` | `validateRequired`, as a loop |
| `pdfmap.dfy` | `PdfMap` | the per-address PDF map of `persist` |
| `paging.dfy` | `Paging` | `Array.prototype.slice`, the nine-per-page pager (`Pager`) |
| `suggest.dfy` | `Suggest` | the category-counting loop and the top-six ranking |
| `jobs.dfy` | `Jobs` | job records, `fetchJobs`, the job-post form, `tcv_jobs_local` |
| `workflow.dfy` | `Workflow` | applications, offers, logs; apply, reject, delete with the offer cascade, send, accept/decline as functions, with their lemmas |
| `store.dfy` | `Board` | the `Store` class over `tcv_applications` and `tcv_offers`, one method per handler |
| `admin.dfy` | `Admin` | `seedIfEmpty`, the user/category/package lists (`AdminStore`), booking statistics |

Conventions:
- Strings are `seq<char>`.
- A missing or `null` value of a string field, such as no signed-in address or a cancelled `prompt`, is the empty string, which the source treats the same way (both are falsy).
- A stored key that holds nothing is `None`. An absent key reads as `[]`.
- `Date.now()` values and ids built from them are parameters.

## Where the code and the intended workflow differ

The model follows the code as written:
- A reject does not look at the current status. When the record is already offered, accepted or declined, it becomes `rejected` anyway (`Workflow.RejectEffect`).
- Sending an offer stores it even when no application has the key, and then leaves the applications alone (`Workflow.SendOfferEffect`). The price field is only checked for blankness.
- The delete cascade cancels every offer with the key, declined and accepted ones included (`Workflow.CascadeEffect`).
- Accept and decline do not check that the offer is still `sent`. The seeker's page shows the two buttons only for a `sent` offer (script.js:1103), so a cancelled or already answered offer is answered again only from a page rendered before the offer changed.
- An answer updates the first application for the offer's job, candidate and poster that is linked to this offer or to no offer (`!a.offerId`, so an id of 0 counts as none). Nothing keeps an application's `offerId` pointing at an offer that exists.
- `fetchJobs` returns the built-in jobs alone when the server answers with a non-ok status, so locally posted jobs disappear from the list in that case; a failed request still lists them (`Jobs.PostedJobListed`).
- The job-post form requires a category but does not store it, so posted jobs never contribute to the suggested categories.
- `seedIfEmpty` seeds only a key that holds nothing. A stored empty list is kept, so "empty" means absent.
- The admin lists build their buttons inside nested template literals with `\\"`, which leaves a backslash before each quote in the HTML (admin.js:37, 107, 119). Read that way, the class attribute is `\"btn`, so `.btn-edit`, `.btn-del`, `.btn-lock`, `.btn-del-cat` and `.btn-del-pack` select nothing and the edit, delete, lock and the two other delete handlers cannot be reached from the page. This is an observation on the source text, not executed; the model gives those handlers' logic as written.

## Model

| member | source | states |
|---|---|---|
| `Seqs.FirstIndex` | script.js:929 | `findIndex`: -1 exactly when no element passes; otherwise the element passes and none before it does |
| `Seqs.Filter` | script.js:948 | `filter`: only passing elements, each as often as in the input (none of the failing ones), in their old order |
| `Seqs.FilterMembership` | script.js:948 | an element is in the filtered list exactly when it is in the list and passes |
| `Seqs.FilterAllKept` | script.js:948 | a filter that every element passes returns the list unchanged |
| `Text.TrimIsCore` | script.js:50 | `trim` returns a contiguous piece of the string with only white space cut on either side, and the piece neither starts nor ends with white space |
| `Text.TrimEmptyIffBlank` | script.js:50-51 | `!value.trim()` holds exactly when the value is all white space |
| `Text.TrimIdempotent` | script.js:50 | trimming twice is trimming once |
| `Text.Split` | script.js:726 | `split` on one character: at least one piece, no piece holds the separator, joining the pieces gives the string back |
| `Text.SplitJoin` | script.js:726 | splitting a join of separator-free pieces gives the pieces back |
| `Text.JoinStartsWithFirst` | script.js:42 | the first piece is a prefix of the join, followed by the separator when there are more |
| `Text.Lines` | script.js:726-728 | `split('\n').filter(Boolean)`: every line is non-empty and holds no line feed; the lines are the non-empty pieces of the split, all of them, in order |
| `Text.LinesOfJoin` | script.js:726-728 | non-empty lines without line feeds, written one per line, read back as the same lines |
| `Text.LocalPart` | script.js:42 | `email.split('@')[0]` is a prefix without `@`, ending at the first `@` or the end |
| `Text.EmailName` | script.js:40-45 | `getEmailName` is empty exactly for the empty address; an address starting with `@` comes back as it is; an address without `@` comes back with its first letter upper-cased |
| `Text.EmailNameOfAddress` | script.js:40-45 | for `name@domain` with a non-empty name, the result is the name with its first letter upper-cased |
| `Forms.ValidateRequired` | script.js:47-58 | one flag per field, set exactly on the blank fields; the answer is true exactly when no field is blank |
| `PdfMap.Save` | script.js:96-102 | the address gets the new document; every other address keeps its own |
| `PdfMap.Remove` | script.js:111-117 | the address is dropped and the others are kept |
| `PdfMap.LoadAfterSave` | script.js:96-110 | a load after a save returns the saved document (none for an empty one); other addresses are unaffected |
| `PdfMap.LoadAfterRemove` | script.js:103-117 | after a remove the address has no document, the others keep theirs, and removing twice is removing once |
| `PdfMap.RemoveAfterSave` | script.js:96-117 | a remove after a save undoes the save entirely |
| `Paging.SliceBound` | script.js:605 | a `slice` bound counts from the end when negative, is kept when within the list, and a bound past the end becomes the length |
| `Paging.JsSlice` | script.js:605 | `slice(start, end)` within bounds is the plain subsequence |
| `Paging.JsSliceLength` | script.js:605 | a slice with `start <= end` never holds more than `end - start` items, nor more than the list |
| `Paging.TotalPages` | script.js:635 | at least one page, enough pages for every item, and no empty page to spare |
| `Paging.PageItems` | script.js:604-605 | a page shows at most nine items |
| `Paging.PageItemsWindow` | script.js:604-605 | each page from 1 to the last shows the items from its start up to nine more or the end, and is non-empty when the list is |
| `Paging.PagesCoverData` | script.js:604-635 | item `i` appears on page `i / 9 + 1` at position `i % 9`, and that page exists |
| `Paging.Follow` | script.js:649 | prev and next move by at most one and stay within `1..totalPages`; prev changes nothing exactly on page 1, next exactly on the last page; a number jumps to that number |
| `Paging.Pager.constructor` | script.js:600 | the state starts on page 1 with no data |
| `Paging.Pager.Items` | script.js:604-605 | the current page never shows more than nine cards |
| `Paging.Pager.Load` | script.js:656 | the loaded jobs become the data and the page is not reset; page 1 stays valid whatever is loaded |
| `Paging.Pager.Click` | script.js:646-650 | the new page is the link's target; a valid page stays valid after prev, next or a rendered page number |
| `Suggest.UniqMembers` | script.js:533-537 | a category is a Map key exactly when some job has it and it is not blank |
| `Suggest.UniqDistinct` | script.js:533-537 | no category is a key twice |
| `Suggest.KeyIndex` | script.js:536 | `map.get`: where the key is, or a sign that it is absent |
| `Suggest.TallyStep` | script.js:533-536 | one loop step keeps the keys in first-appearance order and every count equal to the number of jobs seen with that category |
| `Suggest.CountCategories` | script.js:532-537 | the Map's keys are the distinct non-blank trimmed categories in first-appearance order, and each count is how many jobs carry that category |
| `Suggest.CountedKeys` | script.js:532-537 | keys are distinct; a category is a key exactly when some job has it trimmed and non-blank; every count is positive |
| `Suggest.Insert` | script.js:538 | inserting adds exactly the one entry and starts with it or with the old first entry |
| `Suggest.InsertSorted` | script.js:538 | inserting into a list ranked by count keeps it ranked |
| `Suggest.Ranked` | script.js:538 | the sorted entries are a permutation of the Map's, most frequent first |
| `Suggest.TopCategories` | script.js:538 | `slice(0, 6)`: six names, or all when fewer, in ranked order |
| `Suggest.TopAreMostFrequent` | script.js:538 | every shown category's count is at least that of any category left out |
| `Jobs.FetchJobs` | script.js:204-216 | not ok: the built-in jobs alone; otherwise the local jobs first, then the file's jobs when it holds a non-empty list, else the built-in ones; never empty |
| `Jobs.PostedJobListed` | script.js:204-216 | a locally posted job is listed whenever the server did not answer with a non-ok status (a failed request included); after a non-ok answer it is listed only if it is also a built-in job |
| `Jobs.FindJob` | script.js:334 | `jobs.find` by id: the first job with that id, or none exactly when no job has it |
| `Jobs.PosterEmailOf` | script.js:335 | the job's poster address when it has one, else its contact's address, and empty for no job or a job with neither |
| `Jobs.JobFromForm` | script.js:718-732 | the posted job's fields: trimmed title, location and salary; the stated defaults for company, type and contact name; description, requirements and benefits as their non-empty lines; the trimmed cover image; no category |
| `Jobs.LocalJobs.constructor` | script.js:734 | an absent `tcv_jobs_local` reads as the empty list |
| `Jobs.LocalJobs.Post` | script.js:714-737 | stored exactly when title, category and description are filled in; the new job goes in front |
| `Jobs.LocalJobs.Delete` | script.js:859-867 | no local job keeps the id; every other job stays |
| `Workflow.MatchIndex` | script.js:929 | the first application for candidate, job and signed-in poster, or -1 when there is none |
| `Workflow.EvolvedOnePerJob` | script.js:337-341 | any step that only changes status, offer link and log keeps one application per candidate and job |
| `Workflow.UpdateEvolves` | script.js:931-934 | changing one record's status, link and log in place, with entries only added in front, is such a step |
| `Workflow.NewApplication` | script.js:342-352 | the new record is `applied`, with no offer and an empty log |
| `Workflow.ApplyEffect` | script.js:337-353 | afterwards the candidate has applied; a duplicate changes nothing; otherwise exactly the new record is in front and the old list follows unchanged |
| `Workflow.ApplyOnePerJob` | script.js:337-342 | the duplicate check keeps one application per candidate and job |
| `Workflow.ApplyTwice` | script.js:337-341 | a second apply for the same candidate and job is refused |
| `Workflow.RejectEffect` | script.js:929-935 | the first matching record becomes `rejected` from any status, with one `application_rejected` entry by the poster added in front of its log and every other field, the offer link included, kept; every other record is unchanged |
| `Workflow.RejectNoMatch` | script.js:929-930 | with no matching record a reject changes nothing |
| `Workflow.RejectEvolves` | script.js:929-935 | a reject keeps every record, in order, and only grows logs |
| `Workflow.DeleteEffect` | script.js:948 | no record for the key is left; every other record is kept, in order |
| `Workflow.FilterOnePerJob` | script.js:948 | a delete keeps one application per candidate and job |
| `Workflow.CascadeEffect` | script.js:954-960 | every offer with the key becomes `cancelled` whatever it was, declined and accepted ones included; the others and all other fields are untouched; a second cascade changes nothing |
| `Workflow.CascadeChanges` | script.js:953-961 | when no offer has the key, the cascade leaves the offers as they are, so skipping the write loses nothing |
| `Workflow.NewOffer` | script.js:981 | a new offer is `sent`, has the trimmed note and the id `createdAt`, and carries the key |
| `Workflow.SendOfferEffect` | script.js:979-983 | a blank price or note changes nothing; otherwise one `sent` offer goes in front of the old ones, with or without an application; without one the applications are unchanged |
| `Workflow.SendOfferAppEffect` | script.js:985-993 | the first matching application becomes `offered`, is linked to the offer and gets one `offer_sent` entry with price and note, and keeps every other field; no other record changes |
| `Workflow.SendOfferEvolves` | script.js:985-993 | a send keeps every record, in order, and only grows logs |
| `Workflow.OfferIndex` | script.js:1129 | the first offer with the id, job and candidate, or -1 exactly when no offer has them |
| `Workflow.AnswerIndex` | script.js:1136 | the first application for job, candidate and the offer's poster that is linked to the offer or to none |
| `Workflow.AnswerOfferEffect` | script.js:1129-1141 | when no offer has the id, job and candidate, neither collection changes; when an offer matches but no application answers it, the applications stay as they were; otherwise that offer takes the answer's status (`accepted` or `declined`, as in lines 1153-1161) from any status, and no other offer changes |
| `Workflow.AnswerAppEffect` | script.js:1135-1141 | the answering application becomes `offered-accepted` or `offered-declined`, with one entry by the seeker in front of its log and every other field, the offer link included, kept; no other record changes |
| `Workflow.AnswerEvolves` | script.js:1135-1141 | an answer keeps every record, in order, and only grows logs |
| `Workflow.SendLinks` | script.js:985-993 | after a send, the offered record is the first application that answers the new offer |
| `Workflow.SendThenAccept` | script.js:978-1141 | sending and then accepting makes the offer `accepted` and the application `offered-accepted`, with the accept entry on top of the send entry |
| `Workflow.AcceptThenDelete` | script.js:943-1132 | deleting after an accept removes the application and cancels the accepted offer |
| `Board.ApplicationFor` | script.js:329-352 | the record built for the signed-in seeker: the job's poster, the stored CV text and PDF, the stored name or else the address's name (never empty), the page's title or `Công việc`, no offer, the current time |
| `Board.Store.constructor` | script.js:331 | absent keys read as empty lists, which hold one application per job |
| `Board.Store.Apply` | script.js:321-355 | without a signed-in address nothing is stored; a duplicate is refused; otherwise the built record is added in front; one application per candidate and job is kept |
| `Board.Store.Reject` | script.js:924-939 | the applications become the reject of the old ones; offers are untouched |
| `Board.Store.DeleteApplication` | script.js:943-966 | the applications become the filtered list; the `changed`-flag loop leaves the offers equal to the cascade of the old ones |
| `Board.Store.SendOffer` | script.js:978-998 | both lists become the send of the old ones, blank fields included |
| `Board.Store.AnswerOffer` | script.js:1124-1152 | both lists become the answer of the old ones (decline is the same handler at lines 1153-1181) |
| `Admin.SeedIfEmpty` | admin.js:18-21 | the sample is written exactly when the key holds nothing |
| `Admin.SeedTwice` | admin.js:18-21 | a second seeding, with any sample, changes nothing |
| `Admin.AdminStore.SeedAll` | admin.js:23-29 | the four keys are seeded with the built-in samples |
| `Admin.UserIndex` | admin.js:96 | `users.find` by id: the first user with it, or -1 exactly when none has it |
| `Admin.NewUser` | admin.js:56-61 | the new user has id `u` + stamp, the trimmed address and name, the role, and is not locked |
| `Admin.AdminStore.AddUser` | admin.js:55-64 | the new user is appended after the unchanged old list (an absent key reads as empty); the other keys are untouched |
| `Admin.EditedUsers` | admin.js:80-85 | only the first user with the id changes; an unknown id changes nothing |
| `Admin.EditKeepsIdentity` | admin.js:81-84 | the edited user keeps id, address and lock and takes exactly the new name and role |
| `Admin.AdminStore.SaveEditUser` | admin.js:79-87 | the list becomes the edit with the trimmed name; an unknown id writes nothing |
| `Admin.AdminStore.Rename` | admin.js:81-85 | the found user takes the name and role in place; an unknown id writes nothing |
| `Admin.DeleteUserEffect` | admin.js:89-92 | no user keeps the id; every other user stays, in order; a missing id changes nothing |
| `Admin.AdminStore.DeleteUser` | admin.js:89-92 | the filtered list is written |
| `Admin.ToggledLock` | admin.js:94-100 | only the first user with the id flips its lock; an unknown id changes nothing |
| `Admin.ToggleTwice` | admin.js:94-100 | toggling the same id twice restores the list |
| `Admin.AdminStore.ToggleLock` | admin.js:94-100 | the list becomes the toggle of the old one; an unknown id writes nothing |
| `Admin.AdminStore.AddCategory` | admin.js:109 | an empty or cancelled answer adds nothing; otherwise exactly that text is appended, untrimmed, duplicates allowed |
| `Admin.DeleteCategoryEffect` | admin.js:111 | every copy of the name is removed; every other entry keeps its count and order |
| `Admin.AdminStore.DeleteCategory` | admin.js:111 | the filtered list is written |
| `Admin.AdminStore.AddPackage` | admin.js:120 | an empty or cancelled name adds nothing; otherwise one package with id `p` + stamp is appended |
| `Admin.DeletePackageEffect` | admin.js:121 | no package keeps the id; the others stay, in order |
| `Admin.AdminStore.DeletePackage` | admin.js:121 | the filtered list is written |
| `Admin.RoundDiv` | admin.js:133 | `Math.round(a / n)`: the nearest whole number, halves rounded up |
| `Admin.RoundDivMonotone` | admin.js:133 | rounding keeps order |
| `Admin.RoundDivWhole` | admin.js:133 | a whole quotient rounds to itself |
| `Admin.StatsOf` | admin.js:131-136 | the count of bookings; the average is the rounded mean amount and the success rate the rounded percentage of `success` bookings; both are 0 without bookings; the rate is always within 0..100 |
| `Admin.TotalBounds` | admin.js:133 | the `reduce` total lies between count × smallest and count × largest amount |
| `Admin.AverageBetween` | admin.js:133 | the average shown lies between the smallest and the largest amount |

## Left out

- Rendering: the DOM, HTML strings, toasts, Bootstrap modals, the in-place badge edits and `setTimeout` redirects are interface, not state.
- Navigation guards: the admin redirect (admin.js:4-9) and the role redirect are left out.
- `confirm` dialogs: the delete handlers are modelled on the confirmed path.
- Network: the requests for `data/jobs.json` and `data/users.json`, the job-detail override, and `loadUsersMap`. `fetchJobs` takes the request's outcome as a parameter (`Jobs.Fetch`).
- Storage: `localStorage` and `JSON.parse`/`stringify` are the identity on the stored lists. Their failures, and the `try … catch` blocks that swallow them, are left out.
- `FileReader` PDF upload, with its MIME type and size checks, is a browser API and is left out; the PDF map takes the data URL as given.
- Search and login matching: case-insensitive search and login (`toLowerCase` on Vietnamese text) need Unicode case tables and are left out.
- `getEmailName` upper-cases only ASCII letters. Upper-casing any other first letter is left out.
- Strings are sequences of code points, not UTF-16 code units.
- Numbers: `Number(price.value)` in the offer dialog and `Number(price)` in the package prompt become integer parameters. `NaN`, fractions and the page links' `Number(val)` on non-integer text are left out.
- Admin.RoundDiv: exact only for whole amounts, because floating-point division is left out.
- Suggest.Ranked: sortedness and permutation are proved; stability among equal counts (an earlier key stays first) is built into `Insert` but not stated as a lemma.
- Seeker and poster views: the inboxes, the seeker's applied list and the managed-job list only filter and render stored data, and are left out.
- The saved-jobs toggle, the CV builder form and the registration and login forms are outside the modelled core; only the `validateRequired` call they share is modelled.
- Concurrency: each handler is modelled as one atomic step. The apply handler reads `tcv_applications` (script.js:331), waits for `fetchJobs` (line 333) and writes back the list it read (line 353). A second click, or another tab writing in between, can have its write overwritten; that interleaving is not modelled.
- Timestamps: `Date.now()` and the ids built from it are parameters. Nothing is modelled about two handlers producing the same stamp.
