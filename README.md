# Job Application Tracker — a verified model of its core

Job Application Tracker is a web application where a signed-in user records job applications.
Each application has a company, a title, a status (APPLIED, INTERVIEW, OFFER, REJECTED), a
priority, dates and notes. The user follows the applications on a dashboard, a statistics page,
a drag-and-drop board and a details page. An Express server keeps users and jobs in a Postgres
database reached through Prisma. It hashes passwords with bcrypt, signs sessions with JSON Web
Tokens and mails password-reset links.

This Dafny project models that core:

- **Server, jobs** (`job_controller.dfy`). Every handler is scoped to the caller: a row is found
  only by "this id and this owner". Handlers that write are methods on the shared `Store` object
  (`database.dfy`: the user and job tables, the email index, the auto-increment counters and the
  outgoing mail). Each one states its whole new state and proves that the rows of every other
  owner do not change. Listing and statistics are functions over the job table.
- **Server, accounts** (`auth_controller.dfy`). Register, log in, forgotten password, reset,
  profile update, account deletion and the profile read. The password hash, the signed token
  and the mail transport are abstract values: `Digest`, `Token` with `Verify`, and the outbox.
- **Browser pages**:
  - the statistics charts (`stats_page.dfy`);
  - the dashboard cards (`dashboard.dfy`);
  - the board's columns and drag-and-drop state (`kanban.dfy`);
  - the details page's form, save body and delete (`job_details.dfy`);
  - the calendar link on the side bar (`job_sidebar.dfy`);
  - the query string of the job-list request (`jobs_api.dfy`).
- **Supporting text machinery** (`text.dfy`, `uri_encoding.dfy`). Splitting and joining, decimal
  numerals, UTF-8, `encodeURIComponent` and the `application/x-www-form-urlencoded` serializer of
  `URLSearchParams`, each with a decoder and a round-trip proof. `counting.dfy` holds the counting
  folds and `sorting.dfy` the string sort.

The clock (`now`), the bcrypt salt, whether the mail transport succeeds, whether a date string
parses, and the bar label of a day are parameters of the operations that use them. The bar
label `dayLabel(d)` stands for `new Date(d).toLocaleDateString(...)` on the `YYYY-MM-DD` key `d`:
that reads the key as midnight UTC and renders it in local time, so west of UTC each bar is
labelled with the day before its key.

Six behaviours of the code worth knowing, modelled as the code has them:

- **Forgotten password.** It answers a known and an unknown email with different messages.
  `AuthController.ProbeAccount` shows that this tells a caller whether an account exists.
- **Job list.** The server ignores the `limit`, `search` and `status` parameters that the client
  sends. `JobController.ListJobs` has no filter; `JobsApi` models what the client sends.
- **Create with a missing owner.** `createJob` for a caller whose user row is gone fails on the
  foreign key and answers 400 through its catch.
- **Reset with a session token.** `resetPassword` accepts any token it can verify, a 30-day
  session token included (`AuthController.SessionTokenAcceptedForReset`).
- **Reset link used twice.** Verification is stateless, so a reset token is not single-use: one
  link changes the password again as often as it is sent before it expires
  (`AuthController.ResetTokenReusable`).
- **Status-only update.** `updateJob` writes both dates on every update, null when absent, so a
  body carrying only a status, as the board's drag sends, erases both stored dates
  (`JobController.StatusOnlyUpdateClearsDates`).

## Model

| member | source | states |
|---|---|---|
| Database.Store.constructor | server/controllers/jobController.js:2 | The store starts with no users, no jobs and no mail, and its invariant holds: rows under their ids, an exact email index, every job's owner present. |
| Database.Store.UserByEmail | server/controllers/authController.js:17 | Finds a user exactly when some stored user has that email; the result is that stored row. |
| Database.Store.EmailsUnique | server/controllers/authController.js:17-23 | No two stored users share an email address. |
| Database.HashMatchesExactly | server/controllers/authController.js:26-27 | A digest matches the password it was made from, whatever the salt, and no other password. |
| Database.SessionToken | server/controllers/authController.js:6-10 | A session token names the user and lives 30 days (2592000 seconds) from its issue time. |
| Database.Verify | server/controllers/authController.js:138 | Verification succeeds exactly for a token this server signed that has not expired, and yields the token's user id. |
| JobController.DateOrNull | server/controllers/jobController.js:60 | A blank or absent date is stored as null; any other date string is kept as given. |
| JobController.NewestFirst | server/controllers/jobController.js:10 | The listing order starts with a job whose creation time is the latest, and lists only the given ids. |
| JobController.NewestFirstEnumerates | server/controllers/jobController.js:10 | The listing holds each id exactly once, ordered by creation time, newest first. |
| JobController.NewestFirstCovers | server/controllers/jobController.js:10 | The listing is as long as the id set and contains every id. |
| JobController.NewestFirstDistinct | server/controllers/jobController.js:10 | No id appears twice in the listing. |
| JobController.NewestFirstOrdered | server/controllers/jobController.js:10 | Creation times never increase along the listing. |
| JobController.ListJobs | server/controllers/jobController.js:6-13 | `getAllJobs` returns exactly the caller's rows, each once and as stored, newest first; no search, status or limit filter applies. |
| JobController.RowsAtListing | server/controllers/jobController.js:6-13 | The rows read at a newest-first listing of the caller's ids are the caller's rows, all of them, distinct and newest first. |
| JobController.GetJobById | server/controllers/jobController.js:23-34 | A job is returned (200) exactly when the id exists and the caller owns it; a missing or foreign id gets 404 "Job not found". |
| JobController.GetByIdAgreesWithList | server/controllers/jobController.js:6-34 | `getJobById` finds an id exactly when that id appears in the caller's listing. |
| JobController.NewestFirstCounts | server/controllers/jobController.js:146-159 | Counting a status along the listing gives the number of the rows that have it. |
| JobController.OwnedStatusesCount | server/controllers/jobController.js:146-159 | The number of times a status occurs among the caller's statuses is the number of the caller's jobs with that status. |
| JobController.OwnedStatusesMembers | server/controllers/jobController.js:146-159 | A status occurs among the caller's statuses exactly when one of the caller's jobs has it. |
| JobController.JobStats | server/controllers/jobController.js:146-159 | `getJobStats` has a key exactly for each status among the caller's jobs, mapped to the positive number of the caller's jobs with it; absent statuses have no key. |
| JobController.StatusAtIndex | server/controllers/jobController.js:146-159 | The status list read along ids holds, at each position, the status of that row. |
| JobController.StatsTotal | server/controllers/jobController.js:146-159 | Summed over any duplicate-free list of statuses covering those in use, the stats add up to the number of the caller's jobs. |
| JobController.CreateJob | server/controllers/jobController.js:40-68 | The job is created (201) exactly when the caller's user row exists and the date is accepted. The row gets a fresh id, the caller as owner, the body's fields, a normalised applied date, no interview date and the current time. No other row changes. Otherwise 400 with the table untouched. |
| JobController.ApplyPatch | server/controllers/jobController.js:96-110 | Fields left undefined keep their values; both dates are always written, null when blank or absent; id, owner and creation time never change. |
| JobController.PatchIdempotent | server/controllers/jobController.js:96-110 | Applying the same update twice has the effect of applying it once. |
| JobController.StatusOnlyUpdateClearsDates | server/controllers/jobController.js:96-110 | An update carrying only a status changes that status and erases both stored dates. |
| JobController.UpdateJob | server/controllers/jobController.js:70-115 | A missing or foreign id gets 404 and changes nothing. An unparsable date gets 400 and changes nothing. The update succeeds (200) exactly when the caller owns the id and both dates are accepted; the owned row then becomes its merge with the update and every other row is unchanged. |
| JobController.DeleteJob | server/controllers/jobController.js:117-141 | A missing or foreign id gets 404 and changes nothing; otherwise exactly that row is removed with "Job removed successfully". Afterwards the caller owns no row with that id. |
| JobController.DeleteTwice | server/controllers/jobController.js:121-137 | Deleting the same id a second time gets 404; the first delete succeeds exactly when the caller owned the id. |
| AuthController.RegisterUser | server/controllers/authController.js:12-54 | A taken email gets 400 "User already exists" and adds no user. Otherwise exactly one user is added under a fresh id, storing the hash of the password. The answer is 201 with id, name, email and a 30-day token for that id. |
| AuthController.LoginUser | server/controllers/authController.js:56-81 | A session (200, with a fresh 30-day token) exactly when a stored user has that email and the password matches its digest; otherwise 401 "Invalid email or password". |
| AuthController.LoginFailuresAlike | server/controllers/authController.js:61-76 | An unknown email and a wrong password for a known email receive the same answer. |
| AuthController.ForgotPassword | server/controllers/authController.js:83-132 | An unknown email gets 200 "If that email exists, a reset link has been sent." and no mail. A known one gets exactly one mail to the user's address carrying a 15-minute token for that user, and 200 "Password reset email sent". When the transport fails, it gets 500 "Email could not be sent" and no mail. Users and jobs never change. |
| AuthController.ProbeAccount | server/controllers/authController.js:93-127 | With a working transport, the reset answer reveals exactly whether the email belongs to an account. |
| AuthController.ResetPassword | server/controllers/authController.js:134-152 | Succeeds exactly when the token verifies and names a stored user, and then only that user's password digest changes. Otherwise 400 "Invalid or expired token" and no password changes. |
| AuthController.ResetTokenExpires | server/controllers/authController.js:98-100 | A reset token verifies exactly until fifteen minutes after it was issued. |
| AuthController.SessionTokenAcceptedForReset | server/controllers/authController.js:134-152 | A 30-day session token verifies for the reset throughout its lifetime, even after a reset token of the same moment has expired. |
| AuthController.UpdateProfile | server/controllers/authController.js:154-192 | An unknown caller gets 404 and an absent or empty password gets 400 "No changes provided", neither writing anything. Otherwise only the caller's password digest is replaced, and the answer carries the id, the email and a fresh token. |
| AuthController.DeleteAccount | server/controllers/authController.js:193-207 | Every job of the caller is removed and then the caller's row and email entry, leaving other users and their jobs untouched. A caller with no row gets 500 "Delete failed". |
| AuthController.GetUserProfile | server/controllers/authController.js:209-220 | Exactly the caller's id, name and email (200) when the caller is stored; 404 "User not found" otherwise. |
| AuthController.RegisterThenLogin | server/controllers/authController.js:26-76 | After a successful registration, logging in with the same email and password succeeds for the new id. |
| AuthController.ResetTokenReusable | server/controllers/authController.js:134-152 | A reset succeeds exactly for a verified token of an existing user, and then succeeds again with the same token at the same time, and the second new password is the one stored. |
| AuthController.ResetThenLogin | server/controllers/authController.js:61-76 | After a successful reset, the new password logs in as the token's user and a different old password is refused. |
| StatsPage.StatsView | client/src/pages/Stats/Stats.tsx:12-44 | The empty state is shown exactly when the jobs are missing or empty. Otherwise the charts are the pie data of the status counts and the bar data of the jobs: at most four slices and at most seven bars. |
| StatsPage.StatusCounts | client/src/pages/Stats/Stats.tsx:19-22 | Every job's status is a key, and each key maps to the positive number of jobs that have it. |
| StatsPage.StatusCountsTotal | client/src/pages/Stats/Stats.tsx:19-22 | The status counts add up to the number of jobs. |
| StatsPage.Positive | client/src/pages/Stats/Stats.tsx:29 | The filter keeps exactly the slices with a positive value. |
| StatsPage.PositiveInOrder | client/src/pages/Stats/Stats.tsx:29 | Dropping zero slices keeps the rest in chart order. |
| StatsPage.PieData | client/src/pages/Stats/Stats.tsx:24-29 | At most four slices, all positive, in the order Applied, Interview, Offer, Rejected. A status has its slice exactly when its count (0 if missing) is positive. |
| StatsPage.TemplateInOrder | client/src/pages/Stats/Stats.tsx:24-28 | The four candidate slices are in chart order. |
| StatsPage.PositiveTotal | client/src/pages/Stats/Stats.tsx:29 | Dropping zero slices keeps the total. |
| StatsPage.TemplateTotal | client/src/pages/Stats/Stats.tsx:24-28 | The candidate slices add up to the counts of the four statuses. |
| StatsPage.PieCoversAllJobs | client/src/pages/Stats/Stats.tsx:19-29 | When every job has one of the four statuses, the slices add up to the number of jobs. |
| StatsPage.KnownCountsTotal | client/src/pages/Stats/Stats.tsx:19-22 | When every job has one of the four statuses, their four counts add up to the number of jobs. |
| StatsPage.Dated | client/src/pages/Stats/Stats.tsx:32 | Exactly the jobs that have an applied date are counted by day. |
| StatsPage.ApplicationsByDate | client/src/pages/Stats/Stats.tsx:31-36 | Every dated job's local day is a key, and each key maps to the positive number of applications on that day. |
| StatsPage.ApplicationsByDateTotal | client/src/pages/Stats/Stats.tsx:31-36 | The per-day counts add up to the number of jobs with an applied date. |
| StatsPage.LastSeven | client/src/pages/Stats/Stats.tsx:40 | The slice is the last seven keys, or all of them when there are fewer. |
| StatsPage.SortedDaysExact | client/src/pages/Stats/Stats.tsx:38-39 | The sorted keys are strictly ascending and are exactly the days with applications. |
| StatsPage.LastSevenLatest | client/src/pages/Stats/Stats.tsx:38-40 | The last seven of a strictly ascending list stay ascending. An element is left out only when seven are kept and it sorts before all of them. |
| StatsPage.BarDaysLatest | client/src/pages/Stats/Stats.tsx:38-40 | At most seven days with applications, strictly ascending. A day with applications is missing only when seven are shown and it is earlier than each of them. |
| StatsPage.BarData | client/src/pages/Stats/Stats.tsx:38-44 | One bar per chosen day, labelled `dayLabel(day)` (the local rendering of midnight UTC of that day, which is the previous day west of UTC), whose count is the number of applications made on it. |
| Dashboard.Total | client/src/pages/Dashboard/Dashboard.tsx:25 | The total is the sum of the four statuses' counts, a missing key counting 0; with no stats it is 0. |
| Dashboard.Cards | client/src/pages/Dashboard/Dashboard.tsx:47-50 | Four cards in grid order: the total, then interviews, offers and rejections, each 0 when its key is absent. |
| Dashboard.TotalDominates | client/src/pages/Dashboard/Dashboard.tsx:25-50 | The total card is at least each other card and at least the three of them together. |
| Dashboard.TotalIgnoresOtherKeys | client/src/pages/Dashboard/Dashboard.tsx:25 | A key outside the four statuses never changes the total. |
| Dashboard.TotalCountsServerJobs | client/src/pages/Dashboard/Dashboard.tsx:25 | Fed the server's stats for a caller whose jobs all have one of the four statuses, the total is the number of that caller's jobs. |
| Kanban.WithStatusMembers | client/src/pages/Kanban/Kanban.tsx:111 | The filter keeps exactly the jobs with the given status. |
| Kanban.WithStatusCount | client/src/pages/Kanban/Kanban.tsx:111 | The filter keeps as many jobs as have that status. |
| Kanban.WithStatusAppend | client/src/pages/Kanban/Kanban.tsx:111 | The filter keeps the original order: it distributes over concatenation. |
| Kanban.JobsByStatus | client/src/pages/Kanban/Kanban.tsx:111 | The filter of the jobs by that status, in their original order: exactly the jobs with that status, as many as there are; none while the jobs are not loaded. |
| Kanban.Columns | client/src/pages/Kanban/Kanban.tsx:124-138 | Four columns in the order Applied, Interview, Offer, Rejected; each shows its status's jobs and a count equal to the cards it renders. |
| Kanban.UnknownStatusHidden | client/src/pages/Kanban/Kanban.tsx:124-138 | A job whose status is not one of the four is on no column. |
| Kanban.ColumnsCoverAllJobs | client/src/pages/Kanban/Kanban.tsx:124-138 | When every job has one of the four statuses, the column counts add up to the number of jobs. |
| Kanban.ColumnTotalCounts | client/src/pages/Kanban/Kanban.tsx:124-138 | The column counts add up to the occurrences of the four statuses. |
| Kanban.Board.constructor | client/src/pages/Kanban/Kanban.tsx:83 | No job is being dragged and no update has been sent. |
| Kanban.Board.DragStart | client/src/pages/Kanban/Kanban.tsx:85-88 | The dragged job becomes the active job; nothing is sent. |
| Kanban.Board.DragEnd | client/src/pages/Kanban/Kanban.tsx:90-107 | A drop outside any column changes nothing, not even the active job. A drop on a column different from the active job's status sends exactly one update for that id, carrying only the status. A drop on the same column sends nothing. After any drop on a column the active job is cleared. |
| Kanban.DropOnOwnColumn | client/src/pages/Kanban/Kanban.tsx:85-107 | Dragging a card and dropping it on its own column sends nothing and clears the active job. |
| JobDetails.DateInput | client/src/pages/JobDetails/JobDetails.tsx:42-43 | A missing date gives ""; a present one gives the prefix of its ISO text up to the first `T`. |
| JobDetails.DateInputOfIso | client/src/pages/JobDetails/JobDetails.tsx:42-43 | For an ISO timestamp the date input receives exactly its ten-character `YYYY-MM-DD` part. |
| JobDetails.FormFromJob | client/src/pages/JobDetails/JobDetails.tsx:34-48 | Company, title, status and priority are copied unchanged. A missing or empty URL, notes or description becomes "". The dates become their date part. |
| JobDetails.Entries | client/src/pages/JobDetails/JobDetails.tsx:22-32 | The form's nine entries carry the form's keys in declaration order. |
| JobDetails.SavePayloadParts | client/src/pages/JobDetails/JobDetails.tsx:60-64 | The save body has every form key once, in order, each found under its own name. It has a file part exactly when a resume was chosen, as the last part. |
| JobDetails.FieldOfPayload | client/src/pages/JobDetails/JobDetails.tsx:62 | Each form key is found in the save body with the value of that key's entry. |
| JobDetails.SaveRoundTrip | client/src/pages/JobDetails/JobDetails.tsx:60-64 | Reading the save body back by its nine field names gives exactly the form that was saved, field for field. |
| JobDetails.BuildSaveBody | client/src/pages/JobDetails/JobDetails.tsx:60-64 | Appending the entries one by one and then the resume yields exactly the save payload. |
| JobDetails.DetailsPage.constructor | client/src/pages/JobDetails/JobDetails.tsx:20-32 | Not editing, no resume chosen, the blank form (status APPLIED, priority MEDIUM), nothing sent. |
| JobDetails.DetailsPage.LoadJob | client/src/pages/JobDetails/JobDetails.tsx:34-48 | A loaded job replaces the form by its mapping; while there is no job, nothing changes. |
| JobDetails.DetailsPage.ChooseFile | client/src/pages/JobDetails/JobDetails.tsx:54-58 | The first chosen file becomes the resume; choosing no file changes nothing. |
| JobDetails.DetailsPage.SaveForm | client/src/pages/JobDetails/JobDetails.tsx:60-65 | Exactly one update request is sent, whose body is the current form and the chosen resume; the page state is otherwise unchanged. |
| JobDetails.DetailsPage.SaveSucceeded | client/src/pages/JobDetails/JobDetails.tsx:66-69 | Editing ends and the chosen file is cleared; the form is kept. |
| JobDetails.DetailsPage.DeleteJob | client/src/pages/JobDetails/JobDetails.tsx:73-77 | A delete request is sent exactly when the user confirms. |
| JobDetails.LoadedFormSaved | client/src/pages/JobDetails/JobDetails.tsx:34-64 | Saving right after a load sends, under their names, the job's own company, title, status and priority, and the `YYYY-MM-DD` part of its applied date. |
| JobSideBar.Stamp | client/src/pages/JobDetails/components/JobSideBar.tsx:7-8 | The stamp is no longer than the text and holds no `-` and no `:`. |
| JobSideBar.StampChars | client/src/pages/JobDetails/components/JobSideBar.tsx:7-8 | The stamp introduces no character that was not in the text. |
| JobSideBar.StampOfIso | client/src/pages/JobDetails/components/JobSideBar.tsx:7-8 | The stamp of `YYYY-MM-DDTHH:mm:ss.sssZ` is the sixteen characters `YYYYMMDDTHHmmssZ`. |
| JobSideBar.CalendarUrl | client/src/pages/JobDetails/components/JobSideBar.tsx:4-12 | The URL is empty exactly when there is no interview date, and otherwise starts with the calendar endpoint and `?`. |
| JobSideBar.CalendarQuery | client/src/pages/JobDetails/components/JobSideBar.tsx:9-11 | The query splits into action, text, details and dates, in that order. The start and end stamps are identical. The encoded title and details decode back to "Interview: title at company" and "Notes: notes" (or "Notes: No notes"). |
| JobSideBar.QueryIsJoin | client/src/pages/JobDetails/components/JobSideBar.tsx:11 | The URL's query is its four parameters joined by `&`. |
| JobSideBar.CardLinksToCalendar | client/src/pages/JobDetails/components/JobSideBar.tsx:66 | Whenever the calendar card is shown (status INTERVIEW with a date), its link is a calendar URL. |
| JobsApi.SearchParams.constructor | client/src/api/jobs.ts:23 | A new query has no pairs. |
| JobsApi.SearchParams.Append | client/src/api/jobs.ts:25-27 | Appending adds the pair at the end and keeps the earlier ones. |
| JobsApi.RequestPath | client/src/api/jobs.ts:22-31 | The path is `/jobs?` followed by the serialized pairs the filters call for. |
| JobsApi.QueryPairsContents | client/src/api/jobs.ts:25-27 | Each parameter is present exactly when its filter is truthy, with that filter's value. The limit is written as its decimal text, so 0 is omitted. A status of `ALL` is sent. |
| JobsApi.QueryPairsOrder | client/src/api/jobs.ts:25-27 | Parameters come in the order limit, search, status, each at most once. |
| JobsApi.LimitReadsBack | client/src/api/jobs.ts:25 | The `limit` parameter, read back as a decimal number, is the limit that was asked for. |
| JobsApi.NoFiltersPath | client/src/api/jobs.ts:29 | With no filters, or only falsy ones, the path is exactly `/jobs?`. |
| JobsApi.SerializeRoundTrip | client/src/api/jobs.ts:29 | Reading a serialized query back gives the appended pairs, in order. |
| JobsApi.PairRoundTrip | client/src/api/jobs.ts:25-27 | One `name=value` pair reads back as itself. |
| JobsApi.RequestPathReadsBack | client/src/api/jobs.ts:22-31 | The request path reads back as `/jobs?` followed by exactly the pairs the filters call for. |

## Left out

- Prisma and Postgres are in-memory maps: no SQL, no connection errors, no transactions. Every
  other exception a handler's catch receives (its text is returned as the message) is the single
  value `ExceptionText`.
- bcrypt, jsonwebtoken and nodemailer are abstract. The hash is an injective digest, a token is a
  record (user, issue time, lifetime) with a `Verify` that refuses forged or expired tokens, and
  the mail transport is an outbox plus a success flag. The real cryptography and SMTP are not
  modelled, nor is the mail's HTML body or the reset link's URL.
- The clock, the bcrypt salt and the check that `new Date(d)` is a valid date are parameters.
- The Express routes, the `protect` middleware that sets the caller, and multer's resume upload
  are not modelled. `createJob` and `updateJob` read neither the uploaded file nor
  `jobDescription`, so those are not in the server's job row.
- `server/controllers/aiController.js` is not part of this model. It makes a call to an external
  model and builds a prompt. Its job lookup is by id only, without the ownership check.
- `server/check_models.js` is not part of this model: it is a network diagnostic script.
- The handlers are module-level methods that modify the shared `Store` object, as the controllers
  call the shared Prisma client, rather than methods declared inside the store class.
- The `_id` field that register and login repeat next to `id` is not modelled twice.
- Browser session handling (local storage, react-query caching and refetching) and the rendering
  of the pages are not modelled. Neither is the details page's `handleChange`, the per-keystroke
  form edit.
- Locale formatting is not modelled. A client date is given as its `toISOString()` text and its
  local `en-CA` day; the bar labels come from a `dayLabel` parameter, whose one-day shift west of UTC is described
  above. `toISOString()` throwing on
  an invalid date is not modelled.
- `JobsApi.Filters`: the limit is an integer, so JavaScript's NaN and fractional numbers, and
  their `toString` forms, are not modelled. Neither is the exponent form (`1e+21`) that
  `toString` writes for a limit of 10^21 or more; `Text.Decimal` writes all the digits.
- Dafny's `char` is a Unicode scalar value, so a lone UTF-16 surrogate in a title, notes or
  filter cannot be expressed. On one, `encodeURIComponent` throws `URIError` (the calendar link)
  and `URLSearchParams` writes U+FFFD; neither path is modelled.
- `JobDetails.FormOf` and `JobDetails.FieldValue` read a multipart body back by field name. They
  stand for the reading side and model no code of the page.
- `UriEncoding.Decode` is a strict reference decoder. It rejects malformed escapes and decodes `+`
  only in form mode. It stands for the reading side, not for any code in the application.
- `ClientJobs.IsoShaped` covers four-digit years only (0 to 9999). The six-digit years that
  `toISOString()` writes outside that range are not modelled.
- JobController.GetJobById: the route id is taken as the integer `parseInt` yields. A
  non-numeric id (NaN, which Prisma rejects: 500) and the prefix parse of ids such as `12abc`
  are not modelled.
- JobController.UpdateJob: the route id is the parsed integer; a non-numeric id, which Prisma
  rejects and the catch answers with 400, is not modelled.
- JobController.UpdateJob: a body field is either a string or absent. A JSON `null` cannot be
  expressed: for `jobUrl` or `notes` Prisma would write null where the model keeps the old value,
  and for `company`, `jobTitle`, `status` or `priority` Prisma refuses it and the catch answers 400
  with nothing written, where the model answers 200. The application's own pages send only
  strings.
- JobController.ApplyPatch: for the same reason a null `jobUrl` or `notes` keeps the old value
  instead of clearing it.
- JobController.DeleteJob: the route id is the parsed integer; a non-numeric id, which Prisma
  rejects and the catch answers with 500, is not modelled.
- JobController.CreateJob: the body's `company`, `jobTitle`, `status` and `priority` are always
  present. A body missing a required column, which Prisma rejects and the catch answers with
  400, is not modelled.
- AuthController.RegisterUser: `name`, `email` and `password` are always present strings. A
  body without `password` makes bcrypt throw and one without `email` makes the Prisma lookup
  throw; the catch answers 500 with the error's message. Those paths are not modelled.
- AuthController.LoginUser: `email` and `password` are always present strings. A missing one
  makes Prisma or bcrypt throw, which the catch answers with 500; that path is not modelled.
- AuthController.ForgotPassword: `email` is always a present string. A missing one makes the
  Prisma lookup throw, which the catch answers with 500 "Email could not be sent"; that path is
  not modelled.
- AuthController.ResetPassword: `newPassword` is always a present string. Without it bcrypt
  throws after the token has verified, and the catch answers 400 "Invalid or expired token"
  with nothing written; the model only has the success for a verified token.
- Database.HashMatchesExactly: the digest is injective. bcrypt reads only the first 72 bytes of
  the UTF-8 password, so two passwords that agree on those bytes match the same digest; the
  model does not capture that.
- AuthController.ResetThenLogin: "a different old password is refused" holds for the injective
  digest only. Under bcrypt's 72-byte limit an old password that agrees with the new one on its
  first 72 bytes still logs in.
- The board's status update is sent as a multipart body to the update route. Whether that body
  reaches `updateJob` depends on the route setup, which is not part of this model.
- Concurrent requests (the database's last write wins) are not modelled.
