# A verified model of the StreamCATI interview client core

StreamCATI is a computer-assisted telephone interviewing client written in
Vue and TypeScript. This project models its in-memory core in Dafny and
proves properties of that model.

- **Interview store** (`interview.dfy`, class `Interview.InterviewStore`).
  - The session holds a stage, an interview round, a cursor
    (`current_question_index`), a status and a list of responses.
  - The question catalog is filtered to the stage questions.
  - The cursor settles on the first question without a truthy answer.
  - `nextQuestion`, `previousQuestion` and `nextStage` move the cursor or
    the stage; `completeInterview` and `pauseInterview` change the status.
  - `submitResponse` upserts a response into the list.
  - Also modelled: the derived values `canGoNext`, `hasUnansweredQuestions`,
    `progressPercentage`, `totalStages` and `dueInterviews`.
- **Contacts store** (`contacts.dfy`, class `Contacts.ContactsStore`).
  - The status lookup table and the search and status filters.
  - The contact cache as `updateContact`, `deleteContact` and
    `getContactById` change it.
- **Data importer** (`data_importer.dfy`).
  - State-name normalisation and the scale-word conversion of answers.
  - `removeDuplicates`, which is a JavaScript `Map` with last-write-wins
    and insertion order.
  - The per-row construction of a contact, an interview and its responses.
- **Toast queue** (`toast.dfy`, class `Toasts.ToastQueue`): the shared toast
  list and its id counter.
- **Auth store** (`auth.dfy`, class `Auth.AuthStore`).
  - Token, user, the token copy in local storage and the `Authorization`
    header.
  - Login, logout and `checkAuth`, gated by the user's role.

Shared support modules:

- `wrappers.dfy`: `Option`, and `Reply`, the outcome of a network call
  (`Ok(payload)` or `Failed`).
- `js.dfy`: JavaScript values, truthiness, and what `table[key] || fallback`
  yields on an object literal, including the names it inherits from
  `Object.prototype`.
- `text.dfy`: ASCII lower-casing, `includes`, the `\b\w` title-casing and
  the `\s+` collapse.
- `seqs.dfy`: `filter`, `map`, `findIndex` and `splice` on sequences.

Modelling choices:

- Every server call is an input of type `Reply`. The store changes as the
  source does after a success or after a failure.
- A thrown exception is a returned `threw` flag.
- The `error` string is reduced to whether it is set.
- Clocks are parameters: `now` is an integer for due dates and an opaque
  string for `completed_at`.
- The `setTimeout` that removes a toast is reported as the delay it would
  be scheduled with.

## Model

| member | source | states |
|---|---|---|
| Text.ToLower | src/stores/contacts.ts:54 | lower-casing keeps the length and lowers each letter, position by position |
| Text.IncludesAt | src/stores/contacts.ts:56-60 | `includes` holds exactly when the substring occurs at some offset |
| Text.TitleCase | src/utils/dataImporter.ts:132 | title-casing keeps the length; a character is upper-cased iff it starts a word of the lowered text, otherwise lowered |
| Text.CollapseSpaces | src/utils/dataImporter.ts:44 | after replacing whitespace runs, no whitespace is left except the separator, the text does not grow, and text without whitespace is left as it is |
| Text.DropSpacesRun | src/utils/dataImporter.ts:44 | a leading whitespace run is consumed up to the first non-whitespace character, and no further |
| Text.CollapseSpacesRun | src/utils/dataImporter.ts:44 | whitespace-free text is kept, the maximal whitespace run after it becomes exactly one separator, and the rest is collapsed in the same way |
| Seqs.IndexWhere | src/composables/useToast.ts:40 | `findIndex` finds the first position satisfying the predicate, or reports that none does |
| Seqs.RemoveAt | src/composables/useToast.ts:42 | `splice(i, 1)` drops exactly the element at `i` and shifts the later ones down by one |
| Seqs.FilterMembers | src/stores/contacts.ts:138 | a filter keeps exactly the elements that satisfy its predicate |
| Seqs.FilterSubsequence | src/stores/contacts.ts:55 | a filter keeps the relative order of what it keeps |
| Interview.StageQuestionsSpec | src/stores/interview.ts:74-83 | a question is a stage question iff it is in the catalog, has the session's stage and a null round or the session's round; catalog order is kept |
| Interview.RoundQuestionsSpec | src/stores/interview.ts:93-95 | the progress denominator holds exactly the catalog questions with a null round or the session's round, in catalog order |
| Interview.StageWithinRound | src/stores/interview.ts:90-100 | there are never more stage questions than round questions, so a non-empty stage list gives a non-zero denominator |
| Interview.TotalStages | src/stores/interview.ts:85-88 | an empty catalog has 1 stage; otherwise the result is the largest stage of any catalog question |
| Interview.FindIndex | src/stores/interview.ts:293-295 | the first response for the question, or none when the question has no response |
| Interview.FindIndexAt | src/stores/interview.ts:293-295 | a position holding the question with no earlier response for it is the one found |
| Interview.FindResponse | src/stores/interview.ts:426-428 | a response is found iff one exists for the question; it is in the list and answers that question |
| Interview.Upsert | src/stores/interview.ts:293-301 | the list grows by one only when the question had no response, by appending the reply; otherwise the first response for the question is replaced and nothing else changes |
| Interview.UpsertRecords | src/stores/interview.ts:293-301 | after the upsert the reply is what is found for its question, and lookups of every other question are unchanged |
| Interview.FirstUnanswered | src/stores/interview.ts:255-268 | the first position at or after the start whose question lacks a truthy answer; none exactly when all from there on are answered |
| Interview.ScanUnanswered | src/stores/interview.ts:256-268 | the `while` scan returns the first unanswered position from the start |
| Interview.Settle | src/stores/interview.ts:253-271 | the settled cursor never moves back |
| Interview.SettleSpec | src/stores/interview.ts:253-271 | if everything from the cursor on is answered the cursor is kept; otherwise it moves to the first unanswered question at or after it |
| Interview.SettleAt | src/stores/interview.ts:256-265 | an unanswered position with only answered questions between the cursor and it is where the cursor settles |
| Interview.SettleMonotone | src/stores/interview.ts:253-271 | the cursor never decreases and stays put when its own question is unanswered |
| Interview.PreviousLanding | src/stores/interview.ts:365-368 | after stepping back, the cursor lands at `old - 1` or later, exactly at `old - 1` when that question is unanswered, out of range, or all from there on are answered |
| Interview.NextStepSpec | src/stores/interview.ts:336-357 | three cases: an unanswered question after the cursor is moved to (the first one); else the stage advances iff `stage < totalStages`; else the interview completes |
| Interview.RoundedPercent | src/stores/interview.ts:99 | `Math.round(100 * a / t)` as the integer nearest to it, halves rounded up |
| Interview.PercentBounded | src/stores/interview.ts:90-100 | with no more answers than questions the percentage is at most 100, and exactly 100 when all are answered |
| Interview.DueInterviewsSpec | src/stores/interview.ts:102-111 | an interview is due iff it has a round numbered below 4, scheduled no later than now and active; one without a round or with round 4 or later never is; list order is kept |
| Interview.CanGoNext | src/stores/interview.ts:434-443 | false without a session or a current question; true for an optional question; for a required one true iff a truthy answer is recorded |
| Interview.SomeUnanswered | src/stores/interview.ts:455-458 | true iff some stage question lacks a truthy answer |
| Interview.SettledSpec | src/stores/interview.ts:242-272 | settling changes only the cursor, never lowers it, keeps it when all is answered and otherwise moves it to the first unanswered stage question |
| Interview.AdvancedSpec | src/stores/interview.ts:329-360 | responses, round and id are kept; the stage stays or grows by one; it grows iff nothing is unanswered after the cursor and stage < totalStages; a moved cursor lands on the first unanswered question; otherwise the interview is completed with `completed_at` when the patch succeeds |
| Interview.Resumed | src/stores/interview.ts:164-171 | a paused interview becomes in progress; any other interview is left as it is; only the status ever changes |
| Interview.InterviewStore.StageQs | src/stores/interview.ts:74-83 | empty without a session, otherwise the session's stage questions |
| Interview.InterviewStore.constructor | src/stores/interview.ts:60-67 | no session, no interviews, no questions, no current question, no error |
| Interview.InterviewStore.GetResponseForQuestion | src/stores/interview.ts:426-428 | none without a session, otherwise the session's first response for the question |
| Interview.InterviewStore.ProgressPercentage | src/stores/interview.ts:90-100 | 0 without a session or with no stage questions; otherwise the rounded percentage of responses over round questions, with a non-zero denominator |
| Interview.InterviewStore.Due | src/stores/interview.ts:102-111 | exactly the stored interviews that are due now |
| Interview.InterviewStore.Stages | src/stores/interview.ts:85-88 | 1 for an empty catalog and never below any question's stage |
| Interview.InterviewStore.CanAdvance | src/stores/interview.ts:434-443 | true iff there are a session and a current question, and a required current question has a truthy answer |
| Interview.InterviewStore.HasUnansweredQuestions | src/stores/interview.ts:445-459 | true iff there is a session and some stage question lacks a truthy answer |
| Interview.InterviewStore.SetCurrentQuestion | src/stores/interview.ts:242-272 | without a session nothing changes; otherwise the session is settled and the current question is synchronised with the cursor |
| Interview.InterviewStore.FetchQuestions | src/stores/interview.ts:220-240 | the catalog is replaced on success and kept on failure, and the error is set iff the fetch failed; the failure is swallowed |
| Interview.InterviewStore.FetchInterviews | src/stores/interview.ts:204-218 | the interview list is replaced on success; on failure it is kept, the error is set and the call throws |
| Interview.InterviewStore.StartInterview | src/stores/interview.ts:114-149 | on failure it throws and sets the error; on success the created session is settled against the catalog, which is fetched only when empty |
| Interview.InterviewStore.ResumeInterview | src/stores/interview.ts:151-202 | it throws iff the fetch, the un-pause patch or the catalog fetch fails, or no current question remains; a paused session is un-paused only after its patch succeeds; the fresh catalog replaces the old and the session is settled |
| Interview.InterviewStore.SubmitResponse | src/stores/interview.ts:274-327 | without a session nothing happens; a failed post throws and leaves the responses unchanged; a successful one upserts the server's reply and returns it |
| Interview.InterviewStore.NextStage | src/stores/interview.ts:372-379 | the stage grows by one, the cursor restarts at 0 and is settled |
| Interview.InterviewStore.CompleteInterview | src/stores/interview.ts:381-396 | after a successful patch the status is completed with `completed_at`; after a failed one nothing changes, the error is set and it throws |
| Interview.InterviewStore.PauseInterview | src/stores/interview.ts:398-411 | after a successful patch the status is paused; after a failed one nothing changes, the error is set and it throws |
| Interview.InterviewStore.NextQuestion | src/stores/interview.ts:329-360 | the session becomes its advanced form; it throws only when completing and the patch fails |
| Interview.InterviewStore.PreviousQuestion | src/stores/interview.ts:362-370 | a no-op at cursor 0; otherwise the cursor steps back by one and is settled |
| Contacts.NormalizeStatusAsWritten | src/stores/contacts.ts:32-47 | the lookup finds a table value or the fallback for every status that is not a prototype name |
| Contacts.NormalizeStatusInherits | src/stores/contacts.ts:46 | for "constructor", "toString" and "__proto__" the lookup returns an inherited member, not a status |
| Contacts.NormalizeStatus | src/stores/contacts.ts:32-47 | the result is always one of the six canonical statuses; canonical values map to themselves, "not started" and "1".."4" to their canonical forms, and every other string to `not_started` |
| Contacts.NormalizeStatusIdempotent | src/stores/contacts.ts:33-46 | normalising twice is normalising once |
| Contacts.NormalizeStatusAgrees | src/stores/contacts.ts:32-47 | for every status that is not a prototype name, the intended function and the lookup as written agree |
| Contacts.Normalized | src/stores/contacts.ts:72-75 | the presented contact differs from the stored one only in its status, which is canonical |
| Contacts.Selected | src/stores/contacts.ts:49-70 | the selected contacts are never more than the contacts |
| Contacts.FilteredContacts | src/stores/contacts.ts:49-76 | the filtered list is never longer than the contact list |
| Contacts.SelectedIsKept | src/stores/contacts.ts:53-70 | searching then status-filtering keeps exactly the contacts that pass both tests, where an empty query and an empty, null or `all` filter pass everything |
| Contacts.FilteredContactsSpec | src/stores/contacts.ts:49-76 | the result is the kept contacts with normalised statuses, in contact order; a contact is kept iff it matches the query in name, phone, serial number, CUID or ticket number and has the filtered status; with no query and no filter everything is kept |
| Contacts.MergeSpec | src/stores/contacts.ts:120 | spreading an empty reply changes nothing, spreading twice is spreading once, and a field present in the reply wins |
| Contacts.UpdatedSpec | src/stores/contacts.ts:118-121 | the length is kept; an absent id leaves the cache unchanged; otherwise only the first contact with the id is merged |
| Contacts.WithoutIdSpec | src/stores/contacts.ts:138 | after a delete no contact with the id remains, every other contact does, and order is kept; an absent id changes nothing |
| Contacts.NoIdFilterAll | src/stores/contacts.ts:138 | deleting an id that no contact has leaves the list as it was |
| Contacts.CachedLookup | src/stores/contacts.ts:159-160 | the cached contact returned carries the requested id, is in the cache and is the first with that id |
| Contacts.ContactsStore.constructor | src/stores/contacts.ts:25-29 | an empty cache, empty query, no status filter and no error |
| Contacts.ContactsStore.Filtered | src/stores/contacts.ts:49-76 | never longer than the cache, and every presented status is canonical |
| Contacts.ContactsStore.UpdateContact | src/stores/contacts.ts:111-130 | on success the reply is merged into the first contact with the id; on failure the cache is kept, the error is set and it throws |
| Contacts.ContactsStore.DeleteContact | src/stores/contacts.ts:132-145 | on success every contact with the id is removed; on failure the cache is kept, the error is set and it throws |
| Contacts.ContactsStore.GetContactById | src/stores/contacts.ts:147-183 | a missing or NaN id throws before any request; a cached contact is returned without a request; otherwise the fetched contact is appended and returned, or the failure throws with the cache unchanged |
| DataImporter.KeyIndex | src/utils/dataImporter.ts:174 | finds the position of a key already in the map, or reports that the key is new |
| DataImporter.Values | src/utils/dataImporter.ts:174 | `values()` lists the stored values in entry order |
| DataImporter.Keyed | src/utils/dataImporter.ts:174 | each item becomes the pair of its key and itself, in order |
| DataImporter.SetEntrySpec | src/utils/dataImporter.ts:174 | `Map.set` keeps keys distinct, overwrites an existing key in place and appends a new one |
| DataImporter.BuildMapDistinct | src/utils/dataImporter.ts:174 | the map built from the pairs has distinct keys |
| DataImporter.BuildMapHasKeys | src/utils/dataImporter.ts:174 | the map has exactly the keys of the pairs |
| DataImporter.BuildMapLastOnes | src/utils/dataImporter.ts:174 | every entry is the last pair given with its key |
| DataImporter.BuildMapFirstOrder | src/utils/dataImporter.ts:174 | entries are ordered by the first occurrence of their keys |
| DataImporter.BuildMapSpec | src/utils/dataImporter.ts:174 | `new Map(pairs)`: distinct keys, the same key set as the pairs, the last pair for each key, ordered by first occurrence |
| DataImporter.RemoveDuplicatesDistinct | src/utils/dataImporter.ts:173-175 | no two results share a key |
| DataImporter.RemoveDuplicatesLast | src/utils/dataImporter.ts:173-175 | every result is an input item with no later item sharing its key |
| DataImporter.RemoveDuplicatesKeys | src/utils/dataImporter.ts:173-175 | every input key is kept by some result |
| DataImporter.RemoveDuplicatesOrder | src/utils/dataImporter.ts:173-175 | results are ordered by the first occurrence of their keys in the input |
| DataImporter.NormalizeStateNameAsWritten | src/utils/dataImporter.ts:126-153 | missing, empty or "Not Provided" input gives "Not Provided"; a title-cased name in the state list is returned |
| DataImporter.AliasKeysUnreachable | src/utils/dataImporter.ts:132-150 | no title-cased string equals the alias keys "FCT" or "PH" |
| DataImporter.PortHarcourtAbbreviationLost | src/utils/dataImporter.ts:132-152 | as written, "PH" and "ph" normalise to "Not Provided" instead of "Rivers" |
| DataImporter.ProtoStateInherits | src/utils/dataImporter.ts:152 | as written, "__proto__" yields the inherited prototype object instead of a state name |
| DataImporter.NormalizeStateName | src/utils/dataImporter.ts:126-153 | the result is a listed state, an alias target or "Not Provided"; missing or "Not Provided" input stays "Not Provided"; a listed title-cased name is returned; otherwise the alias table decides, with "Not Provided" for an unknown name |
| DataImporter.AliasesReachable | src/utils/dataImporter.ts:141-152 | with the alias keys looked up by title case, "PH" gives "Rivers" and "fct" gives "FCT" |
| DataImporter.NormalizeStateNameAgrees | src/utils/dataImporter.ts:126-153 | away from the unreachable aliases and prototype names, the intended function and the code as written agree |
| DataImporter.ConvertAnswerAsWritten | src/utils/dataImporter.ts:156-170 | a non-scale answer is returned unchanged |
| DataImporter.ScaleAnswerInherits | src/utils/dataImporter.ts:166 | as written, the scale answers "constructor" and "valueOf" yield inherited functions instead of a number |
| DataImporter.ConvertAnswer | src/utils/dataImporter.ts:156-170 | a scale answer is always a number in 1..5: its table value for a scale word, otherwise 3; a non-scale answer is unchanged |
| DataImporter.ConvertAnswerAgrees | src/utils/dataImporter.ts:156-170 | for answers that are not prototype names, the intended function and the code as written agree |
| DataImporter.ScaleOrdered | src/utils/dataImporter.ts:159-166 | Poor..Excellent map to 1..5 and the match is case-sensitive |
| DataImporter.Email | src/utils/dataImporter.ts:44 | the address is the lower-cased name with whitespace runs collapsed to dots, followed by "@example.com"; it contains no whitespace and no upper-case letter before the domain |
| DataImporter.TwoWordsJoined | src/utils/dataImporter.ts:44 | two whitespace-free words around one whitespace run of any length are joined by a single dot |
| DataImporter.EmailOfTwoWords | src/utils/dataImporter.ts:44 | the name "Ada  Obi" gets the address "ada.obi" followed by "@example.com" |
| DataImporter.RowSpec | src/utils/dataImporter.ts:40-103 | each row gives a `not_started` contact keyed by its CUID with interview count 1, a `completed` interview at cursor 0, and one response per truthy mapped column followed by responses 101, 102 and 103 |
| DataImporter.MappedResponsesSpec | src/utils/dataImporter.ts:75-84 | a response is produced exactly for each mapping whose column is truthy, with the converted answer |
| DataImporter.ColumnResponses | src/utils/dataImporter.ts:75-84 | the mapping loop pushes the responses of the truthy columns, in mapping order |
| DataImporter.ImportRowsWith | src/utils/dataImporter.ts:34-112 | the row loop yields the de-duplicated contacts and interviews and every row's responses in row order |
| DataImporter.ImportRows | src/utils/dataImporter.ts:34-112 | the import with the survey's nine column mappings |
| DataImporter.DedupedIds | src/utils/dataImporter.ts:111 | de-duplicated contacts have distinct ids and every input id survives |
| DataImporter.ImportedContactsSpec | src/utils/dataImporter.ts:34-112 | one contact and one interview per row; the imported contacts have distinct ids and every row's CUID is among them |
| Toasts.WithoutToastSpec | src/composables/useToast.ts:39-44 | an unknown id changes nothing; otherwise exactly one toast goes and the rest keep their order; with distinct ids, no toast with the id is left |
| Toasts.AppendKeepsIds | src/composables/useToast.ts:20-28 | appending a toast numbered by the counter keeps ids distinct and below the advanced counter |
| Toasts.ToastQueue.constructor | src/composables/useToast.ts:11-12 | an empty list with the counter at 1 |
| Toasts.ToastQueue.ShowToast | src/composables/useToast.ts:15-37 | returns the counter and advances it; appends one toast with the message, type (default info) and timeout (default 5000); schedules removal iff the timeout is non-zero; ids stay distinct and below the counter |
| Toasts.ToastQueue.RemoveToast | src/composables/useToast.ts:39-44 | removes the first toast with the id, keeps the others in order and keeps ids distinct |
| Auth.Initial | src/stores/auth.ts:15-18 | the token is the one read from local storage, there is no user, no header and no error; the state is consistent and not authenticated |
| Auth.RolePredicates | src/stores/auth.ts:20-23 | `canLogin` iff admin or interviewer, never both; an authenticated store has a user |
| Auth.AuthenticatedCanLogin | src/stores/auth.ts:20-23 | in a consistent state a kept user can always log in |
| Auth.LogoutSpec | src/stores/auth.ts:60-65 | logout signs out and clears token, user, stored token and header; it keeps the error and is idempotent |
| Auth.LoginSpec | src/stores/auth.ts:25-58 | login succeeds iff the server returns a user with role admin or interviewer; then the token is stored and installed as the header; otherwise everything is cleared and the error set |
| Auth.CheckAuthSpec | src/stores/auth.ts:67-86 | without a token, false with nothing changed; otherwise true iff the server returns an allowed user, who is kept, else logout; the error is never touched |
| Auth.AuthStore.constructor | src/stores/auth.ts:15-18 | the store starts in the initial state for the stored token |
| Auth.AuthStore.Login | src/stores/auth.ts:25-58 | the new state and the result are those of the login specification |
| Auth.AuthStore.Logout | src/stores/auth.ts:60-65 | the new state is the logged-out state |
| Auth.AuthStore.CheckAuth | src/stores/auth.ts:67-86 | the server is asked iff a non-empty token is held; the new state and the result are those of the check specification |

## Left out

- Transport and its detail: HTTP, the `loading` flags, error message texts
  and console logging are not modelled.
- `saveInterviewState` and `autoSaveEnabled`
  (src/stores/interview.ts:413-424) are not modelled. The call swallows its
  failures and changes no local state.
- `setRoundFilter`, `currentStage`, `importInterviewsFromJson`,
  `submitXFormData` and `saveXFormProgress` are not modelled.
  - They either only copy values or replace the session with a server
    payload.
  - The import's batch loops are network work.
- In the contacts store, `fetchContacts`, `createContact` and
  `importContactsFromJson` are not modelled. They replace the cache with
  or push server data.
- The importer's `/data.json` fetch is not modelled. The model starts from
  the list of raw rows.
- The list of Nigerian states lives in a file that is not part of this
  model. It is a parameter.
- Interview.InterviewStore.ProgressPercentage: models `Math.round` on
  exact rationals, not on the floating-point quotient. The rounded
  percentage can then be one point higher than the source's. For 29
  answers out of 200 the double product is just below 14.5, so the source
  shows 14 where the model gives 15.
- Interview.InterviewStore: the cursor is a natural number.
  - A negative `current_question_index` from the server is not modelled.
  - An active session without an `interview_round` is not modelled either;
    the source throws a TypeError on it.
  - Both are excluded by the store's invariant.
- Interview.InterviewStore.ResumeInterview: a null interview body in the
  reply is not modelled. The fetched interview must carry a round.
- Interview.InterviewStore: the session is a value, so aliasing between the
  current interview and its entry in `interviews` is not modelled.
- Interleaving of asynchronous actions between `await`s is not modelled.
  Each action runs to completion.
- Date parsing is not modelled. Due dates and `now` are integers, and
  `completed_at` is an opaque string.
- DataImporter.ImportRowsWith, DataImporter.ImportRows: build response
  103 with the corrected `NormalizeStateName` and the survey answers with
  the corrected `ConvertAnswer`, not with the code as written.
  - The raw states "FCT", "PH" and "ph" are stored by the source as
    "Not Provided"; the model stores "FCT" or "Rivers"
    (`PortHarcourtAbbreviationLost`, `AliasesReachable`).
  - A state or scale answer named like an `Object.prototype` member
    yields an inherited value in the source (`ProtoStateInherits`,
    `ScaleAnswerInherits`).
  - Elsewhere the two agree (`NormalizeStateNameAgrees`,
    `ConvertAnswerAgrees`).
- Contacts.FilteredContacts: uses the corrected `NormalizeStatus`. It
  differs from the code as written only for a status named like an
  `Object.prototype` member, which is outside the declared status values
  (`NormalizeStatusAgrees`).
- Text.ToLower, Text.TitleCase: model only ASCII case mapping. Non-ASCII
  letters are left as they are.
- Text.CollapseSpaces: models only ASCII whitespace. Unicode spaces
  are not treated as whitespace.
- Auth.AuthStore: a role outside admin, interviewer and contact is not
  modelled.
- Auth.LoginSpec: storing a `null` token writes "null" to local storage,
  which is not modelled. A missing token is stored as "undefined".
- Toasts.ToastQueue.ShowToast: the timer is not modelled. The delay is
  reported and the removal it performs is `RemoveToast`.
- Toasts.ToastQueue.ShowToast: a `NaN` timeout is not modelled, and the
  counter does not lose precision beyond 2^53 in the model.

## Findings

| source | as written | input that shows it | evidently intended | confidence | as-written member | corrected member |
|---|---|---|---|---|---|---|
| src/stores/contacts.ts:46 | `statusMap[status] \|\| 'not_started'` on an object literal reads inherited `Object.prototype` members | status "toString" or "constructor" yields a function, not a status | every unknown status maps to `not_started` | not executed | Contacts.NormalizeStatusInherits | Contacts.NormalizeStatus |
| src/utils/dataImporter.ts:166 | `scaleMap[value] \|\| 3` reads inherited members | scale answer "constructor" or "valueOf" yields a function | every unknown scale answer maps to 3 | not executed | DataImporter.ScaleAnswerInherits | DataImporter.ConvertAnswer |
| src/utils/dataImporter.ts:152 | `stateMap[titleCase] \|\| 'Not Provided'` reads inherited members | state "__proto__" yields the prototype object | an unknown state gives "Not Provided" | not executed | DataImporter.ProtoStateInherits | DataImporter.NormalizeStateName |
| src/utils/dataImporter.ts:142-147 | the alias keys "FCT" and "PH" are compared with a title-cased string, which can never equal them | "PH" title-cases to "Ph" and gives "Not Provided" | "PH" gives "Rivers" and "fct" gives "FCT" | not executed | DataImporter.PortHarcourtAbbreviationLost | DataImporter.AliasesReachable |
