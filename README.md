# Mood-tracking backend: daily scoring, record store and lantans

This project models the core of a mood-tracking backend. Each day a user answers a few questions. The answers are reduced to a colour class from 1 to 5. The day's record and its answers are saved as an upsert on (user, day). Later the colours of the past week are averaged into a "lantan".

The Dafny modules follow the two core source files:

- `models.dfy` (module `Models`): the rows the backend handles: User, Question, AnswerData, DailyRecord, DailyAnswer, Recommendation and Lantan. Ids assigned by the database are `nat`. Calendar dates are integer day numbers.
- `scoring.dfy` (module `Scoring`): `generate_color_id_from_answers` of app.py, as a pure function. Threshold comparisons are exact: `mean >= 4.5` is `2 * sum >= 9 * n`.
- `records.dfy` (module `Records`): the meaning, as functions on sequences, of crud.py's queries and updates. These are the weekly window query, the upsert of a day's record, the replacement of its answers, and the lantan colour (Python `round`, which rounds half to even). It also holds the lemmas about them.
- `crud.dfy` (module `Crud`): class `Store`, an in-memory stand-in for the database session. It has one sequence field per table, plus the id counters the database would keep. Each crud.py function is a method. The weekly query, the save and the lantan creation are proved against the functions of `Records`. The user lookup, the question draw and the recommendation draws are proved against small functions and predicates of `Crud` itself.
- `app.dfy` (module `App`): the handlers `save_mood`, `get_weekly_colors`, `get_recommendations`, `release_lantan` and `register` over a `Store`.

Modelling choices:

- "today" is a parameter. The source reads it from the clock.
- Every random choice (`func.random()` ordering) is a nondeterministic pick (`:|`). Contracts state which results are possible, never which one is picked.
- The model takes `.first()` without an ORDER BY to be the first matching row in store order. SQL leaves the choice open, which matters only when several rows match.
- Password hashing is a function parameter `hash` of `Register`.

Points where the code behaves differently from what its messages or structure suggest:

- **Weekly window.** The 404 message of `release_lantan` (app.py:86) speaks of records from the past week. The query (crud.py:52-56) keeps every record of the user dated on or after `today - 7`, with no upper bound. That is eight days, plus any future-dated record. `InWeeklyWindow` models the query as written.
- **Rounding.** The lantan colour uses Python `round` (crud.py:121), which rounds half to even. So a mean of 1.5 gives 2 and a mean of 2.5 also gives 2.
- **One record per day.** crud.py has no uniqueness constraint on (user, day) and no retry: two concurrent saves of the same day could both find no record and both insert one. So one record per (user, day) is kept out of the store invariant `Valid()`. The model proves that a save keeps the property whenever it already held (`Records.UpsertOneRecordPerDay`).
- **Answer validation.** No range check on answer choices appears in app.py or crud.py, so choices are arbitrary integers.

## Model

| member | source | states |
|---|---|---|
| `Scoring.ColorFromAnswers` | app.py:24-31 | The colour is always in 1..5, and it is 3 when there are no answers. |
| `Scoring.Bucket` | app.py:27-31 | The bucket of a mean over one or more answers is in 1..5. |
| `Scoring.BucketThresholds` | app.py:27-31 | The thresholds are closed below: the class is at least c (2 ≤ c ≤ 5) exactly when the mean is at least c − ½. |
| `Scoring.ColorExamples` | app.py:25-31 | [] → 3; [5,4] (mean 4.5) → 5; [3,2] (mean 2.5) → 3; [1,2] (mean 1.5) → 2; [1,1] → 1; [5,5,5] → 5. |
| `Scoring.ChoiceSumPermutation` | app.py:26 | The sum of the choices depends only on the multiset of answers. |
| `Scoring.ColorPermutationInvariant` | app.py:26-31 | Reordering the answers in any way does not change the colour. |
| `Scoring.ColorOfUniformAnswers` | app.py:26-31 | When a non-empty list of answers all choose the same c in 1..5, the colour is c. |
| `Scoring.ChoiceSumUpdate` | app.py:26 | Replacing one answer changes the sum by exactly the difference of the two choices. |
| `Scoring.BucketMonotone` | app.py:27-31 | A larger sum over the same number of answers never gives a lower class. |
| `Scoring.ColorMonotone` | app.py:26-31 | Raising any single answer's choice never lowers the colour. |
| `Records.WindowRecords` | crud.py:53-55 | A record is selected exactly when it is stored, belongs to the user and is dated on or after today − 7. Each selected record appears as often as it is stored. |
| `Records.InsertByDate` | crud.py:56 | Inserting into a date-sorted sequence keeps it sorted and adds exactly that record to its multiset. |
| `Records.SortByDate` | crud.py:56 | The result is sorted ascending by date and is a permutation of the input. |
| `Records.WindowIsEightDaysPlusFuture` | crud.py:52-56 | A record dated today − 7 or 30 days ahead is in the weekly result; one dated today − 8 is not. |
| `Records.WeeklyRecordsSpec` | crud.py:50-56 | The weekly query returns exactly the user's records dated on or after today − 7, each as often as it is stored, sorted ascending by date. |
| `Records.WeeklyDatesStrictlyIncrease` | crud.py:50-56 | With one record per (user, day), the weekly dates strictly increase, so no day appears twice and the order is fully determined. |
| `Records.WindowOneRecordPerDay` | crud.py:53-55 | Filtering keeps one record per day. |
| `Records.SortOneRecordPerDay` | crud.py:56 | Sorting keeps one record per day. |
| `Records.FindRecord` | crud.py:66-69 | Finds the first record of the (user, day), or reports that none exists. |
| `Records.UpsertSavedRecord` | crud.py:74-95 | The saved record has the key, the new colour and the new recommendation. An existing record keeps its position and check id. Otherwise one record with the next id is appended. |
| `Records.UpsertLeavesOthers` | crud.py:74-95 | Every record with another check id stays at its position, unchanged. |
| `Records.UpsertOneRecordPerDay` | crud.py:66-95 | If there was at most one record per (user, day) before the save, there is at most one after, and the saved record is the only one for its key. |
| `Records.UpsertFreshCheckId` | crud.py:87-95 | A new record gets a check id no stored record uses. Check ids stay unique and below the id counter. |
| `Records.AnswersOf` | crud.py:80 | The answers of a check id are exactly the stored answers that carry it. |
| `Records.WithoutAnswersOf` | crud.py:80 | The bulk delete keeps exactly the answers of other check ids. |
| `Records.AnswersOfNew` | crud.py:98-104 | The inserted rows all belong to the saved check id. |
| `Records.WithoutAbsentAnswers` | crud.py:80 | Deleting the answers of an id that no answer carries changes nothing. |
| `Records.ReplaceAnswersSpec` | crud.py:80-104 | After the save, the saved record's answers are exactly the submitted ones, in submission order, with no earlier answer left. The answers of every other check id are unchanged. |
| `Records.AnswerDataRoundTrip` | crud.py:98-104 | Reading back the stored answer rows gives the submitted answers. |
| `Records.NonNullColors` | crud.py:116 | The colour list is empty exactly when every colour in the window is null. It holds exactly the non-null colours. |
| `Records.NonNullColorsCounts` | crud.py:116 | Each colour appears in the list exactly as often as it appears, non-null, on the records. |
| `Records.RoundHalfEvenNearest` | crud.py:120-121 | The rounded mean is within ½ of the exact mean, and is even when the mean lies exactly halfway. |
| `Records.RoundHalfEvenUnique` | crud.py:120-121 | Any integer that is nearest and even on a tie equals RoundHalfEven, so Python's rounding is pinned down completely. |
| `Records.RoundWithinBounds` | crud.py:120-121 | A quotient between two integers rounds to a value between them. |
| `Records.IntSumBounds` | crud.py:120 | n · min ≤ sum ≤ n · max for a non-empty list of colours. |
| `Records.LantanColorBounds` | crud.py:116-121 | The lantan colour lies between the smallest and the largest colour. |
| `Records.LantanColorInClassRange` | crud.py:116-121 | When every colour is in 1..5, the lantan colour is in 1..5. |
| `Records.LantanColorExamples` | crud.py:120-121 | [1,2,3] → 2, [1,2] → 2, [2,3] → 2 (ties go to even), [5,4] → 4. |
| `Crud.FirstUserWithEmail` | crud.py:15-16 | Returns no user exactly when no user has this email. Otherwise returns a stored user with this email, and no earlier user has it. |
| `Crud.Store.GetUserByEmail` | crud.py:15-16 | Returns the result of `FirstUserWithEmail` on the stored users: none when no user has the email, otherwise a stored user with this email that no earlier user shares. |
| `Crud.Store.CreateUser` | crud.py:18-30 | Appends exactly one user with a fresh id and the given fields. No other table changes. |
| `Crud.Store.GetQuestions` | crud.py:32-42 | Returns stored questions, with one question for every category and no category twice. |
| `Crud.Store.GetRandomRecommendationByColor` | crud.py:9-12 | Returns nothing exactly when no recommendation has the colour. Otherwise returns a stored recommendation of that colour. |
| `Crud.Store.GetRandomRecommendationsByColorId` | crud.py:44-48 | Returns distinct stored recommendations of the colour, as many as min(limit, number of such recommendations). |
| `Crud.Store.GetWeeklyRecords` | crud.py:50-56 | Returns the weekly query result over the stored records. |
| `Crud.Store.SaveDailyRecord` | crud.py:59-107 | Keeps the store invariant. The new records are the upsert of the old ones. The drawn recommendation id is absent exactly when no recommendation has the colour, and otherwise is the id of one that has it. The new answers are the old ones with the record's answers replaced. The id counter advances only when a record is created. One record per day is preserved. Users and lantans are unchanged. |
| `Crud.Store.InsertAnswers` | crud.py:98-104 | Appends one row per submitted answer, in order, under the record's check id. |
| `Crud.Store.CreateLantanForUser` | crud.py:111-131 | Returns None, adding no lantan, exactly when the window has no non-null colour. Otherwise it appends exactly one lantan for the user whose colour is the rounded mean. Daily records and answers are unchanged. |
| `App.SaveKeepsColoursAgreeing` | app.py:41-49 | Saving the classification of the submitted answers makes the saved record's colour agree with its stored answers. If every stored colour agreed with its answers before, every one agrees after. |
| `App.SaveMood` | app.py:35-50 | Returns exactly the colour handed to the store, which is the classification of the answers. The new records are the upsert of the old ones and the new answers are the old ones with the record's answers replaced. The record for the key has that colour and exactly the submitted answers. It is the only record for its key when that held before. Colour–answer agreement is preserved. Users, lantans, questions, recommendations and the user and lantan counters are unchanged. The check-id counter moves on only when a record is created. |
| `App.GetWeeklyColors` | app.py:52-58 | Returns the colours of the weekly records, in record order. |
| `App.GetRecommendations` | app.py:65-75 | Returns at most two distinct recommendations of the requested colour, and fewer only when fewer exist. |
| `App.ReleaseLantan` | app.py:77-91 | Fails with 404 exactly when the week has no non-null colour, and then adds no lantan. Otherwise returns and appends the lantan with the next lantan id, the user and the rounded mean colour, and advances the lantan counter. Every other table and counter is unchanged. |
| `App.Register` | app.py:95-101 | Fails with 400 exactly when the email is already in use, and then adds no user. Otherwise appends and returns the user with the next user id, the given fields and the hash of the given password, and advances the user counter. Unique emails are preserved. Every other table and counter is unchanged. |

## Left out

- Login (app.py:116-139): it compares password hashes and issues a token. Token issuance (`create_access_token`) is JWT library code outside this model, and `auth.py` is not part of this model.
- Register: the access token and response envelope (app.py:103-114) are not modelled, for the same reason. The password hash is a parameter, not SHA-256.
- FastAPI routing, dependency injection and CORS middleware (app.py:11-22, app.py:141-142): these are framework configuration.
- `get_questions` handler (app.py:60-63): it only wraps `Crud.Store.GetQuestions` in a response object.
- Session mechanics (`add`, `flush`, `commit`, `refresh`): these are direct updates of the store's sequences. Every crud function's effects are applied at once. The absence of transactions and of a uniqueness constraint is not modelled as concurrency. Two interleaved saves, and the duplicate records they could create, are outside the model.
- `func.random()`: this is a nondeterministic choice. Contracts say which results are possible, not how likely they are.
- `datetime.now()`: "today" is an integer day-number parameter.
- Floating point: means and rounding are computed exactly on integers. For the small integer sums the source handles, this agrees with Python's float division followed by `round`.
- Lantan creation timestamp: it is set by the database (not shown), so the model's Lantan has no timestamp.
- Columns of models.py and schemas.py that the shown code never reads: question and recommendation text, and user profile details beyond those passed to `create_user`. models.py and schemas.py are not part of this model.
- Crud.Store.GetRandomRecommendationsByColorId: takes `limit` as a natural number. A negative SQL LIMIT is not modelled (the only caller passes 2).
- Crud.Store.SaveDailyRecord: returns the drawn recommendation id as a ghost value so that contracts can name it. The source returns nothing. App.SaveMood passes it on the same way.
- Records.SortByDate: it is a stable insertion sort, so records with equal dates keep their store order. SQL `ORDER BY check_in_date` (crud.py:56) leaves the order of equal dates unspecified. When there is one record per (user, day), no ties arise (`Records.WeeklyDatesStrictlyIncrease`), so the order is fully determined.
