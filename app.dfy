/** The request handlers of app.py over the record store: each computes what it
    hands to the store and what it answers. Routing, authentication and response
    envelopes are outside the model; the authenticated user arrives as `userId`. */
module App {
  import opened Models
  import opened Scoring
  import opened Records
  import opened Crud

  /** An HTTPException raised by a handler. */
  datatype HttpError = HttpError(statusCode: int, detail: string)

  datatype Response<T> = Ok(body: T) | Err(error: HttpError)

  /** The detail texts app.py sends, verbatim: "no record of the past week was found,
      so no lantan could be created" and "this email address is already in use". */
  const LANTAN_NOT_FOUND := "過去1週間の記録が見つからないため、ランタンを作成できませんでした。"
  const EMAIL_IN_USE := "このメールアドレスは既に使用されています"

  /** The colour stored on `r` is the classification of the answers stored for it. */
  ghost predicate ColourAgreesWithAnswers(r: DailyRecord, answers: seq<DailyAnswer>)
  {
    r.colorId == Some(ColorFromAnswers(AnswerDataOf(AnswersOf(answers, r.checkId))))
  }

  ghost predicate AllColoursAgree(records: seq<DailyRecord>, answers: seq<DailyAnswer>)
  {
    forall r :: r in records ==> ColourAgreesWithAnswers(r, answers)
  }

  /** No two users share an email address. */
  ghost predicate UniqueEmails(users: seq<User>)
  {
    forall i, j :: 0 <= i < j < |users| ==> users[i].email != users[j].email
  }

  /** Saving the classification of the submitted answers as the colour keeps every
      stored colour in agreement with the answers stored for its record: the saved
      record's by construction, every other record's because neither it nor its
      answers change. */
  lemma SaveKeepsColoursAgreeing(records: seq<DailyRecord>, answers: seq<DailyAnswer>, nextId: nat,
                                 userId: nat, date: int, data: seq<AnswerData>, recommendId: Option<int>)
    requires UniqueCheckIds(records)
    requires forall r :: r in records ==> r.checkId < nextId
    ensures var up := UpsertRecords(records, nextId, userId, date, ColorFromAnswers(data), recommendId);
      var replaced := ReplaceAnswers(answers, SavedCheckId(records, nextId, userId, date), data);
      && ColourAgreesWithAnswers(up[SavedIndex(records, userId, date)], replaced)
      && (AllColoursAgree(records, answers) ==> AllColoursAgree(up, replaced))
  {
    var color := ColorFromAnswers(data);
    var up := UpsertRecords(records, nextId, userId, date, color, recommendId);
    var id := SavedCheckId(records, nextId, userId, date);
    var k := SavedIndex(records, userId, date);
    var replaced := ReplaceAnswers(answers, id, data);
    UpsertSavedRecord(records, nextId, userId, date, color, recommendId);
    UpsertLeavesOthers(records, nextId, userId, date, color, recommendId);
    UpsertFreshCheckId(records, nextId, userId, date, color, recommendId);
    ReplaceAnswersSpec(answers, id, data);
    AnswerDataRoundTrip(id, data);
    if AllColoursAgree(records, answers) {
      forall r | r in up
        ensures ColourAgreesWithAnswers(r, replaced)
      {
        var j :| 0 <= j < |up| && up[j] == r;
        if j != k {
          assert up[j].checkId != up[k].checkId;
          assert up[j] == records[j];
          assert records[j] in records;
        }
      }
    }
  }

  /** save_mood: the colour is the classification of the answers, the store saves it
      with the answers, and the handler answers with that same colour. The ghost
      `recommendId` names the recommendation the store drew. */
  method SaveMood(store: Store, userId: nat, answerData: seq<AnswerData>, checkInDate: int)
    returns (colorId: int, ghost recommendId: Option<int>)
    requires store.Valid()
    modifies store
    ensures store.Valid()
    ensures colorId == ColorFromAnswers(answerData) && 1 <= colorId <= 5
    ensures ChosenRecommendation(store.recommendations, colorId, recommendId)
    ensures store.records == UpsertRecords(old(store.records), old(store.nextCheckId), userId, checkInDate, colorId, recommendId)
    ensures store.answers == ReplaceAnswers(old(store.answers), SavedCheckId(old(store.records), old(store.nextCheckId), userId, checkInDate), answerData)
    ensures store.users == old(store.users) && store.lantans == old(store.lantans)
    ensures store.questions == old(store.questions) && store.recommendations == old(store.recommendations)
    ensures store.nextUserId == old(store.nextUserId) && store.nextLantanId == old(store.nextLantanId)
    ensures store.nextCheckId == if FindRecord(old(store.records), userId, checkInDate).None? then old(store.nextCheckId) + 1 else old(store.nextCheckId)
    ensures var k := SavedIndex(old(store.records), userId, checkInDate);
      && k < |store.records|
      && IsDay(store.records[k], userId, checkInDate)
      && store.records[k].colorId == Some(colorId)
      && ColourAgreesWithAnswers(store.records[k], store.answers)
      && AnswersOf(store.answers, store.records[k].checkId) == ToDailyAnswers(store.records[k].checkId, answerData)
      && (old(OneRecordPerDay(store.records)) ==>
            && OneRecordPerDay(store.records)
            && forall j :: 0 <= j < |store.records| && IsDay(store.records[j], userId, checkInDate) ==> j == k)
    ensures old(AllColoursAgree(store.records, store.answers)) ==> AllColoursAgree(store.records, store.answers)
  {
    colorId := ColorFromAnswers(answerData);
    ghost var records, answers, nextId := store.records, store.answers, store.nextCheckId;
    ghost var rid := store.SaveDailyRecord(userId, answerData, colorId, checkInDate);
    recommendId := rid;
    UpsertSavedRecord(records, nextId, userId, checkInDate, colorId, rid);
    ReplaceAnswersSpec(answers, SavedCheckId(records, nextId, userId, checkInDate), answerData);
    SaveKeepsColoursAgreeing(records, answers, nextId, userId, checkInDate, answerData, rid);
    if OneRecordPerDay(records) {
      UpsertOneRecordPerDay(records, nextId, userId, checkInDate, colorId, rid);
    }
  }

  /** get_weekly_colors: the colours of the weekly records, in the records' order. */
  method GetWeeklyColors(store: Store, userId: nat, today: int) returns (colorIds: seq<Option<int>>)
    ensures var weekly := WeeklyRecords(store.records, userId, today);
      && |colorIds| == |weekly|
      && forall i :: 0 <= i < |weekly| ==> colorIds[i] == weekly[i].colorId
  {
    var weekly := store.GetWeeklyRecords(userId, today);
    colorIds := seq(|weekly|, i requires 0 <= i < |weekly| => weekly[i].colorId);
  }

  /** get_recommendations: at most two distinct recommendations of the requested colour. */
  method GetRecommendations(store: Store, score: int) returns (picked: seq<Recommendation>)
    ensures |picked| == Min(2, |MatchingRecommendations(store.recommendations, score)|)
    ensures forall i :: 0 <= i < |picked| ==> picked[i] in store.recommendations && picked[i].colorId == score
    ensures forall i, j :: 0 <= i < j < |picked| ==> picked[i] != picked[j]
  {
    picked := store.GetRandomRecommendationsByColorId(score, 2);
  }

  /** release_lantan: 404 exactly when the store creates no lantan. */
  method ReleaseLantan(store: Store, userId: nat, today: int) returns (response: Response<Lantan>)
    requires store.Valid()
    modifies store
    ensures store.Valid()
    ensures var colors := NonNullColors(WeeklyRecords(old(store.records), userId, today));
      && (response.Err? <==> colors == [])
      && (response.Err? ==> response.error == HttpError(404, LANTAN_NOT_FOUND) && store.lantans == old(store.lantans))
      && (response.Ok? ==>
            && response.body == Lantan(old(store.nextLantanId), userId, LantanColor(colors))
            && store.lantans == old(store.lantans) + [response.body])
    ensures store.nextLantanId == if response.Ok? then old(store.nextLantanId) + 1 else old(store.nextLantanId)
    ensures store.records == old(store.records) && store.answers == old(store.answers) && store.users == old(store.users)
    ensures store.questions == old(store.questions) && store.recommendations == old(store.recommendations)
    ensures store.nextCheckId == old(store.nextCheckId) && store.nextUserId == old(store.nextUserId)
  {
    var lantan := store.CreateLantanForUser(userId, today);
    if lantan.None? {
      return Err(HttpError(404, LANTAN_NOT_FOUND));
    }
    response := Ok(lantan.value);
  }

  /** register: 400 when the email is already in use, otherwise a new user whose
      stored password is `hash(password)`. Token issuance is not modelled. */
  method Register(store: Store, name: string, email: string, password: string,
                  prefecture: string, birthday: string, gender: string,
                  hash: string -> string) returns (response: Response<User>)
    requires store.Valid()
    modifies store
    ensures store.Valid()
    ensures response.Err? <==> old(FirstUserWithEmail(store.users, email)).Some?
    ensures response.Err? ==> response.error == HttpError(400, EMAIL_IN_USE) && store.users == old(store.users)
    ensures response.Ok? ==>
      && response.body == User(old(store.nextUserId), name, email, hash(password), prefecture, birthday, gender)
      && store.users == old(store.users) + [response.body]
    ensures store.nextUserId == if response.Ok? then old(store.nextUserId) + 1 else old(store.nextUserId)
    ensures old(UniqueEmails(store.users)) ==> UniqueEmails(store.users)
    ensures store.records == old(store.records) && store.answers == old(store.answers) && store.lantans == old(store.lantans)
    ensures store.questions == old(store.questions) && store.recommendations == old(store.recommendations)
    ensures store.nextCheckId == old(store.nextCheckId) && store.nextLantanId == old(store.nextLantanId)
  {
    var existing := store.GetUserByEmail(email);
    if existing.Some? {
      return Err(HttpError(400, EMAIL_IN_USE));
    }
    var user := store.CreateUser(name, email, hash(password), prefecture, birthday, gender);
    response := Ok(user);
  }
}
