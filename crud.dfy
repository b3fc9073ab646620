/** The record store of crud.py: an in-memory stand-in for the database session,
    with one sequence per table and the id counters the database would keep. */
module Crud {
  import opened Models
  import opened Records

  /** get_user_by_email: the first user row with this email. */
  function FirstUserWithEmail(users: seq<User>, email: string): (found: Option<User>)
    ensures found.None? <==> forall i :: 0 <= i < |users| ==> users[i].email != email
    ensures found.Some? ==> found.value in users && found.value.email == email
    ensures found.Some? ==> exists k :: 0 <= k < |users| && users[k] == found.value
                                        && forall j :: 0 <= j < k ==> users[j].email != email
  {
    if users == [] then None
    else if users[0].email == email then Some(users[0])
    else
      var rest := FirstUserWithEmail(users[1..], email);
      assert forall i :: 1 <= i < |users| ==> users[i] == users[1..][i - 1];
      if rest.Some? then
        var k :| 0 <= k < |users[1..]| && users[1..][k] == rest.value
                 && forall j :: 0 <= j < k ==> users[1..][j].email != email;
        assert users[k + 1] == rest.value;
        rest
      else rest
  }

  /** Whether some recommendation carries colour `colorId`. */
  predicate HasColor(recommendations: seq<Recommendation>, colorId: int)
  {
    exists k :: 0 <= k < |recommendations| && recommendations[k].colorId == colorId
  }

  /** `recommendId` is a possible outcome of the random recommendation lookup for
      `colorId`: absent exactly when no recommendation has that colour, otherwise
      the id of one that has. */
  ghost predicate ChosenRecommendation(recommendations: seq<Recommendation>, colorId: int,
                                       recommendId: Option<int>)
  {
    && (recommendId.None? <==> !HasColor(recommendations, colorId))
    && (recommendId.Some? ==>
          exists k :: 0 <= k < |recommendations| && recommendations[k].colorId == colorId
                      && recommendations[k].recommendId == recommendId.value)
  }

  /** The categories the questions fall into. */
  function Categories(questions: seq<Question>): set<int>
  {
    set q | q in questions :: q.categoryId
  }

  /** Some question of `picked` is of category `categoryId`. */
  ghost predicate Covers(picked: seq<Question>, categoryId: int)
  {
    exists i :: 0 <= i < |picked| && picked[i].categoryId == categoryId
  }

  lemma CoversAppend(picked: seq<Question>, q: Question)
    ensures Covers(picked + [q], q.categoryId)
    ensures forall c :: Covers(picked, c) ==> Covers(picked + [q], c)
  {
    var t := picked + [q];
    assert t[|picked|] == q;
    forall c | Covers(picked, c)
      ensures Covers(t, c)
    {
      var i :| 0 <= i < |picked| && picked[i].categoryId == c;
      assert t[i] == picked[i];
    }
  }

  /** The recommendation rows of colour `colorId`. */
  function MatchingRecommendations(recommendations: seq<Recommendation>, colorId: int): set<Recommendation>
  {
    set r | r in recommendations && r.colorId == colorId
  }

  function Min(a: int, b: int): int
  {
    if a <= b then a else b
  }

  class Store {
    var users: seq<User>
    var questions: seq<Question>
    var recommendations: seq<Recommendation>
    var records: seq<DailyRecord>
    var answers: seq<DailyAnswer>
    var lantans: seq<Lantan>
    var nextUserId: nat
    var nextCheckId: nat
    var nextLantanId: nat

    /** Ids are assigned by counters that stay above every id in use; check ids are
        unique and every stored answer belongs to an id already handed out. */
    ghost predicate Valid()
      reads this
    {
      && (forall u :: u in users ==> u.userId < nextUserId)
      && UniqueCheckIds(records)
      && (forall r :: r in records ==> r.checkId < nextCheckId)
      && (forall a :: a in answers ==> a.checkId < nextCheckId)
      && (forall l :: l in lantans ==> l.lantanId < nextLantanId)
    }

    /** An empty store over the given reference data. */
    constructor (questions: seq<Question>, recommendations: seq<Recommendation>)
      ensures Valid()
      ensures this.questions == questions && this.recommendations == recommendations
      ensures users == [] && records == [] && answers == [] && lantans == []
    {
      this.questions := questions;
      this.recommendations := recommendations;
      users, records, answers, lantans := [], [], [], [];
      nextUserId, nextCheckId, nextLantanId := 0, 0, 0;
    }

    /** get_user_by_email */
    method GetUserByEmail(email: string) returns (found: Option<User>)
      ensures found == FirstUserWithEmail(users, email)
    {
      found := FirstUserWithEmail(users, email);
    }

    /** create_user: appends a user row under a fresh id. The email is not checked. */
    method CreateUser(name: string, email: string, hashedPassword: string,
                      prefecture: string, birthday: string, gender: string) returns (user: User)
      requires Valid()
      modifies this
      ensures Valid()
      ensures user == User(old(nextUserId), name, email, hashedPassword, prefecture, birthday, gender)
      ensures forall u :: u in old(users) ==> u.userId != user.userId
      ensures users == old(users) + [user] && nextUserId == old(nextUserId) + 1
      ensures records == old(records) && answers == old(answers) && lantans == old(lantans)
      ensures questions == old(questions) && recommendations == old(recommendations)
      ensures nextCheckId == old(nextCheckId) && nextLantanId == old(nextLantanId)
    {
      user := User(nextUserId, name, email, hashedPassword, prefecture, birthday, gender);
      users := users + [user];
      nextUserId := nextUserId + 1;
    }

    /** get_questions_from_db: one question of each category, chosen at random. */
    method GetQuestions() returns (picked: seq<Question>)
      ensures forall i :: 0 <= i < |picked| ==> picked[i] in questions
      ensures forall i, j :: 0 <= i < j < |picked| ==> picked[i].categoryId != picked[j].categoryId
      ensures forall q :: q in questions ==> Covers(picked, q.categoryId)
    {
      var pending := Categories(questions);
      picked := [];
      while pending != {}
        invariant pending <= Categories(questions)
        invariant forall i :: 0 <= i < |picked| ==> picked[i] in questions && picked[i].categoryId !in pending
        invariant forall i, j :: 0 <= i < j < |picked| ==> picked[i].categoryId != picked[j].categoryId
        invariant forall c :: c in Categories(questions) ==> c in pending || Covers(picked, c)
        decreases pending
      {
        var c :| c in pending;
        var q :| q in questions && q.categoryId == c;
        CoversAppend(picked, q);
        picked := picked + [q];
        pending := pending - {c};
      }
    }

    /** get_random_recommendation_by_color: some recommendation of that colour, if any. */
    method GetRandomRecommendationByColor(colorId: int) returns (found: Option<Recommendation>)
      ensures found.None? <==> !HasColor(recommendations, colorId)
      ensures found.Some? ==> found.value in recommendations && found.value.colorId == colorId
    {
      if HasColor(recommendations, colorId) {
        var k :| 0 <= k < |recommendations| && recommendations[k].colorId == colorId;
        found := Some(recommendations[k]);
      } else {
        found := None;
      }
    }

    /** get_random_recommendations_by_color_id: up to `limit` distinct recommendations
        of that colour, chosen at random; fewer only when fewer exist. */
    method GetRandomRecommendationsByColorId(colorId: int, limit: nat) returns (picked: seq<Recommendation>)
      ensures |picked| == Min(limit, |MatchingRecommendations(recommendations, colorId)|)
      ensures forall i :: 0 <= i < |picked| ==> picked[i] in recommendations && picked[i].colorId == colorId
      ensures forall i, j :: 0 <= i < j < |picked| ==> picked[i] != picked[j]
    {
      var matching := MatchingRecommendations(recommendations, colorId);
      var pool := matching;
      picked := [];
      while |picked| < limit && pool != {}
        invariant pool <= matching
        invariant |picked| + |pool| == |matching|
        invariant |picked| <= limit
        invariant forall i :: 0 <= i < |picked| ==> picked[i] in matching && picked[i] !in pool
        invariant forall i, j :: 0 <= i < j < |picked| ==> picked[i] != picked[j]
        decreases |pool|
      {
        var r :| r in pool;
        picked := picked + [r];
        pool := pool - {r};
      }
    }

    /** get_weekly_records_from_db, "today" being a day number. */
    method GetWeeklyRecords(userId: nat, today: int) returns (weekly: seq<DailyRecord>)
      ensures weekly == WeeklyRecords(records, userId, today)
    {
      weekly := WeeklyRecords(records, userId, today);
    }

    /** save_daily_record_to_db: upsert of the (user, day) record with the new colour
        and a random recommendation of that colour, then replacement of all its
        answers by the submitted ones. `recommendId` is the recommendation drawn. */
    method SaveDailyRecord(userId: nat, answerData: seq<AnswerData>, colorId: int, checkInDate: int)
      returns (ghost recommendId: Option<int>)
      requires Valid()
      modifies this
      ensures Valid()
      ensures ChosenRecommendation(recommendations, colorId, recommendId)
      ensures records == UpsertRecords(old(records), old(nextCheckId), userId, checkInDate, colorId, recommendId)
      ensures answers == ReplaceAnswers(old(answers), SavedCheckId(old(records), old(nextCheckId), userId, checkInDate), answerData)
      ensures nextCheckId == if FindRecord(old(records), userId, checkInDate).None? then old(nextCheckId) + 1 else old(nextCheckId)
      ensures old(OneRecordPerDay(records)) ==> OneRecordPerDay(records)
      ensures users == old(users) && lantans == old(lantans)
      ensures questions == old(questions) && recommendations == old(recommendations)
      ensures nextUserId == old(nextUserId) && nextLantanId == old(nextLantanId)
    {
      var found := FindRecord(records, userId, checkInDate);
      var recommendation := GetRandomRecommendationByColor(colorId);
      var rid := if recommendation.Some? then Some(recommendation.value.recommendId) else None;
      recommendId := rid;
      UpsertFreshCheckId(records, nextCheckId, userId, checkInDate, colorId, rid);
      if OneRecordPerDay(records) {
        UpsertOneRecordPerDay(records, nextCheckId, userId, checkInDate, colorId, rid);
      }
      var checkId: nat;
      match found {
        case Some(i) =>
          checkId := records[i].checkId;
          records := records[i := records[i].(colorId := Some(colorId), recommendId := rid)];
          answers := WithoutAnswersOf(answers, checkId);
        case None =>
          checkId := nextCheckId;
          WithoutAbsentAnswers(answers, checkId);
          records := records + [DailyRecord(checkId, userId, checkInDate, Some(colorId), rid)];
          nextCheckId := nextCheckId + 1;
      }
      InsertAnswers(checkId, answerData);
    }

    /** The insertion loop of save_daily_record_to_db: one answer row per submitted
        answer, in submission order, under check id `checkId`. */
    method InsertAnswers(checkId: nat, answerData: seq<AnswerData>)
      modifies this`answers
      ensures answers == old(answers) + ToDailyAnswers(checkId, answerData)
    {
      var k := 0;
      while k < |answerData|
        invariant 0 <= k <= |answerData|
        invariant answers == old(answers) + ToDailyAnswers(checkId, answerData[..k])
      {
        assert ToDailyAnswers(checkId, answerData[..k + 1])
            == ToDailyAnswers(checkId, answerData[..k]) + [DailyAnswer(checkId, answerData[k].questionId, answerData[k].answerChoice)];
        answers := answers + [DailyAnswer(checkId, answerData[k].questionId, answerData[k].answerChoice)];
        k := k + 1;
      }
      assert answerData[..k] == answerData;
    }

    /** create_lantan_for_user: appends a lantan whose colour is the rounded mean of
        the non-null colours of the weekly records, or returns None without a change
        when there is no such colour. */
    method CreateLantanForUser(userId: nat, today: int) returns (lantan: Option<Lantan>)
      requires Valid()
      modifies this
      ensures Valid()
      ensures var colors := NonNullColors(WeeklyRecords(old(records), userId, today));
        && (lantan.None? <==> colors == [])
        && (lantan.None? ==> lantans == old(lantans) && nextLantanId == old(nextLantanId))
        && (lantan.Some? ==>
              && lantan.value == Lantan(old(nextLantanId), userId, LantanColor(colors))
              && lantans == old(lantans) + [lantan.value]
              && nextLantanId == old(nextLantanId) + 1)
      ensures records == old(records) && answers == old(answers) && users == old(users)
      ensures questions == old(questions) && recommendations == old(recommendations)
      ensures nextCheckId == old(nextCheckId) && nextUserId == old(nextUserId)
    {
      var weekly := GetWeeklyRecords(userId, today);
      if weekly == [] {
        return None;
      }
      var colors := NonNullColors(weekly);
      if colors == [] {
        return None;
      }
      var value := RoundHalfEven(IntSum(colors), |colors|);
      lantan := Some(Lantan(nextLantanId, userId, value));
      lantans := lantans + [lantan.value];
      nextLantanId := nextLantanId + 1;
    }
  }
}
