/** The value-level meaning of the record store's queries and updates in
    crud.py: the weekly window query, the upsert of a day's record, the
    wholesale replacement of its answers and the lantan colour. The store
    class in crud.dfy is proved against these functions. */
module Records {
  import opened Models

  // ---------------------------------------------------------------------------
  // Records of one user and day

  /** `r` is the record of user `userId` for day `date`. */
  predicate IsDay(r: DailyRecord, userId: nat, date: int)
  {
    r.userId == userId && r.checkInDate == date
  }

  predicate SameDay(a: DailyRecord, b: DailyRecord)
  {
    a.userId == b.userId && a.checkInDate == b.checkInDate
  }

  /** At most one record per (user, day): the invariant the upsert maintains. */
  predicate OneRecordPerDay(records: seq<DailyRecord>)
  {
    forall i, j :: 0 <= i < j < |records| ==> !SameDay(records[i], records[j])
  }

  /** Putting `x` before records none of which is for x's day keeps one record per day. */
  lemma ConsOneRecordPerDay(x: DailyRecord, s: seq<DailyRecord>)
    requires OneRecordPerDay(s)
    requires forall y :: y in s ==> !SameDay(x, y)
    ensures OneRecordPerDay([x] + s)
  {
    var t := [x] + s;
    forall i, j | 0 <= i < j < |t|
      ensures !SameDay(t[i], t[j])
    {
      assert t[j] == s[j - 1];
      if i > 0 {
        assert t[i] == s[i - 1];
      }
    }
  }

  /** The first of records kept one per day shares its day with none of the rest. */
  lemma TailOneRecordPerDay(s: seq<DailyRecord>)
    requires s != [] && OneRecordPerDay(s)
    ensures OneRecordPerDay(s[1..])
    ensures forall y :: y in s[1..] ==> !SameDay(s[0], y)
  {
    forall y | y in s[1..]
      ensures !SameDay(s[0], y)
    {
      var k :| 0 <= k < |s| - 1 && s[1..][k] == y;
      assert s[k + 1] == y;
    }
    forall i, j | 0 <= i < j < |s| - 1
      ensures !SameDay(s[1..][i], s[1..][j])
    {
      assert s[1..][i] == s[i + 1] && s[1..][j] == s[j + 1];
    }
  }

  /** No two records share a check id (the primary key). */
  ghost predicate UniqueCheckIds(records: seq<DailyRecord>)
  {
    forall i, j :: 0 <= i < j < |records| ==> records[i].checkId != records[j].checkId
  }

  // ---------------------------------------------------------------------------
  // The weekly query

  /** The filter of the weekly query: the user's records dated on or after
      `today - 7`. There is no upper bound on the date. */
  predicate InWeeklyWindow(r: DailyRecord, userId: nat, today: int)
  {
    r.userId == userId && r.checkInDate >= today - 7
  }

  /** The records the weekly query selects, in store order. */
  function WindowRecords(records: seq<DailyRecord>, userId: nat, today: int): (w: seq<DailyRecord>)
    ensures forall r :: r in w <==> r in records && InWeeklyWindow(r, userId, today)
    ensures forall i :: 0 <= i < |w| ==> w[i].userId == userId
    ensures forall r :: multiset(w)[r] == if InWeeklyWindow(r, userId, today) then multiset(records)[r] else 0
  {
    if records == [] then []
    else
      var rest := WindowRecords(records[1..], userId, today);
      assert records == [records[0]] + records[1..];
      assert multiset(records) == multiset{records[0]} + multiset(records[1..]);
      assert forall r :: r in records <==> r == records[0] || r in records[1..];
      if InWeeklyWindow(records[0], userId, today) then [records[0]] + rest else rest
  }

  lemma {:induction false} WindowOneRecordPerDay(records: seq<DailyRecord>, userId: nat, today: int)
    requires OneRecordPerDay(records)
    ensures OneRecordPerDay(WindowRecords(records, userId, today))
  {
    if records != [] {
      TailOneRecordPerDay(records);
      WindowOneRecordPerDay(records[1..], userId, today);
      if InWeeklyWindow(records[0], userId, today) {
        ConsOneRecordPerDay(records[0], WindowRecords(records[1..], userId, today));
      }
    }
  }

  predicate SortedByDate(s: seq<DailyRecord>)
  {
    forall i, j :: 0 <= i < j < |s| ==> s[i].checkInDate <= s[j].checkInDate
  }

  /** A record dated no later than a sorted sequence can go in front of it. */
  lemma ConsSorted(x: DailyRecord, s: seq<DailyRecord>)
    requires SortedByDate(s)
    requires forall y :: y in s ==> x.checkInDate <= y.checkInDate
    ensures SortedByDate([x] + s)
  {
    var t := [x] + s;
    forall i, j | 0 <= i < j < |t|
      ensures t[i].checkInDate <= t[j].checkInDate
    {
      assert t[j] == s[j - 1];
      if i > 0 {
        assert t[i] == s[i - 1];
      }
    }
  }

  lemma HeadAtMostTail(s: seq<DailyRecord>)
    requires s != [] && SortedByDate(s)
    ensures forall y :: y in s[1..] ==> s[0].checkInDate <= y.checkInDate
  {
    forall y | y in s[1..]
      ensures s[0].checkInDate <= y.checkInDate
    {
      var k :| 0 <= k < |s| - 1 && s[1..][k] == y;
      assert s[k + 1] == y;
    }
  }

  /** Inserts `r` before the first record that is not dated earlier. */
  function InsertByDate(r: DailyRecord, s: seq<DailyRecord>): (t: seq<DailyRecord>)
    requires SortedByDate(s)
    ensures SortedByDate(t)
    ensures multiset(t) == multiset(s) + multiset{r}
  {
    if s == [] || r.checkInDate <= s[0].checkInDate then
      AtMostHeadAtMostAll(r, s);
      ConsSorted(r, s);
      [r] + s
    else
      var rest := InsertByDate(r, s[1..]);
      assert s == [s[0]] + s[1..];
      HeadAtMostTail(s);
      assert forall x :: x in rest ==> x in multiset(s[1..]) + multiset{r};
      ConsSorted(s[0], rest);
      [s[0]] + rest
  }

  lemma AtMostHeadAtMostAll(r: DailyRecord, s: seq<DailyRecord>)
    requires SortedByDate(s)
    requires s == [] || r.checkInDate <= s[0].checkInDate
    ensures forall y :: y in s ==> r.checkInDate <= y.checkInDate
  {
    forall y | y in s
      ensures r.checkInDate <= y.checkInDate
    {
      var k :| 0 <= k < |s| && s[k] == y;
      assert s[0].checkInDate <= s[k].checkInDate;
    }
  }

  lemma {:induction false} InsertOneRecordPerDay(r: DailyRecord, s: seq<DailyRecord>)
    requires SortedByDate(s) && OneRecordPerDay(s)
    requires forall x :: x in s ==> !SameDay(x, r)
    ensures OneRecordPerDay(InsertByDate(r, s))
  {
    if s == [] || r.checkInDate <= s[0].checkInDate {
      ConsOneRecordPerDay(r, s);
    } else {
      TailOneRecordPerDay(s);
      SortedTail(s);
      InsertOneRecordPerDay(r, s[1..]);
      var rest := InsertByDate(r, s[1..]);
      assert forall x :: x in rest ==> x in multiset(s[1..]) + multiset{r};
      ConsOneRecordPerDay(s[0], rest);
    }
  }

  lemma SortedTail(s: seq<DailyRecord>)
    requires s != [] && SortedByDate(s)
    ensures SortedByDate(s[1..])
  {
    forall i, j | 0 <= i < j < |s| - 1
      ensures s[1..][i].checkInDate <= s[1..][j].checkInDate
    {
      assert s[1..][i] == s[i + 1] && s[1..][j] == s[j + 1];
    }
  }

  /** Insertion sort on the check-in date (the query's ORDER BY). */
  function SortByDate(s: seq<DailyRecord>): (t: seq<DailyRecord>)
    ensures SortedByDate(t)
    ensures multiset(t) == multiset(s)
  {
    if s == [] then []
    else
      assert s == [s[0]] + s[1..];
      InsertByDate(s[0], SortByDate(s[1..]))
  }

  lemma {:induction false} SortOneRecordPerDay(s: seq<DailyRecord>)
    requires OneRecordPerDay(s)
    ensures OneRecordPerDay(SortByDate(s))
  {
    if s != [] {
      TailOneRecordPerDay(s);
      SortOneRecordPerDay(s[1..]);
      var sorted := SortByDate(s[1..]);
      assert forall x :: x in sorted ==> x in multiset(s[1..]);
      InsertOneRecordPerDay(s[0], sorted);
    }
  }

  /** get_weekly_records_from_db, with "today" as a parameter. */
  function WeeklyRecords(records: seq<DailyRecord>, userId: nat, today: int): seq<DailyRecord>
  {
    SortByDate(WindowRecords(records, userId, today))
  }

  /** The weekly query returns exactly the user's records dated on or after
      `today - 7`, each as often as it is stored, sorted ascending by date. */
  /** The window has no upper bound and spans eight calendar days back: a record dated
      today - 7 or in the future is selected, one dated today - 8 is not. */
  lemma WindowIsEightDaysPlusFuture(r: DailyRecord, today: int)
    requires r.userId == 1
    ensures (r.checkInDate == today - 7 || r.checkInDate == today + 30) ==> r in WeeklyRecords([r], 1, today)
    ensures r.checkInDate == today - 8 ==> WeeklyRecords([r], 1, today) == []
  {
    WeeklyRecordsSpec([r], 1, today);
  }

  lemma WeeklyRecordsSpec(records: seq<DailyRecord>, userId: nat, today: int)
    ensures var w := WeeklyRecords(records, userId, today);
      && SortedByDate(w)
      && multiset(w) == multiset(WindowRecords(records, userId, today))
      && (forall r :: r in w <==> r in records && InWeeklyWindow(r, userId, today))
  {
    var win := WindowRecords(records, userId, today);
    var w := SortByDate(win);
    assert forall r :: r in w <==> r in multiset(win);
  }

  /** With one record per day, the weekly dates strictly increase: the order is
      determined, and no day appears twice. */
  lemma WeeklyDatesStrictlyIncrease(records: seq<DailyRecord>, userId: nat, today: int)
    requires OneRecordPerDay(records)
    ensures var w := WeeklyRecords(records, userId, today);
      forall i, j :: 0 <= i < j < |w| ==> w[i].checkInDate < w[j].checkInDate
  {
    var win := WindowRecords(records, userId, today);
    var w := SortByDate(win);
    WindowOneRecordPerDay(records, userId, today);
    SortOneRecordPerDay(win);
    forall i, j | 0 <= i < j < |w|
      ensures w[i].checkInDate < w[j].checkInDate
    {
      assert w[i] in multiset(win) && w[j] in multiset(win);
      assert w[i].userId == userId == w[j].userId;
      assert !SameDay(w[i], w[j]);
    }
  }

  // ---------------------------------------------------------------------------
  // The upsert of a day's record

  /** The first record of user `userId` for day `date` (the query's `.first()`). */
  function FindRecord(records: seq<DailyRecord>, userId: nat, date: int): (found: Option<nat>)
    ensures found.None? ==> forall i :: 0 <= i < |records| ==> !IsDay(records[i], userId, date)
    ensures found.Some? ==>
      && found.value < |records|
      && IsDay(records[found.value], userId, date)
      && forall i :: 0 <= i < found.value ==> !IsDay(records[i], userId, date)
  {
    if records == [] then None
    else if IsDay(records[0], userId, date) then Some(0)
    else
      match FindRecord(records[1..], userId, date)
      case None => None
      case Some(i) => Some(i + 1)
  }

  /** Position of the saved record after an upsert. */
  function SavedIndex(records: seq<DailyRecord>, userId: nat, date: int): nat
  {
    match FindRecord(records, userId, date)
    case Some(i) => i
    case None => |records|
  }

  /** Check id of the saved record: the existing one's, or the next free id. */
  function SavedCheckId(records: seq<DailyRecord>, nextId: nat, userId: nat, date: int): nat
  {
    match FindRecord(records, userId, date)
    case Some(i) => records[i].checkId
    case None => nextId
  }

  /** The records after saving colour `colorId` and recommendation `recommendId` for
      user `userId` on day `date`: an existing record is updated in place, otherwise
      a record with id `nextId` is appended. */
  function UpsertRecords(records: seq<DailyRecord>, nextId: nat, userId: nat, date: int,
                         colorId: int, recommendId: Option<int>): seq<DailyRecord>
  {
    match FindRecord(records, userId, date)
    case Some(i) => records[i := records[i].(colorId := Some(colorId), recommendId := recommendId)]
    case None => records + [DailyRecord(nextId, userId, date, Some(colorId), recommendId)]
  }

  /** The saved record holds the key, the new colour and recommendation; an
      existing record keeps its position and its check id, a new one is appended. */
  lemma UpsertSavedRecord(records: seq<DailyRecord>, nextId: nat, userId: nat, date: int,
                          colorId: int, recommendId: Option<int>)
    ensures var up := UpsertRecords(records, nextId, userId, date, colorId, recommendId);
      var k := SavedIndex(records, userId, date);
      && k < |up|
      && up[k] == DailyRecord(SavedCheckId(records, nextId, userId, date), userId, date, Some(colorId), recommendId)
      && (FindRecord(records, userId, date).Some? ==>
            |up| == |records| && up[k].checkId == records[k].checkId)
      && (FindRecord(records, userId, date).None? ==>
            |up| == |records| + 1 && k == |records| && up[k].checkId == nextId)
  {
  }

  /** Every other record stays where it was, unchanged. */
  lemma UpsertLeavesOthers(records: seq<DailyRecord>, nextId: nat, userId: nat, date: int,
                           colorId: int, recommendId: Option<int>)
    ensures var up := UpsertRecords(records, nextId, userId, date, colorId, recommendId);
      && |records| <= |up|
      && forall j :: 0 <= j < |records| && records[j].checkId != SavedCheckId(records, nextId, userId, date) ==>
           up[j] == records[j]
  {
  }

  /** From one record per day before, there is one record per day after, and the
      saved record is the only one for its key. */
  lemma UpsertOneRecordPerDay(records: seq<DailyRecord>, nextId: nat, userId: nat, date: int,
                              colorId: int, recommendId: Option<int>)
    requires OneRecordPerDay(records)
    ensures var up := UpsertRecords(records, nextId, userId, date, colorId, recommendId);
      && OneRecordPerDay(up)
      && forall j :: 0 <= j < |up| && IsDay(up[j], userId, date) ==> j == SavedIndex(records, userId, date)
  {
    var up := UpsertRecords(records, nextId, userId, date, colorId, recommendId);
    match FindRecord(records, userId, date)
    case Some(k) =>
      forall i, j | 0 <= i < j < |up|
        ensures !SameDay(up[i], up[j])
      {
        assert SameDay(up[i], records[i]) && SameDay(up[j], records[j]);
      }
      forall j | 0 <= j < |up| && IsDay(up[j], userId, date)
        ensures j == k
      {
        assert SameDay(up[j], records[j]) && SameDay(records[j], records[k]);
      }
    case None =>
      assert up == records + [up[|records|]];
      ConsLastOneRecordPerDay(records, up[|records|]);
  }

  /** Appending a record for a day no stored record has keeps one record per day. */
  lemma ConsLastOneRecordPerDay(records: seq<DailyRecord>, x: DailyRecord)
    requires OneRecordPerDay(records)
    requires forall i :: 0 <= i < |records| ==> !SameDay(records[i], x)
    ensures OneRecordPerDay(records + [x])
  {
    var t := records + [x];
    forall i, j | 0 <= i < j < |t|
      ensures !SameDay(t[i], t[j])
    {
      assert t[i] == records[i];
    }
  }

  /** When every stored id is below `nextId`, a newly created record gets an id no
      stored record uses; check ids stay unique and below the id counter, which
      moves on only when a record is created. */
  lemma UpsertFreshCheckId(records: seq<DailyRecord>, nextId: nat, userId: nat, date: int,
                           colorId: int, recommendId: Option<int>)
    requires UniqueCheckIds(records)
    requires forall r :: r in records ==> r.checkId < nextId
    ensures FindRecord(records, userId, date).None? ==>
      forall r :: r in records ==> r.checkId != SavedCheckId(records, nextId, userId, date)
    ensures var up := UpsertRecords(records, nextId, userId, date, colorId, recommendId);
      var next := if FindRecord(records, userId, date).None? then nextId + 1 else nextId;
      && UniqueCheckIds(up)
      && forall r :: r in up ==> r.checkId < next
  {
    var up := UpsertRecords(records, nextId, userId, date, colorId, recommendId);
    UpsertSavedRecord(records, nextId, userId, date, colorId, recommendId);
    UpsertLeavesOthers(records, nextId, userId, date, colorId, recommendId);
    var k := SavedIndex(records, userId, date);
    forall i, j | 0 <= i < j < |up|
      ensures up[i].checkId != up[j].checkId
    {
      if i != k && j != k {
        assert up[i] == records[i] && up[j] == records[j];
      } else if i == k {
        assert up[j] == records[j];
      } else {
        assert up[i] == records[i];
      }
    }
    forall r | r in up
      ensures r.checkId < if FindRecord(records, userId, date).None? then nextId + 1 else nextId
    {
      var j :| 0 <= j < |up| && up[j] == r;
      if j != k {
        assert up[j] == records[j];
      }
    }
  }

  // ---------------------------------------------------------------------------
  // The answers of a record

  /** The answers stored for check id `checkId`, in store order. */
  function AnswersOf(answers: seq<DailyAnswer>, checkId: nat): (own: seq<DailyAnswer>)
    ensures forall a :: a in own <==> a in answers && a.checkId == checkId
  {
    if answers == [] then []
    else if answers[0].checkId == checkId then [answers[0]] + AnswersOf(answers[1..], checkId)
    else AnswersOf(answers[1..], checkId)
  }

  /** The stored answers after deleting those of check id `checkId`. */
  function WithoutAnswersOf(answers: seq<DailyAnswer>, checkId: nat): (kept: seq<DailyAnswer>)
    ensures forall a :: a in kept <==> a in answers && a.checkId != checkId
  {
    if answers == [] then []
    else if answers[0].checkId == checkId then WithoutAnswersOf(answers[1..], checkId)
    else [answers[0]] + WithoutAnswersOf(answers[1..], checkId)
  }

  /** The rows inserted for submitted answers `data` under check id `checkId`. */
  function ToDailyAnswers(checkId: nat, data: seq<AnswerData>): seq<DailyAnswer>
  {
    seq(|data|, i requires 0 <= i < |data| => DailyAnswer(checkId, data[i].questionId, data[i].answerChoice))
  }

  /** The submitted form of stored answers. */
  function AnswerDataOf(stored: seq<DailyAnswer>): seq<AnswerData>
  {
    seq(|stored|, i requires 0 <= i < |stored| => AnswerData(stored[i].questionId, stored[i].answerChoice))
  }

  /** Delete all answers of `checkId`, then append the new ones. */
  function ReplaceAnswers(answers: seq<DailyAnswer>, checkId: nat, data: seq<AnswerData>): seq<DailyAnswer>
  {
    WithoutAnswersOf(answers, checkId) + ToDailyAnswers(checkId, data)
  }

  lemma {:induction false} AnswersOfAppend(a: seq<DailyAnswer>, b: seq<DailyAnswer>, id: nat)
    ensures AnswersOf(a + b, id) == AnswersOf(a, id) + AnswersOf(b, id)
  {
    if a == [] {
      assert a + b == b;
    } else {
      assert (a + b)[1..] == a[1..] + b;
      AnswersOfAppend(a[1..], b, id);
    }
  }

  lemma {:induction false} AnswersOfWithout(a: seq<DailyAnswer>, id: nat, other: nat)
    ensures AnswersOf(WithoutAnswersOf(a, id), other) == if id == other then [] else AnswersOf(a, other)
  {
    if a != [] {
      AnswersOfWithout(a[1..], id, other);
    }
  }

  lemma {:induction false} WithoutAnswersOfWithout(a: seq<DailyAnswer>, id: nat)
    ensures WithoutAnswersOf(WithoutAnswersOf(a, id), id) == WithoutAnswersOf(a, id)
  {
    if a != [] {
      WithoutAnswersOfWithout(a[1..], id);
    }
  }

  lemma {:induction false} WithoutAnswersOfAppend(a: seq<DailyAnswer>, b: seq<DailyAnswer>, id: nat)
    ensures WithoutAnswersOf(a + b, id) == WithoutAnswersOf(a, id) + WithoutAnswersOf(b, id)
  {
    if a == [] {
      assert a + b == b;
    } else {
      assert (a + b)[1..] == a[1..] + b;
      WithoutAnswersOfAppend(a[1..], b, id);
    }
  }

  lemma {:induction false} AnswersOfNew(id: nat, data: seq<AnswerData>, other: nat)
    ensures AnswersOf(ToDailyAnswers(id, data), other) == if id == other then ToDailyAnswers(id, data) else []
    ensures WithoutAnswersOf(ToDailyAnswers(id, data), id) == []
  {
    if data != [] {
      var rows := ToDailyAnswers(id, data);
      assert rows[1..] == ToDailyAnswers(id, data[1..]);
      AnswersOfNew(id, data[1..], other);
    }
  }

  /** Deleting the answers of an id no answer carries changes nothing. */
  lemma {:induction false} WithoutAbsentAnswers(a: seq<DailyAnswer>, id: nat)
    requires forall k :: 0 <= k < |a| ==> a[k].checkId != id
    ensures WithoutAnswersOf(a, id) == a
  {
    if a != [] {
      WithoutAbsentAnswers(a[1..], id);
      assert a == [a[0]] + a[1..];
    }
  }

  /** After a replacement the answers of `checkId` are exactly the submitted ones in
      submission order: nothing of the previous answers is left, nothing merged.
      The answers of every other check id are unchanged, in the same order. */
  lemma ReplaceAnswersSpec(answers: seq<DailyAnswer>, checkId: nat, data: seq<AnswerData>)
    ensures AnswersOf(ReplaceAnswers(answers, checkId, data), checkId) == ToDailyAnswers(checkId, data)
    ensures forall other: nat :: other != checkId ==>
      AnswersOf(ReplaceAnswers(answers, checkId, data), other) == AnswersOf(answers, other)
    ensures WithoutAnswersOf(ReplaceAnswers(answers, checkId, data), checkId) == WithoutAnswersOf(answers, checkId)
  {
    var kept := WithoutAnswersOf(answers, checkId);
    var rows := ToDailyAnswers(checkId, data);
    AnswersOfAppend(kept, rows, checkId);
    AnswersOfWithout(answers, checkId, checkId);
    AnswersOfNew(checkId, data, checkId);
    forall other: nat | other != checkId
      ensures AnswersOf(kept + rows, other) == AnswersOf(answers, other)
    {
      AnswersOfAppend(kept, rows, other);
      AnswersOfWithout(answers, checkId, other);
      AnswersOfNew(checkId, data, other);
    }
    WithoutAnswersOfAppend(kept, rows, checkId);
    WithoutAnswersOfWithout(answers, checkId);
  }

  /** Saving and reading back the answers gives the submission itself. */
  lemma AnswerDataRoundTrip(checkId: nat, data: seq<AnswerData>)
    ensures AnswerDataOf(ToDailyAnswers(checkId, data)) == data
  {
  }

  // ---------------------------------------------------------------------------
  // The lantan colour

  /** The colour column of the records, nulls included. */
  function ColorColumn(records: seq<DailyRecord>): seq<Option<int>>
  {
    seq(|records|, i requires 0 <= i < |records| => records[i].colorId)
  }

  /** The colours of the records whose colour is not null, in order. */
  function NonNullColors(records: seq<DailyRecord>): (colors: seq<int>)
    ensures colors == [] <==> forall i :: 0 <= i < |records| ==> records[i].colorId.None?
    ensures forall c :: c in colors <==> exists i :: 0 <= i < |records| && records[i].colorId == Some(c)
  {
    if records == [] then []
    else
      var rest := NonNullColors(records[1..]);
      assert forall i :: 1 <= i < |records| ==> records[i] == records[1..][i - 1];
      match records[0].colorId
      case Some(c) => [c] + rest
      case None => rest
  }

  /** Each non-null colour occurs in NonNullColors as often as in the colour column,
      so the mean taken over it is the mean of the non-null colours. */
  lemma {:induction false} NonNullColorsCounts(records: seq<DailyRecord>)
    ensures forall c :: multiset(NonNullColors(records))[c] == multiset(ColorColumn(records))[Some(c)]
  {
    if records != [] {
      NonNullColorsCounts(records[1..]);
      var rest := NonNullColors(records[1..]);
      assert ColorColumn(records) == [records[0].colorId] + ColorColumn(records[1..]);
      assert multiset(ColorColumn(records)) == multiset{records[0].colorId} + multiset(ColorColumn(records[1..]));
      match records[0].colorId
      case Some(c) =>
        assert NonNullColors(records) == [c] + rest;
        assert multiset([c] + rest) == multiset{c} + multiset(rest);
      case None =>
        assert NonNullColors(records) == rest;
    }
  }

  function IntSum(s: seq<int>): int
  {
    if s == [] then 0 else s[0] + IntSum(s[1..])
  }

  function MinOf(s: seq<int>): (m: int)
    requires s != []
    ensures m in s && forall x :: x in s ==> m <= x
  {
    if |s| == 1 then s[0]
    else
      var rest := MinOf(s[1..]);
      assert forall x :: x in s ==> x == s[0] || x in s[1..];
      if s[0] <= rest then s[0] else rest
  }

  function MaxOf(s: seq<int>): (m: int)
    requires s != []
    ensures m in s && forall x :: x in s ==> x <= m
  {
    if |s| == 1 then s[0]
    else
      var rest := MaxOf(s[1..]);
      assert forall x :: x in s ==> x == s[0] || x in s[1..];
      if s[0] >= rest then s[0] else rest
  }

  /** Python's round of the quotient num / den: nearest integer, ties to even. */
  function RoundHalfEven(num: int, den: int): int
    requires den > 0
  {
    var q := num / den;
    var rem := num % den;
    if 2 * rem < den then q
    else if 2 * rem > den then q + 1
    else if q % 2 == 0 then q
    else q + 1
  }

  lemma Distribute(a: int, b: int, den: int)
    ensures a * den - b * den == (a - b) * den
  {
  }

  lemma MulAtLeast(d: int, den: int)
    requires den > 0
    ensures d >= 1 ==> d * den >= den
    ensures d <= 0 ==> d * den <= 0
  {
  }

  /** RoundHalfEven is within half of num / den and even on a tie:
      |num / den - r| <= 1/2, and = 1/2 only when r is even. */
  lemma RoundHalfEvenNearest(num: int, den: int)
    requires den > 0
    ensures var r := RoundHalfEven(num, den);
      && -den <= 2 * (num - r * den) <= den
      && (2 * (num - r * den) == den || 2 * (num - r * den) == -den ==> r % 2 == 0)
  {
    var q := num / den;
    var rem := num % den;
    assert num - q * den == rem;
    Distribute(q + 1, q, den);
    assert num - (q + 1) * den == rem - den;
  }

  /** The two properties of RoundHalfEvenNearest determine the result: any integer
      within half of num / den that is even on a tie is RoundHalfEven(num, den). */
  lemma RoundHalfEvenUnique(num: int, den: int, r: int)
    requires den > 0
    requires -den <= 2 * (num - r * den) <= den
    requires 2 * (num - r * den) == den || 2 * (num - r * den) == -den ==> r % 2 == 0
    ensures r == RoundHalfEven(num, den)
  {
    var e := RoundHalfEven(num, den);
    RoundHalfEvenNearest(num, den);
    Distribute(r, e, den);
    Distribute(e, r, den);
    MulAtLeast(r - e, den);
    MulAtLeast(e - r, den);
    MulAtLeast(r - e - 1, den);
    MulAtLeast(e - r - 1, den);
    Distribute(r - e, 1, den);
    Distribute(e - r, 1, den);
  }

  /** A quotient between two integers rounds to a value between them. */
  lemma RoundWithinBounds(num: int, den: int, lo: int, hi: int)
    requires den > 0 && lo * den <= num <= hi * den
    ensures lo <= RoundHalfEven(num, den) <= hi
  {
    var r := RoundHalfEven(num, den);
    RoundHalfEvenNearest(num, den);
    Distribute(lo, r, den);
    Distribute(r, hi, den);
    MulAtLeast(lo - r, den);
    MulAtLeast(r - hi, den);
  }

  lemma MulMonotone(n: nat, a: int, b: int)
    requires a <= b
    ensures n * a <= n * b
  {
  }

  lemma MulSucc(n: nat, m: int)
    ensures (n + 1) * m == m + n * m
  {
  }

  lemma {:induction false} IntSumBounds(s: seq<int>)
    requires s != []
    ensures |s| * MinOf(s) <= IntSum(s) <= |s| * MaxOf(s)
  {
    if |s| > 1 {
      var t := s[1..];
      IntSumBounds(t);
      var n := |t|;
      assert MinOf(s) <= MinOf(t) && MaxOf(t) <= MaxOf(s);
      MulMonotone(n, MinOf(s), MinOf(t));
      MulMonotone(n, MaxOf(t), MaxOf(s));
      MulSucc(n, MinOf(s));
      MulSucc(n, MaxOf(s));
    }
  }

  lemma {:induction false} MinMaxInRange(s: seq<int>, lo: int, hi: int)
    requires s != []
    requires forall i :: 0 <= i < |s| ==> lo <= s[i] <= hi
    ensures lo <= MinOf(s) && MaxOf(s) <= hi
  {
    if |s| > 1 {
      MinMaxInRange(s[1..], lo, hi);
    }
  }

  /** create_lantan_for_user's colour: the rounded mean of the non-null colours. */
  function LantanColor(colors: seq<int>): int
    requires colors != []
  {
    RoundHalfEven(IntSum(colors), |colors|)
  }

  /** The lantan colour lies between the smallest and the largest colour. */
  lemma LantanColorBounds(colors: seq<int>)
    requires colors != []
    ensures MinOf(colors) <= LantanColor(colors) <= MaxOf(colors)
  {
    var n, lo, hi := |colors|, MinOf(colors), MaxOf(colors);
    IntSumBounds(colors);
    assert n * lo == lo * n && n * hi == hi * n;
    RoundWithinBounds(IntSum(colors), n, lo, hi);
  }

  /** Colour classes in 1..5 give a lantan colour in 1..5. */
  lemma LantanColorInClassRange(colors: seq<int>)
    requires colors != []
    requires forall i :: 0 <= i < |colors| ==> 1 <= colors[i] <= 5
    ensures 1 <= LantanColor(colors) <= 5
  {
    LantanColorBounds(colors);
    MinMaxInRange(colors, 1, 5);
  }

  lemma LantanColorExamples()
    ensures LantanColor([1, 2, 3]) == 2
    ensures LantanColor([1, 2]) == 2
    ensures LantanColor([2, 3]) == 2
    ensures LantanColor([5, 4]) == 4
  {
    assert IntSum([3]) == 3;
    assert IntSum([2, 3]) == 5;
    assert IntSum([2]) == 2;
    assert IntSum([4]) == 4;
  }
}
