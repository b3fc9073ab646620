/** The rows the backend stores and the records it receives from clients.
    Identifiers that the database assigns are natural numbers; calendar dates
    are day numbers, so `date - 7` is "seven days earlier". */
module Models {

  datatype Option<+T> = None | Some(value: T)

  /** A registered user; `password` holds the already hashed password. */
  datatype User = User(
    userId: nat,
    name: string,
    email: string,
    password: string,
    prefecture: string,
    birthday: string,
    gender: string)

  /** A question of the daily check-in; one question per category is asked. */
  datatype Question = Question(questionId: int, categoryId: int)

  /** One submitted answer: the question it answers and the chosen value. */
  datatype AnswerData = AnswerData(questionId: int, answerChoice: int)

  /** The check-in of one user on one day. The colour column is nullable. */
  datatype DailyRecord = DailyRecord(
    checkId: nat,
    userId: nat,
    checkInDate: int,
    colorId: Option<int>,
    recommendId: Option<int>)

  /** A stored answer, owned by the daily record whose `checkId` it carries. */
  datatype DailyAnswer = DailyAnswer(checkId: nat, questionId: int, answerChoice: int)

  /** A piece of recommended content for one colour class. */
  datatype Recommendation = Recommendation(recommendId: int, colorId: int)

  /** A released lantan: a snapshot of a user's recent colours. */
  datatype Lantan = Lantan(lantanId: nat, userId: nat, lantanColor: int)
}
