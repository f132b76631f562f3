/** The records of the survey platform (internal/models/models.go) and the
    error kinds the storage and service layers return. */
module Models {

  /** A KSUID, reduced to what the core relies on: a distinguished nil value
      and otherwise an opaque serial number. */
  datatype Id = NilId | Ksuid(serial: nat) {
    predicate IsNil() { NilId? }
  }

  /** A point in time; the zero value plays the role of Go's zero time.Time. */
  type Time = int

  datatype Question = Question(id: Id, text: string)

  datatype Survey = Survey(
    id: Id,
    name: string,
    questions: seq<Question>,
    createdAt: Time,
    updatedAt: Time)

  datatype Answer = Answer(questionId: Id, answer: bool)

  datatype Response = Response(
    id: Id,
    surveyId: Id,
    answers: seq<Answer>,
    createdAt: Time)

  /** The persistence snapshot: both stores' maps side by side. */
  datatype DBEntry = DBEntry(
    surveys: map<Id, Survey>,
    responses: map<Id, seq<Response>>)

  /** Why a business rule rejected an input. */
  datatype Reason = TooManyQuestions | NoQuestions | NoName | TooManyAnswers

  /** NotFound is the single repository error; Invalid stands for the
      service's validation errors. */
  datatype Error = NotFound | Invalid(reason: Reason)

  datatype Result<T> = Ok(value: T) | Err(error: Error)

  /** Stands for a Go map argument that may be nil. */
  datatype Option<T> = None | Some(value: T)
}
