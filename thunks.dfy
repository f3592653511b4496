/** The two asynchronous thunks of the question slice, seen from the store:
    one dispatch of a thunk produces its `pending` action and then exactly one
    settling action, chosen by the outcome of the remote call. The remote call
    itself is not modelled; its outcome is an input. */
module Thunks {
  import opened QuestionSlice

  /** The outcome of a remote call: the data it resolved with, or the
      message of the error it threw. */
  datatype Outcome<+T> = Ok(data: T) | Err(message: string)

  /** True of the two settling actions of `addQuestion`. */
  predicate SettlesAddQuestion(a: Action) {
    a.AddQuestionFulfilled? || a.AddQuestionRejected?
  }

  /** One dispatch of `addQuestion`: `pending`, then `fulfilled` with the
      data the API returned, or `rejected` with the caught error's message.
      Exactly one of the two settling actions is produced, and it is last. */
  function AddQuestion(outcome: Outcome<Question>): (actions: seq<Action>)
    ensures |actions| == 2 && actions[0] == AddQuestionPending
    ensures forall i :: 0 <= i < |actions| ==> (SettlesAddQuestion(actions[i]) <==> i == 1)
    ensures actions[1].AddQuestionFulfilled? <==> outcome.Ok?
    ensures outcome.Ok? ==> actions[1] == AddQuestionFulfilled(outcome.data)
    ensures outcome.Err? ==> actions[1] == AddQuestionRejected(outcome.message)
  {
    match outcome
    case Ok(q) => [AddQuestionPending, AddQuestionFulfilled(q)]
    case Err(m) => [AddQuestionPending, AddQuestionRejected(m)]
  }

  /** One dispatch of `getTotalPages`: `pending`, then `fulfilled` with the
      total page count the API reported for page 1, or `rejected` with the
      caught error's message. None of these actions is an `addQuestion`
      action or a page setter. */
  function GetTotalPages(outcome: Outcome<int>): (actions: seq<Action>)
    ensures |actions| == 2 && actions[0] == GetTotalPagesPending
    ensures forall i :: 0 <= i < |actions| ==> IsGetTotalPages(actions[i])
    ensures outcome.Ok? ==> actions[1] == GetTotalPagesFulfilled(outcome.data)
    ensures outcome.Err? ==> actions[1] == GetTotalPagesRejected(outcome.message)
  {
    match outcome
    case Ok(n) => [GetTotalPagesPending, GetTotalPagesFulfilled(n)]
    case Err(m) => [GetTotalPagesPending, GetTotalPagesRejected(m)]
  }
}
