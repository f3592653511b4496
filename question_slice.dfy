/** The question slice of the client state: the record that tracks submitted
    questions, the submission status, the pagination cursor and the tabs of
    the questions area; the actions its reducer handles; that reducer as a
    function on state values (`Reduce`); and the record itself as an object
    whose reducer methods update its fields in place (`QuestionState`). */
module QuestionSlice {

  datatype Option<+T> = None | Some(value: T)

  /** The four values the `status` field takes. */
  datatype Status = Idle | Loading | Succeeded | Failed

  /** A question the slice stores. The slice never looks inside it; the four
      fields are an assumed shape, chosen only to give the value a type. */
  datatype Question = Question(id: string, object: string, content: string, kind: string)

  /** A navigation tab of the questions area: a label and a route segment. */
  datatype Tab = Tab(name: string, link: string)

  /** Every action the slice's reducer distinguishes: the two synchronous
      reducers, the three lifecycle actions of `addQuestion`, and the three
      lifecycle actions of `getTotalPages`, which the slice has no case for. */
  datatype Action =
    | SetCurrentPage(page: int)
    | SetTotalPages(pages: int)
    | AddQuestionPending
    | AddQuestionFulfilled(question: Question)
    | AddQuestionRejected(message: string)
    | GetTotalPagesPending
    | GetTotalPagesFulfilled(reported: int)
    | GetTotalPagesRejected(reason: string)

  /** True of the lifecycle actions of `getTotalPages`. */
  predicate IsGetTotalPages(a: Action) {
    a.GetTotalPagesPending? || a.GetTotalPagesFulfilled? || a.GetTotalPagesRejected?
  }

  /** A value of the slice's state record; `null` in the record is `None`. */
  datatype State = State(
    questions: seq<Question>,
    status: Status,
    error: Option<string>,
    totalPages: Option<int>,
    currentPage: Option<int>,
    tabs: seq<Tab>)

  /** The three fixed tabs, in display order. */
  const InitialTabs: seq<Tab> := [
    Tab("Mes Questions", "my"),
    Tab("Questions les plus récentes", "recents"),
    Tab("Ajouter une question", "ajouter")
  ]

  /** The state the slice starts from. */
  function InitialState(): State {
    State([], Idle, None, None, None, InitialTabs)
  }

  /** The slice's reducer: the state after one action. Its contract states
      the frame every action keeps: tabs never change, questions only grow
      (by at most one entry, kept at the end), each page field moves only
      under its own setter, only `addQuestion` actions move `status`, and
      `getTotalPages` actions change nothing. */
  function Reduce(s: State, a: Action): (r: State)
    ensures r.tabs == s.tabs
    ensures s.questions <= r.questions && |r.questions| <= |s.questions| + 1
    ensures r.questions != s.questions <==> a.AddQuestionFulfilled?
    ensures r.currentPage != s.currentPage ==> a.SetCurrentPage?
    ensures r.totalPages != s.totalPages ==> a.SetTotalPages?
    ensures r.error != s.error ==> a.AddQuestionPending? || a.AddQuestionRejected?
    ensures r.status != s.status ==>
      a.AddQuestionPending? || a.AddQuestionFulfilled? || a.AddQuestionRejected?
    ensures IsGetTotalPages(a) ==> r == s
  {
    match a
    case SetCurrentPage(p) => s.(currentPage := Some(p))
    case SetTotalPages(p) => s.(totalPages := Some(p))
    case AddQuestionPending => s.(status := Loading, error := None)
    case AddQuestionFulfilled(q) => s.(status := Succeeded, questions := s.questions + [q])
    case AddQuestionRejected(m) => s.(status := Failed, error := Some(m))
    case GetTotalPagesPending => s
    case GetTotalPagesFulfilled(_) => s
    case GetTotalPagesRejected(_) => s
  }

  /** The slice's state record, updated in place by its reducers. */
  class QuestionState {
    var questions: seq<Question>
    var status: Status
    var error: Option<string>
    var totalPages: Option<int>
    var currentPage: Option<int>
    var tabs: seq<Tab>

    /** The record's current value. */
    function Value(): State
      reads this
    {
      State(questions, status, error, totalPages, currentPage, tabs)
    }

    /** The record as the slice creates it. */
    constructor ()
      ensures questions == [] && status == Idle && error == None
      ensures totalPages == None && currentPage == None
      ensures tabs == InitialTabs
      ensures Value() == InitialState()
    {
      questions := [];
      status := Idle;
      error := None;
      totalPages := None;
      currentPage := None;
      tabs := InitialTabs;
    }

    /** `setCurrentPage`: stores the payload as is, with no bounds check. */
    method SetCurrentPage(page: int)
      modifies this
      ensures currentPage == Some(page)
      ensures questions == old(questions) && status == old(status) && error == old(error)
      ensures totalPages == old(totalPages) && tabs == old(tabs)
      ensures Value() == Reduce(old(Value()), Action.SetCurrentPage(page))
    {
      currentPage := Some(page);
    }

    /** `setTotalPages`: stores the payload as is, with no bounds check. */
    method SetTotalPages(pages: int)
      modifies this
      ensures totalPages == Some(pages)
      ensures questions == old(questions) && status == old(status) && error == old(error)
      ensures currentPage == old(currentPage) && tabs == old(tabs)
      ensures Value() == Reduce(old(Value()), Action.SetTotalPages(pages))
    {
      totalPages := Some(pages);
    }

    /** `addQuestion.pending`: a submission is under way; the previous error
        is cleared. */
    method AddQuestionPending()
      modifies this
      ensures status == Loading && error == None
      ensures questions == old(questions) && totalPages == old(totalPages)
      ensures currentPage == old(currentPage) && tabs == old(tabs)
      ensures Value() == Reduce(old(Value()), Action.AddQuestionPending)
    {
      status := Loading;
      error := None;
    }

    /** `addQuestion.fulfilled`: the question the API returned is appended
        at the end of `questions`; `error` is left as it is. */
    method AddQuestionFulfilled(question: Question)
      modifies this
      ensures status == Succeeded
      ensures |questions| == |old(questions)| + 1
      ensures old(questions) <= questions && questions[|questions| - 1] == question
      ensures error == old(error) && totalPages == old(totalPages)
      ensures currentPage == old(currentPage) && tabs == old(tabs)
      ensures Value() == Reduce(old(Value()), Action.AddQuestionFulfilled(question))
    {
      status := Succeeded;
      questions := questions + [question];
    }

    /** `addQuestion.rejected`: the rejection's payload, the caught error's
        message, becomes `error`; `questions` is left as it is. */
    method AddQuestionRejected(message: string)
      modifies this
      ensures status == Failed && error == Some(message)
      ensures questions == old(questions) && totalPages == old(totalPages)
      ensures currentPage == old(currentPage) && tabs == old(tabs)
      ensures Value() == Reduce(old(Value()), Action.AddQuestionRejected(message))
    {
      status := Failed;
      error := Some(message);
    }

    /** Hands one action to the reducer case that handles it. The actions of
        `getTotalPages` have no case and leave the record as it was. */
    method Dispatch(a: Action)
      modifies this
      ensures Value() == Reduce(old(Value()), a)
      ensures IsGetTotalPages(a) ==> unchanged(this)
    {
      match a
      case SetCurrentPage(p) => SetCurrentPage(p);
      case SetTotalPages(p) => SetTotalPages(p);
      case AddQuestionPending => AddQuestionPending();
      case AddQuestionFulfilled(q) => AddQuestionFulfilled(q);
      case AddQuestionRejected(m) => AddQuestionRejected(m);
      case GetTotalPagesPending =>
      case GetTotalPagesFulfilled(_) =>
      case GetTotalPagesRejected(_) =>
    }
  }
}
