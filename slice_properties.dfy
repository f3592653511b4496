/** What the question slice guarantees over any sequence of actions the
    store hands to its reducer, and over sequences of whole thunk calls. */
module SliceProperties {
  import opened QuestionSlice
  import opened Thunks

  /** The state after the reducer has taken the actions of `t` in order. */
  function ReduceAll(s: State, t: seq<Action>): State
    decreases |t|
  {
    if t == [] then s else ReduceAll(Reduce(s, t[0]), t[1..])
  }

  /** Reducing a concatenation is reducing its parts one after the other. */
  lemma {:induction false} ReduceAllAppend(s: State, t: seq<Action>, u: seq<Action>)
    ensures ReduceAll(s, t + u) == ReduceAll(ReduceAll(s, t), u)
    decreases |t|
  {
    if t == [] {
      assert t + u == u;
    } else {
      assert (t + u)[1..] == t[1..] + u;
      ReduceAllAppend(Reduce(s, t[0]), t[1..], u);
    }
  }

  /** The payloads of the `addQuestion.fulfilled` actions of `t`, in order. */
  function FulfilledPayloads(t: seq<Action>): seq<Question>
    decreases |t|
  {
    if t == [] then []
    else if t[0].AddQuestionFulfilled? then [t[0].question] + FulfilledPayloads(t[1..])
    else FulfilledPayloads(t[1..])
  }

  /** `questions` only grows: whatever the actions, the old list is kept as
      it was, in the same order, and the payloads of the fulfilled
      submissions follow it in the order they completed. The tabs never
      change. */
  lemma {:induction false} QuestionsAreFulfilledPayloads(s: State, t: seq<Action>)
    ensures ReduceAll(s, t).questions == s.questions + FulfilledPayloads(t)
    ensures s.questions <= ReduceAll(s, t).questions
    ensures ReduceAll(s, t).tabs == s.tabs
    decreases |t|
  {
    if t != [] {
      var s' := Reduce(s, t[0]);
      QuestionsAreFulfilledPayloads(s', t[1..]);
      assert ReduceAll(s, t) == ReduceAll(s', t[1..]);
      if t[0].AddQuestionFulfilled? {
        assert s'.questions == s.questions + [t[0].question];
        assert FulfilledPayloads(t) == [t[0].question] + FulfilledPayloads(t[1..]);
      } else {
        assert s'.questions == s.questions;
        assert FulfilledPayloads(t) == FulfilledPayloads(t[1..]);
      }
    }
  }

  /** The payload of the last `setCurrentPage` of `t`, if there is one. */
  function LastCurrentPage(t: seq<Action>): Option<int>
    decreases |t|
  {
    if t == [] then None
    else if t[|t| - 1].SetCurrentPage? then Some(t[|t| - 1].page)
    else LastCurrentPage(t[..|t| - 1])
  }

  /** The payload of the last `setTotalPages` of `t`, if there is one. */
  function LastTotalPages(t: seq<Action>): Option<int>
    decreases |t|
  {
    if t == [] then None
    else if t[|t| - 1].SetTotalPages? then Some(t[|t| - 1].pages)
    else LastTotalPages(t[..|t| - 1])
  }

  /** Reducing `t` is reducing all of it but its last action, then that one. */
  lemma ReduceAllSnoc(s: State, t: seq<Action>)
    requires t != []
    ensures ReduceAll(s, t) == Reduce(ReduceAll(s, t[..|t| - 1]), t[|t| - 1])
  {
    var n := |t| - 1;
    assert t == t[..n] + [t[n]];
    ReduceAllAppend(s, t[..n], [t[n]]);
  }

  /** Last write wins for `currentPage`: it holds the payload of the last
      `setCurrentPage`, or its old value when there was none. */
  lemma {:induction false} CurrentPageIsLastWrite(s: State, t: seq<Action>)
    ensures ReduceAll(s, t).currentPage ==
      (if LastCurrentPage(t).Some? then LastCurrentPage(t) else s.currentPage)
    decreases |t|
  {
    if t != [] {
      ReduceAllSnoc(s, t);
      CurrentPageIsLastWrite(s, t[..|t| - 1]);
    }
  }

  /** Last write wins for `totalPages`: it holds the payload of the last
      `setTotalPages`, or its old value when there was none. In particular
      no `getTotalPages` action ever writes it. */
  lemma {:induction false} TotalPagesIsLastWrite(s: State, t: seq<Action>)
    ensures ReduceAll(s, t).totalPages ==
      (if LastTotalPages(t).Some? then LastTotalPages(t) else s.totalPages)
    decreases |t|
  {
    if t != [] {
      ReduceAllSnoc(s, t);
      TotalPagesIsLastWrite(s, t[..|t| - 1]);
    }
  }

  /** `t` with every `getTotalPages` action removed. */
  function WithoutGetTotalPages(t: seq<Action>): seq<Action>
    decreases |t|
  {
    if t == [] then []
    else if IsGetTotalPages(t[0]) then WithoutGetTotalPages(t[1..])
    else [t[0]] + WithoutGetTotalPages(t[1..])
  }

  /** The `getTotalPages` actions have no reducer case: removing them from
      any sequence of actions does not change the state it leads to. */
  lemma {:induction false} GetTotalPagesActionsAreIgnored(s: State, t: seq<Action>)
    ensures ReduceAll(s, t) == ReduceAll(s, WithoutGetTotalPages(t))
    decreases |t|
  {
    if t != [] {
      GetTotalPagesActionsAreIgnored(Reduce(s, t[0]), t[1..]);
      if !IsGetTotalPages(t[0]) {
        var w := [t[0]] + WithoutGetTotalPages(t[1..]);
        assert w[0] == t[0] && w[1..] == WithoutGetTotalPages(t[1..]);
      }
    }
  }

  /** Reducing two actions is reducing one, then the other. */
  lemma ReduceAllPair(s: State, a: Action, b: Action)
    ensures ReduceAll(s, [a, b]) == Reduce(Reduce(s, a), b)
  {
    assert [a, b][1..] == [b];
    assert ReduceAll(s, [a, b]) == ReduceAll(Reduce(s, a), [b]);
    assert [b][1..] == [];
    assert ReduceAll(Reduce(s, a), [b]) == ReduceAll(Reduce(Reduce(s, a), b), []);
  }

  /** One whole `addQuestion` call, run without any other action in between:
      on success the returned question is appended at the end and the call
      ends `succeeded` with no error; on failure `questions` is unchanged and
      the call ends `failed` with the error's message. The page fields and
      the tabs are untouched either way. */
  lemma {:induction false} AddQuestionSettles(s: State, outcome: Outcome<Question>)
    ensures var r := ReduceAll(s, AddQuestion(outcome));
      && r.totalPages == s.totalPages && r.currentPage == s.currentPage && r.tabs == s.tabs
      && (outcome.Ok? ==>
            r.status == Succeeded && r.error == None
            && |r.questions| == |s.questions| + 1
            && s.questions <= r.questions && r.questions[|s.questions|] == outcome.data)
      && (outcome.Err? ==>
            r.status == Failed && r.error == Some(outcome.message)
            && r.questions == s.questions)
  {
    var t := AddQuestion(outcome);
    ReduceAllPair(s, t[0], t[1]);
  }

  /** One whole `getTotalPages` call leaves the state exactly as it was,
      whatever its outcome. */
  lemma {:induction false} GetTotalPagesLeavesStateUnchanged(s: State, outcome: Outcome<int>)
    ensures ReduceAll(s, GetTotalPages(outcome)) == s
  {
    var t := GetTotalPages(outcome);
    ReduceAllPair(s, t[0], t[1]);
  }

  /** A call a presentation component makes on the slice. */
  datatype Call =
    | CallSetCurrentPage(page: int)
    | CallSetTotalPages(pages: int)
    | CallAddQuestion(submitted: Outcome<Question>)
    | CallGetTotalPages(fetched: Outcome<int>)

  /** The actions one call leads to. */
  function CallActions(c: Call): seq<Action> {
    match c
    case CallSetCurrentPage(p) => [SetCurrentPage(p)]
    case CallSetTotalPages(p) => [SetTotalPages(p)]
    case CallAddQuestion(o) => AddQuestion(o)
    case CallGetTotalPages(o) => GetTotalPages(o)
  }

  /** The actions of calls made one after the other, each settling before
      the next one starts. */
  function Sequential(calls: seq<Call>): seq<Action>
    decreases |calls|
  {
    if calls == [] then [] else CallActions(calls[0]) + Sequential(calls[1..])
  }

  /** `error` is not null exactly when `status` is `failed`. The message it
      holds may be empty. */
  predicate StatusAgreesWithError(s: State) {
    s.status == Failed <==> s.error.Some?
  }

  /** Every single call, run on its own, keeps `status` and `error` in
      agreement: `error` is not null exactly when `status` is `failed`. */
  lemma {:induction false} CallKeepsAgreement(s: State, c: Call)
    requires StatusAgreesWithError(s)
    ensures StatusAgreesWithError(ReduceAll(s, CallActions(c)))
  {
    match c
    case CallAddQuestion(o) => AddQuestionSettles(s, o);
    case CallGetTotalPages(o) => GetTotalPagesLeavesStateUnchanged(s, o);
    case CallSetCurrentPage(p) =>
      assert ReduceAll(s, [SetCurrentPage(p)]) == Reduce(s, SetCurrentPage(p));
    case CallSetTotalPages(p) =>
      assert ReduceAll(s, [SetTotalPages(p)]) == Reduce(s, SetTotalPages(p));
  }

  /** When calls do not overlap, `error` is not null exactly when `status`
      is `failed`. */
  lemma {:induction false} SequentialCallsKeepAgreement(s: State, calls: seq<Call>)
    requires StatusAgreesWithError(s)
    ensures StatusAgreesWithError(ReduceAll(s, Sequential(calls)))
    decreases |calls|
  {
    if calls != [] {
      var first := CallActions(calls[0]);
      ReduceAllAppend(s, first, Sequential(calls[1..]));
      CallKeepsAgreement(s, calls[0]);
      SequentialCallsKeepAgreement(ReduceAll(s, first), calls[1..]);
    }
  }

  /** The initial state agrees, so every run of non-overlapping calls from
      it does. */
  lemma {:induction false} InitialCallsKeepAgreement(calls: seq<Call>)
    ensures StatusAgreesWithError(ReduceAll(InitialState(), Sequential(calls)))
  {
    SequentialCallsKeepAgreement(InitialState(), calls);
  }

  /** When two submissions overlap and the earlier-completing one fails, the
      later success overwrites `status` but not `error`: the state ends
      `succeeded` while still holding the failure's message. */
  lemma OverlappingCallsCanLeaveErrorAfterSuccess(q: Question, message: string)
    ensures var r := ReduceAll(InitialState(),
        [AddQuestionPending, AddQuestionPending, AddQuestionRejected(message), AddQuestionFulfilled(q)]);
      r.status == Succeeded && r.error == Some(message) && r.questions == [q]
      && !StatusAgreesWithError(r)
  {
    var t := [AddQuestionPending, AddQuestionPending, AddQuestionRejected(message), AddQuestionFulfilled(q)];
    var s1 := Reduce(InitialState(), t[0]);
    var s2 := Reduce(s1, t[1]);
    var s3 := Reduce(s2, t[2]);
    ReduceAllSnoc(InitialState(), t);
    assert t[..3] == [t[0], t[1], t[2]];
    ReduceAllSnoc(InitialState(), t[..3]);
    assert t[..3][..2] == [t[0], t[1]];
    ReduceAllSnoc(InitialState(), t[..2]);
    assert t[..2][..1] == [t[0]];
    ReduceAllSnoc(InitialState(), t[..1]);
    assert t[..1][..0] == [];
  }
}
