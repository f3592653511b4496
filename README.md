# Question slice of the CAC hospital website front end

This project models the question workflow state of the site's front end: the
Redux slice in `frontend/src/features/questions/questionSlice.js`. The slice
keeps a state record with six fields: `questions`, `status`, `error`,
`totalPages`, `currentPage` and `tabs`. It has two synchronous reducers,
`setCurrentPage` and `setTotalPages`. It handles the `pending`, `fulfilled`
and `rejected` actions of the `addQuestion` thunk. It also defines a second
thunk, `getTotalPages`, but has no reducer case for that thunk's actions.

The model has three modules:

- `QuestionSlice` (`question_slice.dfy`) holds the data model: `Status`,
  `Question`, `Tab`, `Action` and the state value `State`, with `null` modelled
  as `None`. It also holds the reducer as a function on values (`Reduce`) and the
  state record as a class, `QuestionState`. The class has one method per reducer
  case. Each method says field by field what it writes and what it leaves alone,
  and ties the new value to `Reduce` of the old one. `Dispatch` routes an action
  to its case. The `getTotalPages` actions fall through it and leave the record
  unchanged.
- `Thunks` (`thunks.dfy`) models each thunk as a map from the remote call's
  outcome (`Ok(data)` or `Err(message)`) to the actions one dispatch produces:
  `pending`, then exactly one settling action.
- `SliceProperties` (`slice_properties.dfy`) folds the reducer over any
  sequence of actions (`ReduceAll`) and proves what holds over whole runs:
  - `questions` only grows, in completion order, and `tabs` never changes;
  - each page field keeps its last write;
  - `getTotalPages` actions are ignored;
  - each whole call settles as the source promises;
  - `status` and `error` stay in agreement as long as calls do not overlap.

Two behaviours of the code are stated as theorems:

- `getTotalPages` never writes `totalPages`. The slice has no case for that
  thunk's actions, so only `setTotalPages` changes `totalPages`
  (`TotalPagesIsLastWrite`, `GetTotalPagesActionsAreIgnored`,
  `GetTotalPagesLeavesStateUnchanged`).
- `status` and `error` can disagree when submissions overlap. If calls do not
  overlap, `error` is not null exactly when `status` is `failed`
  (`SequentialCallsKeepAgreement`). If two submissions overlap and the first
  one to complete fails, the later success sets `succeeded` but leaves the
  failure's message in `error` (`OverlappingCallsCanLeaveErrorAfterSuccess`).

## Model

| member | source | states |
|---|---|---|
| `QuestionSlice.QuestionState.constructor` | frontend/src/features/questions/questionSlice.js:37-48 | the record starts with no questions, status idle, error, total pages and current page all null, and exactly the three tabs my, recents, ajouter with their labels, in that order; its value is `InitialState`, the slice's initial state as a value |
| `QuestionSlice.Reduce` | frontend/src/features/questions/questionSlice.js:53-77 | for every action: tabs are unchanged; the old questions are a prefix of the new ones, with at most one entry added, and only a fulfilled submission changes them; only setCurrentPage changes currentPage and only setTotalPages changes totalPages; only pending and rejected change error; only the three addQuestion actions change status; a getTotalPages action leaves the whole state unchanged |
| `QuestionSlice.QuestionState.SetCurrentPage` | frontend/src/features/questions/questionSlice.js:55-57 | currentPage becomes the payload, with no bounds check; every other field is unchanged |
| `QuestionSlice.QuestionState.SetTotalPages` | frontend/src/features/questions/questionSlice.js:58-60 | totalPages becomes the payload, with no bounds check; every other field is unchanged |
| `QuestionSlice.QuestionState.AddQuestionPending` | frontend/src/features/questions/questionSlice.js:64-67 | status becomes loading and error becomes null; questions, totalPages, currentPage and tabs are unchanged |
| `QuestionSlice.QuestionState.AddQuestionFulfilled` | frontend/src/features/questions/questionSlice.js:68-72 | status becomes succeeded; questions is one entry longer, the old list is a prefix of the new one, and the last entry is the payload; error, totalPages, currentPage and tabs are unchanged |
| `QuestionSlice.QuestionState.AddQuestionRejected` | frontend/src/features/questions/questionSlice.js:73-76 | status becomes failed and error becomes the rejection payload; questions and every other field are unchanged |
| `QuestionSlice.QuestionState.Dispatch` | frontend/src/features/questions/questionSlice.js:50-78 | applying an action to the record gives the same value as the reducer; a getTotalPages action leaves the record unchanged, because the slice has no case for it |
| `Thunks.AddQuestion` | frontend/src/features/questions/questionSlice.js:10-22 | one dispatch yields pending and then exactly one settling action, last: fulfilled with the API's data when the call succeeds, rejected with the caught error's message when it throws |
| `Thunks.GetTotalPages` | frontend/src/features/questions/questionSlice.js:23-35 | one dispatch yields pending and then fulfilled with the reported total page count or rejected with the error's message; every action it yields is a getTotalPages action |
| `SliceProperties.ReduceAllAppend` | frontend/src/features/questions/questionSlice.js:50-78 | reducing two action sequences one after the other is the same as reducing their concatenation |
| `SliceProperties.QuestionsAreFulfilledPayloads` | frontend/src/features/questions/questionSlice.js:53-77 | after any actions, questions is the old list followed by the fulfilled payloads in completion order, so no entry is ever removed or reordered; tabs are unchanged |
| `SliceProperties.CurrentPageIsLastWrite` | frontend/src/features/questions/questionSlice.js:55-57 | after any actions, currentPage holds the last setCurrentPage payload, or its old value if there was none (last write wins) |
| `SliceProperties.TotalPagesIsLastWrite` | frontend/src/features/questions/questionSlice.js:58-60 | after any actions, totalPages holds the last setTotalPages payload, or its old value if there was none; no getTotalPages action writes it |
| `SliceProperties.GetTotalPagesActionsAreIgnored` | frontend/src/features/questions/questionSlice.js:62-77 | removing every getTotalPages action from any action sequence does not change the resulting state |
| `SliceProperties.AddQuestionSettles` | frontend/src/features/questions/questionSlice.js:12-21 | a whole addQuestion call that overlaps no other action: on success the returned question is appended at the end, status is succeeded and error is null; on failure questions is unchanged, status is failed and error is the message; page fields and tabs are unchanged |
| `SliceProperties.GetTotalPagesLeavesStateUnchanged` | frontend/src/features/questions/questionSlice.js:23-35 | a whole getTotalPages call leaves the state exactly as it was, whatever its outcome |
| `SliceProperties.CallKeepsAgreement` | frontend/src/features/questions/questionSlice.js:53-77 | any single non-overlapping call keeps the agreement "error is not null exactly when status is failed" (the message may be empty) |
| `SliceProperties.SequentialCallsKeepAgreement` | frontend/src/features/questions/questionSlice.js:53-77 | any sequence of non-overlapping calls keeps that agreement |
| `SliceProperties.InitialCallsKeepAgreement` | frontend/src/features/questions/questionSlice.js:37-77 | from the initial state, every sequence of non-overlapping calls ends in a state where error is not null exactly when status is failed |
| `SliceProperties.OverlappingCallsCanLeaveErrorAfterSuccess` | frontend/src/features/questions/questionSlice.js:64-76 | with two overlapping submissions where the first to complete is rejected and the second fulfilled, the state ends succeeded while error still holds the rejection message |

## Left out

- The remote API calls (`addQuestion` and `getRecentQuestions` of `@/services/apiQuestions`) are network I/O that this model does not include. Each thunk takes the call's outcome as an input, and the request fields (`object`, `content`, `type`) that the `addQuestion` thunk passes along are not modelled.
- Redux Toolkit and Immer are library plumbing: `createSlice`, `createAsyncThunk`, action creators, action type strings and dispatch. The model keeps only the action a thunk dispatches and the case that handles it. Actions of other slices are not modelled.
- The `console.error` logging in both thunks is not modelled. It does not affect the state.
- Overlapping submissions are modelled only as an arbitrary sequence of actions. Event-loop scheduling is not modelled.
- The rejection payload is `error.message`, which JavaScript allows to be `undefined`. The model takes it to be a string.
- `StatusAgreesWithError` says only that `error` is not null exactly when `status` is `failed`. It does not say the message is non-empty: an error thrown with an empty message leaves `status` failed and `error` the empty string.
- Page payloads are modelled as integers. JavaScript would accept any value, including `null`.
- The authentication dialog, the static pages, the routing layout and the link button are presentation code and are not part of this model.
