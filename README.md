# AwsAccount reconciler, modelled in Dafny

This project models the reconciler of the `AwsAccount` resource. The reconciler
provisions an IAM user step by step and records its progress in the resource's
status.

One reconcile pass does four things:

1. It fetches the resource. A NotFound ends the pass without error. Any other
   failure ends it with that error.
2. It walks the bootstrap state machine. `""` or `CreatingUser` creates the
   user. `CreatingLoginProfile` generates a password and creates a login
   profile that must be reset at first sign-in. `CreatingAccessKey` creates an
   access key pair. After each step the next state is written to the stored
   status at once.
3. It computes, with `getDifference`, the spec groups the status does not yet
   list.
4. It joins those groups in order. After each join it appends the group to the
   status and writes the status.

The first error of any kind ends the pass and is returned.

Files:

- `difference.dfy` (module `Difference`): the generic helpers `contains` and
  `getDifference`. The methods are loops, proved equal to the specification
  function `Missing`. Lemmas state what `Missing` means: membership,
  multiplicity, order, and the set identity.
- `controller.dfy` (module `AwsAccountController`): the data model, and one
  pass as a pure function `ReconcilePass`, built from one function per
  bootstrap stage (grouped as `Bootstrap`) and the group loop `AddGroups`. The class `AwsAccountReconciler`
  has a `Reconcile` method that updates the reconciler's fields in place and
  is proved to match `ReconcilePass`.
- `properties.dfy` (module `AwsAccountProperties`): properties of
  `ReconcilePass`. They cover:
  - an invariant kept by every call;
  - the ordering of side effects and status writes;
  - stopping at the first error;
  - forward-only progress;
  - group convergence;
  - one-pass provisioning;
  - the steady-state no-op;
  - resuming after a failed status write.
- `scenarios.dfy` (module `AwsAccountScenarios`): concrete passes, each with
  fixed answers from the collaborators.

Collaborators:

- The resource store, the IAM wrapper and the password generator are
  collaborators. Each call to one is recorded in the pass's trace as an
  `Event`: the call with its arguments, and whether it succeeded.
- Whether a call succeeds is read from an oracle. The oracle is a sequence of
  booleans consumed one per call. Once it is exhausted, every call succeeds.
- Whether the fetch finds the resource is the parameter `present`. A
  NotFound fetch is recorded as `Event(Get, true)`: `client.IgnoreNotFound`
  drops that error, so an event's `ok` means that no error reached the
  reconciler, not that the collaborator found what it was asked for.
- The properties also track the bootstrap script of a stored state: the
  side effects its remaining stages make, in order (`BootstrapScript`). Each
  pass makes a prefix of that script and nothing else, so no bootstrap side
  effect happens twice in a pass, and a persisted stage is never run again.

## Model

| member | source | states |
|---|---|---|
| Difference.Missing | internal/controller/awsaccount_controller.go:41-53 | the difference of two slices is never longer than its first operand |
| Difference.Contains | internal/controller/awsaccount_controller.go:32-39 | the linear scan returns true exactly when the value occurs in the slice |
| Difference.GetDifference | internal/controller/awsaccount_controller.go:41-53 | both loops build the elements of `desired` absent from `current` (wanted) and of `current` absent from `desired` (unwanted), each in input order with duplicates kept |
| Difference.MissingMembership | internal/controller/awsaccount_controller.go:42-46 | a value is wanted if and only if it is desired and not current |
| Difference.MissingMultiplicity | internal/controller/awsaccount_controller.go:42-46 | a wanted value occurs as often as in `desired`; a current value does not occur at all |
| Difference.MissingAppend | internal/controller/awsaccount_controller.go:42-46 | the difference keeps input order: the difference of a concatenation is the concatenation of the differences |
| Difference.MissingTwice | internal/controller/awsaccount_controller.go:42-46 | taking away `a + b` equals taking away `a` and then `b` |
| Difference.MissingEmpty | internal/controller/awsaccount_controller.go:42-46 | nothing is wanted if and only if every desired value is current |
| Difference.MissingNone | internal/controller/awsaccount_controller.go:42-46 | when no desired value is current, everything desired is wanted, unchanged |
| Difference.MissingElements | internal/controller/awsaccount_controller.go:41-53 | as sets, each difference is the set difference of its operands |
| Difference.DifferenceSetIdentity | internal/controller/awsaccount_controller.go:41-53 | as sets, desired equals (current plus wanted) minus unwanted |
| Difference.MissingDistinct | internal/controller/awsaccount_controller.go:42-46 | a desired list without duplicates gives a wanted list without duplicates |
| Difference.MissingOwnPrefix | internal/controller/awsaccount_controller.go:42-46 | for a list without duplicates, taking away its first `k` elements leaves exactly the rest |
| AwsAccountController.Ask | internal/controller/awsaccount_controller.go:86-90 | one collaborator call that returns its error on failure: no contract of its own; specified by the lemmas in `AwsAccountProperties` (`AskKeeps`, `TraceSnoc`) |
| AwsAccountController.Persist | internal/controller/awsaccount_controller.go:92-95 | a status write that replaces the stored status only on success: no contract of its own; specified by the lemmas in `AwsAccountProperties` (`PersistKeeps`) |
| AwsAccountController.Advance | internal/controller/awsaccount_controller.go:91-95 | set the next bootstrap state, then write the status: no contract of its own; specified by the lemmas in `AwsAccountProperties` (`PersistKeeps`, the stage lemmas) |
| AwsAccountController.Join | internal/controller/awsaccount_controller.go:150-153 | append a joined group to the status, then write it: no contract of its own; specified by the lemmas in `AwsAccountProperties` (`JoinRoundKeeps`, `JoinRoundGroups`) |
| AwsAccountController.CreateUserStage | internal/controller/awsaccount_controller.go:85-97 | the user stage: no contract of its own; specified by the lemmas in `AwsAccountProperties` (`CreateUserStageKeeps`, `CreateUserStageFollowsScript`, `CreateUserStageFailedWrite`) |
| AwsAccountController.LoginProfileStage | internal/controller/awsaccount_controller.go:99-120 | the login-profile stage: no contract of its own; specified by the lemmas in `AwsAccountProperties` (`LoginProfileStageKeeps`, `LoginProfileStageFollowsScript`, `LoginProfileStageFailedWrite`) |
| AwsAccountController.AccessKeyStage | internal/controller/awsaccount_controller.go:122-138 | the access-key stage: no contract of its own; specified by the lemmas in `AwsAccountProperties` (`AccessKeyStageKeeps`, `AccessKeyStageFollowsScript`, `AccessKeyStageFailedWrite`) |
| AwsAccountController.Bootstrap | internal/controller/awsaccount_controller.go:85-138 | the three stages in order, stopping at the first error: no contract of its own; specified by the lemmas in `AwsAccountProperties` (`BootstrapKeeps`, `BootstrapFinishes`, `BootstrapFollowsScript`) |
| AwsAccountController.AddGroups | internal/controller/awsaccount_controller.go:143-155 | the group loop: no contract of its own; specified by the lemmas in `AwsAccountProperties` (`AddGroupsKeeps`, `AddGroupsJoinsPrefix`, `AddGroupsExtends`) |
| AwsAccountController.ReconcilePass | internal/controller/awsaccount_controller.go:75-172 | one whole pass: no contract of its own; specified by the lemmas in `AwsAccountProperties` (`ReconcileKeepsInvariant`, `ReconcileStopsAtFirstError`, `ReconcileAppendsGroups`, `BootstrapCallsAtMostOnce`) |
| AwsAccountController.AwsAccountReconciler.constructor | internal/controller/awsaccount_controller.go:56-60 | a reconciler starts with the given resource, answers and stored status, an in-memory copy equal to it, and an empty trace |
| AwsAccountController.AwsAccountReconciler.Invoke | internal/controller/awsaccount_controller.go:86-90 | a collaborator call is appended to the trace with the oracle's answer, which it consumes |
| AwsAccountController.AwsAccountReconciler.PersistStatus | internal/controller/awsaccount_controller.go:92-95 | a status write records the in-memory status in the trace, and replaces the stored status only if it succeeds |
| AwsAccountController.AwsAccountReconciler.CreateUserStep | internal/controller/awsaccount_controller.go:85-97 | the user stage changes the fields as the pure user stage does, and returns its error |
| AwsAccountController.AwsAccountReconciler.LoginProfileStep | internal/controller/awsaccount_controller.go:99-120 | the login-profile stage changes the fields as the pure stage does, and returns its error |
| AwsAccountController.AwsAccountReconciler.AccessKeyStep | internal/controller/awsaccount_controller.go:122-138 | the access-key stage changes the fields as the pure stage does, and returns its error |
| AwsAccountController.AwsAccountReconciler.RecordGroup | internal/controller/awsaccount_controller.go:150-153 | appending a joined group to the in-memory status and writing it changes the fields as one pure join round does |
| AwsAccountController.AwsAccountReconciler.AddGroupsStep | internal/controller/awsaccount_controller.go:143-155 | the group loop changes the fields as the pure group loop does, and returns its error |
| AwsAccountController.AwsAccountReconciler.Reconcile | internal/controller/awsaccount_controller.go:75-172 | one pass leaves stored status, in-memory status and oracle as `ReconcilePass` says, appends exactly its calls to the trace, and returns its error |
| AwsAccountProperties.FetchEstablishes | internal/controller/awsaccount_controller.go:78-83 | after the fetch the pass invariant holds, no group has been joined, and the stored status is the old one |
| AwsAccountProperties.AskKeeps | internal/controller/awsaccount_controller.go:86-90 | a side-effect call keeps the invariant and both statuses, and only extends the trace |
| AwsAccountProperties.PersistKeeps | internal/controller/awsaccount_controller.go:92-95 | a write of a status that records the side effect just made keeps the invariant; the stored status changes only on success |
| AwsAccountProperties.TraceSnoc | internal/controller/awsaccount_controller.go:78-155 | appending one call keeps fetch-first, write-after-effect, password-before-profile and no-removal, provided the call itself is allowed there |
| AwsAccountProperties.ReachesStep | internal/controller/awsaccount_controller.go:85-138 | one more bootstrap step from a reachable state is still reachable and leaves fewer steps to go |
| AwsAccountProperties.ReachesTransitive | internal/controller/awsaccount_controller.go:85-138 | forward progress composes: a state reachable from one reachable from `a` is reachable from `a` |
| AwsAccountProperties.CreateUserStageKeeps | internal/controller/awsaccount_controller.go:85-97 | the user stage keeps the invariant, extends the trace, and neither joins groups nor changes the recorded groups |
| AwsAccountProperties.LoginProfileStageKeeps | internal/controller/awsaccount_controller.go:99-120 | the login-profile stage keeps the invariant, extends the trace, and neither joins groups nor changes the recorded groups |
| AwsAccountProperties.ProfileCallsKeep | internal/controller/awsaccount_controller.go:100-109 | the password generation and the login-profile creation each keep the invariant and both statuses, and the profile call is the last one |
| AwsAccountProperties.AccessKeyStageKeeps | internal/controller/awsaccount_controller.go:122-138 | the access-key stage keeps the invariant, extends the trace, and neither joins groups nor changes the recorded groups |
| AwsAccountProperties.BootstrapKeeps | internal/controller/awsaccount_controller.go:85-138 | the three bootstrap stages together keep the invariant, extend the trace, and neither join groups nor change the recorded groups |
| AwsAccountProperties.BootstrapExtends | internal/controller/awsaccount_controller.go:85-138 | the three bootstrap stages together only append to the trace |
| AwsAccountProperties.BootstrapSucceeds | internal/controller/awsaccount_controller.go:85-138 | when every call succeeds, the bootstrap stages end without error |
| AwsAccountProperties.BootstrapOpens | internal/controller/awsaccount_controller.go:85-138 | stages started in an unfinished state first make the call of the stage that state names; the login profile follows a successful password generation at once |
| AwsAccountProperties.JoinRoundKeeps | internal/controller/awsaccount_controller.go:143-154 | one join and its write keep the invariant; the stored groups grow by that group exactly when the write succeeds |
| AwsAccountProperties.AddGroupsKeeps | internal/controller/awsaccount_controller.go:143-155 | the group loop keeps the invariant and the bootstrap state, and makes only joins and status writes |
| AwsAccountProperties.JoinRoundGroups | internal/controller/awsaccount_controller.go:143-154 | one round joins its group; a successful write records it, and a failed one leaves the stored status unchanged |
| AwsAccountProperties.AddGroupsJoinsPrefix | internal/controller/awsaccount_controller.go:143-155 | the stored groups grow by a prefix of the groups to join, in order. Without an error all were joined; with one, exactly one more group had been tried |
| AwsAccountProperties.JoinedThenRest | internal/controller/awsaccount_controller.go:143-155 | the same prefix property, stated for the loop after its first successful round |
| AwsAccountProperties.AddGroupsSucceeds | internal/controller/awsaccount_controller.go:143-155 | when every call succeeds, the group loop ends without error and adds only successful joins and writes |
| AwsAccountProperties.AddGroupsKeepsState | internal/controller/awsaccount_controller.go:143-155 | the group loop never changes the stored bootstrap state |
| AwsAccountProperties.StagesExtend | internal/controller/awsaccount_controller.go:85-138 | each bootstrap stage only appends to the trace |
| AwsAccountProperties.AddGroupsExtends | internal/controller/awsaccount_controller.go:143-155 | the group loop only appends; its error is its last call; a failed write in it comes right after a join |
| AwsAccountProperties.ReconcileKeepsInvariant | internal/controller/awsaccount_controller.go:75-172 | every pass ends with the invariant: fetch first, writes right after the effects they record, no removal, the stored status is the last successful write, and the state has moved only forward |
| AwsAccountProperties.ReconcileCheckpoints | internal/controller/awsaccount_controller.go:78-138 | a pass starts with the fetch. Each status write follows the successful side effect it records. A login profile, with reset required, follows a successful password generation |
| AwsAccountProperties.ReconcileStopsAtFirstError | internal/controller/awsaccount_controller.go:75-172 | only the last call of a pass can have failed; the pass errs exactly when it did, with that call; the stored status is the last successful write |
| AwsAccountProperties.ReconcileMovesForward | internal/controller/awsaccount_controller.go:85-138 | the stored bootstrap state only moves forward |
| AwsAccountProperties.SuccessivePassesMoveForward | internal/controller/awsaccount_controller.go:85-138 | across two passes the stored bootstrap state still only moves forward |
| AwsAccountProperties.ReconcileAppendsGroups | internal/controller/awsaccount_controller.go:140-169 | the stored groups grow by a prefix of the wanted groups, joined in wanted order, and none is removed. An error-free pass on an existing resource joins them all |
| AwsAccountProperties.PassJoinsPrefix | internal/controller/awsaccount_controller.go:140-155 | the group part of ReconcileAppendsGroups: the stored groups grow by a prefix of the wanted groups, and the joins made are that prefix or it plus the one that failed |
| AwsAccountProperties.ConvergesWhenAllCallsSucceed | internal/controller/awsaccount_controller.go:75-172 | if every call succeeds, a pass on an existing resource in any state ends without error, joins each wanted group exactly once in wanted order, records them all, and removes none |
| AwsAccountProperties.FreshResourceProvisionedInOnePass | internal/controller/awsaccount_controller.go:85-138 | if every call succeeds, a fresh resource gets user, login profile and access key in that order, each once and each followed by its write, and ends `Created` |
| AwsAccountProperties.FreshBootstrap | internal/controller/awsaccount_controller.go:85-138 | the exact pass state after the three bootstrap stages of a fresh resource when every call succeeds |
| AwsAccountProperties.FreshBootstrapCalls | internal/controller/awsaccount_controller.go:85-138 | the calls of that bootstrap, in order, all successful, ending `Created` and fully persisted |
| AwsAccountProperties.AddGroupsAllSucceed | internal/controller/awsaccount_controller.go:143-155 | when every call succeeds, the group loop keeps the earlier trace as its prefix and every call of the pass succeeded |
| AwsAccountProperties.SteadyStateIsNoOp | internal/controller/awsaccount_controller.go:85-155 | once bootstrapped and with every spec group recorded, the fetch is the only call and nothing is written |
| AwsAccountProperties.FailedFetchChangesNothing | internal/controller/awsaccount_controller.go:78-83 | a failed or NotFound fetch is the only call. Only the failure is an error |
| AwsAccountProperties.PassOpensWithStage | internal/controller/awsaccount_controller.go:85-138 | a pass whose bootstrap is unfinished makes the first call of the stage the stored state names right after the fetch |
| AwsAccountProperties.BootstrapWriteFailedAt | internal/controller/awsaccount_controller.go:85-138 | a failed write after a bootstrap call leaves the stored state in the stage that made that call |
| AwsAccountProperties.CreateUserStageFailedWrite | internal/controller/awsaccount_controller.go:85-95 | a failed write in the user stage keeps the old stored status, right after a CreateUser |
| AwsAccountProperties.LoginProfileStageFailedWrite | internal/controller/awsaccount_controller.go:99-118 | a failed write in the login-profile stage keeps the old stored status, right after a CreateLoginProfile with reset required |
| AwsAccountProperties.AccessKeyStageFailedWrite | internal/controller/awsaccount_controller.go:122-136 | a failed write in the access-key stage keeps the old stored status, right after a CreateAccessKeyPair |
| AwsAccountProperties.CrashDuringBootstrapRepeatsStage | internal/controller/awsaccount_controller.go:85-138 | after a failed write that followed a bootstrap call, the next pass first re-issues that call (for the login profile: a new password, then that call) |
| AwsAccountProperties.PassOpensWithJoin | internal/controller/awsaccount_controller.go:140-147 | a bootstrapped pass joins the first wanted group right after the fetch |
| AwsAccountProperties.BootstrapWriteFailed | internal/controller/awsaccount_controller.go:85-138 | when the stages end in a failed write, the call before it is the side effect of the stage the stored state still names |
| AwsAccountProperties.BootstrapFinishes | internal/controller/awsaccount_controller.go:85-138 | stages that end without error leave the stored state `Created` (or an unhandled state), the in-memory status equal to the stored one, and the groups untouched |
| AwsAccountProperties.GroupWriteFailedAt | internal/controller/awsaccount_controller.go:140-155 | a failed write after a join leaves the stored groups at the wanted groups before that one |
| AwsAccountProperties.JoinFollowsBootstrap | internal/controller/awsaccount_controller.go:85-155 | a failed write after a join happens only in a pass whose fetch succeeded and whose stages finished without error, persisted and with the groups untouched, so the pass is the group loop over the wanted groups |
| AwsAccountProperties.GroupCallsEndWithJoin | internal/controller/awsaccount_controller.go:143-154 | a trace ending in a join and a write has that join as its last group call |
| AwsAccountProperties.JoinWriteFailed | internal/controller/awsaccount_controller.go:143-154 | inside the group loop, a failed write after a join leaves exactly the earlier groups of the loop recorded |
| AwsAccountProperties.CrashDuringGroupsRepeatsJoin | internal/controller/awsaccount_controller.go:140-155 | after a failed write that followed a join, the next pass first re-joins that group |
| AwsAccountProperties.PersistMakesNoBootstrapCall | internal/controller/awsaccount_controller.go:92-95 | a status write is no bootstrap side effect and keeps the in-memory status |
| AwsAccountProperties.AskFollowsScript | internal/controller/awsaccount_controller.go:86-90 | making the next side effect of the script keeps the calls made a prefix of the script, and leaves the rest of it to do |
| AwsAccountProperties.CreateUserStageFollowsScript | internal/controller/awsaccount_controller.go:85-97 | the user stage makes only the next side effect of the script, and on success moves to the state whose script is the rest |
| AwsAccountProperties.LoginProfileStageFollowsScript | internal/controller/awsaccount_controller.go:99-120 | the login-profile stage makes only the next two side effects of the script (password, then profile), and on success moves to the state whose script is the rest |
| AwsAccountProperties.AccessKeyStageFollowsScript | internal/controller/awsaccount_controller.go:122-138 | the access-key stage makes only the next side effect of the script, and on success moves to `Created`, whose script is empty |
| AwsAccountProperties.BootstrapFollowsScript | internal/controller/awsaccount_controller.go:85-138 | the three stages together follow the script of the state the pass started from |
| AwsAccountProperties.AddGroupsMakesNoBootstrapCall | internal/controller/awsaccount_controller.go:143-155 | the group loop makes no bootstrap side effect |
| AwsAccountProperties.PassFollowsScript | internal/controller/awsaccount_controller.go:75-172 | for any stored status, answers and presence, the bootstrap side effects of a pass are a prefix of the script of the stored state |
| AwsAccountProperties.BootstrapCallsAtMostOnce | internal/controller/awsaccount_controller.go:85-138 | in any pass, each of CreateUser, the password request, CreateLoginProfile and CreateAccessKeyPair occurs at most once, and only if the script of the stored state holds it |
| AwsAccountProperties.PersistedStagesSkipped | internal/controller/awsaccount_controller.go:85-138 | a stage the stored state is past makes no call: no CreateUser from `CreatingLoginProfile` on, no password or login profile from `CreatingAccessKey` on, no access key once `Created` (or `Other`) |
| AwsAccountProperties.RetryDoesNotRepeatPersistedSteps | internal/controller/awsaccount_controller.go:85-138 | the pass after a pass does not repeat a side effect whose stage that pass persisted |
| AwsAccountScenarios.DuplicateGroupsJoinedTwice | internal/controller/awsaccount_controller.go:141-155 | a group listed twice in the spec, for any group and user, is joined and recorded twice |
| AwsAccountScenarios.GroupFailureStopsPass | internal/controller/awsaccount_controller.go:143-147 | a failed join ends the pass with it as the error; only earlier joins are recorded |
| AwsAccountScenarios.GroupFailureResumes | internal/controller/awsaccount_controller.go:141-155 | the next pass joins only the groups still missing |
| AwsAccountScenarios.RemovalIsNeverAttempted | internal/controller/awsaccount_controller.go:141-169 | for any three groups with only the first in the spec, the other two are computed as unwanted but never removed: the fetch is the only call |
| AwsAccountScenarios.BootstrappedPass | internal/controller/awsaccount_controller.go:78-141 | a `Created` resource whose fetch succeeds goes straight to the group loop over the wanted groups |
| AwsAccountScenarios.JoinRound | internal/controller/awsaccount_controller.go:143-154 | a join round in which the join and its write both succeed records the group and continues with the rest |
| AwsAccountScenarios.ThreeGroupsOneRecorded | internal/controller/awsaccount_controller.go:41-53 | with spec groups a, b, c and a recorded, b and c are wanted in that order; with spec a and recorded a, b, c, nothing is wanted |

## Left out

- The Kubernetes client and its internals: resource versions, update conflicts, caching and the request key. The fetch is one call whose outcome is the oracle's answer plus `present` for NotFound.
- The password itself and how it is composed: the model records only the generator's arguments (20, 3, 3, false, true) and whether the call succeeded.
- The user, login-profile and access-key values returned by the IAM wrapper: only success or failure of each call is modelled.
- Logging, including the lines that log the temporary password and the access key (112, 130). Storing them in a secret is a TODO in the source, so it is absent here too.
- `SetupWithManager` and the RBAC markers: they are wiring, not reconcile logic.
- Context cancellation, concurrent passes and requeueing: one pass runs alone, and the returned `ctrl.Result` is always empty, so only the error is modelled.
- The group-removal loop is commented out in the source. The model computes the unwanted groups and discards them, as the code does.
- `Spec.Groups` is a slice, not a set. The code keeps its order and duplicates, and so does the model: a group listed twice is joined twice (`DuplicateGroupsJoinedTwice`).
- An unknown `Status.Account` string is one state, `Other`, for which every bootstrap stage is skipped.
- CrashDuringGroupsRepeatsJoin: requires the spec groups to be distinct. With a duplicate, a failed write after the second join of a group that an earlier round already recorded is not followed by a re-join, because that group is no longer wanted.
