# NestWeb: verified model of the admin backend's core

Dafny models of the five parts of NestWeb that hold real state machines, tree algorithms or
recursive transformations, with proofs of what they promise:

- **Approvals and the message centre** (`UserStatus`, `Directory`, `MessageCenter`, `MessageEffects`, `MessagesService`,
  `ApprovalModel`, `ApprovalInvariants`, `ApprovalSteps`, `ApprovalTheorems`, `ApprovalEffects`,
  `ApprovalVisibility`, `ApprovalService`): requests, their append-only action log and the TODOs and notices they send, over
  all runs, including those that delete users; the list filter against the per-request access check.
- **Refresh-token sessions** (`SessionModel`, `SessionTheorems`, `GenerationSpec`, `SessionService`):
  one stored-token cell per user, the exact set of tokens a refresh accepts after any run, and a
  refinement of a specification that counts sessions.
- **The seed** (`PermissionTables`, `SeedModel`, `SeedSteps`, `SeedRuns`, `SeedRenames`, `SeedLoops`,
  `SeedService`, `LegacyAliases`): the recursive upsert of the menu tree from any starting tables, and the merge of
  legacy permissions.
- **The permission-group forest** (`CodeBuilder`, `Forest`, `MenuWalk`, `MenuOperations`,
  `MenuEffects`, `MenuProtection`, `MenusService`, `MenuFilter`, `PermissionTree`): descendant walk, guarded subtree
  deletion, cycles, pruning, and the tree projection.
- **Redaction and paging** (`Redaction`, `Ordering`, `Paging`).

The database is a set of tables (maps from id to row) inside a service object. Each public call is one
atomic step. A call is written twice: as a method of a class that changes the tables in place, in the
order the code does, and as a function from the old tables to the new ones; the method's contract ties
the two together, and the theorems are about the functions and their runs. The lemmas whose names end in
`Exactly` say what a function does without naming it or its helpers: when each answer comes, and every
column that is written, told from the columns of the tables and the literal codes and titles. `Base` holds shared values.

## What the proofs brought out

- The role fan-out selects users whose status is `active`, `Active` or `ACTIVE`, while every other check
  also treats null, the empty string, `"1"` and unknown values as active. Such members may decide a
  request but get no TODO for it (`Directory.FanOutMissesSomeone`; exactly when: `Directory.FanOutReachesAll`).
- `docs/development/approval-lite-integration.md:48` says that a decision completes the approver's TODO.
  The code also cancels the TODOs of everyone else on the request (`ApprovalTheorems.DecisionEffect`).
- A request keeps its TODOs exactly as long as their recipients' accounts exist: deleting a user deletes
  that user's mailbox. So the number of TODOs stays what the creation fanned out if and only if no
  recipient is deleted (`ApprovalTheorems.TodosExactly`; a run in which it drops:
  `ApprovalTheorems.DeletionDropsTodo`). Deleting the named approver leaves a pending request that only
  admins can decide (`ApprovalTheorems.DeletedApproverLeavesAdmins`).
- An admin may decide every pending request, but `pendingForMe` shows an admin only those addressed to
  that user or to one of their roles (`ApprovalVisibility.PendingForMeOfAdmin`).
- `updateUser` with a status but no password keeps the stored hash, so a user who is disabled that way and
  enabled again still holds a redeemable token (`SessionTheorems.DisablingByUpdateKeepsToken`; exactly
  when an update revokes: `SessionTheorems.UpdateUserRevokesExactly`).
- `miniprogramLogin` issues tokens without looking at the account status, and it is the only call that
  issues one to an inactive user (`SessionTheorems.IssuesToInactiveExactly`, with a state in
  `SessionTheorems.DisabledUserIsIssuedToken`). The refresh token is refused while the user is inactive,
  but it stays stored and becomes redeemable when the account is enabled
  (`SessionTheorems.InactiveTokenWaitsForEnabling`).
- Nothing stops `update` from moving a menu under its own descendant
  (`MenuProtection.UpdateCanCloseCycle`); this is the only way a cycle can arise
  (`MenuProtection.StepAcyclicExactly`), and below a cycle the recursive walk never returns
  (`MenuWalk.WalkTerminatesExactly`). Without such a move every run comes back and stays a forest
  (`MenuProtection.RunStaysForest`).
- `remove` deletes the descendants and the row in two statements. When a permission still belongs to the
  row itself, the descendants are gone although the call fails (exactly when:
  `MenuOperations.FailedRemoveChangesExactly`; on a table: `MenuProtection.FailedRemoveCanLoseChildren`).
- `removeMenusByIds` fails when an id lies in the subtree of an id named before it
  (`MenuOperations.RemoveManyExact`).
- In the seed, a menu whose code has no row yet takes over a row at its path and parent, even when that
  row carries the code of a menu that comes later; the later menu then gets another row. A run changes
  some row's code if and only if the starting tables have a row in such a place that does not carry the
  code of an earlier menu (`SeedService.Seeder.SeedMenuTree` with `SeedRenames.WouldRename`; a run:
  `SeedService.SeedMisplaced`). When every seed code has its row, no code changes
  (`SeedRenames.NoRenameWhenPresent`).
- An own property named `__proto__` of a logged object is lost by redaction, because assigning it to a
  plain object creates no property (`Redaction.PathsKeptExactly`).

## Model

| member | source | states |
|---|---|---|
| UserStatus.InactiveExactly | src/users/constants/user-status.ts:11-29 | an account counts as inactive for three stored values and no others: `0`, `resigned`, `disabled` |
| UserStatus.NormalizesExactly | src/users/constants/user-status.ts:11-25 | `0` and `resigned` are stored as resigned, `disabled` as disabled, everything else as active |
| UserStatus.ListedIsActive | src/messages/messages.service.ts:181-200 | the in-memory status filter after the fan-out query drops nobody the query selected |
| Directory.FanOutReachesAll | src/messages/messages.service.ts:175-205 | the role fan-out reaches only active members, and all of them if and only if no member of the enabled role has a status outside both the query's list and the inactive values |
| Directory.FanOutMissesSomeone | src/messages/messages.service.ts:175-205 | there is a role with a member who counts as active but is sent no TODO |
| MessageCenter.InsertTodosKeys | src/messages/messages.service.ts:206-220 | the fan-out keeps every message as it was and adds exactly one row per recipient, numbered consecutively |
| MessageCenter.InsertTodosRow | src/messages/messages.service.ts:206-220 | the k-th new row is an unread, uncompleted, uncancelled TODO for the k-th recipient |
| MessageCenter.PerformKeepsInvariant | src/messages/messages.service.ts:84-261 | no call makes a TODO both completed and cancelled, gives a notification anything but a read time, deletes a message or changes a time once set |
| MessageCenter.RunKeepsInvariant | src/messages/messages.service.ts:84-261 | the same over any run of calls: the mailbox stays well-formed, rows stay, set timestamps never change |
| MessageCenter.StatesPartition | src/messages/messages.service.ts:355-388 | unread, read, pending, done and cancelled are disjoint and together are the user's whole mailbox |
| MessageCenter.CountsAreListed | src/messages/messages.service.ts:58-82 | the two badge counters are the sizes of the unread and the pending list |
| MessageCenter.UnreadCountAgrees | src/messages/messages.service.ts:58-82 | the badge total is the size of unread plus pending, and with read, done and cancelled it makes up the mailbox |
| MessageEffects.ListedExactly | src/messages/messages.service.ts:355-388 | what each of the five states shows, column by column; any other state shows the whole mailbox |
| MessageEffects.MarkReadExactly | src/messages/messages.service.ts:84-97 | succeeds if and only if the message exists, is the caller's and is a notification; then the read time is the old one or now, nothing else changes, and the message is listed as read; otherwise nothing changes |
| MessageEffects.CompleteTodoExactly | src/messages/messages.service.ts:117-134 | succeeds if and only if the message exists, is the caller's, is a TODO and is not cancelled; then the completion time is the old one or now, nothing else changes, and it is listed as done and not as pending; otherwise nothing changes |
| MessageEffects.CancelTodoExactly | src/messages/messages.service.ts:136-153 | the same for cancelling, of a TODO that is not completed |
| MessageEffects.MarkAllReadExactly | src/messages/messages.service.ts:99-115 | exactly the user's unread notifications get the time as read time |
| MessageEffects.CompleteBusinessTodosExactly | src/messages/messages.service.ts:223-241 | exactly the open TODOs of the record, of the given user or of everybody, get the completion time |
| MessageEffects.CancelBusinessTodosExactly | src/messages/messages.service.ts:243-261 | exactly the open TODOs of the record, but the excepted user's, get the cancellation time |
| MessageEffects.InsertExactly | src/messages/messages.service.ts:155-173 | the new message has the input's columns and no time set; no other row changes |
| MessageEffects.InsertTodosExactly | src/messages/messages.service.ts:206-211 | the same for each row of a fan-out |
| MessagesService.ApplyMessageStateFilter | src/messages/messages.service.ts:355-388 | the filter object changed in place restricts as the state says and keeps the fields it had |
| MessagesService.MessagesService.UnreadCount | src/messages/messages.service.ts:58-82 | the three returned counts are sizes of the lists the same states show |
| MessagesService.MessagesService.FindOwnedMessage | src/messages/messages.service.ts:311-325 | reports a missing message exactly when there is none with the id, and success exactly for the recipient |
| MessagesService.MessagesService.MarkRead | src/messages/messages.service.ts:84-97 | own notifications only; sets the read time once, error cases change nothing |
| MessagesService.MessagesService.MarkAllRead | src/messages/messages.service.ts:99-115 | returns how many were unread; afterwards the user's unread list is empty and no other message changed |
| MessagesService.MessagesService.CompleteTodo | src/messages/messages.service.ts:117-134 | own TODOs that are not cancelled; sets the completion time once, error cases change nothing |
| MessagesService.MessagesService.CancelTodo | src/messages/messages.service.ts:136-153 | own TODOs that are not completed; sets the cancellation time once, error cases change nothing |
| MessagesService.MessagesService.FindTodos | src/messages/messages.service.ts:213-221 | the TODOs of the given users about the business record, each once, in ascending id order; a part that is not given does not restrict |
| MessagesService.MessagesService.CreateTodoForRole | src/messages/messages.service.ts:175-221 | one new TODO for each selected member of the role, each member once, whatever order the query returned; returns all TODOs these members have about the record, among them every new one |
| MessagesService.MessagesService.CompleteBusinessTodos | src/messages/messages.service.ts:223-241 | completes the open TODOs of the business record, of the given user if one is given, and keeps the table valid |
| MessagesService.MessagesService.CancelBusinessTodos | src/messages/messages.service.ts:243-261 | cancels the open TODOs of the business record, except the given user's if one is given, and keeps the table valid |
| Base.DecimalRoundTrip | src/approval-requests/approval-requests.service.ts:244-256 | the decimal text of an id used as business key can be read back |
| Base.DecimalInjective | src/approval-requests/approval-requests.service.ts:244-256 | two requests never share a business key |
| ApprovalInvariants.ReplayMeaning | src/approval-requests/approval-requests.service.ts:73-242 | replaying a log gives a status if and only if the log is SUBMIT, then comments with, for a closed status, exactly one entry of that verdict among them |
| ApprovalSteps.StepKeepsInv | src/approval-requests/approval-requests.service.ts:73-318 | every call of the service, every message call of the rest of the system, every change of users and roles and every deletion of users keeps the invariant over the three tables |
| ApprovalSteps.DeleteUsersKeepsInv | src/users/users.service.ts:397-405 | deleting users with its cascades (prisma/schema.prisma:235-280) keeps every log, verdict and notice in order |
| ApprovalSteps.ReachableInv | src/approval-requests/approval-requests.service.ts:73-318 | the invariant holds after every run from empty tables |
| ApprovalTheorems.ReachableRequest | src/approval-requests/approval-requests.service.ts:73-242 | in every reachable state the status is the fold of the log, the log starts with the applicant's SUBMIT, the decision time is null exactly when PENDING, and a closed request has no open TODO |
| ApprovalTheorems.ReachableNotices | src/approval-requests/approval-requests.service.ts:182-186 | in every reachable state a pending request has sent no notice and a closed one exactly one, to its applicant, with its verdict's title |
| ApprovalTheorems.ReachableTodoSplit | src/messages/messages.service.ts:223-261 | in every reachable state a request's TODO count is open plus completed plus cancelled |
| ApprovalTheorems.CreationFanOut | src/approval-requests/approval-requests.service.ts:265-291 | a new request sends one open TODO to the named user, or one to each selected member of the role, and to nobody else, never two to one user |
| ApprovalTheorems.DecisionEffect | src/approval-requests/approval-requests.service.ts:230-262 | a decision completes the decider's open TODOs of this request, cancels everyone else's, adds one notice and touches no other message |
| ApprovalTheorems.CancellationEffect | src/approval-requests/approval-requests.service.ts:138-189 | a cancellation cancels all open TODOs of this request, adds one notice and touches no other message |
| ApprovalTheorems.VerdictIsolated | src/approval-requests/approval-requests.service.ts:138-262 | deciding or cancelling one request changes no row, log entry or message of another |
| ApprovalTheorems.DeleteUsersLater | prisma/schema.prisma:235-280 | deleting users takes from a request exactly the TODOs of the deleted recipients and a deleted named approver |
| ApprovalTheorems.StepLater | src/approval-requests/approval-requests.service.ts:73-262 | one step keeps what was submitted, any verdict, the log so far and, but for deleted recipients, the TODO rows of every request |
| ApprovalTheorems.RunLater | src/approval-requests/approval-requests.service.ts:73-262 | over any run a verdict is final, the log only grows, set times stay set, and the TODOs are the same rows but for those whose recipient the run deleted |
| ApprovalTheorems.TodosExactly | src/approval-requests/approval-requests.service.ts:265-291 | at any later time the TODOs are the created ones whose recipient has not been deleted, and their number is that of the fan-out if and only if no recipient was deleted |
| ApprovalTheorems.DeletionDropsTodo | src/users/users.service.ts:397-405 | a run in which the only TODO of a pending request disappears |
| ApprovalTheorems.DeletedApproverLeavesAdmins | src/users/users.service.ts:397-405 | after the named approver of a pending request is deleted, exactly the admins can decide it |
| ApprovalEffects.AccessExactly | src/approval-requests/approval-requests.service.ts:487-541 | who may decide, cancel and view a request, told from users, roles and the two permission codes |
| ApprovalEffects.RoleMembersExactly | src/messages/messages.service.ts:181-194 | the fan-out selects the members of the enabled role with one of three status values |
| ApprovalEffects.DecideExactly | src/approval-requests/approval-requests.service.ts:211-263 | who may decide, when each error comes and that it changes nothing; the request row, the log entry with actor and comment, and the notice with its literal title |
| ApprovalEffects.CancelExactly | src/approval-requests/approval-requests.service.ts:138-189 | the applicant, an admin, or a user with one of the two permissions may cancel; when each error comes and that it changes nothing; what is written |
| ApprovalEffects.CommentExactly | src/approval-requests/approval-requests.service.ts:191-209 | who may comment, when each error comes, and that one log entry with actor and comment is all that is written |
| ApprovalEffects.NamesApproverExactly | src/approval-requests/approval-requests.service.ts:425-455 | the approvers accepted are existing users with a status that is not inactive and existing enabled roles |
| ApprovalEffects.CreateExactly | src/approval-requests/approval-requests.service.ts:73-108 | when creating succeeds, when each error comes, and every column of the new request and its log entry |
| ApprovalEffects.CreatedTodoColumns | src/approval-requests/approval-requests.service.ts:265-291 | every column of the TODOs a creation sends |
| ApprovalEffects.DeleteUsersExactly | prisma/schema.prisma:235-280 | when deleting users is refused, and which users, messages and columns go |
| ApprovalEffects.ReachableNoticeTitle | src/approval-requests/approval-requests.service.ts:182-186 | in every reachable state the notice goes to the applicant and its title tells the verdict in the log: approved, rejected or cancelled |
| ApprovalVisibility.BuildWhere | src/approval-requests/approval-requests.service.ts:320-372 | for every query, the filter assembled field by field with early returns decides each column as the query's precedence says |
| ApprovalVisibility.ApproverClauses | src/approval-requests/approval-requests.service.ts:374-379 | the approver clauses select only requests the caller approves, and for a non-admin all of them |
| ApprovalVisibility.FoundExactly | src/approval-requests/approval-requests.service.ts:320-372 | for every query and caller, which requests the list shows, told from status, business type, applicant, role code, keyword and who may view or decide |
| ApprovalVisibility.ListedIsViewable | src/approval-requests/approval-requests.service.ts:320-372 | under any query, every listed request is one the detail call allows |
| ApprovalVisibility.EmptyQueryListsViewable | src/approval-requests/approval-requests.service.ts:457-474 | the empty query lists exactly the requests the detail call allows |
| ApprovalVisibility.PendingForMeIsDecidable | src/approval-requests/approval-requests.service.ts:358-363 | for a non-admin, the pendingForMe list is exactly the requests on which approve, and reject, would succeed |
| ApprovalVisibility.PendingForMeOfAdmin | src/approval-requests/approval-requests.service.ts:487-515 | for an admin it is only a part, and equal if and only if every pending request is addressed to the admin as a user or role member |
| ApprovalVisibility.ReachableListAgrees | src/approval-requests/approval-requests.service.ts:37-71 | list and detail agree in every reachable state |
| ApprovalService.ApprovalRequestsService.FindOne | src/approval-requests/approval-requests.service.ts:66-71 | returns the row exactly when it exists and the caller may view it |
| ApprovalService.ApprovalRequestsService.AssertCanView | src/approval-requests/approval-requests.service.ts:457-474 | lets managers, the applicant and approvers through and nobody else |
| ApprovalService.ApprovalRequestsService.CheckApprover | src/approval-requests/approval-requests.service.ts:487-515 | true for admins, the named user and members of the named role |
| ApprovalService.ApprovalRequestsService.AssertApprover | src/approval-requests/approval-requests.service.ts:425-455 | accepts exactly an existing active user or an existing enabled role, as the approver type asks |
| ApprovalService.ApprovalRequestsService.CreateApprovalTodos | src/approval-requests/approval-requests.service.ts:265-291 | the message table gains the TODOs of the request, in the query's order, and nothing else |
| ApprovalService.ApprovalRequestsService.Create | src/approval-requests/approval-requests.service.ts:73-108 | the in-place call is the create step, keeps the invariant, and on success has used a correct member list |
| ApprovalService.ApprovalRequestsService.NotifyApplicant | src/approval-requests/approval-requests.service.ts:293-318 | adds one notification, addressed to the request's applicant, or nothing when there is no such request |
| ApprovalService.ApprovalRequestsService.Decide | src/approval-requests/approval-requests.service.ts:211-263 | the in-place call is the decide step with its errors in order, and keeps the invariant |
| ApprovalService.ApprovalRequestsService.Approve | src/approval-requests/approval-requests.service.ts:110-122 | approving is the decide step with verdict APPROVED |
| ApprovalService.ApprovalRequestsService.Reject | src/approval-requests/approval-requests.service.ts:124-136 | rejecting is the decide step with verdict REJECTED |
| ApprovalService.ApprovalRequestsService.Cancel | src/approval-requests/approval-requests.service.ts:138-189 | the in-place call is the cancel step with its errors in order, and keeps the invariant |
| ApprovalService.ApprovalRequestsService.Comment | src/approval-requests/approval-requests.service.ts:191-209 | the in-place call appends one log entry for a caller who may view, and keeps the invariant |
| SessionTheorems.StepKeepsValid | src/auth/auth.service.ts:129-410 | stored tokens were issued to that very user and token ids stay unique under every call |
| SessionTheorems.StepOnStored | src/auth/auth.service.ts:289-380 | a call leaves a token stored if and only if it was stored and the call is not one of those that end its session |
| SessionTheorems.StepIssues | src/auth/auth.service.ts:395-410 | a call that returns a token returns one never issued before, which is then the stored one |
| SessionTheorems.StepStoresOnlyIssued | src/auth/auth.service.ts:407-410 | no token becomes stored or valid except by being returned |
| SessionTheorems.IssuedExactly | src/auth/auth.service.ts:395-405 | after any run the tokens that verify are those some call of the run returned |
| SessionTheorems.StoredExactly | src/auth/auth.service.ts:353-410 | after any run a token is the stored one if and only if some call returned it and no later call ended its session |
| SessionTheorems.AcceptedExactly | src/auth/auth.service.ts:353-380 | after any run a refresh succeeds if and only if the token is unexpired, its user exists and is active, and its session is live |
| SessionTheorems.NeverStoredAgain | src/auth/auth.service.ts:353-410 | a token that was replaced or cleared never becomes the stored one again |
| SessionTheorems.RedeemedAtMostOnce | src/auth/auth.service.ts:353-380 | over any run, a second refresh with the same token is rejected |
| SessionTheorems.NoSessionUntilIssued | src/auth/auth.service.ts:291-294 | a user without a session has none until a call issues a token to that user |
| SessionTheorems.ReuseEndsSession | src/auth/auth.service.ts:353-380 | presenting a superseded token is rejected and leaves its user without any redeemable token until the next token is issued to that user |
| SessionTheorems.RevocationIsFinal | src/users/users.service.ts:285-368 | after a password change, an admin reset, an update with a password, or a status call to a non-active status, no earlier token of the user is accepted in any continuation |
| SessionTheorems.StaleLogoutIsHarmless | src/auth/auth.service.ts:296-322 | logging out with a token that is not the stored one leaves the current session redeemable |
| SessionTheorems.UpdateUserRevokesExactly | src/users/users.service.ts:259-299 | a user update leaves the user without a session if and only if it sets a password or there was no session |
| SessionTheorems.DisablingByUpdateKeepsToken | src/users/users.service.ts:284-289 | disabling through the user form and enabling again can leave an old token redeemable |
| SessionTheorems.IssuesToInactiveExactly | src/auth/auth.service.ts:129-140 | a call issues a token to an inactive user if and only if it is a mini-program login that finds one |
| SessionTheorems.InactiveTokenWaitsForEnabling | src/auth/auth.service.ts:353-380 | such a token is refused and cleared by a refresh, but redeemable until it expires once the account is enabled before that |
| SessionTheorems.DisabledUserIsIssuedToken | src/auth/auth.service.ts:129-140 | a state in which a disabled user is issued a token |
| GenerationSpec.StepSimulates | src/auth/auth.service.ts:129-380 | on every call the one-cell code and the session-counting specification give the same answer and stay in step |
| GenerationSpec.RunSimulates | src/auth/auth.service.ts:129-380 | they stay in step over every run |
| GenerationSpec.CodeRefinesGenerations | src/auth/auth.service.ts:353-380 | from the empty system, after any run, a refresh succeeds if and only if the token is unexpired and is its user's latest session, still live, of an active user |
| SessionService.UsersService.ClearUserToken | src/users/users.service.ts:238-250 | the user has no stored hash afterwards; no other column or row changes |
| SessionService.UsersService.UpdateUserToken | src/users/users.service.ts:252-257 | the user's stored hash is replaced; no other column or row changes |
| SessionService.UsersService.UpdateUser | src/users/users.service.ts:259-299 | the in-place call is the update step: a password clears the hash, a status alone does not |
| SessionService.UsersService.UpdateUserStatus | src/users/users.service.ts:301-319 | the in-place call is the status step: a non-active status clears the hash, and one's own account cannot be switched off |
| SessionService.UsersService.ResetPassword | src/users/users.service.ts:321-332 | the in-place call sets the password and clears the hash |
| SessionService.UsersService.ChangePassword | src/users/users.service.ts:334-371 | the same only when the current password matches; otherwise nothing changes |
| SessionService.UsersService.RemoveByIds | src/users/users.service.ts:397-405 | refuses the caller's own id, otherwise removes exactly the named users |
| SessionService.AuthService.UpdateRtHash | src/auth/auth.service.ts:407-410 | stores the new token's hash for that user only |
| SessionService.AuthService.Register | src/auth/auth.service.ts:209-215 | the in-place call is the register step and keeps the token invariant |
| SessionService.AuthService.MiniprogramLogin | src/auth/auth.service.ts:129-140 | the in-place call is the mini-program step and keeps the token invariant |
| SessionService.AuthService.Login | src/auth/auth.service.ts:217-289 | the in-place call is the login step with its refusals and keeps the token invariant |
| SessionService.AuthService.Logout | src/auth/auth.service.ts:291-294 | the in-place call clears the user's session and keeps the token invariant |
| SessionService.AuthService.LogoutByRefreshToken | src/auth/auth.service.ts:296-322 | the in-place call ends the session only when the presented token is the stored one |
| SessionService.AuthService.RefreshToken | src/auth/auth.service.ts:353-380 | the in-place call rotates the stored token, or clears it on reuse or for an inactive user, and keeps the token invariant |
| SeedSteps.UpsertTakesNoSettledRow | prisma/seed.ts:993-1021 | a menu never takes over the row of a menu already written, when codes are unique and sibling paths differ |
| SeedSteps.GroupUpsertKeepsValid | prisma/seed.ts:993-1021 | an upsert keeps group codes unique and ids below the counter |
| SeedSteps.PermissionUpsertTakesNoSettledRow | prisma/seed.ts:1023-1054 | a permission never takes over the row of a permission already written |
| SeedRuns.WrittenConcat | prisma/seed.ts:975-991 | two consecutive parts of a run compose: what the first wrote the second keeps |
| SeedRuns.TreeWritten | prisma/seed.ts:975-991 | group row, permissions and children, written one after the other, make up the whole subtree with right parents, groups and ids |
| SeedRenames.RenamesExactly | prisma/seed.ts:993-1021 | an upsert changes some row's code if and only if no row carries the menu's code and one sits at its path and parent |
| SeedRenames.PermissionRenamesExactly | prisma/seed.ts:1023-1054 | the same for a permission with its action, path and group |
| SeedRenames.TakesOutside | prisma/seed.ts:993-1021 | what a later part of a run will take over can be told from the tables before the run, as long as no code has changed |
| SeedRenames.ForeseenConcat | prisma/seed.ts:975-991 | the condition for a change of codes composes over consecutive parts of a run |
| SeedRenames.NoRenameWhenPresent | prisma/seed.ts:993-1021 | when every code of the seed has its row, a run changes no code, whatever the tree |
| SeedService.LostCodeMoves | prisma/seed.ts:993-1021 | a row that loses a seed code gets another seed code, and the lost one then belongs to a row that did not have it |
| SeedService.MisplacedWouldRename | prisma/seed.ts:993-1021 | tables on which the condition for a change of codes holds |
| SeedService.SeedMisplaced | prisma/seed.ts:917-929 | the run on them: the second menu's row ends with the first menu's code, and a new row has the second's |
| SeedLoops.SettledGroupUnchanged | prisma/seed.ts:993-1021 | upserting a menu that is already there finds its own row and changes nothing |
| SeedService.Seeder.UpsertPermissionGroup | prisma/seed.ts:993-1021 | finds by code, then by path and parent, else creates; the row then carries the seed's data, the others are untouched |
| SeedService.Seeder.UpsertPermission | prisma/seed.ts:1023-1054 | finds by code, then by action, path and group, else creates; the row then carries the seed's data, the others are untouched |
| SeedLoops.AlreadySettledInTables | prisma/seed.ts:975-1054 | settled tables hold every menu of the tree and every permission of it, column by column, under the right parent and in the right group |
| SeedService.Seeder.UpsertPermissions | prisma/seed.ts:982-984 | the loop writes every permission into its own row of the group and lists their ids in order |
| SeedService.Seeder.UpsertMenus | prisma/seed.ts:927-929 | the loop over menus writes every subtree and lists all permission ids in order |
| SeedService.Seeder.UpsertMenuTree | prisma/seed.ts:975-991 | one call writes exactly the subtree of its menu, keeps everything written before, and changes nothing if the subtree is already there |
| SeedService.Seeder.SeedMenuTree | prisma/seed.ts:917-929 | from any valid tables: exactly one row per seed code with the seed's data and parent, every permission with all its columns in the group of its menu, one distinct id per seed permission in order, only rows found or created touched, and a row's code changed if and only if the starting tables say so |
| SeedService.Seeder.SeedTwice | prisma/seed.ts:917-929 | a second run changes nothing and returns the same ids |
| LegacyAliases.MergeRowEffect | prisma/seed.ts:1222-1234 | one merge removes the legacy row, gives its holders the target and changes no other permission's holders |
| LegacyAliases.NextAliasUntouched | prisma/seed.ts:1211-1236 | merges of earlier aliases neither remove nor feed the rows of a later one |
| LegacyAliases.PermissionStore.MigrateLegacyPermissionAliases | prisma/seed.ts:1211-1236 | a role holds a code afterwards if and only if the code was not merged away and the role held it or a legacy code merged into it; the merged rows are gone, all others keep id and code |
| LegacyAliases.ShippedAliasesOk | prisma/seed.ts:904-914 | the shipped list never uses a code both as legacy and as target, nor a legacy code twice |
| CodeBuilder.BuildCodeJoinsWords | src/menus/menus.service.ts:271-276 | for every path the code is the lower-cased path's runs of letters and digits joined by single dots |
| CodeBuilder.LowerAt | src/menus/menus.service.ts:271-276 | lower-casing moves the capital letters and keeps every other character |
| CodeBuilder.WordsOfLetters | src/menus/menus.service.ts:271-276 | the words of a path are non-empty and consist of small letters and digits |
| CodeBuilder.BuildCodeFixedExactly | src/permissiongroups/permissiongroups.service.ts:160-165 | a path is its own code if and only if it is well-formed, and building a code twice changes nothing |
| CodeBuilder.PermissionCodeJoinsWords | src/permissions/permissions.service.ts:213-218 | a permission code is the action's words followed by the path's, joined by single dots |
| Forest.BelowByChild | src/menus/menus.service.ts:254-268 | a menu's descendants are its children and theirs |
| Forest.SiblingsApart | src/menus/menus.service.ts:254-268 | subtrees of two children have nothing in common, so no id is collected twice |
| Forest.MoveKeepsAcyclicExactly | src/menus/menus.service.ts:180-200 | moving a row keeps the table acyclic if and only if the new parent is outside the row's subtree |
| Forest.InsertKeepsForest | src/menus/menus.service.ts:47-66 | a new row under an existing parent, or at the top, keeps the table a forest |
| Forest.RemovalKeepsForest | src/menus/menus.service.ts:227-233 | deleting rows with everything below them leaves no dangling parent and closes no cycle |
| MenuWalk.PreorderExact | src/menus/menus.service.ts:254-268 | the collected list holds exactly the strict descendants, each once |
| MenuWalk.SubtreesAreBlocks | src/menus/menus.service.ts:254-268 | every collected id is followed at once by all the ids below it: the list is in preorder |
| MenuWalk.ChildrenInRowOrder | src/menus/menus.service.ts:254-268 | siblings are collected in the order in which the database returns them |
| MenuWalk.WalkIsPreorder | src/menus/menus.service.ts:254-268 | the recursion comes back within as many levels as there are descendants, with that list |
| MenuWalk.WalkTerminatesExactly | src/menus/menus.service.ts:254-268 | the recursive walk comes back if and only if no cycle can be reached below the menu |
| MenuOperations.RemoveExact | src/menus/menus.service.ts:209-234 | remove succeeds if and only if the row exists and nothing in its subtree is system-managed or has permissions; it then deletes exactly the subtree |
| MenuOperations.RemoveErrorsExactly | src/menus/menus.service.ts:209-252 | when remove reports a missing row, a system-managed row, or a permission in the subtree |
| MenuOperations.FailedRemoveChangesExactly | src/menus/menus.service.ts:226-234 | a failing remove has changed the table if and only if the checks pass, there are descendants, none of them has permissions, and the row itself has |
| MenuOperations.RemoveManyExact | src/menus/menus.service.ts:203-207 | removeMenusByIds succeeds if and only if every id exists, none lies below or repeats an earlier one, and nothing in the subtrees is system-managed or has permissions; it then deletes exactly the union of the subtrees |
| MenuOperations.RemoveManyTouchesSubtrees | src/menus/menus.service.ts:203-234 | even when it stops halfway, removeMenusByIds deletes only rows of the named subtrees and changes no other row |
| MenuOperations.HangsAfterPrefix | src/menus/menus.service.ts:203-207 | a call that never comes back has completely removed some first ids and hangs in the walk below the next |
| MenuEffects.CreateExactly | src/menus/menus.service.ts:47-66 | when creating succeeds, every column of the new row with its defaults, and exactly the listed permissions moved to it |
| MenuEffects.UpdateExactly | src/menus/menus.service.ts:171-201 | when updating succeeds, when it meets a system-managed row or a taken code, every column of the row, its code renewed from a path given without a code, all other rows unchanged, and exactly the listed permissions moved |
| MenuProtection.StepKeepsValid | src/menus/menus.service.ts:47-207 | unique codes, existing parents and the row order survive every call |
| MenuProtection.StepProtects | src/permissiongroups/permissiongroups.service.ts:60-141 | no call, successful or failing, deletes or alters a system-managed row |
| MenuProtection.RunProtects | src/menus/menus.service.ts:171-252 | no run of create, update and remove by both services, on any table, deletes or alters a system-managed row |
| MenuProtection.HangProtects | src/menus/menus.service.ts:203-252 | nor does a call that never comes back |
| MenuProtection.UpdateAcyclicExactly | src/menus/menus.service.ts:171-201 | an update of an acyclic table closes a cycle if and only if it succeeds and names a parent inside the row's subtree |
| MenuProtection.StepAcyclicExactly | src/menus/menus.service.ts:47-234 | such an update is the only call that can close a cycle |
| MenuProtection.AcyclicOpReturns | src/menus/menus.service.ts:203-268 | on a forest every call comes back |
| MenuProtection.RunStaysForest | src/menus/menus.service.ts:47-234 | from a forest, a run in which no update moves a menu into its own subtree comes back call by call and ends in a forest |
| MenuProtection.UpdateCanCloseCycle | src/menus/menus.service.ts:180-200 | a concrete update that closes a cycle |
| MenuProtection.FailedRemoveCanLoseChildren | src/menus/menus.service.ts:226-234 | a table on which a failing remove deletes a child |
| MenusService.MenusService.GetChildMenuIds | src/menus/menus.service.ts:254-268 | the shared accumulator ends with the descendants in preorder after whatever it held before |
| MenusService.MenusService.DeleteMany | src/menus/menus.service.ts:227-229 | deletes all named rows or, when a permission still belongs to one of them, none |
| MenusService.MenusService.Remove | src/menus/menus.service.ts:209-234 | the in-place call is the remove step with its errors in order and keeps the tables valid |
| MenusService.MenusService.RemoveMenusByIds | src/menus/menus.service.ts:203-207 | the loop is the removal of the ids one after the other up to the first failure and keeps the tables valid |
| MenusService.MenusService.CheckParent | src/menus/menus.service.ts:49-53 | a parent that is named and not zero must exist |
| MenusService.MenusService.Create | src/menus/menus.service.ts:47-66 | the in-place call is the create step with its errors in order and keeps the tables valid |
| MenusService.MenusService.Merge | src/menus/menus.service.ts:180-200 | a path without a code renews the code; other columns change only when the body names them |
| MenusService.MenusService.Update | src/menus/menus.service.ts:171-201 | the in-place call is the update step with its errors in order and keeps the tables valid |
| MenuFilter.KeptExactly | src/menus/menus.service.ts:98-105 | a menu passes the filter if and only if its subtree contains a wanted id |
| MenuFilter.FilterKeepsOutline | src/menus/menus.service.ts:97-114 | as an indented list, the result is the original with exactly the other menus left out: depth, order, columns and all ancestors are kept |
| MenuFilter.FilterAbsorbs | src/menus/menus.service.ts:97-114 | filtering to more ids and then to fewer is filtering to the fewer at once |
| MenuFilter.FilterTwice | src/menus/menus.service.ts:97-114 | filtering twice is filtering once, and more ids keep at least as much |
| PermissionTree.ComparatorIsTotalOrder | src/permissions/permissions.service.ts:241-253 | the comparator is the total order on (action rank, id) |
| PermissionTree.ActionOrder | src/permissions/permissions.service.ts:233-253 | GET comes before POST before PUT and PATCH before DELETE before the rest, whatever the case, and then the id decides |
| PermissionTree.UpperAt | src/permissions/permissions.service.ts:245-246 | upper-casing moves the small letters and keeps every other character |
| PermissionTree.NodeColumns | src/permissions/permissions.service.ts:255-283 | the columns of a group's node and of a permission's leaf |
| PermissionTree.SortExact | src/permissions/permissions.service.ts:255-265 | sorting gives the same permissions in ascending order |
| PermissionTree.SortIsTheOnly | src/permissions/permissions.service.ts:255-265 | with unique keys no other arrangement is sorted, so the sorting algorithm does not matter |
| PermissionTree.ProjectionConserves | src/permissions/permissions.service.ts:255-283 | each permission of the group forest is shown by exactly one leaf per place, with all its columns, directly under its own group |
| PermissionTree.HierarchyConserved | src/permissions/permissions.service.ts:255-283 | each group becomes exactly one branch, with its name, under the branch of its own parent |
| PermissionTree.LeavesSortedEverywhere | src/permissions/permissions.service.ts:255-283 | under every branch the leaves come after the branches, ordered by (action rank, id) |
| PermissionTree.NodeKeysExact | src/permissions/permissions.service.ts:255-283 | every node key occurs exactly as often as the id it spells occurs in its table |
| PermissionTree.KeysDistinct | src/permissions/permissions.service.ts:255-283 | with ids unique per table all node keys are different |
| Redaction.RedactSensitiveObject | src/common/utils/sensitive-data.ts:37-62 | the recursion with its early returns computes the specified redaction |
| Redaction.RedactItems | src/common/utils/sensitive-data.ts:46-48 | arrays are redacted item by item, one level deeper |
| Redaction.RedactEntries | src/common/utils/sensitive-data.ts:54-61 | filling the copy key by key, in any order, gives the specified object |
| Redaction.RedactAbsorbs | src/common/utils/sensitive-data.ts:37-62 | redacting at one depth and then at another is redacting once at the deeper of the two, for all values |
| Redaction.RedactIdempotentAndCommuting | src/common/utils/sensitive-data.ts:37-62 | redaction is idempotent, and the order of two redactions does not matter |
| Redaction.WriteThenReadIsOneRedaction | src/common/interceptors/system-log.interceptor.ts:154-158 | redacting the headers and the query on write and the whole record on read is one redaction of the raw record, whichever keys were redacted first |
| Redaction.VisibleExactly | src/common/utils/sensitive-data.ts:37-62 | a leaf survives if and only if no key on its path is sensitive and it is not too deep |
| Redaction.PathsKeptExactly | src/common/utils/sensitive-data.ts:37-62 | a path leads somewhere in the result if and only if it did before, has no sensitive key before its end, no prototype property, and is not too long |
| Redaction.DeepValuesAreMarked | src/common/utils/sensitive-data.ts:42-44 | below the depth limit only the marker and original nulls are left |
| Redaction.SensitiveKeysAreMarked | src/common/utils/sensitive-data.ts:54-59 | wherever the result has a sensitive key, its value is the marker |
| Ordering.SortedUnique | src/dicts/dicts.service.ts:51-52 | ordering by (sort, id) leaves the database no choice of order |
| Paging.CeilDivExact | src/dicts/dicts.service.ts:62-67 | totalPages is the least number of pages with room for every row |
| Paging.PagesAreTheTable | src/dicts/dicts.service.ts:27-67 | pages 1 to totalPages, one after the other, are the whole table: no gap, no overlap |
| Paging.PageLengths | src/dicts/dicts.service.ts:49-55 | every page but the last is full, the last is not empty, every later one is empty |
| Paging.ServedExactly | src/dicts/dicts.service.ts:27-67 | which rows one answer holds, by position; without a page the first is served, without a page size twenty rows |
| Paging.OrderIsFixed | src/dicts/dicts.service.ts:51-54 | two queries answered from the same rows agree on the order, so pages fit together |

## Left out

- Controllers, guards, DTO validation, OpenAPI, i18n, logging, metrics and deployment.
- Prisma, Postgres, Redis, RabbitMQ, MinIO, SMS, e-mail and WeChat: of the database only unique columns, foreign keys and their delete rules are kept.
- Interleaving inside a call: every public call is one atomic step. Several calls read, check and write in separate statements, so concurrent calls can break what is proved here.
- Partial failure inside a call, except for the two deletes of a menu: the messages sent by create, cancel and decide are written after the transaction on the request tables, here they are part of the step.
- Cryptography: a refresh token verifies exactly when the service issued it and it has not expired, a stored bcrypt hash stands for the very string that was hashed (bcrypt looks at a limited number of bytes only), and a new jti was never used before.
- How a login finds its user: the row that the address, number or WeChat id leads to, and refusals because of uniqueness, captcha or missing roles, are parameters of the step.
- Access tokens, login logs and the role columns of a user in the session model; the role checks before a user update are a parameter.
- Deleting users is one step on the approval tables; that rows of other tables can forbid it is a parameter of the step.
- The message columns category, link and createdAt, the keyword, category and business-type filters of the message list, and the list over all users for administrators.
- ApprovalVisibility.ListedIsViewable: is about which requests a query may show; the order, the page and which of them a keyword matches are not modelled. The text search is any relation.
- User id 0 stands for "no user given" in the bulk updates of TODOs, as the code's truthiness test treats it; ids of real users are positive.
- The menu seed's own data is not transcribed: that its codes are unique and its places distinct is a precondition of the upsert.
- SeedService.Seeder.UpsertPermissionGroup: which row findFirst returns when several share path and parent is left open.
- The other parts of the seed: roles and their permissions, dictionaries, configuration, the admin account, hiding legacy menus.
- Moving permissions between groups by connecting them: it is modelled, but system-managed permissions are not protected from it, and the protection theorem is about group rows only. The guards of the permission update and delete calls would only add easy members.
- Loading menus: the three levels that findAll loads and the visibility filter of the navigation.
- MenuOperations.RemoveExact: assumes that the walk comes back; `MenuWalk.WalkTerminatesExactly` says exactly when it does.
- MenuOperations.RemoveManyExact: assumes that every walk the call starts comes back; `MenuOperations.HangsAfterPrefix` says what has happened otherwise.
- MenuWalk.WalkTerminatesExactly: termination of the code's recursion is stated about the same recursion cut off at a depth.
- The permission-group service's methods: they run the same code as the menu service's on the same table, so both are modelled by one class; its create and update can also connect permissions, which the model's bodies can always carry.
- Letter case outside ASCII in building codes and in comparing actions.
- JavaScript's sort, taken as a stable insertion sort; with unique ids the result does not depend on this.
- The order of the keys of a redacted object, values that are not JSON (dates, class instances), the list of sensitive key patterns (any predicate on keys here), and redaction of texts and URLs.
- Filters and the item lists of the dictionary listing, and its other calls.
- Ids are unbounded numbers, and autoincrement counters are above every id in use.
