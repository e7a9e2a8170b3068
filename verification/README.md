# DockerView: verified core

DockerView is a control plane for one Docker host: a Server that authenticates users, stores roles,
policies, sessions and audit events in SQLite and talks to a Gateway, which alone may reach Docker.
This project models the parts on which its promises rest and proves those promises for every input
and every run.

- **Store** (`Database`, `Meanings`, `StoreRuns`, `Store`, `Authentication`, `LoginRaces`): the tables, each
  transaction as an all-or-nothing effect on them, what each effect means row by row, the class whose methods
  carry the transactions out statement by statement, and every run of any mix of callers. SaveRole writes
  outside its transaction, so it is several steps.
- **Policies** (`Policies`, `PolicyMeanings`, `PolicyStorage`, `Listings`): evaluation against a definition
  without order and against the rules as they are written, and what storing, reloading and deleting a role do
  to decisions. `path.Match` is an arbitrary function.
- **Rate limits** (`LoginThrottle`, `ConcurrentLogins`, `Limiter`, with `Counting`): both tables as
  classes, and numeric bounds over arbitrary traces. Instants are integer nanoseconds, Go's zero time is
  `None`.
- **Inspect documents** (`Secrets`, `Masking`, `InPlace`, `Risk`, `Inspect`): masking in place on the heap against
  a function on documents, risk scoring, and how the two layers read the immutable labels.
- **Terminals** (`Tickets`, `Bridge`, `Terminal`, `Authorisation`, `Handover`, `Reopening`): tickets, the
  goroutines of one attached terminal, and the whole request protocol as a state machine in which every
  query, Gateway call and write is one step and administrators, other users and Docker act in between;
  then what had been checked before every command, that an attach gets the exec of its own request, and
  when an ended terminal can be opened again.
- **Texts** (`Timestamps`, `Calendar`, `Password`, `Base64`, with `Digits`) and **audit retention** (`Audit`).

Generated ids and tokens, hashes, clock readings, the outcome of credential checks, Docker's answers
and the row order of queries are parameters. Argon2id and `fmt.Sprint` are arbitrary functions.

`{:induction false}` marks every lemma to which Dafny would otherwise add an induction hypothesis of its
own; no proof relies on one.

## Where the code does less than one might expect

- `docs/terminal.md:7` says that a closed terminal session cannot be reopened. The writes of the status
  are unconditional, so with two attaches of one row in flight the 'attached' write of one undoes the
  'ended' write of the other: `Reopening.TwoAttachesReopen` builds such runs and
  `Reopening.ReopenableExactly` gives the exact condition on an ended row; `Reopening.EndedRowsStayClosed`
  says that one attach at a time is safe.
- A password change revokes the sessions there are. A login that has passed its credential check but not
  yet inserted its session is not among them: `LoginRaces.OldPasswordSurvives` builds such runs,
  `LoginRaces.SessionsAfterChange` says that there is no other way.
- Expiry is decided by comparing RFC3339Nano texts, which drop trailing zeros. `Timestamps.TextOrder`
  gives the exact condition under which that is time order, `Timestamps.WholeSecondExpiryIsLate` a whole
  family for which it is not.
- The Gateway treats a document with any label that is not a text as unlabelled
  (`Inspect.LayersDisagree`); the Server does not.

## Model

| member | source | states |
|---|---|---|
| `Store.Store.Seed` | backend/internal/database/database.go:116-158 | one transaction: permissions upserted, roles and their permissions inserted unless the id or name is taken; any failure leaves the tables untouched; all constraints kept |
| `Store.Store.SeedRoleStep` | backend/internal/database/database.go:135-150 | fails exactly when a permission listed is unknown, or there is any and the role does not exist because its name is taken; otherwise the role is there, a builtin if it is new, holds in addition the listed permissions, and nothing else changes |
| `Meanings.SeededStore` | backend/internal/database/database.go:116-158 | in a fresh store the viewer may read, the developer may also open terminals and the administrator may do everything, permission by permission |
| `Store.Store.CreateUser` | backend/internal/database/database.go:165-196 | succeeds exactly for a valid name that no user bears in any case, a hashable password, an unused id and a role list each entry of which names a role and no two the same; then the new row has this name, hash and enabled flag, the user holds exactly the named roles, and every other row stays; all constraints kept |
| `Store.AssignRoles` | backend/internal/database/database.go:183-191 | the loop of INSERT ... SELECT statements succeeds exactly when every entry names a role, no role is meant twice and none is held already, and then adds exactly the named roles |
| `Store.Store.BootstrapAdmin` | backend/internal/database/database.go:197-226 | on a valid store it succeeds exactly for an acceptable name and password on an empty user table; then the one row has this name and hash and is enabled, it holds `role-admin`, and it is the only enabled administrator; all constraints kept |
| `Store.Store.UpdateUser` | backend/internal/database/database.go:307-364 | refused exactly when the only enabled holder of `role-admin` would be disabled or given a list without the administrator role; otherwise succeeds exactly with a hashable password and an assignable list; then flag, hash and roles are the given ones or as before, all sessions of that user are revoked exactly if the password changed, and no other row changes; nothing changes unless it commits; all constraints and an enabled administrator kept |
| `Store.Store.ScanForAdmin` | backend/internal/database/database.go:317-322 | finds the administrator role exactly when no list is given or an entry is `role-admin` or the word admin in any case |
| `Store.Store.RecoverPassword` | backend/internal/database/database.go:369-407 | an enabled user bears the name in any case; then its row has the new hash, all its sessions are revoked and one audit row is added, and nothing else changes; refused for an unknown or disabled user |
| `Store.Store.ActiveAdminCount` | backend/internal/database/database.go:408-412 | the number of enabled users who hold a role named admin in any case; in a valid store this equals the count by role id that the guard of UpdateUser uses |
| `Store.Store.CreateSession` | backend/internal/database/database.go:414-426 | succeeds exactly for an unused token of an existing user; the new row has this user, CSRF hash and expiry, unrevoked; the token resolves at exactly the instants before its expiry while the user is enabled; every other token resolves as before; all constraints kept |
| `Store.Store.ResolveSession` | backend/internal/database/database.go:427-441 | three statements with other callers in between: answers exactly when the session row is live in the first state and its user enabled in the second, with the account of the second and the roles of the third |
| `Store.Store.RevokeSession` | backend/internal/database/database.go:442-445 | only that row is marked revoked: that token resolves at no instant any more, every other one as before; all constraints kept |
| `Store.Store.RevokeUserSessions` | backend/internal/database/database.go:446-449 | exactly the rows of that user are marked revoked: none of its tokens resolves at any instant any more, those of everybody else as before; all constraints kept |
| `Store.Store.GetUser` | backend/internal/database/database.go:245-275 | for any order of the join rows: index-aligned role names and ids of exactly the assigned roles, and the duplicate-free union of their permissions |
| `Store.Deduplicate` | backend/internal/database/database.go:256-273 | the loop over join rows keeps each role name once with an id it occurs with, and each permission once |
| `Store.JoinDescribes` | backend/internal/database/database.go:245-275 | deduplicating by name is sound because role names are unique: the record describes the user exactly |
| `Store.SameRecord` | backend/internal/database/database.go:245-275 | any two row orders give the same roles, ids and permissions |
| `Store.Store.SaveRole` | backend/internal/database/database.go:495-532 | the name write goes through exactly for a name with text of at most 64 bytes that no other role bears in any case, on a new role or an existing one that is not builtin under another name; then the role has this name and the description cut to 500 bytes, and its permissions are replaced as SetPermissions says, or stay as they were while the name write remains; a failure before it changes nothing; all constraints and an enabled administrator kept in either case |
| `Store.Store.SetPermissions` | backend/internal/database/database.go:518-531 | succeeds exactly when every entry is known, none is listed twice and the role exists if any is listed; then the role holds a permission if and only if it is listed, every other role holds what it held, and no other table changes; otherwise nothing changes |
| `Store.Store.DeleteRole` | backend/internal/database/database.go:533-541 | succeeds exactly for existing custom roles; then nothing refers to the role any more and whatever did not refer to it is as before; all constraints and an enabled administrator kept |
| `Store.Store.SavePolicy` | backend/internal/database/database.go:608-647 | succeeds exactly for a name with text of at most 100 bytes that no other policy bears and rules each of which is well formed, refers to existing rows and has an unused id; then the policy row has the submitted name, flag and cut description, its rules are exactly the submitted ones, field by field, with their place as priority, and every other policy and rule stays; otherwise nothing changes |
| `Store.Store.InsertRules` | backend/internal/database/database.go:625-645 | the insertion loop succeeds exactly when every rule is well formed, refers to existing rows and has an unused id |
| `Store.Store.DeletePolicy` | backend/internal/database/database.go:648-651 | nothing of that policy is left, every other policy keeps exactly its rules; all constraints kept |
| `Store.Store.CreateTerminal` | backend/internal/database/database.go:737-743 | succeeds exactly for an unused id of an existing user; the new row has the given owner, container, shell and expiry and is created; it is open at exactly the instants before its expiry and for its owner alone; every other row as before; all constraints kept |
| `Store.Store.GetTerminal` | backend/internal/database/database.go:744-748 | finds the row exactly when it belongs to the user, is not ended and is unexpired as text |
| `Store.Store.TouchTerminal` | backend/internal/database/database.go:749-753 | only the status of that row changes: an ended row is open for nobody at any instant, any other status leaves owner and expiry to decide; every other row as before; all constraints kept |
| `StoreRuns.FreshStoreIsValid` | backend/internal/database/database.go:88-158 | seeding empty tables succeeds and satisfies every schema constraint |
| `StoreRuns.RunKeepsInv` | backend/internal/database/database.go:70-86 | in every state of every run, with SaveRole as separate interleaved steps: primary and foreign keys, names unique without regard to case, builtin roles under their seeded names, distinct priorities per policy |
| `StoreRuns.SavePolicyKeepsValid` | backend/internal/database/database.go:608-647 | a committed SavePolicy keeps all constraints |
| `StoreRuns.WriteRoleKeeps` | backend/internal/database/database.go:505-517 | the late write of an earlier passed check cannot rename a builtin role |
| `StoreRuns.DeleteRoleKeeps` | backend/internal/database/database.go:533-541 | the cascade keeps all constraints and every builtin role |
| `StoreRuns.KeepsAdminExactly` | backend/internal/database/database.go:317-323 | the text test of the guard holds if and only if the roles about to be inserted contain the administrator role |
| `StoreRuns.AdminCountsAgree` | backend/internal/database/database.go:323-331 | the count by role name and the count by role id are of the same users |
| `StoreRuns.UpdateUserKeepsAdmin` | backend/internal/database/database.go:307-364 | a committed UpdateUser leaves an enabled administrator if there was one |
| `StoreRuns.AdminSurvives` | backend/internal/database/database.go:307-412 | once an enabled administrator exists, every later state of every run has one |
| `StoreRuns.RevokedForever` | backend/internal/database/database.go:427-449 | a revoked session never resolves again in any continuation, and no continuation moves its expiry |
| `StoreRuns.PasswordChangeEndsSessions` | backend/internal/database/database.go:337-348 | after a successful password change or recovery no token created earlier for that user ever resolves |
| `LoginRaces.SessionsAfterChange` | backend/internal/api/server.go:238-261 | in every interleaving of logins and store steps, a session that resolves for a user after a password change was opened later, by a login whose credentials were good after the change or which was already in flight, past its credential check, when the password changed |
| `LoginRaces.OldPasswordSurvives` | backend/internal/api/server.go:238-261 | wherever credentials are good, such a login survives the change: checked before it, its session opened after it resolves until its expiry |
| `StoreRuns.SessionLifetime` | backend/internal/database/database.go:414-441 | in real time and over every continuation: never resolved a second or more after expiry; with a second or more left, resolved exactly while unrevoked and the user enabled |
| `StoreRuns.BootstrapOnlyOnce` | backend/internal/database/database.go:197-226 | once any user exists, bootstrapping fails in every later state |
| `Authentication.Authenticate` | backend/internal/database/database.go:227-244 | accepts exactly the credentials of an enabled user whose name is the given one in any case and whose record verifies the password |
| `Authentication.RecoveryTakesEffect` | backend/internal/database/database.go:369-407 | after a recovery the user signs in with exactly the passwords that derive the same key as the new one; everybody else signs in as before |
| `Policies.Evaluate` | backend/internal/policies/policies.go:25-67 | the nested loops decide as the rules are written: denied with the reason of the first blocking branch if a labelled container is to be entered or restarted, if an enabled policy has a deny rule for the action whose subject is empty or one of the role names or ids of the caller and whose label value (a missing label read as empty) or name pattern without a slash matches, or if the permission is missing; allowed in every other case; a denial by policy names the first policy in the list that denies |
| `Policies.ScanRules` | backend/internal/policies/policies.go:41-59 | the inner loop stops at the first applicable deny and otherwise reports whether an allow applied |
| `Policies.Allowed` | backend/internal/rbac/rbac.go:5-12 | the scan finds a permission exactly when the user has it |
| `Policies.DenyOverrides` | backend/internal/policies/policies.go:25-67 | allowed if and only if no immutable label blocks the action, the user has the permission, and no enabled applicable rule denies |
| `Policies.PolicyOrderIrrelevant` | backend/internal/policies/policies.go:25-67 | permuting the policies never changes the verdict |
| `Policies.RuleOrderIrrelevant` | backend/internal/policies/policies.go:41-59 | permuting the rules inside policies never changes the decision, reason included |
| `Policies.MeaningDecides` | backend/internal/policies/policies.go:41-80 | the decision depends on the rules of a policy only as an unordered collection |
| `Policies.AllowsNeverGrant` | backend/internal/policies/policies.go:52-66 | removing every allow rule never changes the verdict |
| `PolicyStorage.ListPolicies` | backend/internal/database/database.go:563-607 | the two loops return a listing: every policy once, by name, each with exactly its rules by falling priority |
| `PolicyStorage.SavedPolicyReversed` | backend/internal/database/database.go:563-647 | after SavePolicy every listing shows that policy exactly once, with its stored rules in exactly reversed order |
| `PolicyStorage.OtherPoliciesUnchanged` | backend/internal/database/database.go:563-647 | any other policy is listed after the save if and only if it was listed before, with the same rules in the same order |
| `PolicyStorage.ReloadedDecides` | backend/internal/database/database.go:563-647 | if no rule that matches by label has a key of more than 128 bytes, evaluation on the reloaded policies equals evaluation on the submitted ones for every user, action and resource |
| `PolicyStorage.TruncationInvisible` | backend/internal/database/database.go:641 | cutting the match key to 128 bytes is invisible to every resource if and only if the rule does not match by label or its key fits |
| `Listings.ReloadMatters` | backend/internal/database/database.go:608-647 | for every matcher, a policy that is alone in its store and whose single rule matches by a label key of more than 128 bytes decides differently after reloading for some user and container |
| `Listings.ListingExists` | backend/internal/database/database.go:563-607 | every valid store has a listing |
| `PolicyStorage.ListingsAlign` | backend/internal/database/database.go:564-581 | two listings of the same policies have the same policies in the same places |
| `PolicyStorage.DeleteRoleDecides` | backend/internal/database/database.go:533-541 | deleting a custom role changes no decision for a user who did not hold it, although rules naming it are deleted, provided no role of that user has that id as its name |
| `PolicyStorage.CascadeMatters` | backend/internal/database/database.go:533-541 | on every valid store, for every matcher and container: if that proviso fails for a user who is allowed something, a policy can be saved that denies it in every listing until the role is deleted, and after the deletion the user is allowed it again in every listing |
| `LoginThrottle.Throttle.Blocked` | backend/internal/api/ratelimit.go:41-57 | while blocked: the time left, and nothing changes; otherwise 0, the count of failures stays, and the key is open; other keys are untouched |
| `LoginThrottle.Throttle.Failed` | backend/internal/api/ratelimit.go:58-82 | while blocked: the time left, and nothing changes; on an open key one more failure is recorded and answered 0 below the maximum, and the one that reaches it is answered the whole cooldown and blocks the key exactly until it is over; then pruned |
| `LoginThrottle.AnswersInARow` | backend/internal/api/ratelimit.go:58-82 | along any run in which a key is neither cleared nor pruned, its first max-1 failures are answered 0 and the next one the whole cooldown, whatever other keys do |
| `LoginThrottle.Throttle.Prune` | backend/internal/api/ratelimit.go:89-98 | in any key order removes exactly the entries neither blocked nor seen in the last ten minutes, and only above 10000 keys |
| `LoginThrottle.Throttle.Clear` | backend/internal/api/ratelimit.go:83-88 | the key is open at every instant, its next failure is the first of a new count, every other key is as before |
| `LoginThrottle.Throttle.Login` | backend/internal/api/server.go:227-259 | one login: refused exactly while blocked, otherwise accepted exactly on good credentials, which clears the key, and counted as a failure on bad ones; waiting out the announced seconds always passes the block |
| `LoginThrottle.RetrySeconds` | backend/internal/api/server.go:254-256 | the least number of whole seconds that covers the wait |
| `LoginThrottle.ZeroAnswersBounded` | backend/internal/api/ratelimit.go:58-98 | under every interleaving of the locked calls of all keys, without success, `failed` answers 0 at most (max-1)*(T/cooldown+1) times in any span T |
| `LoginThrottle.SequentialFailuresAreOpen` | backend/internal/api/server.go:233-248 | with logins of a key one at a time, every recorded failure found the key open |
| `LoginThrottle.RejectedLoginsBounded` | backend/internal/api/server.go:227-252 | logins of a key one at a time see at most max*(T/cooldown+1) rejected credential checks in any span T, although pruning may forget the counter |
| `ConcurrentLogins.ConcurrentLoginsBounded` | backend/internal/api/server.go:233-248 | with at most c logins of a key in flight, at most max*(T/cooldown+1) + (c-1)*(T/cooldown+2) credential checks are rejected in any span T |
| `ConcurrentLogins.RunKnows` | backend/internal/api/server.go:233-248 | a block is answered by at most c-1 failures of logins that were let in before it began |
| `Limiter.Window.Allow` | backend/internal/api/ratelimit.go:99-117 | one more call in an open window, or the first of a window of full length; allowed exactly up to the maximum; eviction in any key order removes exactly the closed windows, and only above 10000 keys |
| `Limiter.FirstCallsAllowed` | backend/internal/api/ratelimit.go:99-117 | after any run, a key with fewer than max calls so far is allowed, whatever other keys did and whatever was evicted |
| `Limiter.EvictionIsInvisible` | backend/internal/api/ratelimit.go:109-115 | every call of every run gets the answer of the limiter that never evicts |
| `Limiter.AllowedBounded` | backend/internal/api/ratelimit.go:99-117 | at most max*(ceil(T/window)+1) allowed calls per key in any closed span T, at most 2*max in one window |
| `Secrets.SensitiveKey` | backend/internal/security/security.go:82-95 | a key is sensitive exactly when its upper-case form is DATABASE_URL, REDIS_URL or one of the nine words PASSWORD, PASS, SECRET, TOKEN, PRIVATE, CREDENTIAL, AUTH, API_KEY, ACCESS_KEY, begins with such a word and an underscore, or contains an underscore and such a word |
| `Secrets.PlainKey` | backend/internal/security/security.go:82-95 | a key without underscore carries a secret only if its upper-case form is one of the fragments |
| `Secrets.MaskEnv` | backend/internal/security/security.go:97-108 | masks each item on its own; reveals everything on request |
| `Secrets.ItemMeans` | backend/internal/security/security.go:97-108 | an item KEY=value keeps its key, and its value becomes eight stars exactly when the key names such a word |
| `Secrets.MaskItemCanonical` | backend/internal/security/security.go:97-108 | masked items are equal if and only if the items differ in nothing but the value of a sensitive key |
| `InPlace.MaskInspect` | backend/internal/api/server.go:502-528 | rewriting maps and arrays in place turns the document below the value into its masked form and touches nothing outside it |
| `InPlace.MaskTable` | backend/internal/api/server.go:504-521 | the same for one map, its entries visited in any order |
| `InPlace.MaskEntry` | backend/internal/api/server.go:505-520 | one entry: overwritten, masked item by item, or masked recursively; the other entries stay |
| `InPlace.MaskEnvItems` | backend/internal/api/server.go:509-517 | masks the texts of an Env array in place and leaves its other items |
| `InPlace.MaskList` | backend/internal/api/server.go:522-526 | masks every element below an array |
| `Masking.MaskCanonical` | backend/internal/api/server.go:502-528 | masked documents are equal if and only if the originals agree everywhere except under sensitive keys outside Env and in the values of sensitive Env items |
| `Masking.MaskIdempotent` | backend/internal/api/server.go:502-528 | a masked document agrees with its original, and masking it again changes nothing |
| `Masking.FieldMeans` | backend/internal/api/server.go:502-521 | a field whose key names such a word becomes eight stars, the texts of an Env array are masked item by item, and every other field is masked as a document of its own |
| `Masking.ElementsMean` | backend/internal/api/server.go:522-528 | an array keeps its length and each element is masked; anything else is shown |
| `Masking.OpenPathsVisible` | backend/internal/api/server.go:502-528 | along a path without sensitive keys and outside Env, masking commutes with looking |
| `Risk.AssessRisk` | backend/internal/docker/risk.go:24-66 | the branch-by-branch accumulation gives 100 points for privileged, 80 for a system container, 60, 35 and 35 for a host PID, network and IPC namespace, 60 for devices, and per mount 100 for docker.sock in any case in source or destination, else 70 for a host directory bound; Critical from 100, High from 60, Medium from 25; a finding is listed exactly when its condition holds |
| `Risk.CriticalWhateverElse` | backend/internal/docker/risk.go:27-55 | a privileged container and one with a docker.sock mount are Critical whatever else holds |
| `Risk.EachAlone` | backend/internal/docker/risk.go:24-66 | the score and level of each single elevation |
| `Risk.MoreIsNoLess` | backend/internal/docker/risk.go:24-66 | further elevations, mounts or devices never lower score or level |
| `Risk.LowMeansNothingFound` | backend/internal/docker/risk.go:24-66 | the level is low if and only if nothing was found |
| `Risk.RiskFromInspect` | backend/internal/api/server.go:480-501 | assesses exactly the fields Privileged, PidMode, NetworkMode, IpcMode and Devices of HostConfig and the objects of Mounts, each empty when absent or of another type |
| `Risk.RiskCommutesWithMasking` | backend/internal/api/server.go:446-501 | the masked inspect view and the unmasked risk view report the same assessment for every document |
| `Inspect.InspectResource` | backend/internal/api/server.go:385-415 | the name without its slash, the labels of Config that are texts, in any order, and the two immutable labels, each exactly when its text is the word true in any case |
| `Inspect.GatewayMeans` | backend/internal/gateway/service.go:145-156 | the Gateway sees an immutable label exactly when every part of the path is an object, every label a text, null or absent counting as empty, and that label is the word true in any case |
| `Inspect.LayersAgree` | backend/internal/gateway/service.go:145-156 | Server and Gateway see the same immutable labels if and only if the document decodes for the Gateway or the Server sees none |
| `Inspect.LayersDisagree` | backend/internal/gateway/service.go:145-152 | one label that is not a text hides the system label from the Gateway while the Server sees it |
| `Tickets.Handler.CleanupTickets` | backend/internal/gateway/handler.go:312-318 | in any order removes exactly the used and expired tickets |
| `Tickets.Handler.Issue` | backend/internal/gateway/handler.go:227-231 | removes exactly the used and expired tickets and stores one for this exec and container that is valid for 30 seconds |
| `Tickets.Handler.Attach` | backend/internal/gateway/handler.go:234-248 | gives the ticket exactly when it is present, unused and unexpired, and marks it used |
| `Tickets.CleanupIsInvisible` | backend/internal/gateway/handler.go:227-318 | every attach of every run is answered as by a table that never deletes |
| `Tickets.TicketsSingleUse` | backend/internal/gateway/handler.go:227-248 | a successful attach follows the creation of its ticket by at most 30 seconds and gets that exec; no other attach with that token ever succeeds |
| `Tickets.FirstAttachSucceeds` | backend/internal/gateway/handler.go:227-248 | the first attach with a ticket within 30 seconds of its creation succeeds and gets that exec |
| `Bridge.SendsNeverBlock` | backend/internal/api/server.go:684-740 | in every interleaving no send on `done` ever blocks if and only if the channel holds three |
| `Bridge.EndsExactlyOnce` | backend/internal/api/server.go:740-744 | at the end of every complete interleaving the row was written as ended and audited exactly once, and every goroutine is gone |
| `Bridge.InterleavingsEnd` | backend/internal/api/server.go:684-744 | every interleaving has at most ten steps |
| `Bridge.CanComplete` | backend/internal/api/server.go:684-744 | every interleaving can be completed |
| `Bridge.EndsAtMostOnce` | backend/internal/api/server.go:740-744 | at every moment the two final writes have happened at most once, after a send, as far as the handler has come, which can always move on after the first send |
| `Bridge.OthersDoNotInterfere` | backend/internal/api/server.go:684-744 | no other goroutine moves the handler or disables its next step |
| `Bridge.NobodyLeaks` | backend/internal/api/server.go:684-744 | pending sends go through, the watchdog can leave once the handler returned, and before the first send every goroutine can still send |
| `Authorisation.CommandsAuthorised` | backend/internal/api/server.go:643-667 | in every interleaving of requests, store edits and Docker changes, every exec and restart was sent by a step of a request that had begun and then made, by steps of its own and in this order, these checks, each true in the state it was made in: a live session with its CSRF token, an enabled user, the permission through a role, an open row of that user for that container, no immutable label on the Server, no matching deny in any enabled policy, the decision, no immutable label on the Gateway; with an approved shell |
| `Authorisation.RunIsBacked` | backend/internal/api/server.go:416-444 | in every state every request in flight made each check it is past by a step of its own after it began, and every command was sent by such a request |
| `Authorisation.OnlyEarlierRequestsAct` | backend/internal/api/server.go:268-282 | a command for a session that is revoked in some state comes from a request that began and read its session row before that state; a request begun later never sends one |
| `Authorisation.BeginOnce` | backend/internal/api/server.go:268-282 | a request begins once, so the steps of a command are those of one request |
| `Handover.AttachesOwnExecOnce` | backend/internal/gateway/handler.go:196-248 | across both layers: every successful dial attaches the exec that the same request created, with all eight checks behind it, at most 30 seconds before, and no other dial of any request ever succeeds with that ticket |
| `Handover.TableIsRun` | backend/internal/gateway/handler.go:227-248 | the ticket table of the protocol is the one whose own runs are studied |
| `Reopening.EndedForever` | backend/internal/api/server.go:653-743 | an ended row that no request may still attach stays ended, and no user ever gets it again |
| `Reopening.EndedRowsStayClosed` | backend/internal/database/database.go:744-753 | with one attach in flight at a time, an ended row is never returned again |
| `Reopening.ReopenableExactly` | backend/internal/api/server.go:643-743 | for every run that ends with the row ended, some continuation leads to a state in which its owner finds it again at every instant before its expiry, if and only if some request in flight read it before and may still attach it, as told by its locals: a valid ticket when dialling, an accepted shell before the Gateway, and before the decision the permission, a container without immutable label and no deny among the rules read |
| `Reopening.TwoAttachesReopen` | backend/internal/api/server.go:662-743 | from any state of any run that would let an attach through, whatever else is in flight and whatever policies there are, two attaches can interleave so that the row ends and is open again for the same user |
| `Reopening.SomewhereLetsIn` | backend/internal/api/server.go:643-680 | such a state exists |
| `Reopening.TerminalLifetime` | backend/internal/database/database.go:737-748 | in real time and over every run: a row is found only by its owner, never a second or more after expiry, and with a second or more left exactly until it is ended |
| `Timestamps.TextOrder` | backend/internal/database/database.go:114 | for instants of the years 0 to 9999, text order is time order if and only if the fractions of one second are not nested prefixes; different seconds always compare correctly |
| `Calendar.FormatOf` | backend/internal/database/database.go:114 | the text of every date and time of the years 0 to 9999: four, two, two, two, two and two digits with their separators, then a point and the fraction without trailing zeros if there is one, then Z; dates by the leap-year rule in closed form |
| `Calendar.InstantIsSome` | backend/internal/database/database.go:114 | every instant of those years is that of a date and time |
| `Timestamps.EqualWidthsExact` | backend/internal/database/database.go:114 | with fractions of equal width the comparison is exact, as section 5.1 of RFC 3339 says |
| `Timestamps.ExpiryWithinASecond` | backend/internal/database/database.go:427-430 | the expiry test errs by less than a second in either direction |
| `Timestamps.WholeSecondExpiryIsLate` | backend/internal/database/database.go:744-746 | every whole-second expiry is still accepted throughout the second after it |
| `Audit.Log.Audit` | backend/internal/database/database.go:701-714 | inserts the event and keeps the 100000 newest rows as they are, ties as the engine likes; refused exactly for a used id |
| `Audit.Log.ListAudit` | backend/internal/database/database.go:715-736 | exactly the first rows of the newest-first order, as many as requested up to 1000 and 200 by default |
| `Audit.NewestRetained` | backend/internal/database/database.go:701-714 | after every pruning the table holds the newest of all events ever inserted, as many as allowed, and nothing dropped is newer than anything kept, with unpruned inserts in between |
| `Audit.NothingLost` | backend/internal/database/database.go:400-402 | kept and dropped events together are exactly the inserted ones |
| `Base64.RoundTrip` | backend/internal/security/security.go:53-75 | decoding the unpadded base64 of any bytes gives the bytes back |
| `Base64.EncodeMeans` | backend/internal/security/security.go:53-54 | character number k is the letter of the standard alphabet for bits 6k to 6k+5 of the bytes, zeros past the end, without padding, as section 4 of RFC 4648 defines |
| `Password.ParamsRoundTrip` | backend/internal/security/security.go:51-68 | the scanned cost parameters are the printed ones |
| `Password.SplitJoin` | backend/internal/security/security.go:61-64 | splitting at the separator undoes joining |
| `Password.RecordRoundTrip` | backend/internal/security/security.go:40-76 | parsing a printed record gives its parameters, salt and key back |
| `Password.HashText` | backend/internal/security/security.go:40-55 | passwords of 6 to 1024 bytes and no others are hashed, into `$argon2id$v=19$m=65536,t=3,p=2$`, the salt, and the key derived with these parameters |
| `Password.VerifyMeans` | backend/internal/security/security.go:57-80 | a well-formed record accepts a password exactly when that has at most 1024 bytes, memory, iterations and parallelism are at most 262144, 10 and 8, and it derives the stored key |
| `Password.VerifyHashed` | backend/internal/security/security.go:40-80 | for every accepted password and salt the record accepts exactly the passwords that derive the same key, the original among them |

## Left out

- HTTP routing, cookies, headers, origin checks, WebSocket framing, streaming and the Gateway client: plumbing around the modelled decisions.
- SQLite itself: statement semantics, constraints, cascades and serialized transactions are taken as given; write-ahead logging, busy timeouts and file permissions are not modelled.
- The Moby client: Docker answers inspect with a document and records commands; shell probing is any number of further execs after the same Gateway checks.
- Columns that no modelled decision reads: creation, update and activity times, source addresses, user agents, permission categories, event details and the constant host/local scope.
- ListUsers, ListRoles, ListPermissions, settings, container lists, logs, statistics and the single-branch validators: they would only add easy members.
- createTerminal's own checks: rows may appear at any time for any user, so the terminal results do not rely on them.
- The clock readings of one ticket cleanup inside the terminal protocol are taken at one instant; that separate readings make no difference is Tickets.CleanupIsInvisible.
- The watchdog's re-authorisation every five seconds: in Bridge it may give up at any time.
- JSON details: field names that differ in case only, duplicate fields and number formats; Sscanf's leading blanks; white space beyond ASCII in blank names.
- Timings of channel and socket closing; the Bridge results are about complete interleavings and do not say how long a connection stays open.
- Texts are byte strings in the store and sequences of code points in documents; conversion between them is not modelled.
- Authorisation.CommandsAuthorised: the Gateway part speaks only of documents whose labels are all texts, because the Gateway ignores the labels of any other document.
- Reopening.EndedRowsStayClosed: needs one attach in flight at a time, because without it the property is false.
- Timestamps.ExpiryWithinASecond: allows less than a second of error, because the compared texts drop trailing zeros.
- Store.Store.SaveRole: does not promise that a failed call changes nothing, because its name write precedes the transaction.
- LoginThrottle.RejectedLoginsBounded: assumes a cooldown of at most the ten-minute prune age, as the Server's 20 seconds are (backend/internal/api/server.go:48), and logins one at a time; ConcurrentLogins.ConcurrentLoginsBounded drops the latter.
- PolicyStorage.ReloadedDecides: assumes match keys of at most 128 bytes in rules that match by label, because longer ones are cut when stored.
- PolicyStorage.DeleteRoleDecides: assumes that no role of the user has the deleted id as its name, because rules match a role by id or by name.
