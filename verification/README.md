# TaskFlow server: a Dafny model of the authorization-scoped data layer

TaskFlow is a multi-user task tracker. Users own groups, groups contain
members, and members own tasks. Its Express server (`server.js`) keeps
four SQLite tables: `users`, `groups`, `members` and `tasks`. It serves
twelve JSON routes. Every protected route reads the caller's user id from
a verified JWT. Every query then re-derives ownership with a join along
the chain user → group → member → task.

This project models that layer as a pure state machine:

- `Tables` is an autoincrement table. It holds rows keyed by id plus the
  largest id ever handed out, so ids are never reused. `Listing` returns
  rows in id order.
- `Schema` defines the four records and the database `State`. Its `Valid`
  invariant is what the server actually keeps: ids come from the counters,
  emails are unique, and a member's `group_id` or a task's `member_id` was
  a real id when it was inserted. Foreign keys are *not* enforced, so
  these references may dangle. The ownership predicates (`OwnsGroup`,
  `OwnsMember`, `OwnsTask`) are the joins. `ViewOf(st, u)` is everything
  user `u` can reach.
- `Header` implements `authHeader.split(' ')[1]`. `Auth` holds the
  `authenticateToken` middleware, register and login. bcrypt and jsonwebtoken
  are function values in a `Crypto` record. The lemmas that need the one
  signing fact assume it through `Sound`: a token the server signed
  verifies to what it signed.
- `Handlers` has one pure transition per route, each returning
  `(State, Response)`. `Api.Serve` puts the middleware in front of the
  protected routes.
- `UserView.Step` is an independent reference model. It defines every
  protected route over one user's view alone. `HandleRefines` proves that
  the handlers over the shared tables answer, and change the caller's view,
  exactly as `Step` does. `HandleIsolated` proves that no route changes any
  other user's view. `Api.NonInterference` follows: a user's answers depend
  only on what that user reaches and on the id counters.
- `Lifecycle` covers read-back after create and update, and non-cascading
  deletes. The children of a deleted group or member stay in their tables,
  unreachable by anyone. They stay unreachable for good because a fresh id
  never revives their parent.

Request body fields that may be absent are `Option` values; absent means
SQL NULL. Where the code and the design description disagree, the model
follows the code:

- An empty name or title is accepted and stored. Only a *missing* one fails,
  through the NOT NULL constraint: 500 "Server error".
- Register reports *every* failed insert, including a missing email, as
  400 "Email already exists". A missing password makes bcrypt throw, which
  gives 500.
- An update that sets a missing title fails with 500 only when its WHERE
  clause selects the row. Otherwise it reports `{updated: 0}`.
- Listings come back in ascending id order. The SQL has no ORDER BY, so
  this rowid scan order is an assumption of the model.

## Model

| member | source | states |
|---|---|---|
| Header.Split | server.js:58 | `split(' ')` yields one more piece than the header has spaces, and no piece contains a space |
| Header.JoinSplit | server.js:58 | joining the split pieces with single spaces gives back the header |
| Header.SplitJoin | server.js:58 | splitting space-free pieces joined by spaces gives back exactly those pieces |
| Header.BearerToken | server.js:57-60 | the token found is element `[1]` of the split; it is non-empty and space-free |
| Header.SchemeAndToken | server.js:57-58 | `<scheme> <token>` with a space-free scheme and a non-empty space-free token yields that token |
| Header.NoSpaceNoToken | server.js:58-61 | a header without a space has no element `[1]`, so no token |
| Tables.Insert | server.js:21 | AUTOINCREMENT: the new row gets an id never used before, greater than every earlier id, and nothing else changes |
| Tables.Remove | server.js:127 | deleting a row removes only that id and keeps the counter, so the id is not handed out again |
| Tables.Listing | server.js:110 | the rows of a selection in strictly ascending id order, each one a stored row, and every stored row in range listed |
| Tables.AscendingUnique | server.js:110 | two ascending listings that hold the same rows are equal |
| Schema.Init | server.js:19-54 | the four freshly created, empty tables satisfy the invariant |
| Schema.ViewOf | server.js:169-172 | what a user reaches is exactly the groups they own, the members of those groups and those members' tasks, with their stored values |
| Schema.DescribedView | server.js:169-172 | a view that matches the ownership joins and the stored values is the user's view |
| Schema.ViewsDisjoint | server.js:110 | two different users never reach the same group, member or task |
| Schema.ViewIgnoresUsers | server.js:20-25 | the users table plays no part in what anyone reaches |
| Auth.Authenticate | server.js:56-69 | no token gives `Unauthorized`; a token that fails verification gives `Forbidden`; otherwise the verified claims become `req.user` |
| Auth.Refusal | server.js:60-65 | a missing token is answered 401 and a rejected token 403 |
| Auth.SignedTokenAdmitted | server.js:64-67 | a server-signed token after a space-free scheme admits exactly the signed claims |
| Auth.BareTokenUnauthorized | server.js:58-61 | a header with no space is refused with 401 whatever it holds |
| Auth.Register | server.js:71-89 | success iff a password is given and the email is present and not taken; then exactly one user is added under the id just above the AUTOINCREMENT counter, which becomes the new counter, and the response carries that id and a token for it; otherwise nothing changes (400 for a taken or missing email, 500 for a missing password) |
| Auth.UsersWithEmail | server.js:94 | the users returned are stored users with that email, and there is one whenever the email is taken |
| Auth.Login | server.js:91-107 | success iff some user has that email and a password that compares equal; every failure is the one identical 400 "Invalid credentials" response; success names that user and signs their id and email |
| Auth.RegisterThenLogin | server.js:77-105 | logging in with freshly registered credentials succeeds as the same user id; when tokens verify to what was signed, the registration token and the login token both carry that id and the email (the tokens themselves may differ, since each gets its own `iat`) |
| Auth.RegisterTwice | server.js:22 | registering an email a second time fails with 400 and leaves the state as the first registration left it |
| Auth.RegisteredTokenAdmitted | server.js:83-84 | the token a registration returns, sent as `Bearer <token>`, admits the new user |
| Handlers.ListGroups | server.js:109-114 | the listed rows are exactly the groups the caller owns, with their stored values, in ascending id order |
| Handlers.CreateGroup | server.js:116-124 | a missing name gives 500 and no change; otherwise one group owned by the caller is added under a fresh id and echoed back |
| Handlers.DeleteGroup | server.js:126-132 | the count is 1 iff the group exists and the caller owns it, else 0 with no change; only that row goes; members, tasks and users are untouched |
| Handlers.ListMembers | server.js:134-142 | the rows are exactly the members of the given group when the caller owns it, and none otherwise |
| Handlers.CreateMember | server.js:144-157 | an absent or foreign group gives 403 "Access denied" and no change; a missing name then gives 500; otherwise one member with the given group is added under a fresh id |
| Handlers.DeleteMember | server.js:159-166 | the count is 1 iff the member's group is the caller's; only that row goes; its tasks stay |
| Handlers.ListTasks | server.js:168-177 | the rows are exactly the tasks of the given member when the caller reaches that member, and none otherwise |
| Handlers.CreateTask | server.js:179-201 | an unreachable member gives 403 and no change; a missing title then gives 500; otherwise one task, not completed, with the given title, description and due date, is added under a fresh id |
| Handlers.UpdateTask | server.js:203-217 | only a task the caller reaches is changed: its four fields are replaced together and its member is kept, with count 1; any other task gives count 0 and no change; a missing title on a reachable task gives 500 and no change |
| Handlers.DeleteTask | server.js:219-229 | the count is 1 iff the caller reaches the task; only that row goes |
| Handlers.Handle | server.js:109-229 | no protected route touches the users table, and every route keeps the invariant |
| UserView.GroupAdded | server.js:119-120 | a new group joins its owner's view and no one else's |
| UserView.GroupRemoved | server.js:127-128 | a removed group takes its members and their tasks out of its owner's view and changes no other view |
| UserView.MemberAdded | server.js:151-152 | a new member joins the view of the owner of its group only |
| UserView.MemberRemoved | server.js:160-161 | a removed member takes its tasks out of its owner's view and changes no other view |
| UserView.TaskAdded | server.js:188-189 | a new task joins the view of the user who reaches its member only |
| UserView.TaskReplaced | server.js:206-211 | a task rewritten under the same member changes only in the view of the user who reaches it |
| UserView.TaskRemoved | server.js:220-224 | a removed task leaves only the view of the user who reaches it |
| UserView.ListGroupsRefines | server.js:109-114 | the group listing equals the reference listing of the caller's view |
| UserView.ListMembersRefines | server.js:134-142 | the member listing equals the reference listing of the caller's view |
| UserView.ListTasksRefines | server.js:168-177 | the task listing equals the reference listing of the caller's view |
| UserView.NewGroupRefines | server.js:116-124 | group creation answers and changes the caller's view as the reference model does |
| UserView.DropGroupRefines | server.js:126-132 | group deletion answers and changes the caller's view as the reference model does |
| UserView.NewMemberRefines | server.js:144-157 | member creation answers and changes the caller's view as the reference model does |
| UserView.DropMemberRefines | server.js:159-166 | member deletion answers and changes the caller's view as the reference model does |
| UserView.NewTaskRefines | server.js:179-201 | task creation answers and changes the caller's view as the reference model does |
| UserView.EditTaskRefines | server.js:203-217 | task update answers and changes the caller's view as the reference model does |
| UserView.DropTaskRefines | server.js:219-229 | task deletion answers and changes the caller's view as the reference model does |
| UserView.HandleRefines | server.js:109-229 | every protected route, over the shared tables, answers and changes the caller's view exactly as the per-user reference model does |
| UserView.NewGroupIsolated | server.js:116-124 | a group created by one user changes no other user's view |
| UserView.DropGroupIsolated | server.js:126-132 | a group deletion by one user changes no other user's view |
| UserView.NewMemberIsolated | server.js:144-157 | a member created by one user changes no other user's view |
| UserView.DropMemberIsolated | server.js:159-166 | a member deletion by one user changes no other user's view |
| UserView.NewTaskIsolated | server.js:179-201 | a task created by one user changes no other user's view |
| UserView.EditTaskIsolated | server.js:203-217 | a task update by one user changes no other user's view |
| UserView.DropTaskIsolated | server.js:219-229 | a task deletion by one user changes no other user's view |
| UserView.HandleIsolated | server.js:109-229 | a route run by one user leaves every other user's view unchanged |
| Api.Serve | server.js:56-229 | a protected route without an accepted token is refused with no change; register and login touch only the users table; every request keeps the invariant |
| Api.GateDecides | server.js:56-68 | no usable token gives 401, a token that fails verification gives 403, both with no change; only a verified token runs the handler, as the verified user |
| Api.ServeIsolated | server.js:110-224 | any request leaves unchanged the view of every user it does not act for |
| Api.NonInterference | server.js:109-229 | with equal views for the caller and equal id counters, two databases give the same answer and the same resulting view to that caller |
| Api.RegisteredUserServed | server.js:83-84 | requests carrying a freshly registered token are served as the new user |
| Lifecycle.CreateGroupThenList | server.js:116-124 | a created group appears in its creator's group listing with the values sent |
| Lifecycle.DeleteGroupThenList | server.js:126-132 | a deleted group reports count 1 and no longer appears in anyone's listing |
| Lifecycle.CreateTaskThenList | server.js:179-201 | a created task appears in its member's task listing, not completed |
| Lifecycle.UpdateTaskThenList | server.js:203-217 | after an update, the member's task list shows the new fields, completed included, under the same member |
| Lifecycle.DeleteGroupOrphansMembers | server.js:127-130 | deleting a group leaves its members in the table, orphaned: listed for no one and reachable by no one |
| Lifecycle.DeleteMemberOrphansTasks | server.js:160-164 | deleting a member leaves its tasks in the table, orphaned and listed for no one |
| Lifecycle.OrphanTaskFrozen | server.js:206-224 | an orphaned task can be neither updated nor deleted by anyone: count 0, no change |
| Lifecycle.OrphansStay | server.js:21 | whatever request comes next, orphaned members and tasks keep their rows and stay orphaned, because ids are never reused |
| Lifecycle.OrphanMemberStays | server.js:109-229 | no protected route revives, changes or removes a member whose group is gone |
| Lifecycle.OrphanTaskStays | server.js:109-229 | no protected route revives, changes or removes a task whose member is gone |

## Left out

- SQLite I/O, callbacks and `db.serialize`: each handler is one atomic transition. The member and task creation handlers check ownership and then insert in a second callback. The race between the two is a concurrency concern and is not modelled.
- bcrypt and jsonwebtoken internals: these are the function values of `Auth.Crypto`. The salted hash that bcrypt draws at random is a parameter of `Auth.Register`. Token expiry and the `iat` claim are not modelled; the code sets no expiry. Because `Crypto.sign` sees no clock, the model signs the same claims to the same token, so no lemma states that two tokens are equal, only which claims they verify to.
- Auth.Login: takes the password as a string. When the email exists but no password is sent, `bcrypt.compare(undefined, …)` rejects inside the async `db.get` callback (server.js:94-99). Nothing catches that rejection, so the request gets no response, and on Node 15 or later with default settings the unhandled rejection ends the server process. That path is not modelled.
- Unexpected storage errors (disk, locking), which would give 500 on any route, are not modelled. Only constraint failures that follow from the request are.
- Express routing, CORS, static files, `app.listen` and environment configuration.
- `created_at` timestamps and SQLite type affinity. Path ids are `nat`, not the strings of `req.params`. `completed` and `due_date` are stored as sent, with no coercion.
- Verified tokens whose payload has no numeric `userId` are not modelled. Only a holder of the server's secret could make one. `Claims` always carries a user id.
- Foreign-key enforcement: SQLite does not enforce it here, and the model does not either.
- The browser client, `public/app.js`: rendering, local storage and the completed/total summary are not part of this model.
