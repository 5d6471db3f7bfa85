/** The group, member and task route handlers. Each runs as one atomic
    transition for the authenticated caller `u` (`req.user.userId`) and
    re-derives the ownership chain in its own query. */
module Handlers {
  import opened Optional
  import opened Tables
  import opened Schema
  import opened Http

  /* ---------------------------------------------------------------- groups */

  /** GET /api/groups: `SELECT * FROM groups WHERE owner_id = ?`. */
  function ListGroups(st: State, u: nat): (r: Response)
    requires Valid(st)
    ensures r.status == 200 && r.body.GroupRows? && Ascending(r.body.groups)
    ensures forall row :: row in r.body.groups <==>
              OwnsGroup(st, u, row.id) && st.groups.rows[row.id] == row.rec
  {
    var rows := st.groups.rows;
    var selected := map g | g in rows && rows[g].owner == u :: rows[g];
    ListingExact(selected, st.groups.last);
    Ok(GroupRows(Listing(selected, st.groups.last)))
  }

  /** POST /api/groups. A missing name breaks the NOT NULL constraint (500);
      an empty one is stored. */
  function CreateGroup(st: State, u: nat, name: Option<string>, description: Option<string>)
    : (res: (State, Response))
    requires Valid(st)
    ensures Valid(res.0)
    ensures res.1.status == 200 <==> name.Some?
    ensures name.None? ==> res == (st, ServerError)
    ensures name.Some? ==>
              && res.1.body.GroupCreated?
              && var id := res.1.body.id;
              && id !in st.groups.rows && id > st.groups.last
              && res.0 == st.(groups := Table(st.groups.rows[id := Group(name.value, description, u)], id))
              && res.1.body == GroupCreated(id, name.value, description)
  {
    match name
    case None => (st, ServerError)
    case Some(n) =>
      var (groups', id) := Insert(st.groups, Group(n, description, u));
      (st.(groups := groups'), Ok(GroupCreated(id, n, description)))
  }

  /** DELETE /api/groups/:id: `DELETE FROM groups WHERE id = ? AND owner_id = ?`.
      The group's members and tasks are not deleted. */
  function DeleteGroup(st: State, u: nat, id: nat): (res: (State, Response))
    requires Valid(st)
    ensures Valid(res.0)
    ensures res.1 == Ok(Deleted(if OwnsGroup(st, u, id) then 1 else 0))
    ensures res.0.users == st.users && res.0.members == st.members && res.0.tasks == st.tasks
    ensures res.0.groups.last == st.groups.last
    ensures res.0.groups.rows.Keys == st.groups.rows.Keys - (if OwnsGroup(st, u, id) then {id} else {})
    ensures forall g :: g in res.0.groups.rows ==> res.0.groups.rows[g] == st.groups.rows[g]
  {
    if OwnsGroup(st, u, id) then
      (st.(groups := Remove(st.groups, id)), Ok(Deleted(1)))
    else (st, Ok(Deleted(0)))
  }

  /* --------------------------------------------------------------- members */

  /** GET /api/groups/:groupId/members: members JOIN groups, filtered on the
      group id and its owner. An unknown or foreign group lists nothing. */
  function ListMembers(st: State, u: nat, groupId: nat): (r: Response)
    requires Valid(st)
    ensures r.status == 200 && r.body.MemberRows? && Ascending(r.body.members)
    ensures forall row :: row in r.body.members <==>
              && OwnsGroup(st, u, groupId)
              && row.id in st.members.rows && st.members.rows[row.id] == row.rec
              && row.rec.group == groupId
  {
    var ms := st.members.rows;
    var gs := st.groups.rows;
    var selected := map m | m in ms && ms[m].group in gs && ms[m].group == groupId
                            && gs[ms[m].group].owner == u :: ms[m];
    ListingExact(selected, st.members.last);
    Ok(MemberRows(Listing(selected, st.members.last)))
  }

  /** POST /api/groups/:groupId/members. The group must exist and be the
      caller's (403 otherwise); a missing name then fails the INSERT (500). */
  function CreateMember(st: State, u: nat, groupId: nat, name: Option<string>): (res: (State, Response))
    requires Valid(st)
    ensures Valid(res.0)
    ensures !OwnsGroup(st, u, groupId) ==> res == (st, AccessDenied)
    ensures OwnsGroup(st, u, groupId) && name.None? ==> res == (st, ServerError)
    ensures res.1.status == 200 <==> OwnsGroup(st, u, groupId) && name.Some?
    ensures res.1.status == 200 ==>
              && res.1.body.MemberCreated?
              && var id := res.1.body.id;
              && id !in st.members.rows && id > st.members.last
              && res.0 == st.(members := Table(st.members.rows[id := Member(groupId, name.value)], id))
              && res.1.body == MemberCreated(id, name.value, groupId)
  {
    if !OwnsGroup(st, u, groupId) then (st, AccessDenied)
    else
      match name
      case None => (st, ServerError)
      case Some(n) =>
        var (members', id) := Insert(st.members, Member(groupId, n));
        (st.(members := members'), Ok(MemberCreated(id, n, groupId)))
  }

  /** DELETE /api/members/:id: only a member of a group the caller owns.
      The member's tasks are not deleted. */
  function DeleteMember(st: State, u: nat, id: nat): (res: (State, Response))
    requires Valid(st)
    ensures Valid(res.0)
    ensures res.1 == Ok(Deleted(if OwnsMember(st, u, id) then 1 else 0))
    ensures res.0.users == st.users && res.0.groups == st.groups && res.0.tasks == st.tasks
    ensures res.0.members.last == st.members.last
    ensures res.0.members.rows.Keys == st.members.rows.Keys - (if OwnsMember(st, u, id) then {id} else {})
    ensures forall m :: m in res.0.members.rows ==> res.0.members.rows[m] == st.members.rows[m]
  {
    if OwnsMember(st, u, id) then (st.(members := Remove(st.members, id)), Ok(Deleted(1)))
    else (st, Ok(Deleted(0)))
  }

  /* ----------------------------------------------------------------- tasks */

  /** GET /api/members/:memberId/tasks: tasks JOIN members JOIN groups,
      filtered on the member id and the group's owner. */
  function ListTasks(st: State, u: nat, memberId: nat): (r: Response)
    requires Valid(st)
    ensures r.status == 200 && r.body.TaskRows? && Ascending(r.body.tasks)
    ensures forall row :: row in r.body.tasks <==>
              && OwnsMember(st, u, memberId)
              && row.id in st.tasks.rows && st.tasks.rows[row.id] == row.rec
              && row.rec.member == memberId
  {
    var ts := st.tasks.rows;
    var ms := st.members.rows;
    var gs := st.groups.rows;
    var selected := map t | t in ts && ts[t].member == memberId && ts[t].member in ms
                            && ms[ts[t].member].group in gs
                            && gs[ms[ts[t].member].group].owner == u :: ts[t];
    ListingExact(selected, st.tasks.last);
    Ok(TaskRows(Listing(selected, st.tasks.last)))
  }

  /** POST /api/members/:memberId/tasks. The member must be reachable from a
      group the caller owns (403 otherwise); a missing title then fails the
      INSERT (500). A new task is not completed. */
  function CreateTask(st: State, u: nat, memberId: nat, title: Option<string>,
                      description: Option<string>, dueDate: Option<string>): (res: (State, Response))
    requires Valid(st)
    ensures Valid(res.0)
    ensures !OwnsMember(st, u, memberId) ==> res == (st, AccessDenied)
    ensures OwnsMember(st, u, memberId) && title.None? ==> res == (st, ServerError)
    ensures res.1.status == 200 <==> OwnsMember(st, u, memberId) && title.Some?
    ensures res.1.status == 200 ==>
              && res.1.body.TaskCreated?
              && var id := res.1.body.id;
              && id !in st.tasks.rows && id > st.tasks.last
              && res.0 == st.(tasks := Table(st.tasks.rows[id := Task(memberId, title.value, description,
                                                                     Some(false), dueDate)], id))
              && res.1.body == TaskCreated(id, memberId, title.value, description, dueDate, false)
  {
    if !OwnsMember(st, u, memberId) then (st, AccessDenied)
    else
      match title
      case None => (st, ServerError)
      case Some(t) =>
        var (tasks', id) := Insert(st.tasks, Task(memberId, t, description, Some(false), dueDate));
        (st.(tasks := tasks'), Ok(TaskCreated(id, memberId, t, description, dueDate, false)))
  }

  /** PUT /api/tasks/:id: replaces title, description, completed and due date
      together; a field left out of the body is stored as NULL. A NULL title
      breaks NOT NULL only when the WHERE clause selects the row (500). */
  function UpdateTask(st: State, u: nat, id: nat, title: Option<string>, description: Option<string>,
                      completed: Option<bool>, dueDate: Option<string>): (res: (State, Response))
    requires Valid(st)
    ensures Valid(res.0)
    ensures !OwnsTask(st, u, id) ==> res == (st, Ok(Updated(0)))
    ensures OwnsTask(st, u, id) && title.None? ==> res == (st, ServerError)
    ensures OwnsTask(st, u, id) && title.Some? ==>
              && res.1 == Ok(Updated(1))
              && res.0 == st.(tasks := Table(st.tasks.rows[id := Task(st.tasks.rows[id].member, title.value,
                                                                     description, completed, dueDate)],
                                             st.tasks.last))
  {
    if !OwnsTask(st, u, id) then (st, Ok(Updated(0)))
    else
      match title
      case None => (st, ServerError)
      case Some(t) =>
        var prev := st.tasks.rows[id];
        (st.(tasks := st.tasks.(rows := st.tasks.rows[id := Task(prev.member, t, description, completed, dueDate)])),
         Ok(Updated(1)))
  }

  /** DELETE /api/tasks/:id: under the same scope as the update. */
  function DeleteTask(st: State, u: nat, id: nat): (res: (State, Response))
    requires Valid(st)
    ensures Valid(res.0)
    ensures res.1 == Ok(Deleted(if OwnsTask(st, u, id) then 1 else 0))
    ensures res.0.users == st.users && res.0.groups == st.groups && res.0.members == st.members
    ensures res.0.tasks.last == st.tasks.last
    ensures res.0.tasks.rows.Keys == st.tasks.rows.Keys - (if OwnsTask(st, u, id) then {id} else {})
    ensures forall t :: t in res.0.tasks.rows ==> res.0.tasks.rows[t] == st.tasks.rows[t]
  {
    if OwnsTask(st, u, id) then (st.(tasks := Remove(st.tasks, id)), Ok(Deleted(1)))
    else (st, Ok(Deleted(0)))
  }

  /* -------------------------------------------------------------- routing */

  /** The authenticated routes, with their path parameters and body fields. */
  datatype Action =
    | ListGroupsOf                                           // GET    /api/groups
    | NewGroup(name: Option<string>, description: Option<string>)   // POST   /api/groups
    | DropGroup(groupId: nat)                                // DELETE /api/groups/:id
    | ListMembersOf(groupId: nat)                            // GET    /api/groups/:groupId/members
    | NewMember(groupId: nat, name: Option<string>)          // POST   /api/groups/:groupId/members
    | DropMember(memberId: nat)                              // DELETE /api/members/:id
    | ListTasksOf(memberId: nat)                             // GET    /api/members/:memberId/tasks
    | NewTask(memberId: nat, title: Option<string>, description: Option<string>,
              dueDate: Option<string>)                       // POST   /api/members/:memberId/tasks
    | EditTask(taskId: nat, title: Option<string>, description: Option<string>,
               completed: Option<bool>, dueDate: Option<string>)   // PUT    /api/tasks/:id
    | DropTask(taskId: nat)                                  // DELETE /api/tasks/:id

  /** Runs the handler of `a` for the authenticated user `u`. No handler
      touches the users table. */
  function Handle(st: State, u: nat, a: Action): (res: (State, Response))
    requires Valid(st)
    ensures Valid(res.0)
    ensures res.0.users == st.users
  {
    match a
    case ListGroupsOf => (st, ListGroups(st, u))
    case NewGroup(name, description) => CreateGroup(st, u, name, description)
    case DropGroup(id) => DeleteGroup(st, u, id)
    case ListMembersOf(groupId) => (st, ListMembers(st, u, groupId))
    case NewMember(groupId, name) => CreateMember(st, u, groupId, name)
    case DropMember(id) => DeleteMember(st, u, id)
    case ListTasksOf(memberId) => (st, ListTasks(st, u, memberId))
    case NewTask(memberId, title, description, dueDate) =>
      CreateTask(st, u, memberId, title, description, dueDate)
    case EditTask(id, title, description, completed, dueDate) =>
      UpdateTask(st, u, id, title, description, completed, dueDate)
    case DropTask(id) => DeleteTask(st, u, id)
  }
}
