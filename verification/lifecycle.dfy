/** How rows live and die across requests: what a caller reads back after a
    change, and what becomes of the children of a deleted group or member.
    Deletes do not cascade; the children stay in their tables, out of
    everyone's reach for good, because autoincrement ids are never reused. */
module Lifecycle {
  import opened Optional
  import opened Tables
  import opened Schema
  import opened Http
  import opened Auth
  import opened Handlers
  import opened Api

  /* --------------------------------------------- changes are read back */

  /** A created group is listed for its creator with what was sent. */
  lemma CreateGroupThenList(st: State, u: nat, name: string, description: Option<string>)
    requires Valid(st)
    ensures var (st', r) := CreateGroup(st, u, Some(name), description);
            Row(r.body.id, Group(name, description, u)) in ListGroups(st', u).body.groups
  {
  }

  /** A deleted group is no longer listed, for anyone. */
  lemma DeleteGroupThenList(st: State, u: nat, g: nat, w: nat)
    requires Valid(st)
    requires OwnsGroup(st, u, g)
    ensures DeleteGroup(st, u, g).1 == Ok(Deleted(1))
    ensures forall row :: row in ListGroups(DeleteGroup(st, u, g).0, w).body.groups ==> row.id != g
  {
  }

  /** A created task is listed under its member, not completed. */
  lemma CreateTaskThenList(st: State, u: nat, m: nat, title: string, description: Option<string>,
                           dueDate: Option<string>)
    requires Valid(st)
    requires OwnsMember(st, u, m)
    ensures var (st', r) := CreateTask(st, u, m, Some(title), description, dueDate);
            Row(r.body.id, Task(m, title, description, Some(false), dueDate)) in ListTasks(st', u, m).body.tasks
  {
    var (st', r) := CreateTask(st, u, m, Some(title), description, dueDate);
    assert OwnsMember(st', u, m);
  }

  /** An update, toggling `completed` or anything else, is what the member's
      task list shows next, with the task still under the same member. */
  lemma UpdateTaskThenList(st: State, u: nat, t: nat, title: string, description: Option<string>,
                           completed: Option<bool>, dueDate: Option<string>)
    requires Valid(st)
    requires OwnsTask(st, u, t)
    ensures var m := st.tasks.rows[t].member;
            var (st', r) := UpdateTask(st, u, t, Some(title), description, completed, dueDate);
            && r == Ok(Updated(1))
            && Row(t, Task(m, title, description, completed, dueDate)) in ListTasks(st', u, m).body.tasks
  {
    var m := st.tasks.rows[t].member;
    var (st', r) := UpdateTask(st, u, t, Some(title), description, completed, dueDate);
    assert OwnsMember(st', u, m);
  }

  /* ------------------------------------------------- deletes orphan rows */

  /** A member whose group is gone. */
  predicate OrphanMember(st: State, m: nat) {
    m in st.members.rows && st.members.rows[m].group !in st.groups.rows
  }

  /** A task whose member is gone. */
  predicate OrphanTask(st: State, t: nat) {
    t in st.tasks.rows && st.tasks.rows[t].member !in st.members.rows
  }

  /** Deleting a group leaves its members in the table, orphaned: no one
      lists them, and no one can give them tasks. */
  lemma DeleteGroupOrphansMembers(st: State, u: nat, g: nat)
    requires Valid(st)
    requires OwnsGroup(st, u, g)
    ensures var st' := DeleteGroup(st, u, g).0;
            && st'.members == st.members
            && (forall m :: m in st.members.rows && st.members.rows[m].group == g ==> OrphanMember(st', m))
            && (forall w :: ListMembers(st', w, g).body.members == [])
            && (forall w, m :: OrphanMember(st', m) ==> !OwnsMember(st', w, m))
  {
    var st' := DeleteGroup(st, u, g).0;
    forall w
      ensures ListMembers(st', w, g).body.members == []
    {
      var rows := ListMembers(st', w, g).body.members;
      if |rows| > 0 {
        HeadListed(rows);
        assert false;
      }
    }
  }

  /** Deleting a member leaves its tasks in the table, orphaned: they are
      listed for no one and no one can update or delete them. */
  lemma DeleteMemberOrphansTasks(st: State, u: nat, m: nat)
    requires Valid(st)
    requires OwnsMember(st, u, m)
    ensures var st' := DeleteMember(st, u, m).0;
            && st'.tasks == st.tasks
            && (forall t :: t in st.tasks.rows && st.tasks.rows[t].member == m ==> OrphanTask(st', t))
            && (forall w :: ListTasks(st', w, m).body.tasks == [])
  {
    var st' := DeleteMember(st, u, m).0;
    forall w
      ensures ListTasks(st', w, m).body.tasks == []
    {
      var rows := ListTasks(st', w, m).body.tasks;
      if |rows| > 0 {
        HeadListed(rows);
        assert false;
      }
    }
  }

  /** An orphaned task can be neither updated nor deleted, by anyone: the
      count is 0 and nothing changes. */
  lemma OrphanTaskFrozen(st: State, w: nat, t: nat, title: Option<string>, description: Option<string>,
                         completed: Option<bool>, dueDate: Option<string>)
    requires Valid(st)
    requires OrphanTask(st, t)
    ensures UpdateTask(st, w, t, title, description, completed, dueDate) == (st, Ok(Updated(0)))
    ensures DeleteTask(st, w, t) == (st, Ok(Deleted(0)))
  {
  }

  /** Orphans stay orphans: whatever request is served next, an orphaned
      member keeps its row and its missing group, and an orphaned task its
      row and its missing member. A new group or member never takes an old
      id, so no insert brings a parent back. */
  lemma OrphansStay(st: State, c: Crypto, req: Request, m: nat, t: nat)
    requires Valid(st)
    ensures var st' := Serve(st, c, req).0;
            && (OrphanMember(st, m) ==> OrphanMember(st', m) && st'.members.rows[m] == st.members.rows[m])
            && (OrphanTask(st, t) ==> OrphanTask(st', t) && st'.tasks.rows[t] == st.tasks.rows[t])
  {
    if req.route.Protected? && Authenticate(c, req.authorization).Admitted? {
      var w := Authenticate(c, req.authorization).user.userId;
      if OrphanMember(st, m) {
        OrphanMemberStays(st, w, req.route.action, m);
      }
      if OrphanTask(st, t) {
        OrphanTaskStays(st, w, req.route.action, t);
      }
    }
  }

  /** No protected route revives, changes or removes an orphaned member. */
  lemma OrphanMemberStays(st: State, w: nat, a: Action, m: nat)
    requires Valid(st) && OrphanMember(st, m)
    ensures var st' := Handle(st, w, a).0;
            OrphanMember(st', m) && st'.members.rows[m] == st.members.rows[m]
  {
    match a
    case ListGroupsOf =>
    case ListMembersOf(_) =>
    case ListTasksOf(_) =>
    case NewGroup(name, description) =>
      var st' := CreateGroup(st, w, name, description).0;
      assert st'.members == st.members;
    case DropGroup(g) =>
      var st' := DeleteGroup(st, w, g).0;
      assert st'.members == st.members;
    case NewMember(g, name) =>
      var st' := CreateMember(st, w, g, name).0;
      assert st'.groups == st.groups;
    case DropMember(k) =>
      var st' := DeleteMember(st, w, k).0;
      assert st'.groups == st.groups;
    case NewTask(k, title, description, dueDate) =>
      var st' := CreateTask(st, w, k, title, description, dueDate).0;
      assert st'.groups == st.groups && st'.members == st.members;
    case EditTask(k, title, description, completed, dueDate) =>
      var st' := UpdateTask(st, w, k, title, description, completed, dueDate).0;
      assert st'.groups == st.groups && st'.members == st.members;
    case DropTask(k) =>
      var st' := DeleteTask(st, w, k).0;
      assert st'.groups == st.groups && st'.members == st.members;
  }

  /** No protected route revives, changes or removes an orphaned task. */
  lemma OrphanTaskStays(st: State, w: nat, a: Action, t: nat)
    requires Valid(st) && OrphanTask(st, t)
    ensures var st' := Handle(st, w, a).0;
            OrphanTask(st', t) && st'.tasks.rows[t] == st.tasks.rows[t]
  {
    match a
    case ListGroupsOf =>
    case ListMembersOf(_) =>
    case ListTasksOf(_) =>
    case NewGroup(name, description) =>
      var st' := CreateGroup(st, w, name, description).0;
      assert st'.members == st.members && st'.tasks == st.tasks;
    case DropGroup(g) =>
      var st' := DeleteGroup(st, w, g).0;
      assert st'.members == st.members && st'.tasks == st.tasks;
    case NewMember(g, name) =>
      var st' := CreateMember(st, w, g, name).0;
      assert st'.tasks == st.tasks;
    case DropMember(k) =>
      var st' := DeleteMember(st, w, k).0;
      assert st'.tasks == st.tasks;
    case NewTask(k, title, description, dueDate) =>
      var st' := CreateTask(st, w, k, title, description, dueDate).0;
      assert st'.members == st.members;
    case EditTask(k, title, description, completed, dueDate) =>
      var st' := UpdateTask(st, w, k, title, description, completed, dueDate).0;
      assert !OwnsTask(st, w, t) && st'.members == st.members;
    case DropTask(k) =>
      var st' := DeleteTask(st, w, k).0;
      assert st'.members == st.members;
  }
}
