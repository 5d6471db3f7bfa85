/** What one user sees of the server: a private tracker holding only the
    groups, members and tasks that user reaches through the ownership chain.
    `Step` is a reference definition of every authenticated route on such a
    view alone; the lemmas show that the handlers over the shared tables
    behave exactly like it for the caller, and leave every other user's view
    alone. */
module UserView {
  import opened Optional
  import opened Tables
  import opened Schema
  import opened Http
  import opened Handlers

  /** The autoincrement counters of the tables the routes insert into: the
      only shared information a caller can observe (through fresh ids). */
  datatype Ids = Ids(groups: nat, members: nat, tasks: nat)

  function IdsOf(st: State): Ids {
    Ids(st.groups.last, st.members.last, st.tasks.last)
  }

  /** The view once group `g` is gone: its members and their tasks drop out
      of reach with it. */
  function WithoutGroup(v: View, g: nat): View {
    var members := map m | m in v.members && v.members[m].group != g :: v.members[m];
    View(v.groups - {g}, members,
         map t | t in v.tasks && v.tasks[t].member in members :: v.tasks[t])
  }

  /** The view once member `m` is gone: its tasks drop out of reach. */
  function WithoutMember(v: View, m: nat): View {
    View(v.groups, v.members - {m},
         map t | t in v.tasks && v.tasks[t].member != m :: v.tasks[t])
  }

  /** The reference behaviour of every authenticated route for user `u`,
      given only `u`'s view and the counters. */
  function Step(v: View, u: nat, ids: Ids, a: Action): (View, Response) {
    match a
    case ListGroupsOf => (v, Ok(GroupRows(Listing(v.groups, ids.groups))))
    case NewGroup(name, description) =>
      if name.None? then (v, ServerError)
      else
        var id := ids.groups + 1;
        (v.(groups := v.groups[id := Group(name.value, description, u)]),
         Ok(GroupCreated(id, name.value, description)))
    case DropGroup(g) =>
      if g in v.groups then (WithoutGroup(v, g), Ok(Deleted(1))) else (v, Ok(Deleted(0)))
    case ListMembersOf(g) =>
      (v, Ok(MemberRows(Listing(map m | m in v.members && v.members[m].group == g :: v.members[m],
                                ids.members))))
    case NewMember(g, name) =>
      if g !in v.groups then (v, AccessDenied)
      else if name.None? then (v, ServerError)
      else
        var id := ids.members + 1;
        (v.(members := v.members[id := Member(g, name.value)]), Ok(MemberCreated(id, name.value, g)))
    case DropMember(m) =>
      if m in v.members then (WithoutMember(v, m), Ok(Deleted(1))) else (v, Ok(Deleted(0)))
    case ListTasksOf(m) =>
      (v, Ok(TaskRows(Listing(map t | t in v.tasks && v.tasks[t].member == m :: v.tasks[t], ids.tasks))))
    case NewTask(m, title, description, dueDate) =>
      if m !in v.members then (v, AccessDenied)
      else if title.None? then (v, ServerError)
      else
        var id := ids.tasks + 1;
        (v.(tasks := v.tasks[id := Task(m, title.value, description, Some(false), dueDate)]),
         Ok(TaskCreated(id, m, title.value, description, dueDate, false)))
    case EditTask(t, title, description, completed, dueDate) =>
      if t !in v.tasks then (v, Ok(Updated(0)))
      else if title.None? then (v, ServerError)
      else
        (v.(tasks := v.tasks[t := Task(v.tasks[t].member, title.value, description, completed, dueDate)]),
         Ok(Updated(1)))
    case DropTask(t) =>
      if t in v.tasks then (v.(tasks := v.tasks - {t}), Ok(Deleted(1))) else (v, Ok(Deleted(0)))
  }

  /* ------------------------------------------- one table change at a time */

  /** Inserting group `grp` under a fresh id adds it to its owner's view only. */
  lemma GroupAdded(st: State, u: nat, id: nat, grp: Group)
    requires Valid(st) && id > st.groups.last
    ensures var v := ViewOf(st, u);
            ViewOf(st.(groups := Table(st.groups.rows[id := grp], id)), u)
              == if grp.owner == u then v.(groups := v.groups[id := grp]) else v
  {
    var st' := st.(groups := Table(st.groups.rows[id := grp], id));
    var v := ViewOf(st, u);
    var v' := if grp.owner == u then v.(groups := v.groups[id := grp]) else v;
    assert GroupsDescribed(st', u, v');
    forall m | m in st.members.rows
      ensures OwnsMember(st', u, m) <==> OwnsMember(st, u, m)
    {
      assert st.members.rows[m].group != id;
    }
    assert MembersDescribed(st', u, v');
    assert TasksDescribed(st', u, v');
    DescribedView(st', u, v');
  }

  /** Deleting group `g` takes it, with the members and tasks reached through
      it, out of its owner's view, and changes no other view. */
  lemma GroupRemoved(st: State, u: nat, g: nat)
    requires Valid(st)
    ensures var v := ViewOf(st, u);
            ViewOf(st.(groups := Remove(st.groups, g)), u)
              == if OwnsGroup(st, u, g) then WithoutGroup(v, g) else v
  {
    var st' := st.(groups := Remove(st.groups, g));
    var v := ViewOf(st, u);
    var v' := if OwnsGroup(st, u, g) then WithoutGroup(v, g) else v;
    forall h
      ensures h in v'.groups <==> OwnsGroup(st', u, h)
    {
    }
    forall m
      ensures m in v'.members <==> OwnsMember(st', u, m)
    {
    }
    forall t
      ensures t in v'.tasks <==> OwnsTask(st', u, t)
    {
      if t in st.tasks.rows {
        var m := st.tasks.rows[t].member;
        assert m in v'.members <==> OwnsMember(st', u, m);
      }
    }
    assert Describes(st', u, v');
    DescribedView(st', u, v');
  }

  /** Inserting member `mem` under a fresh id adds it to the view of the
      owner of its group only; no task is reached through it yet. */
  lemma MemberAdded(st: State, u: nat, id: nat, mem: Member)
    requires Valid(st) && id > st.members.last
    ensures var v := ViewOf(st, u);
            ViewOf(st.(members := Table(st.members.rows[id := mem], id)), u)
              == if OwnsGroup(st, u, mem.group) then v.(members := v.members[id := mem]) else v
  {
    var st' := st.(members := Table(st.members.rows[id := mem], id));
    var v := ViewOf(st, u);
    var v' := if OwnsGroup(st, u, mem.group) then v.(members := v.members[id := mem]) else v;
    assert GroupsDescribed(st', u, v');
    forall t | t in st.tasks.rows
      ensures OwnsTask(st', u, t) <==> OwnsTask(st, u, t)
    {
      assert st.tasks.rows[t].member != id;
    }
    assert MembersDescribed(st', u, v');
    assert TasksDescribed(st', u, v');
    DescribedView(st', u, v');
  }

  /** Deleting member `m` takes it and its tasks out of its owner's view, and
      changes no other view. */
  lemma MemberRemoved(st: State, u: nat, m: nat)
    requires Valid(st)
    ensures var v := ViewOf(st, u);
            ViewOf(st.(members := Remove(st.members, m)), u)
              == if OwnsMember(st, u, m) then WithoutMember(v, m) else v
  {
    var st' := st.(members := Remove(st.members, m));
    var v := ViewOf(st, u);
    var v' := if OwnsMember(st, u, m) then WithoutMember(v, m) else v;
    forall k
      ensures k in v'.members <==> OwnsMember(st', u, k)
    {
    }
    forall t
      ensures t in v'.tasks <==> OwnsTask(st', u, t)
    {
    }
    assert Describes(st', u, v');
    DescribedView(st', u, v');
  }

  /** Inserting task `task` under a fresh id adds it to the view of the user
      who reaches its member only. */
  lemma TaskAdded(st: State, u: nat, id: nat, task: Task)
    requires Valid(st) && id > st.tasks.last
    ensures var v := ViewOf(st, u);
            ViewOf(st.(tasks := Table(st.tasks.rows[id := task], id)), u)
              == if OwnsMember(st, u, task.member) then v.(tasks := v.tasks[id := task]) else v
  {
    var st' := st.(tasks := Table(st.tasks.rows[id := task], id));
    var v := ViewOf(st, u);
    var v' := if OwnsMember(st, u, task.member) then v.(tasks := v.tasks[id := task]) else v;
    assert Describes(st', u, v');
    DescribedView(st', u, v');
  }

  /** Rewriting task `t` in place, under the same member, changes it in the
      view of the user who reaches it only. */
  lemma TaskReplaced(st: State, u: nat, t: nat, task: Task)
    requires Valid(st) && t in st.tasks.rows && task.member == st.tasks.rows[t].member
    ensures var v := ViewOf(st, u);
            ViewOf(st.(tasks := st.tasks.(rows := st.tasks.rows[t := task])), u)
              == if OwnsTask(st, u, t) then v.(tasks := v.tasks[t := task]) else v
  {
    var st' := st.(tasks := st.tasks.(rows := st.tasks.rows[t := task]));
    var v := ViewOf(st, u);
    var v' := if OwnsTask(st, u, t) then v.(tasks := v.tasks[t := task]) else v;
    assert Describes(st', u, v');
    DescribedView(st', u, v');
  }

  /** Deleting task `t` takes it out of the view of the user who reaches it only. */
  lemma TaskRemoved(st: State, u: nat, t: nat)
    requires Valid(st)
    ensures var v := ViewOf(st, u);
            ViewOf(st.(tasks := Remove(st.tasks, t)), u)
              == if OwnsTask(st, u, t) then v.(tasks := v.tasks - {t}) else v
  {
    var st' := st.(tasks := Remove(st.tasks, t));
    var v := ViewOf(st, u);
    var v' := if OwnsTask(st, u, t) then v.(tasks := v.tasks - {t}) else v;
    assert Describes(st', u, v');
    DescribedView(st', u, v');
  }

  /* ------------------------------------------------ the caller's own view */

  lemma ListGroupsRefines(st: State, u: nat)
    requires Valid(st)
    ensures ListGroups(st, u) == Step(ViewOf(st, u), u, IdsOf(st), ListGroupsOf).1
  {
    var v := ViewOf(st, u);
    ListingExact(v.groups, st.groups.last);
    AscendingUnique(ListGroups(st, u).body.groups, Listing(v.groups, st.groups.last));
  }

  lemma ListMembersRefines(st: State, u: nat, g: nat)
    requires Valid(st)
    ensures ListMembers(st, u, g) == Step(ViewOf(st, u), u, IdsOf(st), ListMembersOf(g)).1
  {
    var v := ViewOf(st, u);
    var sel := map m | m in v.members && v.members[m].group == g :: v.members[m];
    ListingExact(sel, st.members.last);
    AscendingUnique(ListMembers(st, u, g).body.members, Listing(sel, st.members.last));
  }

  lemma ListTasksRefines(st: State, u: nat, m: nat)
    requires Valid(st)
    ensures ListTasks(st, u, m) == Step(ViewOf(st, u), u, IdsOf(st), ListTasksOf(m)).1
  {
    var v := ViewOf(st, u);
    var sel := map t | t in v.tasks && v.tasks[t].member == m :: v.tasks[t];
    ListingExact(sel, st.tasks.last);
    AscendingUnique(ListTasks(st, u, m).body.tasks, Listing(sel, st.tasks.last));
  }

  lemma NewGroupRefines(st: State, u: nat, name: Option<string>, description: Option<string>)
    requires Valid(st)
    ensures var (st', r) := CreateGroup(st, u, name, description);
            (ViewOf(st', u), r) == Step(ViewOf(st, u), u, IdsOf(st), NewGroup(name, description))
  {
    if name.Some? {
      GroupAdded(st, u, st.groups.last + 1, Group(name.value, description, u));
    }
  }

  lemma DropGroupRefines(st: State, u: nat, g: nat)
    requires Valid(st)
    ensures var (st', r) := DeleteGroup(st, u, g);
            (ViewOf(st', u), r) == Step(ViewOf(st, u), u, IdsOf(st), DropGroup(g))
  {
    if OwnsGroup(st, u, g) {
      GroupRemoved(st, u, g);
    }
  }

  lemma NewMemberRefines(st: State, u: nat, g: nat, name: Option<string>)
    requires Valid(st)
    ensures var (st', r) := CreateMember(st, u, g, name);
            (ViewOf(st', u), r) == Step(ViewOf(st, u), u, IdsOf(st), NewMember(g, name))
  {
    if OwnsGroup(st, u, g) && name.Some? {
      MemberAdded(st, u, st.members.last + 1, Member(g, name.value));
    }
  }

  lemma DropMemberRefines(st: State, u: nat, m: nat)
    requires Valid(st)
    ensures var (st', r) := DeleteMember(st, u, m);
            (ViewOf(st', u), r) == Step(ViewOf(st, u), u, IdsOf(st), DropMember(m))
  {
    if OwnsMember(st, u, m) {
      MemberRemoved(st, u, m);
    }
  }

  lemma NewTaskRefines(st: State, u: nat, m: nat, title: Option<string>,
                       description: Option<string>, dueDate: Option<string>)
    requires Valid(st)
    ensures var (st', r) := CreateTask(st, u, m, title, description, dueDate);
            (ViewOf(st', u), r) == Step(ViewOf(st, u), u, IdsOf(st), NewTask(m, title, description, dueDate))
  {
    if OwnsMember(st, u, m) && title.Some? {
      TaskAdded(st, u, st.tasks.last + 1, Task(m, title.value, description, Some(false), dueDate));
    }
  }

  lemma EditTaskRefines(st: State, u: nat, t: nat, title: Option<string>, description: Option<string>,
                        completed: Option<bool>, dueDate: Option<string>)
    requires Valid(st)
    ensures var (st', r) := UpdateTask(st, u, t, title, description, completed, dueDate);
            (ViewOf(st', u), r) == Step(ViewOf(st, u), u, IdsOf(st), EditTask(t, title, description, completed, dueDate))
  {
    if OwnsTask(st, u, t) && title.Some? {
      TaskReplaced(st, u, t, Task(st.tasks.rows[t].member, title.value, description, completed, dueDate));
    }
  }

  lemma DropTaskRefines(st: State, u: nat, t: nat)
    requires Valid(st)
    ensures var (st', r) := DeleteTask(st, u, t);
            (ViewOf(st', u), r) == Step(ViewOf(st, u), u, IdsOf(st), DropTask(t))
  {
    if OwnsTask(st, u, t) {
      TaskRemoved(st, u, t);
    }
  }

  /** Every authenticated route, run over the shared tables, changes the
      caller's view and answers exactly as the reference `Step` does on the
      caller's view alone. */
  lemma HandleRefines(st: State, u: nat, a: Action)
    requires Valid(st)
    ensures var (st', r) := Handle(st, u, a);
            (ViewOf(st', u), r) == Step(ViewOf(st, u), u, IdsOf(st), a)
  {
    match a
    case ListGroupsOf => ListGroupsRefines(st, u);
    case NewGroup(name, description) => NewGroupRefines(st, u, name, description);
    case DropGroup(g) => DropGroupRefines(st, u, g);
    case ListMembersOf(g) => ListMembersRefines(st, u, g);
    case NewMember(g, name) => NewMemberRefines(st, u, g, name);
    case DropMember(m) => DropMemberRefines(st, u, m);
    case ListTasksOf(m) => ListTasksRefines(st, u, m);
    case NewTask(m, title, description, dueDate) => NewTaskRefines(st, u, m, title, description, dueDate);
    case EditTask(t, title, description, completed, dueDate) =>
      EditTaskRefines(st, u, t, title, description, completed, dueDate);
    case DropTask(t) => DropTaskRefines(st, u, t);
  }

  /* ----------------------------------------------- everybody else's view */

  lemma NewGroupIsolated(st: State, w: nat, u: nat, name: Option<string>, description: Option<string>)
    requires Valid(st) && w != u
    ensures ViewOf(CreateGroup(st, w, name, description).0, u) == ViewOf(st, u)
  {
    if name.Some? {
      GroupAdded(st, u, st.groups.last + 1, Group(name.value, description, w));
    }
  }

  lemma DropGroupIsolated(st: State, w: nat, u: nat, g: nat)
    requires Valid(st) && w != u
    ensures ViewOf(DeleteGroup(st, w, g).0, u) == ViewOf(st, u)
  {
    if OwnsGroup(st, w, g) {
      GroupRemoved(st, u, g);
    }
  }

  lemma NewMemberIsolated(st: State, w: nat, u: nat, g: nat, name: Option<string>)
    requires Valid(st) && w != u
    ensures ViewOf(CreateMember(st, w, g, name).0, u) == ViewOf(st, u)
  {
    if OwnsGroup(st, w, g) && name.Some? {
      MemberAdded(st, u, st.members.last + 1, Member(g, name.value));
    }
  }

  lemma DropMemberIsolated(st: State, w: nat, u: nat, m: nat)
    requires Valid(st) && w != u
    ensures ViewOf(DeleteMember(st, w, m).0, u) == ViewOf(st, u)
  {
    if OwnsMember(st, w, m) {
      MemberRemoved(st, u, m);
    }
  }

  lemma NewTaskIsolated(st: State, w: nat, u: nat, m: nat, title: Option<string>,
                        description: Option<string>, dueDate: Option<string>)
    requires Valid(st) && w != u
    ensures ViewOf(CreateTask(st, w, m, title, description, dueDate).0, u) == ViewOf(st, u)
  {
    if OwnsMember(st, w, m) && title.Some? {
      TaskAdded(st, u, st.tasks.last + 1, Task(m, title.value, description, Some(false), dueDate));
    }
  }

  lemma EditTaskIsolated(st: State, w: nat, u: nat, t: nat, title: Option<string>,
                         description: Option<string>, completed: Option<bool>, dueDate: Option<string>)
    requires Valid(st) && w != u
    ensures ViewOf(UpdateTask(st, w, t, title, description, completed, dueDate).0, u) == ViewOf(st, u)
  {
    if OwnsTask(st, w, t) && title.Some? {
      TaskReplaced(st, u, t, Task(st.tasks.rows[t].member, title.value, description, completed, dueDate));
    }
  }

  lemma DropTaskIsolated(st: State, w: nat, u: nat, t: nat)
    requires Valid(st) && w != u
    ensures ViewOf(DeleteTask(st, w, t).0, u) == ViewOf(st, u)
  {
    if OwnsTask(st, w, t) {
      TaskRemoved(st, u, t);
    }
  }

  /** A route run by `w` leaves the view of every other user `u` as it was:
      nothing `w` does can add to, remove from or change what `u` reaches. */
  lemma HandleIsolated(st: State, w: nat, u: nat, a: Action)
    requires Valid(st)
    requires w != u
    ensures ViewOf(Handle(st, w, a).0, u) == ViewOf(st, u)
  {
    match a
    case ListGroupsOf =>
    case ListMembersOf(_) =>
    case ListTasksOf(_) =>
    case NewGroup(name, description) => NewGroupIsolated(st, w, u, name, description);
    case DropGroup(g) => DropGroupIsolated(st, w, u, g);
    case NewMember(g, name) => NewMemberIsolated(st, w, u, g, name);
    case DropMember(m) => DropMemberIsolated(st, w, u, m);
    case NewTask(m, title, description, dueDate) => NewTaskIsolated(st, w, u, m, title, description, dueDate);
    case EditTask(t, title, description, completed, dueDate) =>
      EditTaskIsolated(st, w, u, t, title, description, completed, dueDate);
    case DropTask(t) => DropTaskIsolated(st, w, u, t);
  }
}
