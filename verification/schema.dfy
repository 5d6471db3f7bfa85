/** The four tables of the database and the ownership chain
    user -> group -> member -> task that every query re-derives by a join. */
module Schema {
  import opened Optional
  import opened Tables

  /** `users`: email is UNIQUE; only the bcrypt hash of the password is kept. */
  datatype User = User(email: string, passwordHash: string)

  /** `groups`: `owner` is the `owner_id` column, the id of the owning user. */
  datatype Group = Group(name: string, description: Option<string>, owner: nat)

  /** `members`: `group` is the `group_id` column. */
  datatype Member = Member(group: nat, name: string)

  /** `tasks`: `member` is the `member_id` column. `completed` has no NOT NULL
      constraint, so an update may store NULL there. */
  datatype Task = Task(member: nat, title: string, description: Option<string>,
                       completed: Option<bool>, dueDate: Option<string>)

  datatype State = State(users: Table<User>, groups: Table<Group>,
                         members: Table<Member>, tasks: Table<Task>)

  /** The freshly created database. */
  function Init(): (st: State)
    ensures Valid(st)
  {
    State(Empty(), Empty(), Empty(), Empty())
  }

  /** True when some stored user has `email`. */
  predicate EmailTaken(users: Table<User>, email: string) {
    exists id :: id in users.rows && users.rows[id].email == email
  }

  /** What the server keeps true of its tables. Ids come from the
      autoincrement counters; emails are unique (the UNIQUE constraint);
      a member's `group_id` and a task's `member_id` were the ids of existing
      rows when they were inserted, so they are ids that were handed out,
      though the row may since have been deleted: foreign keys are not
      enforced, and dangling references are allowed. */
  predicate Valid(st: State) {
    && st.users.Valid() && st.groups.Valid() && st.members.Valid() && st.tasks.Valid()
    && (forall i, j :: i in st.users.rows && j in st.users.rows && i != j ==>
          st.users.rows[i].email != st.users.rows[j].email)
    && (forall m :: m in st.members.rows ==> 1 <= st.members.rows[m].group <= st.groups.last)
    && (forall t :: t in st.tasks.rows ==> 1 <= st.tasks.rows[t].member <= st.members.last)
  }

  /** `groups WHERE id = g AND owner_id = u`: the group exists and `u` owns it. */
  predicate OwnsGroup(st: State, u: nat, g: nat) {
    g in st.groups.rows && st.groups.rows[g].owner == u
  }

  /** The member exists and its group is one `u` owns (members JOIN groups). */
  predicate OwnsMember(st: State, u: nat, m: nat) {
    m in st.members.rows && OwnsGroup(st, u, st.members.rows[m].group)
  }

  /** The task exists and the member it belongs to is one `u` owns. */
  predicate OwnsTask(st: State, u: nat, t: nat) {
    t in st.tasks.rows && OwnsMember(st, u, st.tasks.rows[t].member)
  }

  /** Everything user `u` can reach through the ownership chain. */
  datatype View = View(groups: map<nat, Group>, members: map<nat, Member>, tasks: map<nat, Task>)

  /** True when `v` holds exactly what `u` reaches in `st`, with the stored values. */
  ghost predicate Describes(st: State, u: nat, v: View) {
    GroupsDescribed(st, u, v) && MembersDescribed(st, u, v) && TasksDescribed(st, u, v)
  }

  ghost predicate GroupsDescribed(st: State, u: nat, v: View) {
    && (forall g :: g in v.groups <==> OwnsGroup(st, u, g))
    && (forall g :: g in v.groups ==> v.groups[g] == st.groups.rows[g])
  }

  ghost predicate MembersDescribed(st: State, u: nat, v: View) {
    && (forall m :: m in v.members <==> OwnsMember(st, u, m))
    && (forall m :: m in v.members ==> v.members[m] == st.members.rows[m])
  }

  ghost predicate TasksDescribed(st: State, u: nat, v: View) {
    && (forall t :: t in v.tasks <==> OwnsTask(st, u, t))
    && (forall t :: t in v.tasks ==> v.tasks[t] == st.tasks.rows[t])
  }

  function ViewOf(st: State, u: nat): (v: View)
    ensures Describes(st, u, v)
  {
    View(map g | g in st.groups.rows && OwnsGroup(st, u, g) :: st.groups.rows[g],
         map m | m in st.members.rows && OwnsMember(st, u, m) :: st.members.rows[m],
         map t | t in st.tasks.rows && OwnsTask(st, u, t) :: st.tasks.rows[t])
  }

  /** A description determines the view: `ViewOf` is the only view that
      `Describes` the state. */
  lemma DescribedView(st: State, u: nat, v: View)
    requires Describes(st, u, v)
    ensures ViewOf(st, u) == v
  {
    var w := ViewOf(st, u);
    assert w.groups == v.groups;
    assert w.members == v.members;
    assert w.tasks == v.tasks;
  }

  /** The users table plays no part in what anyone reaches. */
  lemma ViewIgnoresUsers(st: State, st': State, u: nat)
    requires st'.groups == st.groups && st'.members == st.members && st'.tasks == st.tasks
    ensures ViewOf(st', u) == ViewOf(st, u)
  {
    assert Describes(st', u, ViewOf(st, u));
    DescribedView(st', u, ViewOf(st, u));
  }

  /** Two different users never reach the same group, member or task. */
  lemma ViewsDisjoint(st: State, u: nat, w: nat)
    requires u != w
    ensures ViewOf(st, u).groups.Keys !! ViewOf(st, w).groups.Keys
    ensures ViewOf(st, u).members.Keys !! ViewOf(st, w).members.Keys
    ensures ViewOf(st, u).tasks.Keys !! ViewOf(st, w).tasks.Keys
  {
  }
}
