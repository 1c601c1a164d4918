/** The user panel (src/components/UserManagement.jsx): a master list of users,
    a search box, role and status filters, a sortable table and an add/edit form. */
module UserManagement {
  import opened ListOps
  import opened Sorting
  import opened Text
  import opened Options

  datatype User = User(
    id: int,
    name: string,
    email: string,
    role: string,
    status: string,
    lastLogin: string,
    department: string,
    activity: int)

  /** The fields the add/edit form edits. */
  datatype UserForm = UserForm(
    name: string,
    email: string,
    role: string,
    status: string,
    department: string,
    activity: int)

  /** The sortable table columns. */
  datatype UserColumn = Name | Email | Role | Department | Status | Activity

  /** The sentinel a role or status filter holds when it is cleared. */
  const All := "All"

  /** The list the mock fetch resolves with. */
  const SeedUsers: seq<User> := [
    User(1, "John Doe", "john@example.com", "Admin", "Active", "2024-03-15", "IT", 98),
    User(2, "Jane Smith", "jane@example.com", "Manager", "Active", "2024-03-14", "HR", 85),
    User(3, "Mike Johnson", "mike@example.com", "Analyst", "Inactive", "2024-03-10", "Finance", 45),
    User(4, "Sarah Wilson", "sarah@example.com", "Manager", "Active", "2024-03-13", "Marketing", 92),
    User(5, "David Brown", "david@example.com", "Analyst", "Active", "2024-03-12", "Sales", 76)
  ]

  /** `user[sortConfig.key]`: only the activity column holds numbers. */
  function ColumnValue(u: User, col: UserColumn): (k: Key)
    ensures k.Num? <==> col == Activity
  {
    match col
    case Name => Str(u.name)
    case Email => Str(u.email)
    case Role => Str(u.role)
    case Department => Str(u.department)
    case Status => Str(u.status)
    case Activity => Num(u.activity)
  }

  function KeyOf(col: UserColumn): User -> Key
  {
    u => ColumnValue(u, col)
  }

  /** The filter callback of `applyFilters`: the search text in the name or the
      email, ignoring case, and each filter either cleared or equal. A user passes
      an empty search, and a search for their own name or email, under filters that
      are cleared or set to their own values; a search longer than both fields
      hides them. */
  predicate Matches(u: User, term: string, roleFilter: string, statusFilter: string)
    ensures (term == "" || term == u.name || term == u.email)
            && (roleFilter == All || roleFilter == u.role) && (statusFilter == All || statusFilter == u.status)
            ==> Matches(u, term, roleFilter, statusFilter)
    ensures Matches(u, term, roleFilter, statusFilter) ==> |term| <= |u.name| || |term| <= |u.email|
  {
    ContainsEmpty(Lower(u.name));
    assert OccursAt(Lower(u.name), Lower(u.name), 0);
    assert OccursAt(Lower(u.email), Lower(u.email), 0);
    && (Contains(Lower(u.name), Lower(term)) || Contains(Lower(u.email), Lower(term)))
    && (roleFilter == All || u.role == roleFilter)
    && (statusFilter == All || u.status == statusFilter)
  }

  function Matching(term: string, roleFilter: string, statusFilter: string): User -> bool
  {
    u => Matches(u, term, roleFilter, statusFilter)
  }

  /** `applyFilters(userList)`: filter, then the stable sort on the configured column. */
  function ApplyFilters(list: seq<User>, term: string, roleFilter: string, statusFilter: string,
                        cfg: SortConfig<UserColumn>): (r: seq<User>)
    ensures forall u :: u in r <==> u in list && Matches(u, term, roleFilter, statusFilter)
    ensures forall u {:trigger multiset(r)[u]} ::
              multiset(r)[u] == if Matches(u, term, roleFilter, statusFilter) then multiset(list)[u] else 0
    ensures Ordered(r, KeyOf(cfg.key), cfg.direction)
  {
    var shown := Filter(list, Matching(term, roleFilter, statusFilter));
    var r := SortBy(shown, KeyOf(cfg.key), cfg.direction);
    assert forall u :: Matching(term, roleFilter, statusFilter)(u) == Matches(u, term, roleFilter, statusFilter);
    assert forall u :: u in r <==> u in shown by {
      forall u ensures u in r <==> u in shown {
        assert u in r <==> u in multiset(r);
        assert u in shown <==> u in multiset(shown);
      }
    }
    r
  }

  /** An empty search with both filters on "All" shows every user, only sorted. */
  lemma NoFilterShowsEveryone(list: seq<User>, cfg: SortConfig<UserColumn>)
    ensures ApplyFilters(list, "", All, All, cfg) == SortBy(list, KeyOf(cfg.key), cfg.direction)
  {
    assert Lower("") == "";
    forall u | u in list ensures Matching("", All, All)(u) {
      ContainsEmpty(Lower(u.name));
    }
    FilterKeepsAll(list, Matching("", All, All));
  }

  /** Users that tie on the sort column appear in master-list order. */
  lemma TiesKeepMasterOrder(list: seq<User>, term: string, roleFilter: string, statusFilter: string,
                            cfg: SortConfig<UserColumn>, k: Key)
    ensures var shown := Filter(list, Matching(term, roleFilter, statusFilter));
            WithKey(ApplyFilters(list, term, roleFilter, statusFilter, cfg), KeyOf(cfg.key), k)
              == WithKey(shown, KeyOf(cfg.key), k)
            && IsSubseq(shown, list)
  {
    SortStable(Filter(list, Matching(term, roleFilter, statusFilter)), KeyOf(cfg.key), cfg.direction, k);
  }

  /** The search ignores case: two texts that lowercase alike select the same users. */
  lemma SearchIgnoresCase(list: seq<User>, t1: string, t2: string, roleFilter: string,
                          statusFilter: string, cfg: SortConfig<UserColumn>)
    requires Lower(t1) == Lower(t2)
    ensures ApplyFilters(list, t1, roleFilter, statusFilter, cfg)
         == ApplyFilters(list, t2, roleFilter, statusFilter, cfg)
  {
    FilterAgree(list, Matching(t1, roleFilter, statusFilter), Matching(t2, roleFilter, statusFilter));
  }

  /** The fields of a user that the form edits, as the edit button copies them. */
  function FormOf(u: User): UserForm
  {
    UserForm(u.name, u.email, u.role, u.status, u.department, u.activity)
  }

  /** `{ ...u, ...formData }`: the form's fields win, the fields the form does not
      carry are kept, and merging a user's own values changes nothing. */
  function Merge(u: User, f: UserForm): (r: User)
    ensures FormOf(r) == f
    ensures r.id == u.id && r.lastLogin == u.lastLogin
    ensures FormOf(u) == f ==> r == u
  {
    u.(name := f.name, email := f.email, role := f.role, status := f.status,
       department := f.department, activity := f.activity)
  }

  /** The form's starting values: the edited user's fields, or the blank defaults. */
  function InitialForm(current: Option<User>): (f: UserForm)
    ensures current.Some? ==> Merge(current.value, f) == current.value
    ensures current.None? ==> f.role == "Analyst" && f.status == "Active" && f.activity == 50
                              && f.name == "" && f.email == "" && f.department == ""
  {
    match current
    case Some(u) => FormOf(u)
    case None => UserForm("", "", "Analyst", "Active", "", 50)
  }

  /** Edit: `users.map(u => u.id === id ? { ...u, ...formData } : u)`. */
  function EditUsers(users: seq<User>, id: int, f: UserForm): (r: seq<User>)
    ensures |r| == |users|
    ensures forall i :: 0 <= i < |r| ==> r[i].id == users[i].id && r[i].lastLogin == users[i].lastLogin
    ensures forall i :: 0 <= i < |r| && users[i].id == id ==>
              && r[i].name == f.name && r[i].email == f.email && r[i].role == f.role
              && r[i].status == f.status && r[i].department == f.department && r[i].activity == f.activity
    ensures forall i :: 0 <= i < |r| && users[i].id != id ==> r[i] == users[i]
  {
    seq(|users|, i requires 0 <= i < |users| => if users[i].id == id then Merge(users[i], f) else users[i])
  }

  /** Editing an id no user has leaves the list exactly as it was. */
  lemma EditAbsentIdChangesNothing(users: seq<User>, id: int, f: UserForm)
    requires forall u :: u in users ==> u.id != id
    ensures EditUsers(users, id, f) == users
  {
  }

  /** Submitting the same edit twice is the same as submitting it once. */
  lemma EditIdempotent(users: seq<User>, id: int, f: UserForm)
    ensures EditUsers(EditUsers(users, id, f), id, f) == EditUsers(users, id, f)
  {
  }

  /** Add: `[...users, { ...formData, id: users.length + 1, lastLogin: today }]`. */
  function AddUser(users: seq<User>, f: UserForm, today: string): (r: seq<User>)
    ensures |r| == |users| + 1 && r[..|users|] == users
    ensures r[|users|].id == |users| + 1 && r[|users|].lastLogin == today
    ensures Merge(r[|users|], f) == r[|users|]
  {
    users + [User(|users| + 1, f.name, f.email, f.role, f.status, today, f.department, f.activity)]
  }

  function IdIsNot(id: int): User -> bool
  {
    (u: User) => u.id != id
  }

  /** Delete: `users.filter(u => u.id !== id)`. */
  function RemoveUser(users: seq<User>, id: int): (r: seq<User>)
    ensures IsSubseq(r, users)
    ensures forall u :: u in r <==> u in users && u.id != id
    ensures forall u: User {:trigger multiset(r)[u]} :: u.id != id ==> multiset(r)[u] == multiset(users)[u]
  {
    Filter(users, IdIsNot(id))
  }

  /** Adding a user and deleting the new id restores the list, provided no existing
      user already had that id. */
  lemma AddThenRemove(users: seq<User>, f: UserForm, today: string)
    requires forall u :: u in users ==> u.id != |users| + 1
    ensures RemoveUser(AddUser(users, f, today), |users| + 1) == users
  {
    var added := AddUser(users, f, today);
    assert added == users + [added[|users|]];
    FilterAppend(users, [added[|users|]], IdIsNot(|users| + 1));
    FilterKeepsAll(users, IdIsNot(|users| + 1));
    NoneWithId([added[|users|]], |users| + 1);
  }

  lemma NoneWithId(users: seq<User>, id: int)
    requires forall u :: u in users ==> u.id == id
    ensures RemoveUser(users, id) == []
  {
    var r := RemoveUser(users, id);
    assert |r| == 0;
  }

  /** Ids are `length + 1`, so after a delete a new user can get the id of one still
      in the list, and deleting it then removes both. */
  lemma AddAfterRemoveCanReuseId()
    ensures RemoveUser(SeedUsers[..2], 1) == [SeedUsers[1]]
    ensures AddUser([SeedUsers[1]], InitialForm(None), "2024-04-01")[1].id == SeedUsers[1].id
    ensures RemoveUser(AddUser([SeedUsers[1]], InitialForm(None), "2024-04-01"), SeedUsers[1].id) == []
  {
    var kept := RemoveUser(SeedUsers[..2], 1);
    assert SeedUsers[..2] == [SeedUsers[0]] + [SeedUsers[1]];
    FilterAppend([SeedUsers[0]], [SeedUsers[1]], IdIsNot(1));
    NoneWithId([SeedUsers[0]], 1);
    FilterKeepsAll([SeedUsers[1]], IdIsNot(1));
    assert kept == [SeedUsers[1]];
    NoneWithId(AddUser(kept, InitialForm(None), "2024-04-01"), 2);
  }

  predicate IsActive(u: User)
  {
    u.status == "Active"
  }

  /** The header's `users.filter(u => u.status === 'Active').length`. */
  function CountActive(users: seq<User>): (n: nat)
    ensures n <= |users|
    ensures n == |users| <==> forall u :: u in users ==> IsActive(u)
  {
    var active := Filter(users, IsActive);
    ActiveCountFull(users);
    |active|
  }

  lemma {:induction false} ActiveCountFull(users: seq<User>)
    ensures |Filter(users, IsActive)| == |users| <==> forall u :: u in users ==> IsActive(u)
    decreases |users|
  {
    if users != [] {
      ActiveCountFull(users[1..]);
      FilterCons(users, IsActive);
      assert [users[0]][1..] == [];
      assert forall u :: u in users <==> u == users[0] || u in users[1..] by {
        assert users == [users[0]] + users[1..];
      }
    }
  }

  /** Adding a user raises the active count by one exactly when the new user is active. */
  lemma AddUserActiveCount(users: seq<User>, f: UserForm, today: string)
    ensures CountActive(AddUser(users, f, today)) == CountActive(users) + (if f.status == "Active" then 1 else 0)
  {
    var added := AddUser(users, f, today);
    assert added == users + [added[|users|]];
    FilterAppend(users, [added[|users|]], IsActive);
    assert [added[|users|]][1..] == [];
  }

  /** A column click re-sorts the visible list, so rows that tie on the new column
      keep the order of the previous sort; re-deriving from the master list would put
      them in master-list order instead. With two users of the same status whose
      names are out of order, sorting by name and then clicking "status" shows them
      by name, while `applyFilters` sorted by status shows them as listed. */
  lemma ClickSortKeepsPreviousTieOrder(a: User, b: User)
    requires a.status == b.status
    requires Less(Str(b.name), Str(a.name))
    ensures SortBy(SortBy([a, b], KeyOf(Name), Asc), KeyOf(Status), Asc) == [b, a]
    ensures ApplyFilters([a, b], "", All, All, SortConfig(Status, Asc)) == [a, b]
  {
    var byName := SortBy([a, b], KeyOf(Name), Asc);
    assert byName == [byName[0], byName[1]];
    assert multiset(byName) == multiset([a, b]);
    KeyOrder(Str(a.name), Str(b.name), Str(a.name));
    assert !Ordered([a, b], KeyOf(Name), Asc);
    assert byName == [b, a];
    TiesKeepInputOrderBothWays(b, a, KeyOf(Status));
    TiesKeepInputOrderBothWays(a, b, KeyOf(Status));
    NoFilterShowsEveryone([a, b], SortConfig(Status, Asc));
  }

  /** The user panel's state and handlers. The effect that re-runs `applyFilters`
      when the list or a filter changes does not watch the sort setting; a column
      click re-sorts the visible list in place of re-deriving it. */
  class UserPanel {
    var users: seq<User>
    var filteredUsers: seq<User>
    var searchTerm: string
    var roleFilter: string
    var statusFilter: string
    var sortConfig: SortConfig<UserColumn>

    /** The visible list holds exactly the matching users and is in the configured order. */
    ghost predicate Valid()
      reads this
    {
      && multiset(filteredUsers) == multiset(Filter(users, Matching(searchTerm, roleFilter, statusFilter)))
      && Ordered(filteredUsers, KeyOf(sortConfig.key), sortConfig.direction)
    }

    /** What `applyFilters(users)` yields under the current settings. */
    function Derived(): seq<User>
      reads this
    {
      ApplyFilters(users, searchTerm, roleFilter, statusFilter, sortConfig)
    }

    function ActiveCount(): nat
      reads this
    {
      CountActive(users)
    }

    /** Mounting with the fetched list: no search, no filters, sorted by name. */
    constructor (seed: seq<User>)
      ensures users == seed && searchTerm == "" && roleFilter == All && statusFilter == All
      ensures sortConfig == SortConfig(Name, Asc)
      ensures filteredUsers == SortBy(seed, KeyOf(Name), Asc)
      ensures Valid()
    {
      users := seed;
      searchTerm, roleFilter, statusFilter := "", All, All;
      sortConfig := SortConfig(Name, Asc);
      filteredUsers := ApplyFilters(seed, "", All, All, SortConfig(Name, Asc));
      NoFilterShowsEveryone(seed, SortConfig(Name, Asc));
    }

    method SetSearchTerm(term: string)
      modifies this
      ensures searchTerm == term
      ensures users == old(users) && roleFilter == old(roleFilter) && statusFilter == old(statusFilter)
      ensures sortConfig == old(sortConfig)
      ensures filteredUsers == Derived() && Valid()
      ensures ActiveCount() == old(ActiveCount())
    {
      searchTerm := term;
      filteredUsers := ApplyFilters(users, searchTerm, roleFilter, statusFilter, sortConfig);
    }

    method SetRoleFilter(role: string)
      modifies this
      ensures roleFilter == role
      ensures users == old(users) && searchTerm == old(searchTerm) && statusFilter == old(statusFilter)
      ensures sortConfig == old(sortConfig)
      ensures filteredUsers == Derived() && Valid()
      ensures ActiveCount() == old(ActiveCount())
    {
      roleFilter := role;
      filteredUsers := ApplyFilters(users, searchTerm, roleFilter, statusFilter, sortConfig);
    }

    method SetStatusFilter(status: string)
      modifies this
      ensures statusFilter == status
      ensures users == old(users) && searchTerm == old(searchTerm) && roleFilter == old(roleFilter)
      ensures sortConfig == old(sortConfig)
      ensures filteredUsers == Derived() && Valid()
      ensures ActiveCount() == old(ActiveCount())
    {
      statusFilter := status;
      filteredUsers := ApplyFilters(users, searchTerm, roleFilter, statusFilter, sortConfig);
    }

    /** `handleSort(key)`: update the configuration and stably re-sort a copy of the
        visible list. */
    method HandleSort(col: UserColumn)
      requires Valid()
      modifies this
      ensures sortConfig == NextSortConfig(old(sortConfig), col)
      ensures filteredUsers == SortBy(old(filteredUsers), KeyOf(col), sortConfig.direction)
      ensures users == old(users) && searchTerm == old(searchTerm)
      ensures roleFilter == old(roleFilter) && statusFilter == old(statusFilter)
      ensures Valid()
    {
      sortConfig := NextSortConfig(sortConfig, col);
      filteredUsers := SortBy(filteredUsers, KeyOf(col), sortConfig.direction);
    }

    /** `handleSubmit`: edit the user the form was opened on, or add a new one. */
    method HandleSubmit(current: Option<User>, f: UserForm, today: string)
      modifies this
      ensures current.Some? ==> users == EditUsers(old(users), current.value.id, f)
      ensures current.None? ==> users == AddUser(old(users), f, today)
      ensures searchTerm == old(searchTerm) && roleFilter == old(roleFilter)
      ensures statusFilter == old(statusFilter) && sortConfig == old(sortConfig)
      ensures filteredUsers == Derived() && Valid()
    {
      if current.Some? {
        users := EditUsers(users, current.value.id, f);
      } else {
        users := AddUser(users, f, today);
      }
      filteredUsers := ApplyFilters(users, searchTerm, roleFilter, statusFilter, sortConfig);
    }

    /** The delete button of the row showing a user with id `id`. */
    method Delete(id: int)
      modifies this
      ensures users == RemoveUser(old(users), id)
      ensures searchTerm == old(searchTerm) && roleFilter == old(roleFilter)
      ensures statusFilter == old(statusFilter) && sortConfig == old(sortConfig)
      ensures filteredUsers == Derived() && Valid()
    {
      users := RemoveUser(users, id);
      filteredUsers := ApplyFilters(users, searchTerm, roleFilter, statusFilter, sortConfig);
    }
  }
}
