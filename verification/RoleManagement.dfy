/** The role panel (src/components/RoleManagement.jsx): a master list of roles,
    each holding permission names from a fixed catalog, a search box, a sortable
    table and an add/edit form with one checkbox per catalog permission. */
module RoleManagement {
  import opened ListOps
  import opened Sorting
  import opened Text
  import opened Options

  datatype Role = Role(
    id: int,
    name: string,
    description: string,
    permissions: seq<string>,
    userCount: int,
    status: string)

  /** The fields the add/edit form edits. */
  datatype RoleForm = RoleForm(
    name: string,
    description: string,
    permissions: seq<string>,
    status: string)

  /** The sortable table columns. */
  datatype RoleColumn = Name | Description | UserCount | Status

  /** The nine permission names the form offers as checkboxes. */
  const AllPermissions: seq<string> := [
    "user_read", "user_write", "user_delete",
    "role_read", "role_write", "role_delete",
    "permission_read", "permission_write", "permission_delete"
  ]

  /** The list the mock fetch resolves with. */
  const SeedRoles: seq<Role> := [
    Role(1, "Admin", "Full system access", AllPermissions, 2, "Active"),
    Role(2, "Manager", "Limited administrative access", ["user_read", "user_write", "role_read"], 3, "Active"),
    Role(3, "Analyst", "View-only access", ["user_read", "role_read"], 5, "Inactive")
  ]

  /** Every permission a role holds is one of the catalog's. */
  predicate WithinCatalog(perms: seq<string>)
  {
    forall p :: p in perms ==> p in AllPermissions
  }

  /** Every role holds only catalog permissions: the form starts from a role's
      list or from none, and only catalog checkboxes change it. */
  predicate AllWithinCatalog(roles: seq<Role>)
  {
    forall r :: r in roles ==> WithinCatalog(r.permissions)
  }

  /** The seed roles hold only catalog permissions, and the Admin role holds all of them. */
  lemma SeedRolesWithinCatalog()
    ensures AllWithinCatalog(SeedRoles)
    ensures forall p :: p in AllPermissions ==> p in SeedRoles[0].permissions
  {
    assert SeedRoles[1].permissions[0] == AllPermissions[0];
    assert SeedRoles[1].permissions[1] == AllPermissions[1];
    assert SeedRoles[1].permissions[2] == AllPermissions[3];
    assert SeedRoles[2].permissions[0] == AllPermissions[0];
    assert SeedRoles[2].permissions[1] == AllPermissions[3];
  }

  /** `role[sortConfig.key]`: only the user-count column holds numbers. */
  function ColumnValue(r: Role, col: RoleColumn): (k: Key)
    ensures k.Num? <==> col == UserCount
  {
    match col
    case Name => Str(r.name)
    case Description => Str(r.description)
    case UserCount => Num(r.userCount)
    case Status => Str(r.status)
  }

  function KeyOf(col: RoleColumn): Role -> Key
  {
    r => ColumnValue(r, col)
  }

  /** The filter callback of `applyFilters`: the search text in the name or the
      description, ignoring case. An empty search and a search for the role's own
      name or description find it; a search longer than both fields hides it. */
  predicate Matches(r: Role, term: string)
    ensures term == "" || term == r.name || term == r.description ==> Matches(r, term)
    ensures Matches(r, term) ==> |term| <= |r.name| || |term| <= |r.description|
  {
    ContainsEmpty(Lower(r.name));
    assert OccursAt(Lower(r.name), Lower(r.name), 0);
    assert OccursAt(Lower(r.description), Lower(r.description), 0);
    Contains(Lower(r.name), Lower(term)) || Contains(Lower(r.description), Lower(term))
  }

  function Matching(term: string): Role -> bool
  {
    r => Matches(r, term)
  }

  /** `applyFilters(roleList)`: filter, then the stable sort on the configured column. */
  function ApplyFilters(list: seq<Role>, term: string, cfg: SortConfig<RoleColumn>): (r: seq<Role>)
    ensures forall x :: x in r <==> x in list && Matches(x, term)
    ensures forall x {:trigger multiset(r)[x]} ::
              multiset(r)[x] == if Matches(x, term) then multiset(list)[x] else 0
    ensures Ordered(r, KeyOf(cfg.key), cfg.direction)
  {
    var shown := Filter(list, Matching(term));
    var r := SortBy(shown, KeyOf(cfg.key), cfg.direction);
    assert forall x :: Matching(term)(x) == Matches(x, term);
    assert forall x :: x in r <==> x in shown by {
      forall x ensures x in r <==> x in shown {
        assert x in r <==> x in multiset(r);
        assert x in shown <==> x in multiset(shown);
      }
    }
    r
  }

  /** An empty search shows every role, only sorted. */
  lemma EmptySearchShowsAll(list: seq<Role>, cfg: SortConfig<RoleColumn>)
    ensures ApplyFilters(list, "", cfg) == SortBy(list, KeyOf(cfg.key), cfg.direction)
  {
    assert Lower("") == "";
    forall x | x in list ensures Matching("")(x) {
      ContainsEmpty(Lower(x.name));
    }
    FilterKeepsAll(list, Matching(""));
  }

  /** The search ignores case: two texts that lowercase alike select the same roles. */
  lemma SearchIgnoresCase(list: seq<Role>, t1: string, t2: string, cfg: SortConfig<RoleColumn>)
    requires Lower(t1) == Lower(t2)
    ensures ApplyFilters(list, t1, cfg) == ApplyFilters(list, t2, cfg)
  {
    FilterAgree(list, Matching(t1), Matching(t2));
  }

  /** Roles that tie on the sort column appear in master-list order. */
  lemma TiesKeepMasterOrder(list: seq<Role>, term: string, cfg: SortConfig<RoleColumn>, k: Key)
    ensures var shown := Filter(list, Matching(term));
            WithKey(ApplyFilters(list, term, cfg), KeyOf(cfg.key), k) == WithKey(shown, KeyOf(cfg.key), k)
            && IsSubseq(shown, list)
  {
    SortStable(Filter(list, Matching(term)), KeyOf(cfg.key), cfg.direction, k);
  }

  /** The fields of a role that the form edits, as the edit button copies them. */
  function FormOf(r: Role): RoleForm
  {
    RoleForm(r.name, r.description, r.permissions, r.status)
  }

  /** `{ ...r, ...formData }`: the form's fields win, the fields the form does not
      carry are kept, and merging a role's own values changes nothing. */
  function Merge(r: Role, f: RoleForm): (m: Role)
    ensures FormOf(m) == f
    ensures m.id == r.id && m.userCount == r.userCount
    ensures FormOf(r) == f ==> m == r
  {
    r.(name := f.name, description := f.description, permissions := f.permissions, status := f.status)
  }

  /** The form's starting values: the edited role's fields, or the blank defaults. */
  function InitialForm(current: Option<Role>): (f: RoleForm)
    ensures current.Some? ==> Merge(current.value, f) == current.value
    ensures current.None? ==> f.name == "" && f.description == "" && f.permissions == [] && f.status == "Active"
  {
    match current
    case Some(r) => FormOf(r)
    case None => RoleForm("", "", [], "Active")
  }

  /** `handlePermissionToggle(permission)`: check or uncheck one permission box. */
  function TogglePermission(f: RoleForm, p: string): (g: RoleForm)
    ensures g.name == f.name && g.description == f.description && g.status == f.status
    ensures p in g.permissions <==> p !in f.permissions
    ensures forall q :: q != p ==> (q in g.permissions <==> q in f.permissions)
    ensures WithinCatalog(f.permissions) && p in AllPermissions ==> WithinCatalog(g.permissions)
  {
    f.(permissions := Toggle(f.permissions, p))
  }

  /** Checking a box and unchecking it again gives back the form it started from. */
  lemma CheckThenUncheck(f: RoleForm, p: string)
    requires p !in f.permissions
    ensures TogglePermission(TogglePermission(f, p), p) == f
  {
    ToggleTwiceAbsent(f.permissions, p);
  }

  /** Edit: `roles.map(r => r.id === id ? { ...r, ...formData } : r)`. */
  function EditRoles(roles: seq<Role>, id: int, f: RoleForm): (r: seq<Role>)
    ensures |r| == |roles|
    ensures forall i :: 0 <= i < |r| ==> r[i].id == roles[i].id && r[i].userCount == roles[i].userCount
    ensures forall i :: 0 <= i < |r| && roles[i].id == id ==>
              r[i].name == f.name && r[i].description == f.description
              && r[i].permissions == f.permissions && r[i].status == f.status
    ensures forall i :: 0 <= i < |r| && roles[i].id != id ==> r[i] == roles[i]
  {
    seq(|roles|, i requires 0 <= i < |roles| => if roles[i].id == id then Merge(roles[i], f) else roles[i])
  }

  /** Saving a form whose boxes are all catalog permissions keeps every role within the catalog. */
  lemma EditKeepsCatalog(roles: seq<Role>, id: int, f: RoleForm)
    requires AllWithinCatalog(roles)
    requires WithinCatalog(f.permissions)
    ensures AllWithinCatalog(EditRoles(roles, id, f))
  {
    var e := EditRoles(roles, id, f);
    forall r | r in e ensures WithinCatalog(r.permissions) {
      var i :| 0 <= i < |e| && e[i] == r;
      assert roles[i] in roles;
    }
  }

  /** Add: `[...roles, { ...formData, id: roles.length + 1, userCount: 0 }]`. */
  function AddRole(roles: seq<Role>, f: RoleForm): (r: seq<Role>)
    ensures |r| == |roles| + 1 && r[..|roles|] == roles
    ensures r[|roles|].id == |roles| + 1 && r[|roles|].userCount == 0
    ensures Merge(r[|roles|], f) == r[|roles|]
  {
    roles + [Role(|roles| + 1, f.name, f.description, f.permissions, 0, f.status)]
  }

  /** Adding a role from a form of catalog permissions keeps every role within the catalog. */
  lemma AddKeepsCatalog(roles: seq<Role>, f: RoleForm)
    requires AllWithinCatalog(roles)
    requires WithinCatalog(f.permissions)
    ensures AllWithinCatalog(AddRole(roles, f))
  {
    var a := AddRole(roles, f);
    assert a == roles + [a[|roles|]];
  }

  function IdIsNot(id: int): Role -> bool
  {
    (r: Role) => r.id != id
  }

  /** Delete: `roles.filter(u => u.id !== id)`. */
  function RemoveRole(roles: seq<Role>, id: int): (r: seq<Role>)
    ensures IsSubseq(r, roles)
    ensures forall x :: x in r <==> x in roles && x.id != id
    ensures forall x: Role {:trigger multiset(r)[x]} :: x.id != id ==> multiset(r)[x] == multiset(roles)[x]
  {
    Filter(roles, IdIsNot(id))
  }

  /** Adding a role and deleting the new id restores the list, provided no existing
      role already had that id. */
  lemma AddThenRemove(roles: seq<Role>, f: RoleForm)
    requires forall r :: r in roles ==> r.id != |roles| + 1
    ensures RemoveRole(AddRole(roles, f), |roles| + 1) == roles
  {
    var added := AddRole(roles, f);
    assert added == roles + [added[|roles|]];
    FilterAppend(roles, [added[|roles|]], IdIsNot(|roles| + 1));
    FilterKeepsAll(roles, IdIsNot(|roles| + 1));
    var tail := RemoveRole([added[|roles|]], |roles| + 1);
    assert |tail| == 0;
  }

  predicate IsActive(r: Role)
  {
    r.status == "Active"
  }

  /** The header's `roles.filter(r => r.status === 'Active').length`. */
  function CountActive(roles: seq<Role>): (n: nat)
    ensures n <= |roles|
    ensures n == |roles| <==> forall r :: r in roles ==> IsActive(r)
  {
    ActiveCountFull(roles);
    |Filter(roles, IsActive)|
  }

  lemma {:induction false} ActiveCountFull(roles: seq<Role>)
    ensures |Filter(roles, IsActive)| == |roles| <==> forall r :: r in roles ==> IsActive(r)
    decreases |roles|
  {
    if roles != [] {
      ActiveCountFull(roles[1..]);
      FilterCons(roles, IsActive);
      assert [roles[0]][1..] == [];
      assert forall r :: r in roles <==> r == roles[0] || r in roles[1..] by {
        assert roles == [roles[0]] + roles[1..];
      }
    }
  }

  /** Adding a role raises the active count by one exactly when the new role is active. */
  lemma AddRoleActiveCount(roles: seq<Role>, f: RoleForm)
    ensures CountActive(AddRole(roles, f)) == CountActive(roles) + (if f.status == "Active" then 1 else 0)
  {
    var added := AddRole(roles, f);
    assert added == roles + [added[|roles|]];
    FilterAppend(roles, [added[|roles|]], IsActive);
    assert [added[|roles|]][1..] == [];
  }

  /** The role panel's state and handlers. The effect that re-runs `applyFilters`
      watches only the search text and the list; a column click re-sorts the
      visible list in place of re-deriving it. */
  class RolePanel {
    var roles: seq<Role>
    var filteredRoles: seq<Role>
    var searchTerm: string
    var sortConfig: SortConfig<RoleColumn>

    /** The visible list holds exactly the matching roles and is in the configured
        order, and every role holds only catalog permissions. */
    ghost predicate Valid()
      reads this
    {
      && multiset(filteredRoles) == multiset(Filter(roles, Matching(searchTerm)))
      && Ordered(filteredRoles, KeyOf(sortConfig.key), sortConfig.direction)
      && AllWithinCatalog(roles)
    }

    /** What `applyFilters(roles)` yields under the current settings. */
    function Derived(): seq<Role>
      reads this
    {
      ApplyFilters(roles, searchTerm, sortConfig)
    }

    function ActiveCount(): nat
      reads this
    {
      CountActive(roles)
    }

    /** Mounting with the fetched list: no search, sorted by name. */
    constructor (seed: seq<Role>)
      requires AllWithinCatalog(seed)
      ensures roles == seed && searchTerm == "" && sortConfig == SortConfig(Name, Asc)
      ensures filteredRoles == SortBy(seed, KeyOf(Name), Asc)
      ensures Valid()
    {
      roles := seed;
      searchTerm := "";
      sortConfig := SortConfig(Name, Asc);
      filteredRoles := ApplyFilters(seed, "", SortConfig(Name, Asc));
      EmptySearchShowsAll(seed, SortConfig(Name, Asc));
    }

    method SetSearchTerm(term: string)
      requires Valid()
      modifies this
      ensures searchTerm == term && roles == old(roles) && sortConfig == old(sortConfig)
      ensures filteredRoles == Derived() && Valid()
      ensures ActiveCount() == old(ActiveCount())
    {
      searchTerm := term;
      filteredRoles := ApplyFilters(roles, searchTerm, sortConfig);
    }

    /** `handleSort(key)`: update the configuration and stably re-sort a copy of the
        visible list. */
    method HandleSort(col: RoleColumn)
      requires Valid()
      modifies this
      ensures sortConfig == NextSortConfig(old(sortConfig), col)
      ensures filteredRoles == SortBy(old(filteredRoles), KeyOf(col), sortConfig.direction)
      ensures roles == old(roles) && searchTerm == old(searchTerm)
      ensures Valid()
    {
      sortConfig := NextSortConfig(sortConfig, col);
      filteredRoles := SortBy(filteredRoles, KeyOf(col), sortConfig.direction);
    }

    /** `handleSubmit`: edit the role the form was opened on, or add a new one. */
    method HandleSubmit(current: Option<Role>, f: RoleForm)
      requires Valid()
      requires WithinCatalog(f.permissions)
      modifies this
      ensures current.Some? ==> roles == EditRoles(old(roles), current.value.id, f)
      ensures current.None? ==> roles == AddRole(old(roles), f)
      ensures searchTerm == old(searchTerm) && sortConfig == old(sortConfig)
      ensures filteredRoles == Derived() && Valid()
    {
      if current.Some? {
        EditKeepsCatalog(roles, current.value.id, f);
        roles := EditRoles(roles, current.value.id, f);
      } else {
        AddKeepsCatalog(roles, f);
        roles := AddRole(roles, f);
      }
      filteredRoles := ApplyFilters(roles, searchTerm, sortConfig);
    }

    /** The delete button of the row showing a role with id `id`. */
    method Delete(id: int)
      requires Valid()
      modifies this
      ensures roles == RemoveRole(old(roles), id)
      ensures searchTerm == old(searchTerm) && sortConfig == old(sortConfig)
      ensures filteredRoles == Derived() && Valid()
    {
      roles := RemoveRole(roles, id);
      filteredRoles := ApplyFilters(roles, searchTerm, sortConfig);
    }
  }
}
