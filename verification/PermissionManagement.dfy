/** The permission panel (src/components/PermissionManagement.jsx): role cards
    over a fixed catalog of permissions, each permission in one category; a search
    box, an add/edit form with the catalog grouped by category, and one card at a
    time expanded to show the role's permissions grouped by category. */
module PermissionManagement {
  import opened ListOps
  import opened Sorting
  import opened Text
  import opened Options

  datatype Permission = Permission(id: int, name: string, category: string)

  datatype Role = Role(
    id: int,
    name: string,
    description: string,
    status: string,
    userCount: int,
    permissions: seq<int>,
    created: string,
    lastModified: string)

  /** The fields the add/edit form edits. */
  datatype RoleForm = RoleForm(
    name: string,
    description: string,
    status: string,
    permissions: seq<int>)

  /** The sort keys the model offers, chosen from the role's scalar fields. No
      header passing a key is rendered, so only the default `name` is reachable. */
  datatype RoleColumn = Name | Description | Status | UserCount | Created | LastModified

  /** The twelve permissions the panel offers, in display order. */
  const Catalog: seq<Permission> := [
    Permission(1, "View Users", "User Management"),
    Permission(2, "Create Users", "User Management"),
    Permission(3, "Edit Users", "User Management"),
    Permission(4, "Delete Users", "User Management"),
    Permission(5, "View Roles", "Role Management"),
    Permission(6, "Create Roles", "Role Management"),
    Permission(7, "Edit Roles", "Role Management"),
    Permission(8, "Delete Roles", "Role Management"),
    Permission(9, "View Reports", "Reporting"),
    Permission(10, "Export Data", "Reporting"),
    Permission(11, "System Settings", "Administration"),
    Permission(12, "API Access", "Administration")
  ]

  /** The list the mock fetch resolves with. */
  const SeedRoles: seq<Role> := [
    Role(1, "Super Admin", "Full system access with all permissions", "Active", 3,
         [1, 2, 3, 4, 5, 6, 7, 8, 9, 10, 11, 12], "2024-01-15", "2024-03-20"),
    Role(2, "Manager", "Access to manage users and view reports", "Active", 8,
         [1, 2, 3, 5, 9, 10], "2024-01-20", "2024-03-18"),
    Role(3, "Analyst", "Basic access with reporting capabilities", "Active", 15,
         [1, 5, 9, 10], "2024-02-01", "2024-03-15"),
    Role(4, "Guest", "Limited view-only access", "Inactive", 5,
         [1, 5], "2024-02-15", "2024-03-10")
  ]

  /** Every id is the id of a catalog permission. */
  predicate CatalogIds(ids: seq<int>)
  {
    forall id :: id in ids ==> 1 <= id <= 12
  }

  /** Every role refers only to catalog permissions: the form starts from a role's
      ids or from none, and only catalog checkboxes change it. */
  predicate AllCatalogIds(roles: seq<Role>)
  {
    forall r :: r in roles ==> CatalogIds(r.permissions)
  }

  /** The catalog's ids are 1 to 12, in order. */
  lemma CatalogIdsAreOneToTwelve()
    ensures |Catalog| == 12
    ensures forall i :: 0 <= i < |Catalog| ==> Catalog[i].id == i + 1
  {
  }

  /** An id names a catalog permission exactly when it lies in 1 to 12, so
      `CatalogIds` says that every id names a catalog permission. */
  lemma CatalogIdRange(id: int)
    ensures (exists p :: p in Catalog && p.id == id) <==> 1 <= id <= 12
  {
    CatalogIdsAreOneToTwelve();
    if 1 <= id <= 12 {
      assert Catalog[id - 1] in Catalog;
    }
    if exists p :: p in Catalog && p.id == id {
      var p :| p in Catalog && p.id == id;
      var i :| 0 <= i < |Catalog| && Catalog[i] == p;
    }
  }

  /** The seed roles refer only to catalog permissions. */
  lemma SeedRolesWithinCatalog()
    ensures AllCatalogIds(SeedRoles)
  {
  }

  // ----- Grouping by category -----

  /** One entry of `Object.entries(...)` after the grouping `reduce`. */
  datatype Group = Group(category: string, members: seq<Permission>)

  function Categories(gs: seq<Group>): (cs: seq<string>)
    ensures |cs| == |gs| && forall i :: 0 <= i < |gs| ==> cs[i] == gs[i].category
  {
    seq(|gs|, i requires 0 <= i < |gs| => gs[i].category)
  }

  function CategoryList(perms: seq<Permission>): (cs: seq<string>)
    ensures |cs| == |perms| && forall i :: 0 <= i < |perms| ==> cs[i] == perms[i].category
  {
    seq(|perms|, i requires 0 <= i < |perms| => perms[i].category)
  }

  function InCategory(c: string): Permission -> bool
  {
    (p: Permission) => p.category == c
  }

  /** The position of the first occurrence of `c`, or `|cs|` when there is none. */
  function FirstIndex(cs: seq<string>, c: string): (n: nat)
    ensures n <= |cs|
    ensures n < |cs| <==> c in cs
    ensures n < |cs| ==> cs[n] == c
    ensures forall i :: 0 <= i < n ==> cs[i] != c
  {
    if cs == [] then 0
    else if cs[0] == c then 0
    else 1 + FirstIndex(cs[1..], c)
  }

  lemma {:induction false} FirstIndexAppend(cs: seq<string>, x: string, c: string)
    requires c in cs || c == x
    ensures FirstIndex(cs + [x], c) == if c in cs then FirstIndex(cs, c) else |cs|
    decreases |cs|
  {
    if cs == [] {
    } else if cs[0] != c {
      assert (cs + [x])[1..] == cs[1..] + [x];
      FirstIndexAppend(cs[1..], x, c);
    }
  }

  /** No two groups share a category: the accumulator is an object keyed by category. */
  predicate DistinctCategories(gs: seq<Group>)
  {
    forall i, j :: 0 <= i < j < |gs| ==> gs[i].category != gs[j].category
  }

  /** `r` is `gs` after adding `p` under its category: a category already present
      keeps its position and gains `p` at the end of its members; a new one goes
      last; no category appears twice. */
  ghost predicate AddedToGroup(gs: seq<Group>, p: Permission, r: seq<Group>)
  {
    && DistinctCategories(r)
    && (p.category in Categories(gs) ==>
          |r| == |gs|
          && forall i :: 0 <= i < |gs| ==>
               r[i].category == gs[i].category
               && r[i].members == gs[i].members + (if gs[i].category == p.category then [p] else []))
    && (p.category !in Categories(gs) ==> r == gs + [Group(p.category, [p])])
  }

  /** One step of the grouping `reduce`: `{ ...acc, [cat]: [...(acc[cat] || []), perm] }`.
      A category already present keeps its position; a new one goes last. */
  function AddToGroup(gs: seq<Group>, p: Permission): (r: seq<Group>)
    requires DistinctCategories(gs)
    ensures AddedToGroup(gs, p, r)
    decreases |gs|
  {
    if gs == [] then [Group(p.category, [p])]
    else if gs[0].category == p.category then
      var r := [gs[0].(members := gs[0].members + [p])] + gs[1..];
      AddToFirstGroup(gs, p, r);
      r
    else
      assert DistinctCategories(gs[1..]) by {
        forall i, j | 0 <= i < j < |gs| - 1 ensures gs[1..][i].category != gs[1..][j].category {
          assert gs[1..][i] == gs[i + 1] && gs[1..][j] == gs[j + 1];
        }
      }
      var rest := AddToGroup(gs[1..], p);
      AddToLaterGroup(gs, p, rest);
      [gs[0]] + rest
  }

  lemma AddToFirstGroup(gs: seq<Group>, p: Permission, r: seq<Group>)
    requires gs != [] && DistinctCategories(gs) && gs[0].category == p.category
    requires r == [gs[0].(members := gs[0].members + [p])] + gs[1..]
    ensures AddedToGroup(gs, p, r)
  {
    assert Categories(gs)[0] == p.category;
    forall i, j | 0 <= i < j < |r| ensures r[i].category != r[j].category {
      assert r[i].category == gs[i].category && r[j].category == gs[j].category;
    }
  }

  lemma AddToLaterGroup(gs: seq<Group>, p: Permission, rest: seq<Group>)
    requires gs != [] && DistinctCategories(gs) && gs[0].category != p.category
    requires AddedToGroup(gs[1..], p, rest)
    ensures AddedToGroup(gs, p, [gs[0]] + rest)
  {
    assert Categories(gs) == [gs[0].category] + Categories(gs[1..]);
    if p.category in Categories(gs[1..]) {
      LaterGroupPresent(gs, p, rest);
    } else {
      assert rest == gs[1..] + [Group(p.category, [p])];
      LaterGroupAbsent(gs, p, rest);
    }
  }

  lemma LaterGroupPresent(gs: seq<Group>, p: Permission, rest: seq<Group>)
    requires gs != [] && DistinctCategories(gs) && gs[0].category != p.category
    requires DistinctCategories(rest) && |rest| == |gs| - 1
    requires forall i :: 0 <= i < |rest| ==>
               rest[i].category == gs[i + 1].category
               && rest[i].members == gs[i + 1].members + (if gs[i + 1].category == p.category then [p] else [])
    ensures DistinctCategories([gs[0]] + rest)
    ensures |[gs[0]] + rest| == |gs|
    ensures forall i :: 0 <= i < |gs| ==>
              ([gs[0]] + rest)[i].category == gs[i].category
              && ([gs[0]] + rest)[i].members == gs[i].members + (if gs[i].category == p.category then [p] else [])
  {
    var r := [gs[0]] + rest;
    forall i | 0 <= i < |gs| ensures r[i].category == gs[i].category {
      if i > 0 {
        assert r[i] == rest[i - 1];
      }
    }
  }

  lemma LaterGroupAbsent(gs: seq<Group>, p: Permission, rest: seq<Group>)
    requires gs != [] && DistinctCategories(gs) && gs[0].category != p.category
    requires p.category !in Categories(gs)
    requires rest == gs[1..] + [Group(p.category, [p])]
    ensures [gs[0]] + rest == gs + [Group(p.category, [p])]
    ensures DistinctCategories(gs + [Group(p.category, [p])])
  {
    assert gs == [gs[0]] + gs[1..];
    var r := gs + [Group(p.category, [p])];
    forall i, j | 0 <= i < j < |r| ensures r[i].category != r[j].category {
      if j == |gs| {
        assert Categories(gs)[i] == gs[i].category;
      }
    }
  }

  /** `gs` is `perms` grouped by category: one group per category that occurs,
      each holding that category's permissions in their original order, the
      groups in order of each category's first appearance. */
  ghost predicate Grouped(perms: seq<Permission>, gs: seq<Group>)
  {
    && (forall c :: c in Categories(gs) <==> c in CategoryList(perms))
    && (forall i :: 0 <= i < |gs| ==> gs[i].members == Filter(perms, InCategory(gs[i].category)))
    && (forall i, j :: 0 <= i < j < |gs| ==>
          FirstIndex(CategoryList(perms), gs[i].category) < FirstIndex(CategoryList(perms), gs[j].category))
  }

  /** The grouping `perms.reduce(...)` followed by `Object.entries`. */
  function GroupByCategory(perms: seq<Permission>): (gs: seq<Group>)
    ensures Grouped(perms, gs)
    decreases |perms|
  {
    if perms == [] then []
    else
      var init := perms[..|perms| - 1];
      var p := perms[|perms| - 1];
      var g0 := GroupByCategory(init);
      GroupStep(perms, g0);
      AddToGroup(g0, p)
  }

  /** The inductive step of `GroupByCategory`: grouping one more permission. */
  lemma {:induction false} GroupStep(perms: seq<Permission>, g0: seq<Group>)
    requires perms != [] && Grouped(perms[..|perms| - 1], g0)
    ensures DistinctCategories(g0)
    ensures Grouped(perms, AddToGroup(g0, perms[|perms| - 1]))
  {
    var init, p := perms[..|perms| - 1], perms[|perms| - 1];
    assert init + [p] == perms;
    var gs := AddToGroup(g0, p);
    GroupStepCategories(init, p, g0);
    GroupStepMembers(init, p, g0, gs);
    GroupStepOrder(init, p, g0, gs);
  }

  lemma CategoryListAppend(init: seq<Permission>, p: Permission)
    ensures CategoryList(init + [p]) == CategoryList(init) + [p.category]
  {
  }

  /** Grouping one more permission: the categories grow by that permission's. */
  lemma {:induction false} GroupStepCategories(init: seq<Permission>, p: Permission, g0: seq<Group>)
    requires DistinctCategories(g0)
    requires forall c :: c in Categories(g0) <==> c in CategoryList(init)
    ensures forall c :: c in Categories(AddToGroup(g0, p)) <==> c in CategoryList(init + [p])
  {
    var gs := AddToGroup(g0, p);
    CategoryListAppend(init, p);
    if p.category in Categories(g0) {
      assert Categories(gs) == Categories(g0);
    } else {
      assert Categories(gs) == Categories(g0) + [p.category];
    }
  }

  /** Grouping one more permission: each group is still its category's permissions. */
  lemma {:induction false} GroupStepMembers(init: seq<Permission>, p: Permission, g0: seq<Group>, gs: seq<Group>)
    requires DistinctCategories(g0) && gs == AddToGroup(g0, p)
    requires forall c :: c in Categories(g0) <==> c in CategoryList(init)
    requires forall i :: 0 <= i < |g0| ==> g0[i].members == Filter(init, InCategory(g0[i].category))
    ensures forall i :: 0 <= i < |gs| ==> gs[i].members == Filter(init + [p], InCategory(gs[i].category))
  {
    var perms := init + [p];
    forall i | 0 <= i < |gs| ensures gs[i].members == Filter(perms, InCategory(gs[i].category)) {
      var c := gs[i].category;
      FilterAppend(init, [p], InCategory(c));
      assert [p][1..] == [];
      if i == |g0| {
        assert c == p.category && c !in Categories(g0);
        forall q | q in init ensures !InCategory(c)(q) {
          var k :| 0 <= k < |init| && init[k] == q;
          assert CategoryList(init)[k] == q.category;
        }
        FilterKeepsNone(init, InCategory(c));
      }
    }
  }

  /** Grouping one more permission: the groups stay in first-appearance order. */
  lemma {:induction false} GroupStepOrder(init: seq<Permission>, p: Permission, g0: seq<Group>, gs: seq<Group>)
    requires DistinctCategories(g0) && gs == AddToGroup(g0, p)
    requires forall c :: c in Categories(g0) <==> c in CategoryList(init)
    requires forall i, j :: 0 <= i < j < |g0| ==>
               FirstIndex(CategoryList(init), g0[i].category) < FirstIndex(CategoryList(init), g0[j].category)
    ensures forall i, j :: 0 <= i < j < |gs| ==>
              FirstIndex(CategoryList(init + [p]), gs[i].category) < FirstIndex(CategoryList(init + [p]), gs[j].category)
  {
    CategoryListAppend(init, p);
    forall i, j | 0 <= i < j < |gs|
      ensures FirstIndex(CategoryList(init + [p]), gs[i].category) < FirstIndex(CategoryList(init + [p]), gs[j].category)
    {
      assert Categories(g0)[i] == g0[i].category;
      FirstIndexAppend(CategoryList(init), p.category, gs[i].category);
      if j < |g0| {
        assert Categories(g0)[j] == g0[j].category;
      }
      FirstIndexAppend(CategoryList(init), p.category, gs[j].category);
    }
  }

  /** Every permission sits in exactly one group: the one named by its category. */
  lemma InExactlyOneGroup(perms: seq<Permission>, p: Permission, i: int)
    requires p in perms
    requires 0 <= i < |GroupByCategory(perms)|
    ensures p in GroupByCategory(perms)[i].members <==> GroupByCategory(perms)[i].category == p.category
    ensures exists k :: 0 <= k < |GroupByCategory(perms)| && GroupByCategory(perms)[k].category == p.category
  {
    var gs := GroupByCategory(perms);
    var k :| 0 <= k < |perms| && perms[k] == p;
    assert CategoryList(perms)[k] == p.category;
    assert p.category in Categories(gs);
  }

  /** No category heads two groups. */
  lemma CategoriesDistinct(perms: seq<Permission>, i: int, j: int)
    requires 0 <= i < j < |GroupByCategory(perms)|
    ensures GroupByCategory(perms)[i].category != GroupByCategory(perms)[j].category
  {
  }

  // ----- The expanded card -----

  /** The filter callback `p => ids.includes(p.id)`. */
  function HeldIn(ids: seq<int>): Permission -> bool
  {
    (p: Permission) => p.id in ids
  }

  /** The expanded card: the catalog entries whose ids the role holds, grouped by category. */
  function ExpandedView(role: Role): (gs: seq<Group>)
    ensures Grouped(Filter(Catalog, HeldIn(role.permissions)), gs)
  {
    GroupByCategory(Filter(Catalog, HeldIn(role.permissions)))
  }

  /** A permission is listed on the expanded card exactly when it is in the catalog and
      the role holds its id; it is listed under its own category. Ids outside the
      catalog are not shown. */
  lemma ExpandedViewShows(role: Role, p: Permission)
    ensures (exists k :: 0 <= k < |ExpandedView(role)| && p in ExpandedView(role)[k].members)
            <==> p in Catalog && p.id in role.permissions
    ensures forall k :: 0 <= k < |ExpandedView(role)| && p in ExpandedView(role)[k].members
              ==> ExpandedView(role)[k].category == p.category
  {
    var held := HeldIn(role.permissions);
    var shown := Filter(Catalog, held);
    var gs := ExpandedView(role);
    forall k | 0 <= k < |gs| && p in gs[k].members ensures p in shown && gs[k].category == p.category {
      assert gs[k].members == Filter(shown, InCategory(gs[k].category));
    }
    if p in Catalog && p.id in role.permissions {
      assert held(p);
      assert p in shown;
      InExactlyOneGroup(shown, p, 0);
      var k :| 0 <= k < |gs| && gs[k].category == p.category;
      InExactlyOneGroup(shown, p, k);
    }
  }

  /** The expand button: `setExpandedRole(expandedRole === id ? null : id)`. */
  function NextExpanded(current: Option<int>, id: int): (r: Option<int>)
    ensures r == Some(id) <==> current != Some(id)
    ensures r.Some? ==> r.value == id
  {
    if current == Some(id) then None else Some(id)
  }

  /** Clicking one card twice returns to "none expanded" if another card, or none,
      was expanded before, and leaves it expanded if it already was. */
  lemma ExpandTwice(current: Option<int>, id: int)
    ensures NextExpanded(NextExpanded(current, id), id) == if current == Some(id) then Some(id) else None
  {
  }

  // ----- Search, sort and the edit form -----

  /** `role[sortConfig.key]`: only the user-count column holds numbers. */
  function ColumnValue(r: Role, col: RoleColumn): (k: Key)
    ensures k.Num? <==> col == UserCount
  {
    match col
    case Name => Str(r.name)
    case Description => Str(r.description)
    case Status => Str(r.status)
    case UserCount => Num(r.userCount)
    case Created => Str(r.created)
    case LastModified => Str(r.lastModified)
  }

  function KeyOf(col: RoleColumn): Role -> Key
  {
    r => ColumnValue(r, col)
  }

  /** The filter callback of `applyFilters`: the search text in the name or the
      description, ignoring case. An empty search and a search for the role's own
      name or description find it; a search longer than both fields hides it. */
  predicate Matches(r: Role, term: string)
    ensures term == "" || term == r.name || term == r.description ==> Matches(r, term)
    ensures Matches(r, term) ==> |term| <= |r.name| || |term| <= |r.description|
  {
    ContainsEmpty(Lower(r.name));
    assert OccursAt(Lower(r.name), Lower(r.name), 0);
    assert OccursAt(Lower(r.description), Lower(r.description), 0);
    Contains(Lower(r.name), Lower(term)) || Contains(Lower(r.description), Lower(term))
  }

  function Matching(term: string): Role -> bool
  {
    r => Matches(r, term)
  }

  /** `applyFilters(roleList)`: filter, then the stable sort on the configured column. */
  function ApplyFilters(list: seq<Role>, term: string, cfg: SortConfig<RoleColumn>): (r: seq<Role>)
    ensures forall x :: x in r <==> x in list && Matches(x, term)
    ensures forall x {:trigger multiset(r)[x]} ::
              multiset(r)[x] == if Matches(x, term) then multiset(list)[x] else 0
    ensures Ordered(r, KeyOf(cfg.key), cfg.direction)
  {
    var shown := Filter(list, Matching(term));
    var r := SortBy(shown, KeyOf(cfg.key), cfg.direction);
    assert forall x :: Matching(term)(x) == Matches(x, term);
    assert forall x :: x in r <==> x in shown by {
      forall x ensures x in r <==> x in shown {
        assert x in r <==> x in multiset(r);
        assert x in shown <==> x in multiset(shown);
      }
    }
    r
  }

  /** An empty search shows every role, only sorted. */
  lemma EmptySearchShowsAll(list: seq<Role>, cfg: SortConfig<RoleColumn>)
    ensures ApplyFilters(list, "", cfg) == SortBy(list, KeyOf(cfg.key), cfg.direction)
  {
    assert Lower("") == "";
    forall x | x in list ensures Matching("")(x) {
      ContainsEmpty(Lower(x.name));
    }
    FilterKeepsAll(list, Matching(""));
  }

  /** The search ignores case: two texts that lowercase alike select the same roles. */
  lemma SearchIgnoresCase(list: seq<Role>, t1: string, t2: string, cfg: SortConfig<RoleColumn>)
    requires Lower(t1) == Lower(t2)
    ensures ApplyFilters(list, t1, cfg) == ApplyFilters(list, t2, cfg)
  {
    FilterAgree(list, Matching(t1), Matching(t2));
  }

  /** The fields of a role that the form edits, as the edit button copies them. */
  function FormOf(r: Role): RoleForm
  {
    RoleForm(r.name, r.description, r.status, r.permissions)
  }

  /** `{ ...r, ...formData }`: the form's fields win, the fields the form does not
      carry are kept, and merging a role's own values changes nothing. */
  function Merge(r: Role, f: RoleForm): (m: Role)
    ensures FormOf(m) == f
    ensures m.id == r.id && m.userCount == r.userCount
    ensures m.created == r.created && m.lastModified == r.lastModified
    ensures FormOf(r) == f ==> m == r
  {
    r.(name := f.name, description := f.description, status := f.status, permissions := f.permissions)
  }

  /** The form's starting values: the edited role's fields, or the blank defaults. */
  function InitialForm(current: Option<Role>): (f: RoleForm)
    ensures current.Some? ==> Merge(current.value, f) == current.value
    ensures current.None? ==> f.name == "" && f.description == "" && f.status == "Active" && f.permissions == []
  {
    match current
    case Some(r) => FormOf(r)
    case None => RoleForm("", "", "Active", [])
  }

  /** `togglePermission(permissionId)`: check or uncheck one permission box. */
  function TogglePermission(f: RoleForm, id: int): (g: RoleForm)
    ensures g.name == f.name && g.description == f.description && g.status == f.status
    ensures id in g.permissions <==> id !in f.permissions
    ensures forall q :: q != id ==> (q in g.permissions <==> q in f.permissions)
    ensures CatalogIds(f.permissions) && 1 <= id <= 12 ==> CatalogIds(g.permissions)
  {
    f.(permissions := Toggle(f.permissions, id))
  }

  /** Checking a box and unchecking it again gives back the form it started from. */
  lemma CheckThenUncheck(f: RoleForm, id: int)
    requires id !in f.permissions
    ensures TogglePermission(TogglePermission(f, id), id) == f
  {
    ToggleTwiceAbsent(f.permissions, id);
  }

  /** Edit: the form's fields over the role's, and `lastModified` set to today. */
  function EditRoles(roles: seq<Role>, id: int, f: RoleForm, today: string): (r: seq<Role>)
    ensures |r| == |roles|
    ensures forall i :: 0 <= i < |r| ==>
              r[i].id == roles[i].id && r[i].userCount == roles[i].userCount && r[i].created == roles[i].created
    ensures forall i :: 0 <= i < |r| && roles[i].id == id ==>
              r[i].name == f.name && r[i].description == f.description && r[i].status == f.status
              && r[i].permissions == f.permissions && r[i].lastModified == today
    ensures forall i :: 0 <= i < |r| && roles[i].id != id ==> r[i] == roles[i]
  {
    seq(|roles|, i requires 0 <= i < |roles| =>
      if roles[i].id == id then Merge(roles[i], f).(lastModified := today) else roles[i])
  }

  /** Add: the form's fields, id `roles.length + 1`, no users, created and modified today. */
  function AddRole(roles: seq<Role>, f: RoleForm, today: string): (r: seq<Role>)
    ensures |r| == |roles| + 1 && r[..|roles|] == roles
    ensures r[|roles|].id == |roles| + 1 && r[|roles|].userCount == 0
    ensures r[|roles|].created == today && r[|roles|].lastModified == today
    ensures Merge(r[|roles|], f) == r[|roles|]
  {
    roles + [Role(|roles| + 1, f.name, f.description, f.status, 0, f.permissions, today, today)]
  }

  /** Saving an edit whose ids are all catalog ids keeps every role within the catalog. */
  lemma EditKeepsCatalog(roles: seq<Role>, id: int, f: RoleForm, today: string)
    requires AllCatalogIds(roles)
    requires CatalogIds(f.permissions)
    ensures AllCatalogIds(EditRoles(roles, id, f, today))
  {
    var e := EditRoles(roles, id, f, today);
    forall r | r in e ensures CatalogIds(r.permissions) {
      var i :| 0 <= i < |e| && e[i] == r;
      assert roles[i] in roles;
    }
  }

  /** Adding a role whose ids are all catalog ids keeps every role within the catalog. */
  lemma AddKeepsCatalog(roles: seq<Role>, f: RoleForm, today: string)
    requires AllCatalogIds(roles)
    requires CatalogIds(f.permissions)
    ensures AllCatalogIds(AddRole(roles, f, today))
  {
    var a := AddRole(roles, f, today);
    assert a == roles + [a[|roles|]];
  }

  function IdIsNot(id: int): Role -> bool
  {
    (r: Role) => r.id != id
  }

  /** Delete: `roles.filter(r => r.id !== id)`. */
  function RemoveRole(roles: seq<Role>, id: int): (r: seq<Role>)
    ensures IsSubseq(r, roles)
    ensures forall x :: x in r <==> x in roles && x.id != id
    ensures forall x: Role {:trigger multiset(r)[x]} :: x.id != id ==> multiset(r)[x] == multiset(roles)[x]
  {
    Filter(roles, IdIsNot(id))
  }

  /** Adding a role and deleting the new id restores the list, provided no existing
      role already had that id. */
  lemma AddThenRemove(roles: seq<Role>, f: RoleForm, today: string)
    requires forall r :: r in roles ==> r.id != |roles| + 1
    ensures RemoveRole(AddRole(roles, f, today), |roles| + 1) == roles
  {
    var added := AddRole(roles, f, today);
    assert added == roles + [added[|roles|]];
    FilterAppend(roles, [added[|roles|]], IdIsNot(|roles| + 1));
    FilterKeepsAll(roles, IdIsNot(|roles| + 1));
    var tail := RemoveRole([added[|roles|]], |roles| + 1);
    assert |tail| == 0;
  }

  /** The permission panel's state and handlers. Its effect re-runs `applyFilters`
      whenever the list, the search text or the sort setting changes, so the visible
      list is always the derived one. */
  class PermissionPanel {
    var roles: seq<Role>
    var filteredRoles: seq<Role>
    var searchTerm: string
    var sortConfig: SortConfig<RoleColumn>
    var expandedRole: Option<int>

    /** The visible list is the derived one, and every role refers only to
        catalog permissions. */
    predicate Valid()
      reads this
    {
      && filteredRoles == ApplyFilters(roles, searchTerm, sortConfig)
      && AllCatalogIds(roles)
    }

    /** Mounting with the fetched list: no search, sorted by name, no card expanded. */
    constructor (seed: seq<Role>)
      requires AllCatalogIds(seed)
      ensures roles == seed && searchTerm == "" && sortConfig == SortConfig(Name, Asc)
      ensures expandedRole == None
      ensures filteredRoles == SortBy(seed, KeyOf(Name), Asc)
      ensures Valid()
    {
      roles := seed;
      searchTerm := "";
      sortConfig := SortConfig(Name, Asc);
      expandedRole := None;
      filteredRoles := ApplyFilters(seed, "", SortConfig(Name, Asc));
      EmptySearchShowsAll(seed, SortConfig(Name, Asc));
    }

    method SetSearchTerm(term: string)
      requires Valid()
      modifies this
      ensures searchTerm == term && roles == old(roles) && sortConfig == old(sortConfig)
      ensures expandedRole == old(expandedRole)
      ensures Valid()
    {
      searchTerm := term;
      filteredRoles := ApplyFilters(roles, searchTerm, sortConfig);
    }

    /** `handleSort(key)`: only the configuration changes; the effect re-derives the list. */
    method HandleSort(col: RoleColumn)
      requires Valid()
      modifies this
      ensures sortConfig == NextSortConfig(old(sortConfig), col)
      ensures roles == old(roles) && searchTerm == old(searchTerm) && expandedRole == old(expandedRole)
      ensures Valid()
    {
      sortConfig := NextSortConfig(sortConfig, col);
      filteredRoles := ApplyFilters(roles, searchTerm, sortConfig);
    }

    /** `handleSubmit`: edit the role the form was opened on, or add a new one. */
    method HandleSubmit(current: Option<Role>, f: RoleForm, today: string)
      requires Valid()
      requires CatalogIds(f.permissions)
      modifies this
      ensures current.Some? ==> roles == EditRoles(old(roles), current.value.id, f, today)
      ensures current.None? ==> roles == AddRole(old(roles), f, today)
      ensures searchTerm == old(searchTerm) && sortConfig == old(sortConfig)
      ensures expandedRole == old(expandedRole)
      ensures Valid()
    {
      if current.Some? {
        EditKeepsCatalog(roles, current.value.id, f, today);
        roles := EditRoles(roles, current.value.id, f, today);
      } else {
        AddKeepsCatalog(roles, f, today);
        roles := AddRole(roles, f, today);
      }
      filteredRoles := ApplyFilters(roles, searchTerm, sortConfig);
    }

    /** The delete button of the card showing a role with id `id`. */
    method Delete(id: int)
      requires Valid()
      modifies this
      ensures roles == RemoveRole(old(roles), id)
      ensures searchTerm == old(searchTerm) && sortConfig == old(sortConfig)
      ensures expandedRole == old(expandedRole)
      ensures Valid()
    {
      roles := RemoveRole(roles, id);
      filteredRoles := ApplyFilters(roles, searchTerm, sortConfig);
    }

    /** The expand button of the card showing role `id`. */
    method ToggleExpanded(id: int)
      requires Valid()
      modifies this
      ensures expandedRole == NextExpanded(old(expandedRole), id)
      ensures roles == old(roles) && filteredRoles == old(filteredRoles)
      ensures searchTerm == old(searchTerm) && sortConfig == old(sortConfig)
      ensures Valid()
    {
      expandedRole := NextExpanded(expandedRole, id);
    }
  }
}
