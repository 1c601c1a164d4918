# RBAC admin panels: list controllers in Dafny

This project models the list-controller core of a role-based access control admin
UI. The UI has three React panels:

- **User management**: users, with a search box, role and status filters, a
  sortable table, an add/edit form, delete buttons and an "active" count.
- **Role management**: roles holding permission names from a fixed list of nine,
  with a search box, a sortable table, an add/edit form with one checkbox per
  permission, delete buttons and an "active" count.
- **Permission management**: role cards over a catalog of twelve permissions in
  four categories, with a search box, an add/edit form that shows the catalog
  grouped by category, delete buttons and one expandable card at a time. The
  expanded card lists the role's permissions grouped by category.

Every panel keeps a master list and a visible list. The visible list comes from
`applyFilters`: keep the records matching the search text and the filters, then
sort them with the three-way comparator on the configured column.

The model is organised as follows:

- `ListOps.dfy`: `Array.prototype.filter` and the checkbox toggle, each proved
  against its own specification.
- `Sorting.dfy`: the comparator, the sort-setting click handler, and `SortBy`.
  `SortBy` is the stable sort that ECMAScript requires of `Array.prototype.sort`.
  It is proved ordered, a permutation, stable, and the only stable sort.
- `Text.dfy`: ASCII `toLowerCase` and `includes`.
- `UserManagement.dfy`, `RoleManagement.dfy` and `PermissionManagement.dfy`: one
  module per panel. Pure helpers are functions. The panel's React state is a class
  whose fields the handlers reassign.
  - The user and role panels re-derive the visible list only when the master list,
    the search text or a filter changes. A column click re-sorts the list that is
    currently visible. So their invariant `Valid()` says the visible list holds
    exactly the matching records (as a multiset) and is ordered by the current
    setting.
  - The permission panel re-derives on every change, including the sort setting.
    Its `Valid()` says the visible list equals `ApplyFilters` of the current state.

## Model

| member | source | states |
|---|---|---|
| ListOps.Filter | src/components/UserManagement.jsx:44-52 | `filter` keeps exactly the elements passing the test, each with its multiplicity, in the original order, never more than the input |
| ListOps.FilterAppend | src/components/UserManagement.jsx:120 | filtering a concatenation is filtering each part |
| ListOps.FilterKeepsAll | src/components/UserManagement.jsx:44-52 | when every element passes, `filter` returns its input unchanged |
| ListOps.FilterKeepsNone | src/components/PermissionManagement.jsx:419 | when no element passes, `filter` returns the empty list |
| ListOps.FilterAgree | src/components/UserManagement.jsx:44-52 | two tests that agree on every element select the same list |
| ListOps.FilterIdempotent | src/components/UserManagement.jsx:44-52 | filtering twice by the same test equals filtering once |
| ListOps.Toggle | src/components/RoleManagement.jsx:120-127 | the toggled entry's membership flips and no other entry's changes; removal keeps the others in order, each as many times as before, and removes every copy; addition appends at the end; no duplicates are introduced |
| ListOps.ToggleTwiceAbsent | src/components/RoleManagement.jsx:123-125 | checking an unchecked entry and unchecking it again restores the exact list |
| ListOps.ToggleTwicePresentMovesToEnd | src/components/RoleManagement.jsx:123-125 | unchecking and re-checking a checked entry moves it to the end, so a double toggle is not always the identity |
| ListOps.ToggleWithinCatalog | src/components/RoleManagement.jsx:206-213 | toggling an offered entry keeps the list within the offered entries |
| Sorting.StrLess | src/components/UserManagement.jsx:56-57 | JavaScript `<` on two strings is the lexicographic order: a proper prefix comes first, otherwise the first differing character decides |
| Sorting.StrLessIrreflexive | src/components/UserManagement.jsx:56-57 | no string is `<` itself |
| Sorting.StrLessTransitive | src/components/UserManagement.jsx:56-57 | string `<` is transitive |
| Sorting.StrLessTotal | src/components/UserManagement.jsx:56-57 | of two distinct strings, one is `<` the other |
| Sorting.Less | src/components/UserManagement.jsx:56-57 | `<` on column values: numbers compare numerically, text by `StrLess`; no value is below itself |
| Sorting.KeyOrder | src/components/UserManagement.jsx:56-57 | `<` on column values is a strict total order |
| Sorting.Compare | src/components/UserManagement.jsx:55-59 | the comparator returns -1, 0 or 1; 0 exactly on equal keys; at most 0 exactly when the first record may stand before the second in the requested direction |
| Sorting.CompareConsistent | src/components/UserManagement.jsx:55-59 | the comparator is antisymmetric, and it is negative exactly when the second record may not stand before the first |
| Sorting.Insert | src/components/UserManagement.jsx:55-59 | inserting adds exactly one element and keeps the rest |
| Sorting.InsertOrdered | src/components/UserManagement.jsx:55-59 | inserting into an ordered list keeps it ordered |
| Sorting.SortBy | src/components/UserManagement.jsx:54-60 | `sort` with the comparator returns a permutation of its input, of the same length, ordered by the column in the requested direction |
| Sorting.InsertStable | src/components/UserManagement.jsx:55-59 | inserting keeps the order among records with equal keys and places the new record after them |
| Sorting.SortStable | src/components/UserManagement.jsx:54-60 | records with equal keys keep their input order (stability) |
| Sorting.OrderedUnique | src/components/UserManagement.jsx:54-60 | two ordered lists that agree key by key are equal |
| Sorting.StableSortIsUnique | src/components/UserManagement.jsx:54-60 | any ordered, stable rearrangement of the input equals `SortBy`, so the model fixes the result of `sort` exactly |
| Sorting.InsertAtEnd | src/components/UserManagement.jsx:55-59 | inserting a record that sorts last appends it |
| Sorting.SortOrderedIsIdentity | src/components/UserManagement.jsx:54-60 | sorting an already ordered list changes nothing |
| Sorting.SortIdempotent | src/components/UserManagement.jsx:54-60 | sorting twice equals sorting once |
| Sorting.TiesKeepInputOrderBothWays | src/components/UserManagement.jsx:58 | two records with equal keys stay in input order both ascending and descending |
| Sorting.NextSortConfig | src/components/UserManagement.jsx:69-74 | a click sets the column; the direction is descending exactly when the same column was ascending |
| Sorting.RepeatedClicks | src/components/UserManagement.jsx:69-74 | two clicks on a column restore the setting after the first; a new column starts ascending, then alternates |
| Text.LowerChar | src/components/UserManagement.jsx:45 | an upper-case ASCII letter maps to its lower-case letter; every other character is unchanged |
| Text.Lower | src/components/UserManagement.jsx:45-46 | `toLowerCase` keeps the length and lowercases each character |
| Text.LowerIdempotent | src/components/UserManagement.jsx:45-46 | lowercasing twice equals lowercasing once |
| Text.Contains | src/components/UserManagement.jsx:45-46 | `includes` holds exactly when the needle occurs at some position of the text |
| Text.ContainsEmpty | src/components/UserManagement.jsx:45-46 | every text includes the empty string |
| UserManagement.ColumnValue | src/components/UserManagement.jsx:474-479 | of the six sortable columns, only activity holds numbers |
| UserManagement.Matches | src/components/UserManagement.jsx:44-52 | a user passes an empty search, or a search for their own name or email, when each filter is "All" or their own value; a search longer than both name and email hides them |
| UserManagement.ApplyFilters | src/components/UserManagement.jsx:43-63 | the visible users are the master-list users whose name or email contains the search text ignoring case and whose role and status pass their filters ("All" passes all), with their multiplicities, ordered by the sort setting |
| UserManagement.NoFilterShowsEveryone | src/components/UserManagement.jsx:12-18 | with an empty search and both filters on "All", every user is shown, only sorted |
| UserManagement.TiesKeepMasterOrder | src/components/UserManagement.jsx:54-60 | users tied on the sort column appear in master-list order, and the filtered list is a subsequence of the master list |
| UserManagement.SearchIgnoresCase | src/components/UserManagement.jsx:45-46 | two search texts that lowercase alike show the same list |
| UserManagement.Merge | src/components/UserManagement.jsx:109 | `{ ...u, ...formData }` takes the form's six fields, keeps id and last login, and changes nothing when the form holds the user's own values |
| UserManagement.InitialForm | src/components/UserManagement.jsx:86-93 | editing opens the form on the user's own values, so saving it untouched changes nothing; adding opens it on the defaults "Analyst", "Active" and activity 50 |
| UserManagement.EditUsers | src/components/UserManagement.jsx:108-110 | the user with the edited id takes the form's six fields and keeps its id and last login; every other user is unchanged |
| UserManagement.EditAbsentIdChangesNothing | src/components/UserManagement.jsx:108-110 | editing an id no user has leaves the list unchanged |
| UserManagement.EditIdempotent | src/components/UserManagement.jsx:108-110 | saving the same edit twice equals saving it once |
| UserManagement.AddUser | src/components/UserManagement.jsx:115-120 | the new user is appended with id length + 1, last login today, and the form's fields |
| UserManagement.RemoveUser | src/components/UserManagement.jsx:310 | deleting keeps exactly the users with another id, in order and with their multiplicities |
| UserManagement.AddThenRemove | src/components/UserManagement.jsx:115-120 | adding a user and deleting its id restores the list, provided the new id was not already taken |
| UserManagement.AddAfterRemoveCanReuseId | src/components/UserManagement.jsx:117 | after a delete, a new user can get the id of a user still listed, and deleting that id then removes both |
| UserManagement.CountActive | src/components/UserManagement.jsx:383 | the active count is at most the number of users, and equals it exactly when every user is active |
| UserManagement.ActiveCountFull | src/components/UserManagement.jsx:383 | the active users are all the users exactly when every user is active |
| UserManagement.AddUserActiveCount | src/components/UserManagement.jsx:383 | adding a user raises the active count by one exactly when the new user is active |
| UserManagement.ClickSortKeepsPreviousTieOrder | src/components/UserManagement.jsx:76-81 | a column click re-sorts the visible list, so ties keep the previous sort's order; re-deriving from the master list would give master order instead |
| UserManagement.UserPanel.constructor | src/components/UserManagement.jsx:10-41 | after the fetch: no search, both filters "All", name ascending, every user shown in name order; the invariant holds |
| UserManagement.UserPanel.SetSearchTerm | src/components/UserManagement.jsx:65-67 | a new search text re-derives the visible list; nothing else changes |
| UserManagement.UserPanel.SetRoleFilter | src/components/UserManagement.jsx:65-67 | a new role filter re-derives the visible list; nothing else changes |
| UserManagement.UserPanel.SetStatusFilter | src/components/UserManagement.jsx:65-67 | a new status filter re-derives the visible list; nothing else changes |
| UserManagement.UserPanel.HandleSort | src/components/UserManagement.jsx:69-82 | the setting follows the click rule; the visible list becomes the stable sort of the previous visible list; the invariant is kept |
| UserManagement.UserPanel.HandleSubmit | src/components/UserManagement.jsx:104-127 | the edit or the add is applied to the master list and the visible list is re-derived |
| UserManagement.UserPanel.Delete | src/components/UserManagement.jsx:308-313 | the user is removed from the master list and, once the effect has run, the visible list is re-derived |
| RoleManagement.SeedRolesWithinCatalog | src/components/RoleManagement.jsx:29-53 | the fetched roles hold only the nine offered permissions, and Admin holds all nine |
| RoleManagement.ColumnValue | src/components/RoleManagement.jsx:423-426 | of the four sortable columns, only the user count holds numbers |
| RoleManagement.Matches | src/components/RoleManagement.jsx:68-71 | a role passes an empty search and a search for its own name or description; a search longer than both fields hides it |
| RoleManagement.ApplyFilters | src/components/RoleManagement.jsx:67-82 | the visible roles are the roles whose name or description contains the search text ignoring case, with their multiplicities, ordered by the sort setting |
| RoleManagement.EmptySearchShowsAll | src/components/RoleManagement.jsx:11-15 | an empty search shows every role, only sorted |
| RoleManagement.SearchIgnoresCase | src/components/RoleManagement.jsx:69-70 | two search texts that lowercase alike show the same list |
| RoleManagement.TiesKeepMasterOrder | src/components/RoleManagement.jsx:73-79 | roles tied on the sort column appear in master-list order |
| RoleManagement.Merge | src/components/RoleManagement.jsx:135 | `{ ...r, ...formData }` takes the form's four fields, keeps id and user count, and changes nothing when the form holds the role's own values |
| RoleManagement.InitialForm | src/components/RoleManagement.jsx:105-110 | editing opens the form on the role's own values; adding opens it empty, "Active", with no permissions |
| RoleManagement.TogglePermission | src/components/RoleManagement.jsx:120-127 | a checkbox flips one permission and leaves the others and the other fields alone; permissions stay within the offered nine |
| RoleManagement.CheckThenUncheck | src/components/RoleManagement.jsx:120-127 | checking and unchecking a box restores the form |
| RoleManagement.EditRoles | src/components/RoleManagement.jsx:134-136 | the role with the edited id takes the form's four fields and keeps its id and user count; every other role is unchanged |
| RoleManagement.EditKeepsCatalog | src/components/RoleManagement.jsx:134-136 | saving a form of offered permissions keeps every role within the offered nine |
| RoleManagement.AddRole | src/components/RoleManagement.jsx:141-146 | the new role is appended with id length + 1, user count 0, and the form's fields |
| RoleManagement.AddKeepsCatalog | src/components/RoleManagement.jsx:141-146 | adding a role from a form of offered permissions keeps every role within the offered nine |
| RoleManagement.RemoveRole | src/components/RoleManagement.jsx:316 | deleting keeps exactly the roles with another id, in order |
| RoleManagement.AddThenRemove | src/components/RoleManagement.jsx:141-146 | adding a role and deleting its id restores the list when the id was free |
| RoleManagement.CountActive | src/components/RoleManagement.jsx:365 | the active count is at most the number of roles, and equals it exactly when all are active |
| RoleManagement.ActiveCountFull | src/components/RoleManagement.jsx:365 | the active roles are all the roles exactly when every role is active |
| RoleManagement.AddRoleActiveCount | src/components/RoleManagement.jsx:365 | adding a role raises the active count by one exactly when it is active |
| RoleManagement.RolePanel.constructor | src/components/RoleManagement.jsx:9-64 | after fetching roles that hold only offered permissions: no search, name ascending, every role shown in name order; the invariant, including the catalog part, holds |
| RoleManagement.RolePanel.SetSearchTerm | src/components/RoleManagement.jsx:84-86 | a new search text re-derives the visible list; nothing else changes |
| RoleManagement.RolePanel.HandleSort | src/components/RoleManagement.jsx:88-101 | the setting follows the click rule; the visible list becomes the stable sort of the previous visible list; the invariant is kept |
| RoleManagement.RolePanel.HandleSubmit | src/components/RoleManagement.jsx:129-153 | the edit or the add is applied and the visible list re-derived; a form of offered permissions keeps every role within the offered nine |
| RoleManagement.RolePanel.Delete | src/components/RoleManagement.jsx:314-319 | the role is removed and, once the effect has run, the visible list is re-derived |
| PermissionManagement.CatalogIdsAreOneToTwelve | src/components/PermissionManagement.jsx:20-33 | the catalog holds twelve permissions with ids 1 to 12 in order |
| PermissionManagement.CatalogIdRange | src/components/PermissionManagement.jsx:20-33 | an id names a catalog permission exactly when it lies in 1 to 12, so the ids-in-range invariant means every id names a catalog permission |
| PermissionManagement.SeedRolesWithinCatalog | src/components/PermissionManagement.jsx:40-80 | the fetched roles refer only to catalog ids |
| PermissionManagement.FirstIndex | src/components/PermissionManagement.jsx:234-238 | the position of a category's first appearance, or the length when it does not appear |
| PermissionManagement.AddToGroup | src/components/PermissionManagement.jsx:235-237 | a permission of a category already present is appended to that group, in place; a new category gets a new group at the end; categories stay distinct |
| PermissionManagement.GroupByCategory | src/components/PermissionManagement.jsx:234-238 | one group per category that occurs; each group holds exactly its category's permissions in order; groups appear in order of each category's first appearance |
| PermissionManagement.GroupStep | src/components/PermissionManagement.jsx:235-237 | one more `reduce` step keeps the grouping property |
| PermissionManagement.InExactlyOneGroup | src/components/PermissionManagement.jsx:234-238 | each permission is in the group of its own category and in no other, and that group exists |
| PermissionManagement.CategoriesDistinct | src/components/PermissionManagement.jsx:234-238 | no category heads two groups |
| PermissionManagement.ExpandedView | src/components/PermissionManagement.jsx:417-423 | the expanded card is the grouping of the catalog entries the role holds, selected by the callback `p => role.permissions.includes(p.id)` at line 419 |
| PermissionManagement.ExpandedViewShows | src/components/PermissionManagement.jsx:417-423 | a permission is listed exactly when it is in the catalog and the role holds its id (the `includes` callback at line 419), under its own category; unknown ids are not shown |
| PermissionManagement.NextExpanded | src/components/PermissionManagement.jsx:392 | after a click the card is expanded exactly when it was not before |
| PermissionManagement.ExpandTwice | src/components/PermissionManagement.jsx:392 | two clicks on a card collapse everything, unless that card was already expanded |
| PermissionManagement.ColumnValue | src/components/PermissionManagement.jsx:299-317 | of the sort keys the model offers, chosen from the role's scalar fields, only the user count holds numbers |
| PermissionManagement.Matches | src/components/PermissionManagement.jsx:95-99 | a role passes an empty search and a search for its own name or description; a search longer than both fields hides it |
| PermissionManagement.ApplyFilters | src/components/PermissionManagement.jsx:94-110 | the visible roles are the roles whose name or description contains the search text ignoring case, with their multiplicities, ordered by the sort setting |
| PermissionManagement.EmptySearchShowsAll | src/components/PermissionManagement.jsx:12-16 | an empty search shows every role, only sorted |
| PermissionManagement.SearchIgnoresCase | src/components/PermissionManagement.jsx:96-97 | two search texts that lowercase alike show the same list |
| PermissionManagement.Merge | src/components/PermissionManagement.jsx:156-160 | `{ ...r, ...formData }` takes the form's four fields, keeps id, user count and both dates, and changes nothing when the form holds the role's own values |
| PermissionManagement.InitialForm | src/components/PermissionManagement.jsx:126-131 | editing opens the form on the role's values; adding opens it empty, "Active", with no permissions |
| PermissionManagement.TogglePermission | src/components/PermissionManagement.jsx:141-148 | a checkbox flips one permission id and leaves the rest alone; ids stay within the catalog |
| PermissionManagement.CheckThenUncheck | src/components/PermissionManagement.jsx:141-148 | checking and unchecking a box restores the form |
| PermissionManagement.EditRoles | src/components/PermissionManagement.jsx:155-161 | the edited role takes the form's fields and today's date as last modified, keeping id, user count and creation date; other roles are unchanged |
| PermissionManagement.AddRole | src/components/PermissionManagement.jsx:165-172 | the new role is appended with id length + 1, user count 0, created and modified today |
| PermissionManagement.EditKeepsCatalog | src/components/PermissionManagement.jsx:155-161 | saving an edit whose ids are all catalog ids keeps every role within the catalog |
| PermissionManagement.AddKeepsCatalog | src/components/PermissionManagement.jsx:165-172 | adding a role whose ids are all catalog ids keeps every role within the catalog |
| PermissionManagement.RemoveRole | src/components/PermissionManagement.jsx:362 | deleting keeps exactly the roles with another id, in order |
| PermissionManagement.AddThenRemove | src/components/PermissionManagement.jsx:165-172 | adding a role and deleting its id restores the list when the id was free |
| PermissionManagement.PermissionPanel.constructor | src/components/PermissionManagement.jsx:10-91 | after fetching roles with catalog ids only: no search, name ascending, no card expanded, every role shown in name order; the invariant holds |
| PermissionManagement.PermissionPanel.SetSearchTerm | src/components/PermissionManagement.jsx:112-114 | a new search text re-derives the visible list |
| PermissionManagement.PermissionPanel.HandleSort | src/components/PermissionManagement.jsx:116-122 | only the setting changes, by the click rule; the effect re-derives the visible list from the master list |
| PermissionManagement.PermissionPanel.HandleSubmit | src/components/PermissionManagement.jsx:150-177 | the edit or the add is applied and the visible list re-derived; a form of catalog ids keeps every role within the catalog |
| PermissionManagement.PermissionPanel.Delete | src/components/PermissionManagement.jsx:360-363 | the role is removed and the visible list re-derived |
| PermissionManagement.PermissionPanel.ToggleExpanded | src/components/PermissionManagement.jsx:392 | the expanded card follows the click rule; the lists are unchanged |

## Left out

- Rendering, styling, animation, modals and dark mode are not modelled.
- The mock fetch, with its 800 ms delay and loading flag, is not modelled. The
  fetched list is the constructor's argument; the seed lists are constants.
- The date `new Date().toISOString().split('T')[0]` is a parameter `today`.
- React's batching and effect scheduling are not modelled. Each handler's end state
  is the state after the effect has run.
  - On delete, the user and role panels first show the unfiltered master list, until
    the effect re-filters it. That transient state is not modelled.
  - Stale closures over old state are not modelled.
- `handleChange`, which sets one form field, is not modelled separately. A handler
  receives the finished form.
- The activity slider's value arrives as a string, but the model keeps activity an
  integer.
  - JavaScript's `<` between a number and a string converts the string to a number.
    So with one slider-edited user, every comparison in the activity sort stays
    numeric. An edit that leaves the slider untouched keeps the number.
  - Only with two or more slider-edited users do text comparisons appear. The
    comparator can then be inconsistent (9, "10" and "9", for instance), and the
    order `Array.prototype.sort` produces is implementation-defined. That case is
    not modelled.
- Sorting.Less: puts `Num` before `Str` when the keys are of different kinds,
  where JavaScript would convert the string to a number. A column's keys are all
  of one kind in the model, so such a pair never arises.
- `toLowerCase` covers ASCII letters only. Unicode case mapping is not modelled.
- Sorting.StrLess: compares Unicode scalar values, while JavaScript's `<` compares
  UTF-16 code units. The two orders differ only between characters above U+FFFF and
  characters from U+E000 to U+FFFF.
- PermissionManagement.GroupByCategory: `Object.entries` lists keys that are array
  indices ("0", "1", …) first, in numeric order, and only then the other keys in
  insertion order. The first-appearance order proved here therefore holds only for
  category names that are not array indices. The four catalog categories are not.
- PermissionManagement.AddRole: the source stamps `created` and `lastModified` with
  two separate `new Date()` calls, which can fall on different days around midnight.
  The model uses one `today` for both.
- RoleManagement.RolePanel.HandleSubmit and PermissionManagement.PermissionPanel.HandleSubmit:
  both require a form whose permissions come from the catalog. The form guarantees
  this, since it starts from a role's list or from none and only catalog checkboxes
  change it. The form's own state is not a field of the panel.
- `Array.prototype.sort` sorts in place and returns the same array, which the source
  then stores in state. The model sorts a value, so aliasing of that array is not
  captured. Sorting by a column holding an array is not modelled; no header offers one.
- The permission panel defines `TableHeader`, but nothing renders it, so its
  `handleSort` cannot be reached from the page. It is still modelled.
- Ids are `length + 1`, so they are not unique after a delete. Uniqueness is
  therefore not proved. `AddThenRemove` requires the new id to be free.
  `AddAfterRemoveCanReuseId` shows the collision.
