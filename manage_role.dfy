/** The role pane: the list of roles, its copy in local storage, and the
    add / edit / delete / search / submit handlers over them. */
module ManageRole {
  import opened Collections
  import opened Text
  import opened Records

  /** The permission checkboxes the role form offers, in display order. */
  const PermissionLabels: seq<string> := [
    "Add Users", "View Users", "Edit Users", "Delete Users",
    "Add Roles", "Edit Roles/Permissions", "View Roles", "Delete Roles"
  ]

  function HasName(name: string): Role -> bool
  {
    (r: Role) => r.name == name
  }

  function LacksName(name: string): Role -> bool
  {
    (r: Role) => r.name != name
  }

  /** Some stored role already carries `name` (the `some` in `addRole`). */
  function RoleNameTaken(roles: seq<Role>, name: string): (b: bool)
    ensures b <==> exists i :: 0 <= i < |roles| && roles[i].name == name
  {
    Any(roles, HasName(name))
  }

  /** The list `addRole` leaves behind: unchanged when the name is taken,
      otherwise the old list with `newRole` appended. */
  function AppendedRoles(roles: seq<Role>, newRole: Role): (r: seq<Role>)
    ensures (exists i :: 0 <= i < |roles| && roles[i].name == newRole.name) ==> r == roles
    ensures (forall i :: 0 <= i < |roles| ==> roles[i].name != newRole.name) ==>
      |r| == |roles| + 1 && r[..|roles|] == roles && r[|roles|] == newRole
  {
    if RoleNameTaken(roles, newRole.name) then roles else roles + [newRole]
  }

  /** The list `editRole` builds: every role named `editedName` becomes
      `updated`, every other one stays, and the new name is not checked. */
  function EditedRoles(roles: seq<Role>, editedName: string, updated: Role): (r: seq<Role>)
    ensures |r| == |roles|
    ensures forall i :: 0 <= i < |roles| ==>
      r[i] == if roles[i].name == editedName then updated else roles[i]
  {
    Replace(roles, HasName(editedName), updated)
  }

  /** The list `deleteRole` builds: no role named `name` is left, every other
      role is kept with its multiplicity and in its order, and the length drops
      by the number of roles so named. */
  function RemainingRoles(roles: seq<Role>, name: string): (r: seq<Role>)
    ensures forall x :: x in r ==> x.name != name
    ensures forall x: Role :: x.name != name ==> multiset(r)[x] == multiset(roles)[x]
    ensures IsSubsequence(r, roles)
    ensures |r| == |roles| - Count(roles, HasName(name))
  {
    FilterIsSubsequence(roles, LacksName(name));
    FilterMultiplicity(roles, LacksName(name));
    CountComplement(roles, HasName(name), LacksName(name));
    Filter(roles, LacksName(name))
  }

  /** The search predicate of the role list, through the given lowering. */
  function NameMatches(search: string, lower: char -> char): Role -> bool
  {
    (r: Role) => Includes(Lowered(r.name, lower), Lowered(search, lower))
  }

  /** `filteredRoles`: the roles whose lowered name contains the lowered search
      text, each with its multiplicity, in their stored order. */
  function FilteredRoles(roles: seq<Role>, search: string, lower: char -> char): (r: seq<Role>)
    ensures IsSubsequence(r, roles)
    ensures forall x: Role ::
      multiset(r)[x] ==
        if Includes(Lowered(x.name, lower), Lowered(search, lower)) then multiset(roles)[x] else 0
  {
    FilterIsSubsequence(roles, NameMatches(search, lower));
    FilterMultiplicity(roles, NameMatches(search, lower));
    Filter(roles, NameMatches(search, lower))
  }

  /** An empty search shows every role. */
  lemma EmptySearchShowsAll(roles: seq<Role>, lower: char -> char)
    ensures FilteredRoles(roles, "", lower) == roles
  {
    forall i | 0 <= i < |roles|
      ensures NameMatches("", lower)(roles[i])
    {
      assert Lowered("", lower) == "";
      IncludesEmpty(Lowered(roles[i].name, lower));
    }
    FilterKeepAll(roles, NameMatches("", lower));
  }

  function IsTicked(ticked: set<string>): string -> bool
  {
    (l: string) => l in ticked
  }

  /** The permissions `formData.getAll("permissions")` yields when the boxes
      `labels` are shown and those in `ticked` are checked: the checked labels,
      in display order. The form shows `PermissionLabels`. */
  function CheckedPermissions(labels: seq<string>, ticked: set<string>): (p: seq<string>)
    ensures IsSubsequence(p, labels)
    ensures forall l :: l in p <==> l in labels && l in ticked
  {
    FilterIsSubsequence(labels, IsTicked(ticked));
    FilterMultiplicity(labels, IsTicked(ticked));
    var p := Filter(labels, IsTicked(ticked));
    assert forall l :: l in labels && l in ticked ==> l in multiset(labels) && l in multiset(p);
    p
  }

  /** No two roles share a name: what `addRole`'s check is meant to keep. */
  ghost predicate DistinctNames(roles: seq<Role>)
  {
    forall i, j :: 0 <= i < j < |roles| ==> roles[i].name != roles[j].name
  }

  lemma AddKeepsNamesDistinct(roles: seq<Role>, newRole: Role)
    requires DistinctNames(roles)
    ensures DistinctNames(AppendedRoles(roles, newRole))
  {
    var r := AppendedRoles(roles, newRole);
    if !RoleNameTaken(roles, newRole.name) {
      forall i, j | 0 <= i < j < |r|
        ensures r[i].name != r[j].name
      {
        if j == |roles| {
          assert r[i] == roles[i];
        } else {
          assert r[i] == roles[i] && r[j] == roles[j];
        }
      }
    }
  }

  /** Editing does not check the new name: renaming one of two distinct roles
      to the other's name leaves two roles with the same name. */
  lemma EditCanDuplicateNames()
    ensures var roles := [Role("editor", []), Role("viewer", [])];
      DistinctNames(roles) &&
      !DistinctNames(EditedRoles(roles, "editor", Role("viewer", ["Add Users"])))
  {
    var roles := [Role("editor", []), Role("viewer", [])];
    var r := EditedRoles(roles, "editor", Role("viewer", ["Add Users"]));
    assert r[0].name == r[1].name;
  }

  /** What the role form's submit handler did. */
  datatype RoleSubmit =
    | NameRequired   // "Role name is required."
    | NameTaken      // "<name> already exists!"
    | Added          // "Role "<name>" has been added!"
    | Updated        // "Role "<name>" has been updated!"

  /** The role pane's state: its list, the role being edited, and the store
      the list is written through to. */
  class RoleManager {
    const store: LocalStorage
    var roles: seq<Role>
    var roleToEdit: Option<Role>

    /** The pane shows what the store holds. */
    ghost predicate InSync()
      reads this, store
    {
      roles == store.roles
    }

    /** Mounting reads the stored roles (a missing key reads as empty). */
    constructor (store: LocalStorage)
      ensures this.store == store && InSync() && roleToEdit == None
    {
      this.store := store;
      roles := store.roles;
      roleToEdit := None;
    }

    /** `addRole`: a taken name changes nothing, a fresh one is appended and
        written through. */
    method AddRole(newRole: Role) returns (added: bool)
      modifies this`roles, store`roles
      ensures added <==> !RoleNameTaken(old(roles), newRole.name)
      ensures added ==> roles == old(roles) + [newRole] && InSync()
      ensures !added ==> roles == old(roles) && store.roles == old(store.roles)
      ensures roles == AppendedRoles(old(roles), newRole)
    {
      if RoleNameTaken(roles, newRole.name) {
        return false;
      }
      var updated := roles + [newRole];
      roles := updated;
      store.roles := updated;
      added := true;
    }

    /** `editRole`: replaces the roles named like the one being edited, writes
        the list through and ends the edit. */
    method EditRole(updated: Role)
      requires roleToEdit.Some?
      modifies this`roles, this`roleToEdit, store`roles
      ensures roles == EditedRoles(old(roles), old(roleToEdit).value.name, updated)
      ensures InSync() && roleToEdit == None
    {
      var updatedRoles := EditedRoles(roles, roleToEdit.value.name, updated);
      roles := updatedRoles;
      store.roles := updatedRoles;
      roleToEdit := None;
    }

    /** `handleEdit`: the form now edits `role`. */
    method HandleEdit(role: Role)
      modifies this`roleToEdit
      ensures roleToEdit == Some(role)
    {
      roleToEdit := Some(role);
    }

    /** `clearEdit`: the form goes back to creating a role. */
    method ClearEdit()
      modifies this`roleToEdit
      ensures roleToEdit == None
    {
      roleToEdit := None;
    }

    /** `deleteRole`: drops every role with that name and writes through. */
    method DeleteRole(roleToDelete: Role)
      modifies this`roles, store`roles
      ensures roles == RemainingRoles(old(roles), roleToDelete.name) && InSync()
    {
      var updated := RemainingRoles(roles, roleToDelete.name);
      roles := updated;
      store.roles := updated;
    }

    /** The form's submit handler: an empty name changes nothing; otherwise the
        role is edited when an edit is under way and added when not. */
    method Submit(roleName: string, ticked: set<string>) returns (outcome: RoleSubmit)
      modifies this`roles, this`roleToEdit, store`roles
      ensures roleName == "" ==>
        outcome == NameRequired && roles == old(roles) && roleToEdit == old(roleToEdit) &&
        store.roles == old(store.roles)
      ensures roleName != "" && old(roleToEdit).Some? ==>
        outcome == Updated && roleToEdit == None && InSync() &&
        roles == EditedRoles(old(roles), old(roleToEdit).value.name,
                             Role(roleName, CheckedPermissions(PermissionLabels, ticked)))
      ensures roleName != "" && old(roleToEdit).None? ==>
        roleToEdit == None &&
        roles == AppendedRoles(old(roles), Role(roleName, CheckedPermissions(PermissionLabels, ticked))) &&
        (if RoleNameTaken(old(roles), roleName)
         then outcome == NameTaken && store.roles == old(store.roles)
         else outcome == Added && InSync())
    {
      if roleName == "" {
        return NameRequired;
      }
      var newRole := Role(roleName, CheckedPermissions(PermissionLabels, ticked));
      if roleToEdit.Some? {
        EditRole(newRole);
        outcome := Updated;
      } else {
        var added := AddRole(newRole);
        outcome := if added then Added else NameTaken;
      }
    }
  }
}
