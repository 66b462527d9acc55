/** The user pane: the list of users, its copy in local storage, and the
    add / edit / delete / search handlers the user form calls back into. */
module ManageUsers {
  import opened Collections
  import opened Text
  import opened Records

  function HasUsername(username: string): User -> bool
  {
    (u: User) => u.username == username
  }

  function LacksUsername(username: string): User -> bool
  {
    (u: User) => u.username != username
  }

  /** The list `editUser` builds: every user whose username equals the
      username of `updated` (the new record) becomes `updated`, every other
      user stays. */
  function EditedUsers(users: seq<User>, updated: User): (r: seq<User>)
    ensures |r| == |users|
    ensures forall i :: 0 <= i < |users| ==>
      r[i] == if users[i].username == updated.username then updated else users[i]
  {
    Replace(users, HasUsername(updated.username), updated)
  }

  /** An edit whose record carries a username no stored user has changes
      nothing: a rename made in the form does not reach the list. */
  lemma EditWithUnknownUsernameChangesNothing(users: seq<User>, updated: User)
    requires forall i :: 0 <= i < |users| ==> users[i].username != updated.username
    ensures EditedUsers(users, updated) == users
  {
    ReplaceNoMatch(users, HasUsername(updated.username), updated);
  }

  /** The list `deleteUser` builds: no user with that username is left, every
      other user is kept with its multiplicity and in its order, and the length
      drops by the number of users with that username. */
  function RemainingUsers(users: seq<User>, username: string): (r: seq<User>)
    ensures forall x :: x in r ==> x.username != username
    ensures forall x: User :: x.username != username ==> multiset(r)[x] == multiset(users)[x]
    ensures IsSubsequence(r, users)
    ensures |r| == |users| - Count(users, HasUsername(username))
  {
    FilterIsSubsequence(users, LacksUsername(username));
    FilterMultiplicity(users, LacksUsername(username));
    CountComplement(users, HasUsername(username), LacksUsername(username));
    Filter(users, LacksUsername(username))
  }

  /** The search predicate of the user list: it looks at the display name. */
  function NameMatches(search: string, lower: char -> char): User -> bool
  {
    (u: User) => Includes(Lowered(u.name, lower), Lowered(search, lower))
  }

  /** `filteredUsers`: the users whose lowered name contains the lowered search
      text, each with its multiplicity, in their stored order. */
  function FilteredUsers(users: seq<User>, search: string, lower: char -> char): (r: seq<User>)
    ensures IsSubsequence(r, users)
    ensures forall x: User ::
      multiset(r)[x] ==
        if Includes(Lowered(x.name, lower), Lowered(search, lower)) then multiset(users)[x] else 0
  {
    FilterIsSubsequence(users, NameMatches(search, lower));
    FilterMultiplicity(users, NameMatches(search, lower));
    Filter(users, NameMatches(search, lower))
  }

  /** An empty search shows every user. */
  lemma EmptySearchShowsAll(users: seq<User>, lower: char -> char)
    ensures FilteredUsers(users, "", lower) == users
  {
    forall i | 0 <= i < |users|
      ensures NameMatches("", lower)(users[i])
    {
      assert Lowered("", lower) == "";
      IncludesEmpty(Lowered(users[i].name, lower));
    }
    FilterKeepAll(users, NameMatches("", lower));
  }

  /** The user pane's state: its list, the user being edited (passed to the
      form as `userToEdit`), and the store the list is written through to. */
  class UserManager {
    const store: LocalStorage
    var users: seq<User>
    var userToEdit: Option<User>

    /** The pane shows what the store holds. */
    ghost predicate InSync()
      reads this, store
    {
      users == store.users
    }

    /** Mounting reads the stored users (a missing key reads as empty). */
    constructor (store: LocalStorage)
      ensures this.store == store && InSync() && userToEdit == None
    {
      this.store := store;
      users := store.users;
      userToEdit := None;
    }

    /** `addUser`: appends with no uniqueness check and writes through. */
    method AddUser(newUser: User)
      modifies this`users, store`users
      ensures users == old(users) + [newUser] && InSync()
    {
      var updated := users + [newUser];
      users := updated;
      store.users := updated;
    }

    /** `editUser`: replaces by the new record's username, writes through and
        ends the edit. */
    method EditUser(updated: User)
      modifies this`users, this`userToEdit, store`users
      ensures users == EditedUsers(old(users), updated) && InSync()
      ensures userToEdit == None
    {
      var updatedUsers := EditedUsers(users, updated);
      users := updatedUsers;
      store.users := updatedUsers;
      userToEdit := None;
    }

    /** `deleteUser`: drops every user with that username and writes through. */
    method DeleteUser(userToDelete: User)
      modifies this`users, store`users
      ensures users == RemainingUsers(old(users), userToDelete.username) && InSync()
    {
      var updated := RemainingUsers(users, userToDelete.username);
      users := updated;
      store.users := updated;
    }

    /** The edit button of a list entry: the form now edits `user`. */
    method StartEdit(user: User)
      modifies this`userToEdit
      ensures userToEdit == Some(user)
    {
      userToEdit := Some(user);
    }

    /** `clearEdit`: the form goes back to creating a user. */
    method ClearEdit()
      modifies this`userToEdit
      ensures userToEdit == None
    {
      userToEdit := None;
    }
  }
}
