/** The user form: its two format checks, its seven inputs, and the submit
    handler that writes the stored users and then calls back into the user
    pane that hosts it. */
module UserComponent {
  import opened Collections
  import opened Records
  import opened ManageUsers

  // ---------------------------------------------------------------------
  // Format checks
  // ---------------------------------------------------------------------

  /** The characters the regular-expression class `\s` matches: ASCII tab,
      line feed, vertical tab, form feed, carriage return and space, plus the
      Unicode spaces, the line and paragraph separators and the byte-order
      mark. */
  predicate IsSpace(c: char)
  {
    var n := c as int;
    n == 0x09 || n == 0x0A || n == 0x0B || n == 0x0C || n == 0x0D || n == 0x20 ||
    n == 0xA0 || n == 0x1680 || (0x2000 <= n <= 0x200A) || n == 0x2028 ||
    n == 0x2029 || n == 0x202F || n == 0x205F || n == 0x3000 || n == 0xFEFF
  }

  /** The class `[^\s@]`. */
  predicate IsEmailAtom(c: char)
  {
    !IsSpace(c) && c != '@'
  }

  predicate AllEmailAtoms(s: string)
  {
    forall k :: 0 <= k < |s| ==> IsEmailAtom(s[k])
  }

  /** `validateEmail`: the whole text matches `^[^\s@]+@[^\s@]+\.[^\s@]+$`, that
      is, it splits at an `@` (position `i`) and a later `.` (position `j`)
      into three non-empty runs of `[^\s@]`. */
  predicate ValidateEmail(s: string): (b: bool)
    ensures b ==> |s| >= 5 && '@' in s && '.' in s
  {
    exists i, j | 0 < i < |s| && i + 1 < j < |s| - 1 ::
      s[i] == '@' && s[j] == '.' &&
      AllEmailAtoms(s[..i]) && AllEmailAtoms(s[i + 1..j]) && AllEmailAtoms(s[j + 1..])
  }

  /** The same language described piece by piece: no whitespace, exactly one
      `@`, something before it, and after it a `.` with text on both sides. */
  ghost predicate EmailShape(s: string)
  {
    (forall k :: 0 <= k < |s| ==> !IsSpace(s[k])) &&
    exists i :: 0 < i < |s| && s[i] == '@' &&
      (forall m :: 0 <= m < |s| && s[m] == '@' ==> m == i) &&
      exists k :: i + 1 < k < |s| - 1 && s[k] == '.'
  }

  lemma AllEmailAtomsSlice(s: string, lo: int, hi: int)
    requires 0 <= lo <= hi <= |s|
    requires forall k :: lo <= k < hi ==> IsEmailAtom(s[k])
    ensures AllEmailAtoms(s[lo..hi])
  {
  }

  lemma ValidEmailHasShape(s: string)
    requires ValidateEmail(s)
    ensures EmailShape(s)
  {
    var i, j :| 0 < i < |s| && i + 1 < j < |s| - 1 &&
      s[i] == '@' && s[j] == '.' &&
      AllEmailAtoms(s[..i]) && AllEmailAtoms(s[i + 1..j]) && AllEmailAtoms(s[j + 1..]);
    forall k | 0 <= k < |s|
      ensures !IsSpace(s[k]) && (s[k] == '@' ==> k == i)
    {
      if k < i {
        assert s[k] == s[..i][k];
      } else if i < k < j {
        assert s[k] == s[i + 1..j][k - i - 1];
      } else if j < k {
        assert s[k] == s[j + 1..][k - j - 1];
      }
    }
    assert i + 1 < j < |s| - 1 && s[j] == '.';
  }

  lemma ShapedEmailIsValid(s: string)
    requires EmailShape(s)
    ensures ValidateEmail(s)
  {
    var i :| 0 < i < |s| && s[i] == '@' &&
      (forall m :: 0 <= m < |s| && s[m] == '@' ==> m == i) &&
      exists k :: i + 1 < k < |s| - 1 && s[k] == '.';
    var j :| i + 1 < j < |s| - 1 && s[j] == '.';
    AllEmailAtomsSlice(s, 0, i);
    AllEmailAtomsSlice(s, i + 1, j);
    AllEmailAtomsSlice(s, j + 1, |s|);
    assert s[..i] == s[0..i] && s[j + 1..] == s[j + 1..|s|];
  }

  /** The pattern accepts exactly the texts of that shape. */
  lemma ValidateEmailIffShape(s: string)
    ensures ValidateEmail(s) <==> EmailShape(s)
  {
    if ValidateEmail(s) {
      ValidEmailHasShape(s);
    }
    if EmailShape(s) {
      ShapedEmailIsValid(s);
    }
  }

  predicate IsDigit(c: char)
  {
    '0' <= c <= '9'
  }

  /** The pattern `[0-9]{n}` matching all of `s`: `n` digits in a row. */
  predicate DigitRun(s: string, n: nat)
    decreases n
  {
    if n == 0 then s == []
    else |s| > 0 && IsDigit(s[0]) && DigitRun(s[1..], n - 1)
  }

  /** `validateContactNo`: the whole text matches `^[0-9]{10}$`. */
  predicate ValidateContactNo(s: string): (b: bool)
    ensures b ==> |s| == 10
  {
    DigitRunIff(s, 10);
    DigitRun(s, 10)
  }

  lemma {:induction false} DigitRunIff(s: string, n: nat)
    ensures DigitRun(s, n) <==> |s| == n && forall k :: 0 <= k < |s| ==> IsDigit(s[k])
    decreases n
  {
    if n > 0 && |s| > 0 {
      DigitRunIff(s[1..], n - 1);
      assert forall k :: 1 <= k < |s| ==> s[k] == s[1..][k - 1];
    }
  }

  /** A contact number is exactly ten characters, each a decimal digit. */
  lemma ValidateContactNoIff(s: string)
    ensures ValidateContactNo(s) <==> |s| == 10 && forall k :: 0 <= k < |s| ==> '0' <= s[k] <= '9'
  {
    DigitRunIff(s, 10);
  }

  // ---------------------------------------------------------------------
  // The form's data
  // ---------------------------------------------------------------------

  /** The seven text inputs and selects of the form. */
  datatype FormFields = FormFields(
    name: string,
    contactNo: string,
    email: string,
    username: string,
    password: string,
    role: string,
    status: string)

  /** `roles[0]?.name || ''`: the first role's name, or empty without roles. */
  function DefaultRole(roles: seq<Role>): (r: string)
    ensures |roles| > 0 ==> r == roles[0].name
    ensures roles == [] ==> r == ""
  {
    if |roles| > 0 && roles[0].name != "" then roles[0].name else ""
  }

  /** The form as it is when no user is being edited. */
  function BlankFields(roles: seq<Role>): FormFields
  {
    FormFields("", "", "", "", "", DefaultRole(roles), "active")
  }

  /** The form as it is when `u` is being edited. */
  function FieldsOf(u: User): FormFields
  {
    FormFields(u.name, u.contactNo, u.email, u.username, u.password, u.role, u.status)
  }

  /** The record the submit handler builds: the five typed fields go through
      the sanitiser, role and status are taken as they are. */
  function EnteredUser(f: FormFields, sanitize: string -> string): (u: User)
    ensures u.role == f.role && u.status == f.status
    ensures (forall x :: sanitize(x) == x) ==> FieldsOf(u) == f
  {
    User(sanitize(f.name), sanitize(f.contactNo), sanitize(f.email),
         sanitize(f.username), sanitize(f.password), f.role, f.status)
  }

  /** The uniqueness check of the add path: some stored user has `username`. */
  function UsernameExists(users: seq<User>, username: string): (b: bool)
    ensures b <==> exists i :: 0 <= i < |users| && users[i].username == username
  {
    Any(users, HasUsername(username))
  }

  /** The list the edit path writes first: every stored user whose username
      is the ORIGINAL one of the user being edited becomes `user`. */
  function RewrittenForEdit(users: seq<User>, originalUsername: string, user: User): (r: seq<User>)
    ensures |r| == |users|
    ensures forall i :: 0 <= i < |users| ==>
      r[i] == if users[i].username == originalUsername then user else users[i]
  {
    Replace(users, HasUsername(originalUsername), user)
  }

  /** Renaming through the form is lost. The edit path first writes a list
      in which the record with the original username is replaced, but the
      host's `editUser` then matches on the NEW username and overwrites the
      store; with no stored user under the new name, that leaves the list as
      it was. */
  lemma EditRenameIsLost(users: seq<User>, original: User, edited: User)
    requires edited.username != original.username
    requires exists i :: 0 <= i < |users| && users[i].username == original.username
    requires forall i :: 0 <= i < |users| ==> users[i].username != edited.username
    ensures RewrittenForEdit(users, original.username, edited) != users
    ensures EditedUsers(users, edited) == users
  {
    var i :| 0 < i + 1 <= |users| && users[i].username == original.username;
    assert RewrittenForEdit(users, original.username, edited)[i] == edited;
    EditWithUnknownUsernameChangesNothing(users, edited);
  }

  /** No two stored users share a username. */
  ghost predicate DistinctUsernames(users: seq<User>)
  {
    forall i, j :: 0 <= i < j < |users| ==> users[i].username != users[j].username
  }

  /** The add path keeps usernames distinct when the sanitiser leaves the
      entered username as it is. */
  lemma RegisterKeepsUsernamesDistinct(users: seq<User>, entered: string, user: User)
    requires DistinctUsernames(users)
    requires !UsernameExists(users, entered)
    requires user.username == entered
    ensures DistinctUsernames(users + [user])
  {
    var r := users + [user];
    forall i, j | 0 <= i < j < |r|
      ensures r[i].username != r[j].username
    {
      assert r[i] == users[i];
      if j < |users| {
        assert r[j] == users[j];
      }
    }
  }

  /** A sanitiser that escapes the one string "a&b", as HTML escaping would. */
  function EscapeSample(s: string): string
  {
    if s == "a&b" then "a&amp;b" else s
  }

  /** The uniqueness check looks at the username as typed while the record
      stores it sanitised: whenever the typed name is new but its sanitised
      form is already stored, the add path stores a duplicate. */
  lemma SanitisedUsernameCanDuplicate(users: seq<User>, f: FormFields, sanitize: string -> string)
    requires !UsernameExists(users, f.username)
    requires exists i :: 0 <= i < |users| && users[i].username == sanitize(f.username)
    ensures !DistinctUsernames(users + [EnteredUser(f, sanitize)])
  {
    var i :| 0 <= i < |users| && users[i].username == sanitize(f.username);
    var r := users + [EnteredUser(f, sanitize)];
    assert r[i] == users[i] && r[|users|].username == sanitize(f.username);
  }

  /** Such inputs exist: with a stored, already escaped "a&amp;b", typing
      "a&b" passes the check and stores a second "a&amp;b". */
  lemma SanitisedDuplicateExample()
    ensures var users := [User("A", "0123456789", "a@b.cd", "a&amp;b", "pw", "admin", "active")];
      var f := FormFields("B", "0123456789", "b@b.cd", "a&b", "pw", "admin", "active");
      !UsernameExists(users, f.username) && users[0].username == EscapeSample(f.username) &&
      !DistinctUsernames(users + [EnteredUser(f, EscapeSample)])
  {
    var users := [User("A", "0123456789", "a@b.cd", "a&amp;b", "pw", "admin", "active")];
    var f := FormFields("B", "0123456789", "b@b.cd", "a&b", "pw", "admin", "active");
    assert EscapeSample("a&b") == "a&amp;b";
    assert users[0].username != "a&b";
    SanitisedUsernameCanDuplicate(users, f, EscapeSample);
  }

  // ---------------------------------------------------------------------
  // The form component
  // ---------------------------------------------------------------------

  /** What the submit handler did. */
  datatype SubmitOutcome =
    | InvalidEmail       // error "Invalid email format"
    | InvalidContactNo   // error "Invalid contact number format. It should be 10 digits."
    | UsernameTaken      // error "Username already exists"
    | Registered         // add path completed
    | Edited             // edit path completed

  /** The form, mounted inside the user pane `host`: `addUser`, `editUser`,
      `clearEdit` and `userToEdit` are the host's. */
  class UserForm {
    const host: UserManager
    var name: string
    var contactNo: string
    var email: string
    var username: string
    var password: string
    var role: string
    var status: string
    var error: string
    var roles: seq<Role>

    function Fields(): FormFields
      reads this
    {
      FormFields(name, contactNo, email, username, password, role, status)
    }

    /** Everything the submit handler may change except the error text. */
    ghost function Observed(): (FormFields, seq<User>, seq<User>, Option<User>)
      reads this, host, host.store
    {
      (Fields(), host.users, host.store.users, host.userToEdit)
    }

    /** The initial state of the component, before its effects run. */
    constructor (host: UserManager)
      ensures this.host == host
      ensures Fields() == FormFields("", "", "", "", "", "", "active")
      ensures error == "" && roles == []
    {
      this.host := host;
      name, contactNo, email, username, password := "", "", "", "", "";
      role, status, error := "", "active", "";
      roles := [];
    }

    /** The mount effect: read the stored roles and preselect the first. */
    method LoadRoles()
      modifies this`roles, this`role
      ensures roles == host.store.roles
      ensures role == if |roles| > 0 then roles[0].name else old(role)
    {
      var savedRoles := host.store.roles;
      roles := savedRoles;
      if |savedRoles| > 0 {
        role := savedRoles[0].name;
      }
    }

    /** The effect on `userToEdit` and `roles`: fill the form from the user
        being edited, or blank it with the default role. */
    method SyncForm()
      modifies this`name, this`contactNo, this`email, this`username,
               this`password, this`role, this`status
      ensures host.userToEdit.Some? ==> Fields() == FieldsOf(host.userToEdit.value)
      ensures host.userToEdit.None? ==> Fields() == BlankFields(roles)
    {
      if host.userToEdit.Some? {
        var u := host.userToEdit.value;
        name, contactNo, email, username := u.name, u.contactNo, u.email, u.username;
        password, role, status := u.password, u.role, u.status;
      } else {
        name, contactNo, email, username, password := "", "", "", "", "";
        role := DefaultRole(roles);
        status := "active";
      }
    }

    /** `handleSubmit`. The email check comes first, then the contact check;
        a failure sets its error and changes nothing else. On edit the store
        is written twice and ends as the host's `editUser` leaves it; on add a
        username already stored is refused, otherwise the record is appended.
        A completed submit blanks the form, ends the edit and clears the
        error. */
    method HandleSubmit(sanitize: string -> string) returns (outcome: SubmitOutcome)
      modifies this`name, this`contactNo, this`email, this`username,
               this`password, this`role, this`status, this`error,
               host`users, host`userToEdit, host.store`users
      ensures !ValidateEmail(old(email)) ==>
        outcome == InvalidEmail && error == "Invalid email format" &&
        Observed() == old(Observed())
      ensures ValidateEmail(old(email)) && !ValidateContactNo(old(contactNo)) ==>
        outcome == InvalidContactNo &&
        error == "Invalid contact number format. It should be 10 digits." &&
        Observed() == old(Observed())
      ensures ValidateEmail(old(email)) && ValidateContactNo(old(contactNo)) &&
              old(host.userToEdit).Some? ==>
        outcome == Edited &&
        host.users == EditedUsers(old(host.users), EnteredUser(old(Fields()), sanitize)) &&
        host.InSync() &&
        Fields() == BlankFields(roles) && error == "" && host.userToEdit == None
      ensures ValidateEmail(old(email)) && ValidateContactNo(old(contactNo)) &&
              old(host.userToEdit).None? && UsernameExists(old(host.store.users), old(username)) ==>
        outcome == UsernameTaken && error == "Username already exists" &&
        Observed() == old(Observed())
      ensures ValidateEmail(old(email)) && ValidateContactNo(old(contactNo)) &&
              old(host.userToEdit).None? && !UsernameExists(old(host.store.users), old(username)) ==>
        outcome == Registered &&
        host.users == old(host.users) + [EnteredUser(old(Fields()), sanitize)] &&
        host.InSync() &&
        Fields() == BlankFields(roles) && error == "" && host.userToEdit == None
    {
      if !ValidateEmail(email) {
        error := "Invalid email format";
        return InvalidEmail;
      }
      if !ValidateContactNo(contactNo) {
        error := "Invalid contact number format. It should be 10 digits.";
        return InvalidContactNo;
      }
      var user := EnteredUser(Fields(), sanitize);
      var usersFromStorage := host.store.users;
      if host.userToEdit.Some? {
        var updatedUsers := RewrittenForEdit(usersFromStorage, host.userToEdit.value.username, user);
        host.store.users := updatedUsers;
        host.EditUser(user);
        outcome := Edited;
      } else {
        if UsernameExists(usersFromStorage, username) {
          error := "Username already exists";
          return UsernameTaken;
        }
        usersFromStorage := usersFromStorage + [user];
        host.store.users := usersFromStorage;
        host.AddUser(user);
        outcome := Registered;
      }
      ResetAfterSubmit();
    }

    /** The end of a completed submit: blank fields with the default role,
        `clearEdit`, and no error. */
    method ResetAfterSubmit()
      modifies this`name, this`contactNo, this`email, this`username,
               this`password, this`role, this`status, this`error, host`userToEdit
      ensures Fields() == BlankFields(roles) && error == "" && host.userToEdit == None
    {
      name, contactNo, email, username, password := "", "", "", "", "";
      role := DefaultRole(roles);
      status := "active";
      host.ClearEdit();
      error := "";
    }
  }

  /** A whole edit session over any stored list: the pane is mounted on the
      store, the form is opened on the user at position `k`, the username
      field is changed to one whose sanitised form no stored user has, and the
      form is submitted. The submit completes, yet the store ends exactly as
      it started. */
  method RenameThroughFormIsLost(users: seq<User>, k: nat, newUsername: string, sanitize: string -> string)
    returns (outcome: SubmitOutcome, after: seq<User>)
    requires k < |users|
    requires ValidateEmail(users[k].email) && ValidateContactNo(users[k].contactNo)
    requires forall i :: 0 <= i < |users| ==> users[i].username != sanitize(newUsername)
    ensures outcome == Edited
    ensures after == users
  {
    var store := new LocalStorage(users, []);
    var pane := new UserManager(store);
    var form := new UserForm(pane);
    pane.StartEdit(users[k]);
    form.SyncForm();
    form.username := newUsername;
    EditWithUnknownUsernameChangesNothing(users, EnteredUser(form.Fields(), sanitize));
    outcome := form.HandleSubmit(sanitize);
    after := store.users;
  }
}
