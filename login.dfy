/** The login decision: from the two entered strings and what reading the
    stored "users" entry produced, to what the page does next. */
module Login {
  import opened Collections
  import opened Records

  /** What `JSON.parse(localStorage.getItem("users"))` produced: it threw, it
      gave `null` or something other than an array, or it gave an array. */
  datatype StoredUsers = Unparsable | NotAList | UserList(users: seq<User>)

  /** What `handleLogin` ends in. `Navigate` is the success notice followed by
      the delayed move to the dashboard; `Silent` shows nothing and stays. */
  datatype LoginOutcome =
    | MissingFields   // "Please enter both username and password."
    | ReadError       // "Error reading user data. Please try again."
    | Navigate        // "<username> has logged in successfully!", then /Dashboard
    | NotAdmin        // "Only Admins can acess Admin Dashboard"
    | NoUserData      // "No user data found. Please register first."
    | Silent

  /** The `find` predicate: both username and password equal the entered ones. */
  function Credentials(username: string, password: string): User -> bool
  {
    (u: User) => u.username == username && u.password == password
  }

  /** `handleLogin`, with toasts and navigation returned as the outcome. */
  function HandleLogin(username: string, password: string, stored: StoredUsers): (o: LoginOutcome)
    ensures username == "" || password == "" ==> o == MissingFields
    ensures username != "" && password != "" && stored.Unparsable? ==> o == ReadError
    ensures username != "" && password != "" && stored.NotAList? ==> o == Silent
  {
    if username == "" || password == "" then MissingFields
    else match stored
      case Unparsable => ReadError
      case NotAList => Silent
      case UserList(users) =>
        match Find(users, Credentials(username, password))
        case Some(user) =>
          if user.role == "admin" then Navigate
          else if user.role == "user" || user.role == "guest" then NotAdmin
          else Silent
        case None => NoUserData
  }

  /** The first stored record with both entered credentials has role `r`. */
  ghost predicate FirstMatchHasRole(users: seq<User>, username: string, password: string, r: string)
  {
    exists i :: FirstWhere(users, Credentials(username, password), i) && users[i].role == r
  }

  /** The page navigates exactly when both fields are filled, the stored list
      was read, and the first record matching both credentials is an admin. */
  lemma NavigateIffFirstMatchIsAdmin(username: string, password: string, stored: StoredUsers)
    ensures HandleLogin(username, password, stored) == Navigate <==>
      username != "" && password != "" && stored.UserList? &&
      FirstMatchHasRole(stored.users, username, password, "admin")
  {
    if username != "" && password != "" && stored.UserList? {
      FirstMatchDecides(stored.users, username, password);
    }
  }

  /** A first match whose role is "user" or "guest" is refused with a notice. */
  lemma NotAdminIffFirstMatchIsUserOrGuest(username: string, password: string, stored: StoredUsers)
    ensures HandleLogin(username, password, stored) == NotAdmin <==>
      username != "" && password != "" && stored.UserList? &&
      (FirstMatchHasRole(stored.users, username, password, "user") ||
       FirstMatchHasRole(stored.users, username, password, "guest"))
  {
    if username != "" && password != "" && stored.UserList? {
      FirstMatchDecides(stored.users, username, password);
    }
  }

  /** With no record matching both credentials the page reports missing data. */
  lemma NoUserDataIffNoMatch(username: string, password: string, stored: StoredUsers)
    ensures HandleLogin(username, password, stored) == NoUserData <==>
      username != "" && password != "" && stored.UserList? &&
      forall i :: 0 <= i < |stored.users| ==> !Credentials(username, password)(stored.users[i])
  {
  }

  /** A first match with any role but "admin", "user" or "guest", like a list
      that is not an array, leaves the page as it is without a notice. */
  lemma SilentCases(username: string, password: string, stored: StoredUsers)
    ensures HandleLogin(username, password, stored) == Silent <==>
      username != "" && password != "" &&
      (stored.NotAList? ||
       (stored.UserList? &&
        exists i :: FirstWhere(stored.users, Credentials(username, password), i) &&
          stored.users[i].role !in {"admin", "user", "guest"}))
  {
    if username != "" && password != "" && stored.UserList? {
      FirstMatchDecides(stored.users, username, password);
    }
  }

  /** `Find` returns the record at the unique first-match position. */
  lemma FirstMatchDecides(users: seq<User>, username: string, password: string)
    ensures forall i :: FirstWhere(users, Credentials(username, password), i) ==>
      Find(users, Credentials(username, password)) == Some(users[i])
  {
    var p := Credentials(username, password);
    forall i | FirstWhere(users, p, i)
      ensures Find(users, p) == Some(users[i])
    {
      var r := Find(users, p);
      assert r.Some?;
      var k :| FirstWhere(users, p, k) && users[k] == r.value;
      FirstWhereUnique(users, p, i, k);
    }
  }
}
