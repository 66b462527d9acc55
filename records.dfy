/** The two record kinds the console stores, and the browser store that holds
    them. */
module Records {

  /** One account. `status` is "active" or "inactive"; `role` names a role by
      its name, with no check that such a role exists. */
  datatype User = User(
    name: string,
    contactNo: string,
    email: string,
    username: string,
    password: string,
    role: string,
    status: string)

  /** A named set of permission labels, kept as the list the form produced. */
  datatype Role = Role(name: string, permissions: seq<string>)

  /** The browser's local storage, under the keys "users" and "roles". Every
      write replaces a whole collection. The panes and the user form read a
      key that was never written as the empty collection; the login page does
      not (it reads it as a value that is not a list). */
  class LocalStorage {
    var users: seq<User>
    var roles: seq<Role>

    constructor (users: seq<User>, roles: seq<Role>)
      ensures this.users == users && this.roles == roles
    {
      this.users := users;
      this.roles := roles;
    }
  }
}
