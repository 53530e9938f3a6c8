/** The account entities and the two repositories the authentication code
    shares: users by username and roles by role name. */
module Accounts {
  import opened Common

  datatype Role = Role(roleName: string)

  /** A stored account; `password` is the encoded password. */
  datatype User = User(username: string, password: string, roles: set<Role>)

  /** The user and role repositories. */
  class Repositories {
    var users: map<string, User>
    var roles: map<string, Role>

    /** Each role is filed under its name, each user under its username, and
        every role a user holds is a stored role. */
    ghost predicate Valid()
      reads this
    {
      && (forall n :: n in roles ==> roles[n].roleName == n)
      && (forall u :: u in users ==> users[u].username == u && users[u].roles <= roles.Values)
    }

    constructor ()
      ensures Valid() && users == map[] && roles == map[]
    {
      users := map[];
      roles := map[];
    }
  }
}
