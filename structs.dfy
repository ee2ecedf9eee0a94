/** The structs chapter: the `User` record, `build_user` and struct update. */
module Structs {
  import opened Prelude

  datatype User = User(active: bool, username: string, email: string, signInCount: u64)

  /** `build_user`, written with the field init shorthand. */
  function BuildUser(email: string, username: string): (user: User)
    ensures user.active && user.signInCount == 1
    ensures user.username == username && user.email == email
  {
    User(true, username, email, 1)
  }

  /** `User { email, ..base }`: every other field comes from `base`. */
  function WithEmail(base: User, email: string): (user: User)
    ensures user.email == email
    ensures user.active == base.active && user.username == base.username
    ensures user.signInCount == base.signInCount
  {
    base.(email := email)
  }

  /** Struct update keeps a user built by `build_user` one that `build_user`
      could have built; a later update overrides an earlier one; updating
      with the same email changes nothing. */
  lemma WithEmailLaws(user: User, email: string, username: string, a: string, b: string)
    ensures WithEmail(BuildUser(email, username), a) == BuildUser(a, username)
    ensures WithEmail(WithEmail(user, a), b) == WithEmail(user, b)
    ensures WithEmail(user, user.email) == user
  {
  }

  /** `structs()`: `user1` is mutable and its email is reassigned before
      `user3` is made from it by struct update. */
  method StructsDemo() returns (user1: User, user3: User)
    ensures user1 == User(true, "username", "newuserexamplemail@example.com", 1)
    ensures user3 == User(true, "username", "evenmore@example.com", 1)
    ensures user3 == BuildUser("evenmore@example.com", "username")
  {
    user1 := User(true, "username", "username@example.com", 1);
    user1 := user1.(email := "newuserexamplemail@example.com");
    user3 := WithEmail(user1, "evenmore@example.com");
  }
}
