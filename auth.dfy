/** What the auth handler (backend/handlers/auth.go) computes: the user that
    registration creates, the redacted copy every response carries, the
    login search, and the uniqueness of e-mail addresses. */
module Auth {
  import opened Collections
  import opened Models

  /** The goals every new account starts with. */
  const DefaultCalorieGoal: real := 2000.0
  const DefaultProteinGoal: real := 150.0
  const DefaultCarbsGoal: real := 250.0
  const DefaultFatsGoal: real := 65.0

  /** The account Register builds from the request, a fresh id and the clock. */
  function NewUser(req: RegisterRequest, id: string, now: Time): User
  {
    User(id, req.email, req.name, req.password,
         DefaultCalorieGoal, DefaultProteinGoal, DefaultCarbsGoal, DefaultFatsGoal, now)
  }

  /** A user as it leaves the server: with the password blanked and every
      other field kept. */
  function Redacted(u: User): (r: User)
    ensures r.password == ""
    ensures r.(password := u.password) == u
  {
    u.(password := "")
  }

  ghost predicate EmailTaken(users: seq<User>, email: string)
  {
    exists i :: 0 <= i < |users| && users[i].email == email
  }

  /** No two stored accounts share an e-mail address. */
  ghost predicate EmailsDistinct(users: seq<User>)
  {
    forall i, j :: 0 <= i < j < |users| ==> users[i].email != users[j].email
  }

  /** Register only appends an account whose address is not yet taken, so it
      keeps the addresses distinct. */
  lemma RegisterKeepsEmailsDistinct(users: seq<User>, u: User)
    requires EmailsDistinct(users)
    requires !EmailTaken(users, u.email)
    ensures EmailsDistinct(users + [u])
  {
    var all := users + [u];
    forall i, j | 0 <= i < j < |all|
      ensures all[i].email != all[j].email
    {
      if j == |users| {
        assert all[i] == users[i];
      } else {
        assert all[i] == users[i] && all[j] == users[j];
      }
    }
  }

  predicate Authenticates(u: User, req: LoginRequest)
  {
    u.email == req.email && u.password == req.password
  }

  /** The stored account Login picks: the first whose e-mail and password
      both equal the request's, if there is one. */
  function FindLogin(users: seq<User>, req: LoginRequest): (r: Option<nat>)
    ensures r.Some? ==> r.value < |users| && Authenticates(users[r.value], req)
    ensures r.Some? ==> forall j :: 0 <= j < r.value ==> !Authenticates(users[j], req)
    ensures r.None? <==> forall j :: 0 <= j < |users| ==> !Authenticates(users[j], req)
  {
    FirstIndex(users, (u: User) => Authenticates(u, req))
  }
}
