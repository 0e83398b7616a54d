/** The part of the user collection the token engine reads and writes.
    The User model itself (its validators, password hashing and defaults)
    is not part of this model; a user is the record the routes build. */
module Users {
  import opened Seqs
  import opened Roles

  datatype User = User(
    id: nat, username: string, email: string, password: string,
    name: string, role: Role, isActive: bool)

  /** The unique fields a user is looked up by. */
  datatype UserKey = ByEmail | ByUsername

  function KeyOf(u: User, key: UserKey): string {
    match key
    case ByEmail => u.email
    case ByUsername => u.username
  }

  /** `User.findOne({ email })` and `User.findOne({ username })`. */
  function FindUser(users: seq<User>, key: UserKey, value: string): (r: Option<User>)
    ensures r.Some? ==> r.value in users && KeyOf(r.value, key) == value
    ensures r.None? <==> forall u :: u in users ==> KeyOf(u, key) != value
  {
    FindFirst((u: User) => KeyOf(u, key) == value, users)
  }

  /** The position of `User.findById(id)`. */
  function UserIndex(users: seq<User>, id: nat): (r: Option<nat>)
    ensures r.Some? ==> r.value < |users| && users[r.value].id == id
    ensures r.None? <==> forall u :: u in users ==> u.id != id
  {
    FirstIndex((u: User) => u.id == id, users)
  }

  predicate UserIdsDiffer(a: User, b: User) { a.id != b.id }
  predicate UserEmailsDiffer(a: User, b: User) { a.email != b.email }
  predicate UsernamesDiffer(a: User, b: User) { a.username != b.username }

  /** Object ids are unique and below the next id to hand out. */
  ghost predicate UsersValid(users: seq<User>, nextId: nat) {
    (forall u :: u in users ==> u.id < nextId) && Pairwise(UserIdsDiffer, users)
  }

  /** An id above every id in use. */
  function NextFreeId(users: seq<User>): (n: nat)
    ensures forall u :: u in users ==> u.id < n
  {
    if |users| == 0 then 0
    else
      var rest := NextFreeId(users[1..]);
      if users[0].id + 1 > rest then users[0].id + 1 else rest
  }

  /** No two users share an e-mail address or a username. */
  ghost predicate UsersUnique(users: seq<User>) {
    Pairwise(UserEmailsDiffer, users) && Pairwise(UsernamesDiffer, users)
  }

  /** With unique ids, `findById` finds the one user with that id. */
  lemma UserIndexUnique(users: seq<User>, id: nat, k: nat)
    requires Pairwise(UserIdsDiffer, users) && k < |users| && users[k].id == id
    ensures UserIndex(users, id) == Some(k)
  {
  }

  /** Adding a user with a fresh id, e-mail address and username keeps ids and both fields unique. */
  lemma AddUserKeepsUnique(users: seq<User>, nextId: nat, u: User)
    requires UsersValid(users, nextId) && u.id == nextId
    requires forall v :: v in users ==> v.email != u.email && v.username != u.username
    ensures UsersValid(users + [u], nextId + 1)
    ensures UsersUnique(users) ==> UsersUnique(users + [u])
  {
    PairwiseAppend(UserIdsDiffer, users, u);
    if UsersUnique(users) {
      PairwiseAppend(UserEmailsDiffer, users, u);
      PairwiseAppend(UsernamesDiffer, users, u);
    }
  }

  /** Replacing a user by one with the same id, e-mail address and username keeps the invariants. */
  lemma UpdateUserKeepsValid(users: seq<User>, nextId: nat, k: nat, u: User)
    requires UsersValid(users, nextId) && k < |users|
    requires u.id == users[k].id && u.email == users[k].email && u.username == users[k].username
    ensures UsersValid(users[k := u], nextId)
    ensures UsersUnique(users) ==> UsersUnique(users[k := u])
  {
    PairwiseUpdate(UserIdsDiffer, users, k, u);
    if UsersUnique(users) {
      PairwiseUpdate(UserEmailsDiffer, users, k, u);
      PairwiseUpdate(UsernamesDiffer, users, k, u);
    }
  }

  /** With unique addresses, an address names at most one user. */
  lemma EmailNamesOneUser(users: seq<User>, u: User, v: User)
    requires UsersUnique(users) && u in users && v in users && u.email == v.email
    ensures u == v
  {
    var i :| 0 <= i < |users| && users[i] == u;
    var j :| 0 <= j < |users| && users[j] == v;
  }
}
