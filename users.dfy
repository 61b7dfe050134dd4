/** The user record kept by the store, the password hash it holds, and the
    outward view of a record that every response carries. */
module Users {

  /** The string form of a record's `_id`. */
  type UserId = string

  /** The `role` field: 'user' or 'admin'. */
  datatype Role = RegularUser | Admin

  /** The `status` field: 'active' or 'inactive'. */
  datatype Status = Active | Inactive

  /** A stored password. The salted hash is modelled as an injective digest
      of the plain text: two different passwords never share a hash. */
  datatype Hash = Digest(plain: string)

  /** What the save hook stores when `password` is assigned. */
  function HashPassword(password: string): Hash {
    Digest(password)
  }

  /** `user.comparePassword(candidate)`: does the candidate hash to what is stored? */
  predicate ComparePassword(candidate: string, stored: Hash) {
    stored == HashPassword(candidate)
  }

  /** A password verifies against its own hash, and against no other password's. */
  lemma CompareAgainstHash(password: string, candidate: string)
    ensures ComparePassword(password, HashPassword(password))
    ensures ComparePassword(candidate, HashPassword(password)) <==> candidate == password
  {
  }

  datatype User = User(
    id: UserId,
    email: string,
    password: Hash,
    fullName: string,
    role: Role,
    status: Status)

  /** A record as responses show it: no password, `id` as a string. */
  datatype PublicUser = PublicUser(
    id: UserId,
    email: string,
    fullName: string,
    role: Role,
    status: Status)

  /** The `{ id: user._id.toString(), email, fullName, role, status }` object
      built for a response. */
  function Project(u: User): (view: PublicUser)
    ensures view.id == u.id && view.email == u.email && view.fullName == u.fullName
    ensures view.role == u.role && view.status == u.status
  {
    PublicUser(u.id, u.email, u.fullName, u.role, u.status)
  }

  /** The store's own guarantees: each record sits under its own id, and no
      two records share an e-mail address. */
  ghost predicate WellFormed(users: map<UserId, User>) {
    && (forall id :: id in users ==> users[id].id == id)
    && (forall a, b :: a in users && b in users && a != b ==> users[a].email != users[b].email)
  }
}
