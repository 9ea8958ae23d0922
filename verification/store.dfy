/** The tables the hardened backend reads and writes (`users`, `sessions`,
    `login_attempts`, `products`), as sequences of rows, together with an
    idealised password hash. Times are whole seconds; `NOW()` is a parameter. */
module Store {
  import opened Basics

  type Id = string

  const Minute: int := 60
  const Day: int := 24 * 60 * 60

  /** bcrypt with a salt drawn by the caller. The model is collision-free:
      a password matches exactly the hash made from it. */
  datatype PasswordHash = Bcrypt(salt: string, secret: string)

  function HashPassword(password: string, salt: string): PasswordHash
  {
    Bcrypt(salt, password)
  }

  predicate ComparePassword(password: string, hash: PasswordHash)
  {
    hash.secret == password
  }

  /** `bcrypt.compare(p, bcrypt.hash(p, _))` holds, and no other password
      matches that hash. */
  lemma CompareAgreesWithHash(password: string, other: string, salt: string)
    ensures ComparePassword(password, HashPassword(password, salt))
    ensures ComparePassword(other, HashPassword(password, salt)) <==> other == password
  {
  }

  datatype User = User(
    id: Id,
    email: string,
    username: string,
    passwordHash: PasswordHash,
    phone: Option<string>,
    address: Option<string>,
    isAdmin: bool,
    isVerified: bool,
    isDeleted: bool,
    lastLoginAt: Option<int>)

  datatype Session = Session(
    id: Id,
    userId: Id,
    token: string,
    expiresAt: int,
    ip: string,
    userAgent: Option<string>)

  datatype FailReason = UserNotFoundReason | InvalidPasswordReason

  datatype LoginAttempt = LoginAttempt(
    email: string,
    ip: string,
    success: bool,
    failReason: Option<FailReason>,
    attemptedAt: int)

  datatype ProductStatus = Active | Deleted | OtherStatus(name: string)

  datatype Product = Product(
    id: Id,
    title: string,
    description: string,
    price: int,
    category: string,
    sellerId: Id,
    stock: int,
    location: Option<string>,
    isNegotiable: bool,
    condition: Option<string>,
    status: ProductStatus,
    viewCount: nat)

  datatype Db = Db(
    users: seq<User>,
    sessions: seq<Session>,
    attempts: seq<LoginAttempt>,
    products: seq<Product>)

  /** `SELECT ... FROM users WHERE id = ?`, first row. */
  function UserById(users: seq<User>, id: Id): (r: Option<User>)
    ensures r.Some? ==> r.value in users && r.value.id == id
    ensures r.None? <==> forall u :: u in users ==> u.id != id
  {
    First(users, (u: User) => u.id == id)
  }

  /** No two user rows share an id (the primary key). */
  predicate UniqueUserIds(users: seq<User>)
  {
    forall i, j :: 0 <= i < j < |users| ==> users[i].id != users[j].id
  }

  /** With unique ids, a lookup by id finds the only row with that id. */
  lemma UserByIdUnique(users: seq<User>, k: int)
    requires UniqueUserIds(users)
    requires 0 <= k < |users|
    ensures UserById(users, users[k].id) == Some(users[k])
  {
    var i := FirstIndex(users, (u: User) => u.id == users[k].id).value;
    assert users[i].id == users[k].id;
  }

  /** `SELECT * FROM products WHERE id = ?`, first row. */
  function ProductById(products: seq<Product>, id: Id): (r: Option<Product>)
    ensures r.Some? ==> r.value in products && r.value.id == id
    ensures r.None? <==> forall p :: p in products ==> p.id != id
  {
    First(products, (p: Product) => p.id == id)
  }
}
