/**
 * UserService: registration rules (valid name, unique name, strong password,
 * a role, at most three administrators), profile updates, deletion and password
 * changes. The service is transactional: when it throws, nothing it changed is
 * kept, so the model checks every rule before changing anything.
 */
module UserService {
  import opened Wrappers
  import opened JavaLang
  import opened Exceptions
  import opened Models
  import opened Repositories

  const MinPasswordLength: nat := 8
  const MaxAdmins: nat := 3

  /** The configured `PasswordEncoder` (BCrypt), as its two operations. */
  datatype PasswordEncoder = PasswordEncoder(encode: string -> string, matches: (string, string) -> bool)

  /** `isPasswordStrong`: present and at least eight UTF-16 code units long. */
  predicate IsPasswordStrong(password: Option<string>) {
    password.Some? && Utf16Length(password.value) >= MinPasswordLength
  }

  /** `isUsernameValid`: present and not empty once trimmed (see `TrimEmptyIff`). */
  predicate IsUsernameValid(username: Option<string>) {
    username.Some? && HasContent(username.value)
  }

  /** The character class `[A-Za-z0-9./]` of the BCrypt pattern. */
  predicate IsBCryptChar(c: char) {
    ('A' <= c <= 'Z') || ('a' <= c <= 'z') || ('0' <= c <= '9') || c == '.' || c == '/'
  }

  /** `^\$2[aby]?\$\d{2}\$[A-Za-z0-9./]{53}$` matched against the whole string. */
  predicate MatchesBCrypt(s: string) {
    |s| >= 3 && s[..2] == "$2"
    && var rest := if s[2] == 'a' || s[2] == 'b' || s[2] == 'y' then s[3..] else s[2..];
       |rest| == 57 && rest[0] == '$' && IsDigit(rest[1]) && IsDigit(rest[2]) && rest[3] == '$'
       && forall i :: 4 <= i < 57 ==> IsBCryptChar(rest[i])
  }

  /** `isBCryptHash`. */
  predicate IsBCryptHash(value: Option<string>) {
    value.Some? && MatchesBCrypt(value.value)
  }

  /** A BCrypt hash is 59 or 60 characters long, so it always counts as strong. */
  lemma BCryptHashIsStrong(value: Option<string>)
    requires IsBCryptHash(value)
    ensures |value.value| == 59 || |value.value| == 60
    ensures IsPasswordStrong(value)
  {
  }

  /** A hash the encoder produced in the standard form passes the pattern. */
  lemma StandardHashMatches(cost: string, salted: string)
    requires |cost| == 2 && IsDigit(cost[0]) && IsDigit(cost[1])
    requires |salted| == 53 && forall i :: 0 <= i < 53 ==> IsBCryptChar(salted[i])
    ensures MatchesBCrypt("$2a$" + cost + "$" + salted)
  {
    var s := "$2a$" + cost + "$" + salted;
    var rest := s[3..];
    assert rest == "$" + cost + "$" + salted;
    forall i | 4 <= i < 57
      ensures IsBCryptChar(rest[i])
    {
      assert rest[i] == salted[i - 4];
    }
  }

  /** The password as stored: a BCrypt hash is kept as given, anything else is encoded. */
  function StoredPassword(rawOrHash: string, encoder: PasswordEncoder): string {
    if MatchesBCrypt(rawOrHash) then rawOrHash else encoder.encode(rawOrHash)
  }

  /** A stored user as the table's rules see it. */
  datatype UserRow = UserRow(id: int, username: Option<string>, password: Option<string>, role: Option<Role>)

  /** The user table as values. */
  ghost function Rows(users: map<int, User>): map<int, UserRow>
    reads users.Values`id, users.Values`username, users.Values`password, users.Values`role
  {
    map k | k in users :: UserRow(users[k].id, users[k].username, users[k].password, users[k].role)
  }

  /**
   * What the user table always satisfies: every stored user is stored under its
   * own identifier and has a valid name, a password and a role; names are unique;
   * there are at most three administrators.
   */
  ghost predicate UsersConsistent(db: Store)
    reads db`users, db.users.Values`id, db.users.Values`username, db.users.Values`password, db.users.Values`role
  {
    ConsistentRows(Rows(db.users))
  }

  predicate ConsistentRows(rows: map<int, UserRow>) {
    (forall k :: k in rows ==> rows[k].id == k && IsUsernameValid(rows[k].username)
                               && rows[k].password.Some? && rows[k].role.Some?)
    && UniqueNames(rows)
    && |AdminKeys(rows)| <= MaxAdmins
  }

  predicate UniqueNames(rows: map<int, UserRow>) {
    forall i, j :: i in rows && j in rows && rows[i].username == rows[j].username ==> i == j
  }

  function AdminKeys(rows: map<int, UserRow>): set<int> {
    set k | k in rows && rows[k].role == Some(ADMIN)
  }

  /** The repository's administrator count is the count of administrator rows. */
  lemma AdminCountOfRows(users: map<int, User>)
    ensures |AdminKeys(Rows(users))| == CountWithRole(users, ADMIN)
  {
    assert AdminKeys(Rows(users)) == IdsWithRole(users, ADMIN);
  }

  /** Storing a complete user whose name is free, and that is not a fourth administrator, keeps the table consistent. */
  lemma ConsistentRowsInsert(rows: map<int, UserRow>, k: int, row: UserRow)
    requires ConsistentRows(rows) && k !in rows && row.id == k
    requires IsUsernameValid(row.username) && row.password.Some? && row.role.Some?
    requires forall j :: j in rows ==> rows[j].username != row.username
    requires row.role == Some(ADMIN) ==> |AdminKeys(rows)| < MaxAdmins
    ensures ConsistentRows(rows[k := row])
  {
    if row.role == Some(ADMIN) {
      assert AdminKeys(rows[k := row]) == AdminKeys(rows) + {k};
    } else {
      assert AdminKeys(rows[k := row]) == AdminKeys(rows);
    }
  }

  /** Renaming one user to a free, valid name, and possibly giving it a new password, keeps the table consistent. */
  lemma ConsistentRowsRename(rows: map<int, UserRow>, id: int, name: Option<string>, password: Option<string>)
    requires ConsistentRows(rows) && id in rows
    requires IsUsernameValid(name) && password.Some?
    requires forall j :: j in rows && j != id ==> rows[j].username != name
    ensures ConsistentRows(rows[id := rows[id].(username := name, password := password)])
  {
    assert AdminKeys(rows[id := rows[id].(username := name, password := password)]) == AdminKeys(rows);
  }

  /** Dropping a user keeps the table consistent. */
  lemma ConsistentRowsRemove(rows: map<int, UserRow>, k: int)
    requires ConsistentRows(rows)
    ensures ConsistentRows(rows - {k})
  {
    assert AdminKeys(rows - {k}) <= AdminKeys(rows);
    SubsetCard(AdminKeys(rows - {k}), AdminKeys(rows));
  }

  lemma SubsetCard(a: set<int>, b: set<int>)
    requires a <= b
    ensures |a| <= |b|
  {
    assert b == a + (b - a);
  }

  /** The exception `create` throws for these inputs, checked in the source's order, or `None`. */
  function CreateRejection(username: Option<string>, password: Option<string>, role: Option<Role>,
                           nameTaken: bool, adminCount: nat): (r: Option<Exception>)
    ensures r.None? <==> IsUsernameValid(username) && !nameTaken && IsPasswordStrong(password)
                         && role.Some? && (role == Some(ADMIN) ==> adminCount < MaxAdmins)
  {
    if !IsUsernameValid(username) then Some(InvalidUsername)
    else if nameTaken then Some(DuplicateUser)
    else if !IsPasswordStrong(password) then Some(WeakPassword)
    else if role.None? then Some(InvalidRole)
    else if role == Some(ADMIN) && adminCount >= MaxAdmins then Some(AdminLimitExceeded)
    else None
  }

  /** The administrator count only matters when an administrator is being created. */
  lemma AdminCountOnlyLimitsAdmins(username: Option<string>, password: Option<string>, nameTaken: bool, a: nat, b: nat)
    ensures CreateRejection(username, password, Some(USER), nameTaken, a)
            == CreateRejection(username, password, Some(USER), nameTaken, b)
    ensures CreateRejection(username, password, Some(ADMIN), nameTaken, MaxAdmins).Some?
  {
  }

  /**
   * `create`: on success the user is stored under a fresh identifier with its
   * password kept or encoded, and one new, empty cart linked to it is stored too.
   */
  method Create(db: Store, user: User, encoder: PasswordEncoder) returns (r: Result<User, Exception>)
    requires db.Valid() && UsersConsistent(db)
    requires user !in db.users.Values
    modifies db, user`password, user`cart, user`id
    ensures db.Valid() && UsersConsistent(db)
    ensures var rejection := CreateRejection(old(user.username), old(user.password), old(user.role),
                                             old(db.ExistsByUsername(user.username)), old(db.CountByRole(ADMIN)));
            (rejection.Some? ==>
               r == Failure(rejection.value) && unchanged(db) && unchanged(user))
            && (rejection.None? ==>
               r == Success(user)
               && user.id == old(db.nextId) && db.users == old(db.users)[user.id := user]
               && user.password == Some(StoredPassword(old(user.password).value, encoder))
               && user.cart != null && fresh(user.cart) && user.cart.user == user && user.cart.cakes == {}
               && user.cart.id !in old(db.carts) && db.carts == old(db.carts)[user.cart.id := user.cart])
    ensures db.cakes == old(db.cakes) && db.categories == old(db.categories) && db.orders == old(db.orders)
    ensures db.sales == old(db.sales) && db.chefs == old(db.chefs) && db.reviews == old(db.reviews)
  {
    var rejection := CreateRejection(user.username, user.password, user.role,
                                     db.ExistsByUsername(user.username), db.CountByRole(ADMIN));
    if rejection.Some? {
      return Failure(rejection.value);
    }
    ghost var rows0 := Rows(db.users);
    assert forall j :: j in rows0 ==> rows0[j].username != user.username;
    AdminCountOfRows(db.users);
    user.password := Some(StoredPassword(user.password.value, encoder));
    SaveWithCart(db, user);
    assert Rows(db.users) == rows0[user.id := UserRow(user.id, user.username, user.password, user.role)];
    ConsistentRowsInsert(rows0, user.id, UserRow(user.id, user.username, user.password, user.role));
    r := Success(user);
  }

  /** The saving half of `create`: the user row, then a new empty cart row linked to it. */
  method SaveWithCart(db: Store, user: User)
    requires db.Valid() && user !in db.users.Values
    modifies db, user`id, user`cart
    ensures db.Valid()
    ensures user.id == old(db.nextId) && user.id !in old(db.users) && db.users == old(db.users)[user.id := user]
    ensures user.cart != null && fresh(user.cart) && user.cart.user == user && user.cart.cakes == {}
    ensures user.cart.id !in old(db.carts) && db.carts == old(db.carts)[user.cart.id := user.cart]
    ensures db.cakes == old(db.cakes) && db.categories == old(db.categories) && db.orders == old(db.orders)
    ensures db.sales == old(db.sales) && db.chefs == old(db.chefs) && db.reviews == old(db.reviews)
  {
    db.SaveNewUser(user);
    var cart := new Cart.ForUser(user);
    db.SaveNewCart(cart);
    user.cart := cart;
  }

  /** `findById`. */
  function FindById(db: Store, id: int): (r: Option<User>)
    reads db
    ensures r.Some? <==> id in db.users
    ensures r.Some? ==> r.value == db.users[id]
  {
    if id in db.users then Some(db.users[id]) else None
  }

  /** In a consistent table, the user found by an identifier carries that identifier and a valid name. */
  lemma FoundByIdCarriesId(db: Store, id: int)
    requires UsersConsistent(db) && FindById(db, id).Some?
    ensures FindById(db, id).value.id == id && IsUsernameValid(FindById(db, id).value.username)
  {
    var rows := Rows(db.users);
    assert id in rows && rows[id].id == db.users[id].id && rows[id].username == db.users[id].username;
  }

  /** Whether `update` is given a new password at all: present and not blank. */
  predicate PasswordProvided(password: Option<string>) {
    password.Some? && !IsBlank(password.value)
  }

  /** The exception `update` throws, in the source's order, or `None`. */
  function UpdateRejection(currentName: Option<string>, newName: Option<string>, newPassword: Option<string>,
                           newNameTaken: bool): (r: Option<Exception>)
    ensures r.None? <==> (currentName == newName || !newNameTaken) && IsUsernameValid(newName)
                         && (PasswordProvided(newPassword) ==> IsPasswordStrong(newPassword))
  {
    if currentName != newName && newNameTaken then Some(DuplicateUser)
    else if !IsUsernameValid(newName) then Some(InvalidUsername)
    else if PasswordProvided(newPassword) && !IsPasswordStrong(newPassword) && !IsBCryptHash(newPassword) then
      Some(WeakPassword)
    else None
  }

  /**
   * `update`: renames the user and, when a new password is provided, stores it
   * kept or encoded; nothing else about any user changes.
   */
  method Update(db: Store, id: int, updated: User, encoder: PasswordEncoder) returns (r: Result<User, Exception>)
    requires UsersConsistent(db)
    modifies (if id in db.users then {db.users[id]} else {})`username
    modifies (if id in db.users then {db.users[id]} else {})`password
    ensures UsersConsistent(db)
    ensures id !in db.users ==> r == Failure(UserNotFound)
    ensures id in db.users ==>
              var existing := db.users[id];
              var rejection := UpdateRejection(old(existing.username), old(updated.username), old(updated.password),
                                               old(db.ExistsByUsername(updated.username)));
              (rejection.Some? ==> r == Failure(rejection.value)
                                   && existing.username == old(existing.username)
                                   && existing.password == old(existing.password))
              && (rejection.None? ==>
                    r == Success(existing) && existing.username == old(updated.username)
                    && existing.password == (if PasswordProvided(old(updated.password))
                                             then Some(StoredPassword(old(updated.password).value, encoder))
                                             else old(existing.password)))
  {
    if id !in db.users {
      return Failure(UserNotFound);
    }
    var existing := db.users[id];
    var newName := updated.username;
    var newPassword := updated.password;
    var rejection := UpdateRejection(existing.username, newName, newPassword, db.ExistsByUsername(newName));
    if rejection.Some? {
      return Failure(rejection.value);
    }
    ghost var rows0 := Rows(db.users);
    assert forall j :: j in rows0 && j != id ==> rows0[j].username != newName;
    forall j | j in db.users && j != id
      ensures db.users[j] != existing
    {
      assert rows0[j].id == j && rows0[j].id == db.users[j].id;
      assert rows0[id].id == id && rows0[id].id == existing.id;
    }
    existing.username := newName;
    if PasswordProvided(newPassword) {
      existing.password := Some(StoredPassword(newPassword.value, encoder));
    }
    assert Rows(db.users) == rows0[id := rows0[id].(username := newName, password := existing.password)];
    ConsistentRowsRename(rows0, id, newName, existing.password);
    r := Success(existing);
  }

  /** `delete`: an unknown identifier is refused; otherwise only that user row goes. */
  method Delete(db: Store, id: int) returns (r: Outcome<Exception>)
    requires db.Valid() && UsersConsistent(db)
    modifies db`users
    ensures db.Valid() && UsersConsistent(db)
    ensures id !in old(db.users) ==> r == Fail(UserNotFound) && db.users == old(db.users)
    ensures id in old(db.users) ==> r == Pass && db.users == old(db.users) - {id}
  {
    if id !in db.users {
      return Fail(UserNotFound);
    }
    ConsistentRowsRemove(Rows(db.users), id);
    assert Rows(db.users - {id}) == Rows(db.users) - {id};
    db.users := db.users - {id};
    r := Pass;
  }

  /** The exception `changePassword` throws, in the source's order, or `None`. */
  function ChangePasswordRejection(stored: Option<string>, oldRaw: Option<string>, newRaw: Option<string>,
                                   encoder: PasswordEncoder): (r: Option<Exception>)
    ensures r.None? <==> oldRaw.Some? && newRaw.Some? && stored.Some?
                         && encoder.matches(oldRaw.value, stored.value) && IsPasswordStrong(newRaw)
  {
    if oldRaw.None? || newRaw.None? then Some(WeakPassword)
    else if stored.None? || !encoder.matches(oldRaw.value, stored.value) then Some(BadCredentials)
    else if !IsPasswordStrong(newRaw) then Some(WeakPassword)
    else None
  }

  /** `changePassword`: with the right old password, the new one is always encoded, even if hash-shaped. */
  method ChangePassword(db: Store, userId: int, oldRaw: Option<string>, newRaw: Option<string>, encoder: PasswordEncoder)
    returns (r: Outcome<Exception>)
    requires UsersConsistent(db)
    modifies (if userId in db.users then {db.users[userId]} else {})`password
    ensures UsersConsistent(db)
    ensures userId !in db.users ==> r == Fail(UserNotFound)
    ensures userId in db.users ==>
              var u := db.users[userId];
              var rejection := ChangePasswordRejection(old(u.password), oldRaw, newRaw, encoder);
              (rejection.Some? ==> r == Fail(rejection.value) && u.password == old(u.password))
              && (rejection.None? ==> r == Pass && u.password == Some(encoder.encode(newRaw.value)))
  {
    if userId !in db.users {
      return Fail(UserNotFound);
    }
    var u := db.users[userId];
    var rejection := ChangePasswordRejection(u.password, oldRaw, newRaw, encoder);
    if rejection.Some? {
      return Fail(rejection.value);
    }
    ghost var rows0 := Rows(db.users);
    forall j | j in db.users && j != userId
      ensures rows0[j].username != u.username && db.users[j] != u
    {
      assert rows0[userId].username == u.username;
      assert rows0[j].id == j && rows0[j].id == db.users[j].id;
      assert rows0[userId].id == userId && rows0[userId].id == u.id;
    }
    u.password := Some(encoder.encode(newRaw.value));
    assert Rows(db.users) == rows0[userId := rows0[userId].(password := u.password)];
    ConsistentRowsRename(rows0, userId, u.username, u.password);
    r := Pass;
  }
}
