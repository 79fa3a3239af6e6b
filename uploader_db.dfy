/** The SQLite store of the file-uploader server: a `users` table with an
    auto-increment id and a unique username, and a `files` table whose
    `userId` references a user. better-sqlite3 enforces foreign keys, so an
    insert naming an unknown user fails. Each table keeps its rows in id
    order and its AUTOINCREMENT counter. SQLite draws the next id before it
    checks the UNIQUE constraint, so an ignored insert consumes an id; a
    failed insert is rolled back and does not. */
module UploaderDb {
  import opened Wrappers

  datatype UserRow = UserRow(id: nat, username: string, password: string)

  datatype FileRow = FileRow(id: nat, userId: nat, filename: string, uploadDate: string, filePath: string)

  /** `SELECT * FROM users WHERE username = ?`. */
  function UserByUsername(users: seq<UserRow>, username: string): (r: Option<UserRow>)
    ensures r.None? <==> forall i :: 0 <= i < |users| ==> users[i].username != username
    ensures r.Some? ==> r.value in users && r.value.username == username
  {
    if |users| == 0 then None
    else if users[0].username == username then Some(users[0])
    else UserByUsername(users[1..], username)
  }

  /** `SELECT ... FROM users WHERE id = ?`. */
  function UserById(users: seq<UserRow>, id: nat): (r: Option<UserRow>)
    ensures r.None? <==> forall i :: 0 <= i < |users| ==> users[i].id != id
    ensures r.Some? ==> r.value in users && r.value.id == id
  {
    if |users| == 0 then None
    else if users[0].id == id then Some(users[0])
    else UserById(users[1..], id)
  }

  /** `SELECT ... FROM files WHERE userId = ?`, in table order. */
  function FilesOf(files: seq<FileRow>, userId: nat): (r: seq<FileRow>)
    ensures forall f :: f in r <==> f in files && f.userId == userId
    ensures |r| <= |files|
  {
    if |files| == 0 then []
    else if files[0].userId == userId then [files[0]] + FilesOf(files[1..], userId)
    else FilesOf(files[1..], userId)
  }

  /** How many rows carry this username. */
  function CountUsername(users: seq<UserRow>, username: string): nat
  {
    if |users| == 0 then 0
    else (if users[0].username == username then 1 else 0) + CountUsername(users[1..], username)
  }

  /** The `UNIQUE` constraint on `username`. */
  predicate UsernamesUnique(users: seq<UserRow>) {
    forall i, j :: 0 <= i < j < |users| ==> users[i].username != users[j].username
  }

  /** AUTOINCREMENT: ids are positive, increase in table order, and never
      exceed the counter. */
  predicate UserIdsOrdered(users: seq<UserRow>, counter: nat) {
    && (forall i :: 0 <= i < |users| ==> 0 < users[i].id <= counter)
    && (forall i, j :: 0 <= i < j < |users| ==> users[i].id < users[j].id)
  }

  predicate FileIdsOrdered(files: seq<FileRow>, counter: nat) {
    && (forall i :: 0 <= i < |files| ==> 0 < files[i].id <= counter)
    && (forall i, j :: 0 <= i < j < |files| ==> files[i].id < files[j].id)
  }

  /** `FOREIGN KEY(userId) REFERENCES users(id)`. */
  predicate FilesReferenceUsers(files: seq<FileRow>, users: seq<UserRow>) {
    forall i :: 0 <= i < |files| ==> UserById(users, files[i].userId).Some?
  }

  /** With unique usernames, a username occurs at most once, and exactly
      once when a lookup finds it. */
  lemma {:induction false} UniqueUsernameCount(users: seq<UserRow>, username: string)
    requires UsernamesUnique(users)
    ensures CountUsername(users, username) <= 1
    ensures CountUsername(users, username) == 1 <==> UserByUsername(users, username).Some?
    decreases |users|
  {
    if |users| > 0 {
      UniqueUsernameCount(users[1..], username);
      if users[0].username == username {
        ZeroCount(users[1..], username);
      }
    }
  }

  lemma {:induction false} ZeroCount(users: seq<UserRow>, username: string)
    requires forall i :: 0 <= i < |users| ==> users[i].username != username
    ensures CountUsername(users, username) == 0
    decreases |users|
  {
    if |users| > 0 {
      ZeroCount(users[1..], username);
    }
  }

  /** Ids of the rows are pairwise distinct. */
  lemma UserIdsDistinct(users: seq<UserRow>, counter: nat, i: nat, j: nat)
    requires UserIdsOrdered(users, counter)
    requires i < |users| && j < |users| && i != j
    ensures users[i].id != users[j].id
  {
    if i > j {
      assert users[j].id < users[i].id;
    }
  }

  /** The database handle: both tables and their AUTOINCREMENT counters. */
  class Database {
    var users: seq<UserRow>
    var files: seq<FileRow>
    var userSeq: nat
    var fileSeq: nat

    ghost predicate Valid()
      reads this
    {
      && UsernamesUnique(users)
      && UserIdsOrdered(users, userSeq)
      && FileIdsOrdered(files, fileSeq)
      && FilesReferenceUsers(files, users)
    }

    /** Opening a new database file and running both `CREATE TABLE IF NOT
        EXISTS` statements gives two empty tables. */
    constructor ()
      ensures Valid()
      ensures users == [] && files == [] && userSeq == 0 && fileSeq == 0
    {
      users := [];
      files := [];
      userSeq := 0;
      fileSeq := 0;
    }

    /** `INSERT OR IGNORE INTO users (username, password)`: a username already
        present is left as it is, but the id drawn for the ignored row is
        spent; otherwise the row is appended with the next id. */
    method InsertUserOrIgnore(username: string, password: string) returns (inserted: bool)
      requires Valid()
      modifies this`users, this`userSeq
      ensures Valid()
      ensures inserted <==> UserByUsername(old(users), username).None?
      ensures !inserted ==> users == old(users) && userSeq == old(userSeq) + 1
      ensures inserted ==>
                userSeq == old(userSeq) + 1 && users == old(users) + [UserRow(userSeq, username, password)]
      ensures CountUsername(users, username) == 1
    {
      var existing := UserByUsername(users, username);
      if existing.Some? {
        UniqueUsernameCount(users, username);
        userSeq := userSeq + 1;
        return false;
      }
      var row := UserRow(userSeq + 1, username, password);
      ZeroCount(users, username);
      CountAppend(users, row, username);
      UserByIdAppend(users, row);
      users := users + [row];
      userSeq := userSeq + 1;
      inserted := true;
    }

    /** `INSERT INTO files (userId, filename, uploadDate, filePath)`: fails
        (`None`) and leaves the table alone when no user has that id;
        otherwise appends the row with the next id and gives that id. */
    method InsertFile(userId: nat, filename: string, uploadDate: string, filePath: string)
      returns (id: Option<nat>)
      requires Valid()
      modifies this`files, this`fileSeq
      ensures Valid()
      ensures id.None? <==> UserById(users, userId).None?
      ensures id.None? ==> files == old(files) && fileSeq == old(fileSeq)
      ensures id.Some? ==>
                && id.value == fileSeq == old(fileSeq) + 1
                && files == old(files) + [FileRow(fileSeq, userId, filename, uploadDate, filePath)]
    {
      if UserById(users, userId).None? {
        return None;
      }
      fileSeq := fileSeq + 1;
      files := files + [FileRow(fileSeq, userId, filename, uploadDate, filePath)];
      id := Some(fileSeq);
    }

    /** The seed statement: `user1` with the bcrypt hash of `password123`.
        `hash` is that run's bcrypt (its salt drawn at random), so the
        stored password is a hash of the seed password, never the password
        itself. Running it again leaves the table as it was and only spends
        an id. */
    method SeedUser(hash: string -> string) returns (inserted: bool)
      requires Valid()
      modifies this`users, this`userSeq
      ensures Valid()
      ensures CountUsername(users, SeedUsername) == 1
      ensures inserted <==> UserByUsername(old(users), SeedUsername).None?
      ensures inserted ==>
                UserByUsername(users, SeedUsername) == Some(UserRow(userSeq, SeedUsername, hash(SeedPassword)))
      ensures inserted ==>
                && users == old(users) + [UserRow(userSeq, SeedUsername, hash(SeedPassword))]
                && userSeq == old(userSeq) + 1
      ensures !inserted ==> users == old(users) && userSeq == old(userSeq) + 1
    {
      var hashedPassword := hash(SeedPassword);
      inserted := InsertUserOrIgnore(SeedUsername, hashedPassword);
      if inserted {
        UserByUsernameAppend(old(users), UserRow(userSeq, SeedUsername, hashedPassword));
      }
    }
  }

  const SeedUsername: string := "user1"
  const SeedPassword: string := "password123"

  lemma {:induction false} CountAppend(users: seq<UserRow>, row: UserRow, username: string)
    ensures CountUsername(users + [row], username)
            == CountUsername(users, username) + (if row.username == username then 1 else 0)
    decreases |users|
  {
    if |users| > 0 {
      assert (users + [row])[1..] == users[1..] + [row];
      CountAppend(users[1..], row, username);
    } else {
      assert (users + [row])[1..] == [];
    }
  }

  lemma UserByIdAppend(users: seq<UserRow>, row: UserRow)
    ensures forall id :: UserById(users, id).Some? ==> UserById(users + [row], id).Some?
  {
    var us := users + [row];
    forall id | UserById(users, id).Some? ensures UserById(us, id).Some? {
      var i :| 0 <= i < |users| && users[i].id == id;
      assert us[i] == users[i];
    }
  }

  lemma UserByUsernameAppend(users: seq<UserRow>, row: UserRow)
    requires UserByUsername(users, row.username).None?
    ensures UserByUsername(users + [row], row.username) == Some(row)
  {
    var us := users + [row];
    assert forall i :: 0 <= i < |users| ==> us[i] == users[i];
    UsernameLast(users, row);
  }

  lemma {:induction false} UsernameLast(users: seq<UserRow>, row: UserRow)
    requires forall i :: 0 <= i < |users| ==> users[i].username != row.username
    ensures UserByUsername(users + [row], row.username) == Some(row)
    decreases |users|
  {
    if |users| > 0 {
      assert (users + [row])[1..] == users[1..] + [row];
      UsernameLast(users[1..], row);
    }
  }

  /** Running the seed twice (each run hashing with its own salt) leaves
      exactly one `user1` row; on a table without it, the row holds the
      first run's hash of the seed password, and the second run leaves the
      table as it was (spending one id). */
  method SeedTwice(db: Database, firstHash: string -> string, secondHash: string -> string)
    requires db.Valid()
    modifies db
    ensures db.Valid()
    ensures CountUsername(db.users, SeedUsername) == 1
    ensures UserByUsername(old(db.users), SeedUsername).None? ==>
              && UserByUsername(db.users, SeedUsername).Some?
              && UserByUsername(db.users, SeedUsername).value.password == firstHash(SeedPassword)
    ensures UserByUsername(old(db.users), SeedUsername).Some? ==> db.users == old(db.users)
    ensures db.userSeq == old(db.userSeq) + 2
  {
    var first := db.SeedUser(firstHash);
    var before := db.users;
    var second := db.SeedUser(secondHash);
    assert !second;
    assert db.users == before;
  }
}
