/**
 * The two tables the service uses, `users` and `tokens`, as sequences of
 * rows in table order, and the statements controller.js issues against
 * them: the e-mail and id lookups of `fetchUserByEmailOrID`, `getUsers`,
 * `deleteUsers`, the user INSERT of signup, and the token INSERT, SELECT
 * and UPDATE of login and refresh.
 */
module Store {
  import opened Wrappers

  /** A `users` row; `password` holds the password digest, never the plaintext. */
  datatype User = User(id: nat, name: string, email: string, password: string)

  /** The columns the lookup by id selects: `id`, `name`, `email`. */
  datatype Profile = Profile(id: nat, name: string, email: string)

  /** A `tokens` row: the owner and the digest of one issued refresh token. */
  datatype TokenRow = TokenRow(userId: nat, hash: string)

  /** The database: both tables and the next auto-increment user id. */
  datatype Db = Db(users: seq<User>, tokens: seq<TokenRow>, nextId: nat)

  /** Why a statement was refused by the storage engine. */
  datatype DbError = DuplicateEmail

  /** `SELECT * FROM users WHERE email = ?`: the matching rows, in table order. */
  function UsersWithEmail(users: seq<User>, email: string): (rows: seq<User>)
    ensures |rows| <= |users|
    ensures forall u :: u in rows <==> u in users && u.email == email
    decreases |users|
  {
    if |users| == 0 then []
    else if users[0].email == email then [users[0]] + UsersWithEmail(users[1..], email)
    else UsersWithEmail(users[1..], email)
  }

  /** The e-mail lookup keeps each matching row as many times as the table holds it. */
  lemma {:induction false} UsersWithEmailCount(users: seq<User>, email: string)
    ensures forall u :: multiset(UsersWithEmail(users, email))[u] == if u.email == email then multiset(users)[u] else 0
    decreases |users|
  {
    if |users| > 0 {
      UsersWithEmailCount(users[1..], email);
      assert users == [users[0]] + users[1..];
    }
  }

  /** The lookup's first row is the first row of the table with that e-mail. */
  lemma {:induction false} FirstWithEmail(users: seq<User>, email: string) returns (i: nat)
    requires |UsersWithEmail(users, email)| > 0
    ensures i < |users| && users[i] == UsersWithEmail(users, email)[0]
    ensures users[i].email == email
    ensures forall j :: 0 <= j < i ==> users[j].email != email
    decreases |users|
  {
    if users[0].email == email {
      i := 0;
    } else {
      var k := FirstWithEmail(users[1..], email);
      i := k + 1;
      assert forall j :: 1 <= j < i ==> users[j] == users[1..][j - 1];
    }
  }

  /** `SELECT id, name, email FROM users WHERE id = ?`, in table order. */
  function ProfilesWithId(users: seq<User>, id: nat): (rows: seq<Profile>)
    ensures |rows| <= |users|
    ensures forall p :: p in rows <==> exists u :: u in users && u.id == id && p == Project(u)
    decreases |users|
  {
    if |users| == 0 then []
    else if users[0].id == id then [Project(users[0])] + ProfilesWithId(users[1..], id)
    else ProfilesWithId(users[1..], id)
  }

  function Project(u: User): Profile {
    Profile(u.id, u.name, u.email)
  }

  /** Every row of the table, cut down to the three columns the id lookup selects. */
  function Projected(users: seq<User>): (r: seq<Profile>)
    ensures |r| == |users|
    ensures forall i :: 0 <= i < |users| ==> r[i] == Project(users[i])
    decreases |users|
  {
    if |users| == 0 then [] else [Project(users[0])] + Projected(users[1..])
  }

  /**
   * The id lookup keeps every projected row with that id as many times as
   * the table holds it, and no other row: the caller's `length` test counts
   * duplicates, not distinct values.
   */
  lemma {:induction false} ProfilesWithIdCount(users: seq<User>, id: nat)
    ensures forall p :: multiset(ProfilesWithId(users, id))[p] == if p.id == id then multiset(Projected(users))[p] else 0
    decreases |users|
  {
    if |users| > 0 {
      ProfilesWithIdCount(users[1..], id);
      assert Projected(users) == [Project(users[0])] + Projected(users[1..]);
    }
  }

  /** `DELETE FROM users WHERE id = ?`: the remaining rows and the affected count. */
  function DeleteWithId(users: seq<User>, id: nat): (r: (seq<User>, nat))
    ensures forall u :: u in r.0 <==> u in users && u.id != id
    ensures r.1 == |ProfilesWithId(users, id)|
    ensures |r.0| + r.1 == |users|
    decreases |users|
  {
    if |users| == 0 then ([], 0)
    else
      var (rest, n) := DeleteWithId(users[1..], id);
      if users[0].id == id then (rest, n + 1) else ([users[0]] + rest, n)
  }

  /** Deleting by id keeps each row with another id as many times as the table holds it. */
  lemma {:induction false} DeleteWithIdCount(users: seq<User>, id: nat)
    ensures forall u :: multiset(DeleteWithId(users, id).0)[u] == if u.id != id then multiset(users)[u] else 0
    decreases |users|
  {
    if |users| > 0 {
      DeleteWithIdCount(users[1..], id);
      assert users == [users[0]] + users[1..];
    }
  }

    predicate EmailTaken(users: seq<User>, email: string) {
    exists u :: u in users && u.email == email
  }

  /**
   * `INSERT INTO users (name, email, password)`: the row gets the next
   * auto-increment id; the unique key on `email` refuses a duplicate.
   */
  function InsertUser(db: Db, name: string, email: string, digest: string): (r: Result<(Db, nat), DbError>)
    ensures r.Failure? <==> EmailTaken(db.users, email)
    ensures r.Success? ==>
      && r.value.0.users == db.users + [User(db.nextId, name, email, digest)]
      && r.value.1 == db.nextId
      && r.value.0.tokens == db.tokens
      && r.value.0.nextId > db.nextId
  {
    if EmailTaken(db.users, email) then Failure(DuplicateEmail)
    else Success((db.(users := db.users + [User(db.nextId, name, email, digest)], nextId := db.nextId + 1), db.nextId))
  }

  /** `SELECT * FROM tokens WHERE token = ?`, in table order. */
  function TokensWithHash(tokens: seq<TokenRow>, hash: string): (rows: seq<TokenRow>)
    ensures |rows| <= |tokens|
    ensures forall t :: t in rows <==> t in tokens && t.hash == hash
    decreases |tokens|
  {
    if |tokens| == 0 then []
    else if tokens[0].hash == hash then [tokens[0]] + TokensWithHash(tokens[1..], hash)
    else TokensWithHash(tokens[1..], hash)
  }

  /**
   * The token lookup keeps every row holding the digest exactly as many times
   * as the table holds it, and no other row.
   */
  lemma {:induction false} TokensWithHashCount(tokens: seq<TokenRow>, hash: string)
    ensures forall t :: multiset(TokensWithHash(tokens, hash))[t] == if t.hash == hash then multiset(tokens)[t] else 0
    decreases |tokens|
  {
    if |tokens| > 0 {
      TokensWithHashCount(tokens[1..], hash);
      assert tokens == [tokens[0]] + tokens[1..];
    }
  }

  /**
   * `INSERT INTO tokens (user_id, token) VALUES (?, ?)`: the new table and the
   * affected-row count reported back.
   */
  function InsertToken(tokens: seq<TokenRow>, row: TokenRow): (r: (seq<TokenRow>, nat))
  {
    (tokens + [row], 1)
  }

  /**
   * `UPDATE tokens SET token = ? WHERE token = ?`: the new table and the
   * affected-row count (rows matched by the WHERE clause).
   */
  function Rotate(tokens: seq<TokenRow>, current: string, next: string): (r: (seq<TokenRow>, nat))
    ensures |r.0| == |tokens|
    ensures forall i :: 0 <= i < |tokens| ==>
      r.0[i] == if tokens[i].hash == current then tokens[i].(hash := next) else tokens[i]
    ensures r.1 == |TokensWithHash(tokens, current)|
    decreases |tokens|
  {
    if |tokens| == 0 then ([], 0)
    else
      var (rest, n) := Rotate(tokens[1..], current, next);
      if tokens[0].hash == current then ([tokens[0].(hash := next)] + rest, n + 1)
      else ([tokens[0]] + rest, n)
  }

  /** After a rotation with a different digest, no row holds the old digest. */
  lemma RotateEvicts(tokens: seq<TokenRow>, current: string, next: string)
    requires next != current
    ensures TokensWithHash(Rotate(tokens, current, next).0, current) == []
  {
  }

  /** The number of token rows owned by a user. */
  function CountOwned(tokens: seq<TokenRow>, id: nat): nat
    decreases |tokens|
  {
    if |tokens| == 0 then 0
    else (if tokens[0].userId == id then 1 else 0) + CountOwned(tokens[1..], id)
  }

  /** A rotation never moves a row to another owner. */
  lemma {:induction false} RotateKeepsOwners(tokens: seq<TokenRow>, current: string, next: string, id: nat)
    ensures CountOwned(Rotate(tokens, current, next).0, id) == CountOwned(tokens, id)
    decreases |tokens|
  {
    if |tokens| > 0 {
      RotateKeepsOwners(tokens[1..], current, next, id);
      var t' := Rotate(tokens, current, next).0;
      assert t'[1..] == Rotate(tokens[1..], current, next).0;
    }
  }

  /** Appending a row adds one to its owner's count and nothing to anyone else's. */
  lemma {:induction false} CountOwnedAppend(tokens: seq<TokenRow>, row: TokenRow, id: nat)
    ensures CountOwned(tokens + [row], id) == CountOwned(tokens, id) + (if row.userId == id then 1 else 0)
    decreases |tokens|
  {
    if |tokens| == 0 {
      assert tokens + [row] == [row];
      assert ([row])[1..] == [];
    } else {
      CountOwnedAppend(tokens[1..], row, id);
      assert (tokens + [row])[1..] == tokens[1..] + [row];
    }
  }

  /** Ids increase in table order and no two rows share an e-mail. */
  predicate Distinct(users: seq<User>) {
    forall i, j :: 0 <= i < j < |users| ==>
      users[i].id < users[j].id && users[i].email != users[j].email
  }

  /**
   * The table shape the schema guarantees: ids increase in insertion order
   * and stay below the next auto-increment value, and no two rows share an
   * e-mail (the unique key).
   */
  predicate WellFormed(db: Db) {
    && Distinct(db.users)
    && (forall u :: u in db.users ==> u.id < db.nextId)
  }

  /** A successful user INSERT keeps the table well formed. */
  lemma InsertUserKeepsWellFormed(db: Db, name: string, email: string, digest: string)
    requires WellFormed(db)
    requires InsertUser(db, name, email, digest).Success?
    ensures WellFormed(InsertUser(db, name, email, digest).value.0)
  {
    var users' := InsertUser(db, name, email, digest).value.0.users;
    forall i, j | 0 <= i < j < |users'|
      ensures users'[i].id < users'[j].id && users'[i].email != users'[j].email
    {
      if j == |db.users| {
        assert users'[i] in db.users;
      }
    }
  }

  /** A row placed before a distinct table whose rows all follow it keeps it distinct. */
  lemma DistinctCons(u: User, rest: seq<User>)
    requires Distinct(rest)
    requires forall v :: v in rest ==> u.id < v.id && u.email != v.email
    ensures Distinct([u] + rest)
  {
    var result := [u] + rest;
    forall i, j | 0 <= i < j < |result|
      ensures result[i].id < result[j].id && result[i].email != result[j].email
    {
      assert result[j] == rest[j - 1];
      if i > 0 {
        assert result[i] == rest[i - 1];
      } else {
        assert rest[j - 1] in rest;
      }
    }
  }

  /** Deleting rows by id keeps ids increasing and e-mails distinct. */
  lemma {:induction false} DeleteKeepsDistinct(users: seq<User>, id: nat)
    requires Distinct(users)
    ensures Distinct(DeleteWithId(users, id).0)
    decreases |users|
  {
    if |users| > 0 {
      var tail := users[1..];
      assert Distinct(tail) by {
        forall i, j | 0 <= i < j < |tail|
          ensures tail[i].id < tail[j].id && tail[i].email != tail[j].email
        {
          assert tail[i] == users[i + 1] && tail[j] == users[j + 1];
        }
      }
      DeleteKeepsDistinct(tail, id);
      if users[0].id != id {
        var rest := DeleteWithId(tail, id).0;
        forall v | v in rest
          ensures users[0].id < v.id && users[0].email != v.email
        {
          var m :| 0 <= m < |tail| && tail[m] == v;
          assert users[m + 1] == v;
        }
        DistinctCons(users[0], rest);
      }
    }
  }

  /** Deleting rows by id keeps the table well formed. */
  lemma DeleteKeepsWellFormed(db: Db, id: nat)
    requires WellFormed(db)
    ensures WellFormed(db.(users := DeleteWithId(db.users, id).0))
  {
    DeleteKeepsDistinct(db.users, id);
  }

  /** The id lookup over a table with one more row at the end. */
  lemma {:induction false} ProfilesAppend(users: seq<User>, u: User, id: nat)
    ensures ProfilesWithId(users + [u], id)
         == ProfilesWithId(users, id) + (if u.id == id then [Project(u)] else [])
    decreases |users|
  {
    if |users| == 0 {
      assert users + [u] == [u];
      assert ([u])[1..] == [];
    } else {
      ProfilesAppend(users[1..], u, id);
      assert (users + [u])[1..] == users[1..] + [u];
    }
  }

  /** No row with the id: the lookup is empty. */
  lemma {:induction false} ProfilesNone(users: seq<User>, id: nat)
    requires forall u :: u in users ==> u.id != id
    ensures ProfilesWithId(users, id) == []
    decreases |users|
  {
    if |users| > 0 {
      assert forall u :: u in users[1..] ==> u in users;
      ProfilesNone(users[1..], id);
    }
  }

  /** The digest lookup over a table with one more row at the end. */
  lemma {:induction false} TokensAppend(tokens: seq<TokenRow>, row: TokenRow, hash: string)
    ensures TokensWithHash(tokens + [row], hash)
         == TokensWithHash(tokens, hash) + (if row.hash == hash then [row] else [])
    decreases |tokens|
  {
    if |tokens| == 0 {
      assert tokens + [row] == [row];
      assert ([row])[1..] == [];
    } else {
      TokensAppend(tokens[1..], row, hash);
      assert (tokens + [row])[1..] == tokens[1..] + [row];
    }
  }
}

