/**
 * `DBService` (dbService.py) over two in-memory tables in place of PostgreSQL:
 * `users`, rows `(username, uniqueid, email, accesskey, password)`, and `data`,
 * rows `(identifier, value)`.
 *
 * Each query or update is given first as a function on the rows (what the SQL
 * statement selects or leaves behind); the class methods are proved to do
 * exactly that, and the lemmas state what the functions guarantee.
 */
module Database {
  import opened Wrappers
  import opened Exceptions
  import opened Strings
  import opened Identifiers
  import opened Email
  import opened AccessKeys
  import opened Credentials
  import opened SqlLike
  import opened Records

  datatype UserRow = UserRow(username: string, uniqueid: string, email: string, accesskey: string, password: string)

  datatype BlockRow = BlockRow(identifier: string, value: string)

  /** The searchable columns of `users`, in the order `getUsers` takes its parameters. */
  datatype Column = ColUsername | ColUniqueid | ColEmail | ColAccessKey

  /** The parameter name `getUsers` puts in its search term (the column, case-insensitively). */
  function ColumnName(c: Column): string
  {
    match c
    case ColUsername => "username"
    case ColUniqueid => "uniqueid"
    case ColEmail => "email"
    case ColAccessKey => "accessKey"
  }

  function ColumnValue(row: UserRow, c: Column): string
  {
    match c
    case ColUsername => row.username
    case ColUniqueid => row.uniqueid
    case ColEmail => row.email
    case ColAccessKey => row.accesskey
  }

  /** A `WHERE col = value AND ...` condition. */
  predicate RowMatches(row: UserRow, terms: seq<(Column, string)>)
  {
    forall k :: 0 <= k < |terms| ==> ColumnValue(row, terms[k].0) == terms[k].1
  }

  /** `WHERE username = u`. */
  lemma MatchesName(row: UserRow, username: string)
    ensures RowMatches(row, [(ColUsername, username)]) <==> row.username == username
  {
    assert [(ColUsername, username)][0] == (ColUsername, username);
  }

  /** `WHERE username = u AND accessKey = k`. */
  lemma MatchesNameAndKey(row: UserRow, username: string, accessKey: string)
    ensures RowMatches(row, [(ColUsername, username), (ColAccessKey, accessKey)])
        <==> row.username == username && row.accesskey == accessKey
  {
    var terms := [(ColUsername, username), (ColAccessKey, accessKey)];
    assert terms[0] == (ColUsername, username) && terms[1] == (ColAccessKey, accessKey);
  }

  /** `SELECT * FROM users WHERE <terms>`: the matching rows, in table order. */
  function SelectUsers(rows: seq<UserRow>, terms: seq<(Column, string)>): (sel: seq<UserRow>)
    ensures |sel| <= |rows|
    ensures forall r :: r in sel <==> r in rows && RowMatches(r, terms)
    ensures forall r :: multiset(sel)[r] == if RowMatches(r, terms) then multiset(rows)[r] else 0
  {
    if rows == [] then []
    else
      assert rows == [rows[0]] + rows[1..];
      (if RowMatches(rows[0], terms) then [rows[0]] else []) + SelectUsers(rows[1..], terms)
  }

  /** The term a parameter contributes: one when it is a string, none when it is `None`. */
  function Term(c: Column, v: Option<string>): seq<(Column, string)>
  {
    if v.Some? then [(c, v.value)] else []
  }

  /** The search terms of `getUsers`: one per string parameter, in parameter order. */
  function SearchTerms(username: Option<string>, uniqueid: Option<string>, email: Option<string>, accessKey: Option<string>)
    : (terms: seq<(Column, string)>)
    ensures |terms| == 0 <==> username.None? && uniqueid.None? && email.None? && accessKey.None?
  {
    Term(ColUsername, username) + Term(ColUniqueid, uniqueid) + Term(ColEmail, email) + Term(ColAccessKey, accessKey)
  }

  /** A search term names each column at most once and keeps the parameter order. */
  lemma SearchTermsOrdered(username: Option<string>, uniqueid: Option<string>, email: Option<string>, accessKey: Option<string>)
    ensures var terms := SearchTerms(username, uniqueid, email, accessKey);
      && |terms| == (if username.Some? then 1 else 0) + (if uniqueid.Some? then 1 else 0)
                    + (if email.Some? then 1 else 0) + (if accessKey.Some? then 1 else 0)
      && (forall i, j :: 0 <= i < j < |terms| ==> ColumnRank(terms[i].0) < ColumnRank(terms[j].0))
      && (forall c, v :: (c, v) in terms <==> || (c == ColUsername && username == Some(v))
                                              || (c == ColUniqueid && uniqueid == Some(v))
                                              || (c == ColEmail && email == Some(v))
                                              || (c == ColAccessKey && accessKey == Some(v)))
  {
  }

  function ColumnRank(c: Column): nat
  {
    match c
    case ColUsername => 0
    case ColUniqueid => 1
    case ColEmail => 2
    case ColAccessKey => 3
  }

  /** A row with a username of its own and the root identifier of that user. */
  predicate RowWellFormed(row: UserRow)
  {
    && ValidId(row.uniqueid)
    && (row.uniqueid == EnvName(Test) + "." + row.username || row.uniqueid == EnvName(Prod) + "." + row.username)
  }

  /** What `createUser` maintains: well-formed rows with pairwise different user names. */
  predicate UsersTableValid(rows: seq<UserRow>)
  {
    && (forall k :: 0 <= k < |rows| ==> RowWellFormed(rows[k]))
    && (forall i, j :: 0 <= i < j < |rows| ==> rows[i].username != rows[j].username)
  }

  /** Some row already has this user name. */
  predicate NameTaken(rows: seq<UserRow>, username: string)
  {
    exists row :: row in rows && row.username == username
  }

  /** A user-name search selects exactly the rows with that name. */
  lemma SelectByName(rows: seq<UserRow>, username: string)
    ensures forall r :: r in SelectUsers(rows, [(ColUsername, username)]) <==> r in rows && r.username == username
    ensures |SelectUsers(rows, [(ColUsername, username)])| > 0 <==> NameTaken(rows, username)
  {
    var sel := SelectUsers(rows, [(ColUsername, username)]);
    forall r ensures r in sel <==> r in rows && r.username == username {
      MatchesName(r, username);
    }
    if |sel| > 0 {
      assert sel[0] in sel;
    }
  }

  /** A search on user name and key selects exactly the rows holding both. */
  lemma SelectByNameAndKey(rows: seq<UserRow>, username: string, accessKey: string)
    ensures |SelectUsers(rows, [(ColUsername, username), (ColAccessKey, accessKey)])| > 0
        <==> exists row :: row in rows && row.username == username && row.accesskey == accessKey
    ensures forall r :: (r in SelectUsers(rows, [(ColUsername, username), (ColAccessKey, accessKey)])
                         ==> r.username == username && r.accesskey == accessKey)
  {
    var sel := SelectUsers(rows, [(ColUsername, username), (ColAccessKey, accessKey)]);
    forall r ensures r in sel <==> r in rows && r.username == username && r.accesskey == accessKey {
      MatchesNameAndKey(r, username, accessKey);
    }
    if |sel| > 0 {
      assert sel[0] in sel;
    }
  }

  /** With pairwise different user names, a user-name search finds at most one row. */
  lemma {:induction false} UniqueNameSelectsOne(rows: seq<UserRow>, username: string)
    requires forall i, j :: 0 <= i < j < |rows| ==> rows[i].username != rows[j].username
    ensures |SelectUsers(rows, [(ColUsername, username)])| <= 1
  {
    if rows != [] {
      var terms := [(ColUsername, username)];
      var rest := SelectUsers(rows[1..], terms);
      UniqueNameSelectsOne(rows[1..], username);
      SelectByName(rows[1..], username);
      if rows[0].username == username {
        assert !NameTaken(rows[1..], username) by {
          forall r | r in rows[1..] ensures r.username != username {
            var j :| 0 <= j < |rows[1..]| && rows[1..][j] == r;
            assert rows[j + 1] == r;
          }
        }
      }
      MatchesName(rows[0], username);
    }
  }

  /** `verifyAccessKey`: the key back when it is well formed and stored for that user, else `None`. */
  function VerifyAccessKeyResult(rows: seq<UserRow>, username: string, accessKey: string): (r: Option<string>)
    ensures !KeyFormatOk(accessKey) ==> r == None
    ensures r.Some? <==> KeyFormatOk(accessKey) && exists row :: row in rows && row.username == username && row.accesskey == accessKey
    ensures r.Some? ==> r.value == accessKey
  {
    if !KeyFormatOk(accessKey) then None
    else
      var sel := SelectUsers(rows, [(ColUsername, username), (ColAccessKey, accessKey)]);
      SelectByNameAndKey(rows, username, accessKey);
      if |sel| > 0 then
        assert sel[0] in sel;
        Some(sel[0].accesskey)
      else
        None
  }

  /**
   * `login`: no row for the user name gives `None`, more than one raises
   * RuntimeError, and a single row gives its access key when the password
   * verifies against the stored hash (a failed or raising verification gives `None`).
   */
  function LoginResult(rows: seq<UserRow>, hasher: Hasher, username: string, password: string): (r: Result<Option<string>, Error>)
    ensures r.Err? <==> |SelectUsers(rows, [(ColUsername, username)])| > 1
    ensures r.Err? ==> r.error == RuntimeError
    ensures !NameTaken(rows, username) ==> r == Ok(None)
    ensures var sel := SelectUsers(rows, [(ColUsername, username)]);
      |sel| == 1 ==> r == Ok(if hasher.verify(sel[0].password, password) then Some(sel[0].accesskey) else None)
    ensures r.Ok? && r.value.Some? ==>
      exists row :: row in rows && row.username == username && hasher.verify(row.password, password) && row.accesskey == r.value.value
  {
    var sel := SelectUsers(rows, [(ColUsername, username)]);
    SelectByName(rows, username);
    if |sel| == 1 then
      assert sel[0] in sel;
      if hasher.verify(sel[0].password, password) then Ok(Some(sel[0].accesskey)) else Ok(None)
    else if |sel| == 0 then Ok(None)
    else Err(RuntimeError)
  }

  /** On a valid table `login` never raises. */
  lemma LoginTotalOnValidTable(rows: seq<UserRow>, hasher: Hasher, username: string, password: string)
    requires UsersTableValid(rows)
    ensures LoginResult(rows, hasher, username, password).Ok?
  {
    UniqueNameSelectsOne(rows, username);
  }

  /** The row `createUser` inserts for a user whose root identifier is `uniqueid`. */
  function NewUserRow(hasher: Hasher, username: string, uniqueid: string, email: string, password: string, entropy: Entropy)
    : (row: UserRow)
    ensures row.username == username && row.uniqueid == uniqueid && row.email == email
    ensures row.password == hasher.hash(password)
    ensures KeyFormatOk(row.accesskey) && HexDecode(row.accesskey) == Some(entropy)
  {
    GeneratedKeyWellFormed(entropy);
    UserRow(username, uniqueid, email, GenerateAccessKey(entropy), hasher.hash(password))
  }

  /** Some selected row holds an identifier that `uniqueIdToMap` rejects. */
  predicate SomeInvalidId(sel: seq<UserRow>)
  {
    exists k :: 0 <= k < |sel| && !ValidId(sel[k].uniqueid)
  }

  /**
   * `createUser`, decision by decision: RuntimeError from building the `User`,
   * then InvalidEmail, then whatever the user-name search raises (ValueError on
   * a stored invalid identifier), then NonuniqueUsername when any row, in either
   * environment, has the name; only then one row is appended.
   */
  function CreateUserResult(rows: seq<UserRow>, hasher: Hasher, username: string, email: string, password: string,
                            test: bool, entropy: Entropy): (r: Result<seq<UserRow>, Error>)
    ensures r.Ok? ==> ValidateEmail(email) && !NameTaken(rows, username)
    ensures r.Ok? ==> var root := EnvName(if test then Test else Prod) + "." + username;
      ValidId(root) && r.value == rows + [NewUserRow(hasher, username, root, email, password, entropy)]
    ensures r == Err(RuntimeError) <==> GenerateUniqueId(if test then Test else Prod, username, []).Err?
    ensures r == Err(InvalidEmail) <==> GenerateUniqueId(if test then Test else Prod, username, []).Ok? && !ValidateEmail(email)
    ensures r == Err(NonuniqueUsername) ==> NameTaken(rows, username)
    ensures r == Err(ValueError) ==> NameTaken(rows, username)
    ensures (GenerateUniqueId(if test then Test else Prod, username, []).Ok? && ValidateEmail(email)
             && !NameTaken(rows, username)) ==> r.Ok?
  {
    var env := if test then Test else Prod;
    var id := DeriveUniqueId(env, username, None);
    if id.Err? then Err(RuntimeError)
    else if !ValidateEmail(email) then Err(InvalidEmail)
    else
      var sel := SelectUsers(rows, [(ColUsername, username)]);
      SelectByName(rows, username);
      if SomeInvalidId(sel) then Err(ValueError)
      else if |sel| > 0 then Err(NonuniqueUsername)
      else Ok(rows + [NewUserRow(hasher, username, id.value, email, password, entropy)])
  }

  /** Appending a well-formed row under a new name keeps the table valid. */
  lemma AppendPreservesValid(rows: seq<UserRow>, row: UserRow)
    requires UsersTableValid(rows) && RowWellFormed(row) && !NameTaken(rows, row.username)
    ensures UsersTableValid(rows + [row])
  {
    var rows' := rows + [row];
    forall k | 0 <= k < |rows'| ensures RowWellFormed(rows'[k]) {
      if k < |rows| { assert rows'[k] == rows[k]; }
    }
    forall i, j | 0 <= i < j < |rows'| ensures rows'[i].username != rows'[j].username {
      assert rows'[i] == rows[i] && rows[i] in rows;
      if j < |rows| { assert rows'[j] == rows[j]; }
    }
  }

  /** `createUser` keeps the table valid: the new row is well formed and its name is new. */
  lemma CreateUserPreservesValid(rows: seq<UserRow>, hasher: Hasher, username: string, email: string, password: string,
                                 test: bool, entropy: Entropy)
    requires UsersTableValid(rows)
    requires CreateUserResult(rows, hasher, username, email, password, test, entropy).Ok?
    ensures UsersTableValid(CreateUserResult(rows, hasher, username, email, password, test, entropy).value)
  {
    var root := EnvName(if test then Test else Prod) + "." + username;
    var row := NewUserRow(hasher, username, root, email, password, entropy);
    assert RowWellFormed(row);
    AppendPreservesValid(rows, row);
  }

  /** On a valid table, a taken user name is refused once the identifier and the email pass. */
  lemma CreateUserRefusesTakenName(rows: seq<UserRow>, hasher: Hasher, username: string, email: string, password: string,
                                   test: bool, entropy: Entropy)
    requires UsersTableValid(rows)
    requires exists row :: row in rows && row.username == username
    requires GenerateUniqueId(if test then Test else Prod, username, []).Ok? && ValidateEmail(email)
    ensures CreateUserResult(rows, hasher, username, email, password, test, entropy) == Err(NonuniqueUsername)
  {
    var sel := SelectUsers(rows, [(ColUsername, username)]);
    var row :| row in rows && row.username == username;
    assert row in sel;
    forall k | 0 <= k < |sel| ensures ValidId(sel[k].uniqueid) {
      assert sel[k] in sel;
      var i :| 0 <= i < |rows| && rows[i] == sel[k];
      assert RowWellFormed(rows[i]);
    }
  }

  /** On a valid table, a stored user logs in exactly when the password verifies against its hash, and gets its key. */
  lemma LoginStoredUser(rows: seq<UserRow>, hasher: Hasher, row: UserRow, password: string)
    requires UsersTableValid(rows) && row in rows
    ensures LoginResult(rows, hasher, row.username, password)
         == Ok(if hasher.verify(row.password, password) then Some(row.accesskey) else None)
  {
    UniqueNameSelectsOne(rows, row.username);
    SelectByName(rows, row.username);
    var sel := SelectUsers(rows, [(ColUsername, row.username)]);
    assert row in sel;
    assert |sel| == 1 && sel[0] in sel;
  }

  /** A sound hasher lets the new user log in with the password given at creation and get the new key. */
  lemma LoginAfterCreate(rows: seq<UserRow>, hasher: Hasher, username: string, email: string, password: string,
                         test: bool, entropy: Entropy)
    requires UsersTableValid(rows) && Sound(hasher)
    requires CreateUserResult(rows, hasher, username, email, password, test, entropy).Ok?
    ensures LoginResult(CreateUserResult(rows, hasher, username, email, password, test, entropy).value, hasher, username, password)
         == Ok(Some(GenerateAccessKey(entropy)))
  {
    var root := EnvName(if test then Test else Prod) + "." + username;
    var row := NewUserRow(hasher, username, root, email, password, entropy);
    var rows' := CreateUserResult(rows, hasher, username, email, password, test, entropy).value;
    assert rows' == rows + [row];
    CreateUserPreservesValid(rows, hasher, username, email, password, test, entropy);
    assert row in rows';
    LoginStoredUser(rows', hasher, row, password);
    assert hasher.verify(hasher.hash(password), password);
  }

  /** An entry `updateUser` accepts: an allowed column, and a valid address for `email`. */
  predicate AllowedUpdate(kv: (string, string))
  {
    && (kv.0 == "email" || kv.0 == "accessKey" || kv.0 == "password")
    && (kv.0 == "email" ==> ValidateEmail(kv.1))
  }

  /** A row with every `(column, value)` pair of the update applied. */
  function ApplyUpdates(row: UserRow, values: seq<(string, string)>): (r: UserRow)
    ensures r.username == row.username && r.uniqueid == row.uniqueid
    decreases |values|
  {
    if values == [] then row
    else
      var (key, value) := values[0];
      var row' := if key == "email" then row.(email := value)
                  else if key == "accessKey" then row.(accesskey := value)
                  else if key == "password" then row.(password := value)
                  else row;
      ApplyUpdates(row', values[1..])
  }

  /** `UPDATE users SET ... WHERE users.uniqueID = uniqueid`. */
  function UpdateUserRows(rows: seq<UserRow>, uniqueid: string, values: seq<(string, string)>): (rows': seq<UserRow>)
    ensures |rows'| == |rows|
    ensures forall k :: 0 <= k < |rows| ==> rows'[k].username == rows[k].username && rows'[k].uniqueid == rows[k].uniqueid
    ensures forall k :: 0 <= k < |rows| && rows[k].uniqueid != uniqueid ==> rows'[k] == rows[k]
  {
    seq(|rows|, k requires 0 <= k < |rows| => if rows[k].uniqueid == uniqueid then ApplyUpdates(rows[k], values) else rows[k])
  }

  /** Only rows with the given identifier change, and never in their user name or identifier. */
  lemma UpdateUserOnlyTarget(rows: seq<UserRow>, uniqueid: string, values: seq<(string, string)>)
    ensures var rows' := UpdateUserRows(rows, uniqueid, values);
      && (forall k :: 0 <= k < |rows| && rows[k].uniqueid != uniqueid ==> rows'[k] == rows[k])
      && (forall k :: 0 <= k < |rows| ==> rows'[k].username == rows[k].username && rows'[k].uniqueid == rows[k].uniqueid)
  {
  }

  /** An update keeps the table valid: it never touches user names or identifiers. */
  lemma UpdateUserPreservesValid(rows: seq<UserRow>, uniqueid: string, values: seq<(string, string)>)
    requires UsersTableValid(rows)
    ensures UsersTableValid(UpdateUserRows(rows, uniqueid, values))
  {
    var rows' := UpdateUserRows(rows, uniqueid, values);
    forall k | 0 <= k < |rows'| ensures RowWellFormed(rows'[k]) {
      assert RowWellFormed(rows[k]);
    }
  }

  /** The last pair for a column decides it; with distinct keys, the one pair. */
  lemma {:induction false} ApplyUpdatesSets(row: UserRow, values: seq<(string, string)>, k: int)
    requires 0 <= k < |values|
    requires forall i, j :: 0 <= i < j < |values| ==> values[i].0 != values[j].0
    ensures values[k].0 == "email" ==> ApplyUpdates(row, values).email == values[k].1
    ensures values[k].0 == "accessKey" ==> ApplyUpdates(row, values).accesskey == values[k].1
    ensures values[k].0 == "password" ==> ApplyUpdates(row, values).password == values[k].1
    decreases |values|
  {
    var (key, value) := values[0];
    var row' := if key == "email" then row.(email := value)
                else if key == "accessKey" then row.(accesskey := value)
                else if key == "password" then row.(password := value)
                else row;
    assert ApplyUpdates(row, values) == ApplyUpdates(row', values[1..]);
    if k > 0 {
      ApplyUpdatesSets(row', values[1..], k - 1);
    } else {
      ApplyUpdatesKeeps(row', values[1..], key);
    }
  }

  /** Pairs for other columns leave a column as it is. */
  lemma {:induction false} ApplyUpdatesKeeps(row: UserRow, values: seq<(string, string)>, key: string)
    requires forall i :: 0 <= i < |values| ==> values[i].0 != key
    ensures key == "email" ==> ApplyUpdates(row, values).email == row.email
    ensures key == "accessKey" ==> ApplyUpdates(row, values).accesskey == row.accesskey
    ensures key == "password" ==> ApplyUpdates(row, values).password == row.password
    decreases |values|
  {
    if values != [] {
      var (k0, v0) := values[0];
      var row' := if k0 == "email" then row.(email := v0)
                  else if k0 == "accessKey" then row.(accesskey := v0)
                  else if k0 == "password" then row.(password := v0)
                  else row;
      assert ApplyUpdates(row, values) == ApplyUpdates(row', values[1..]);
      ApplyUpdatesKeeps(row', values[1..], key);
    }
  }

  /** `SELECT * FROM data WHERE identifier LIKE pattern`, in table order. */
  function SelectLike(rows: seq<BlockRow>, pattern: string): (sel: seq<BlockRow>)
    ensures forall r :: r in sel <==> r in rows && Like(r.identifier, pattern)
    ensures forall r :: multiset(sel)[r] == if Like(r.identifier, pattern) then multiset(rows)[r] else 0
  {
    if rows == [] then []
    else
      assert rows == [rows[0]] + rows[1..];
      (if Like(rows[0].identifier, pattern) then [rows[0]] else []) + SelectLike(rows[1..], pattern)
  }

  /** The rows whose identifier starts with `prefix`, in table order. */
  function SelectPrefix(rows: seq<BlockRow>, prefix: string): (sel: seq<BlockRow>)
    ensures forall r :: r in sel <==> r in rows && prefix <= r.identifier
    ensures forall r :: multiset(sel)[r] == if prefix <= r.identifier then multiset(rows)[r] else 0
  {
    if rows == [] then []
    else
      assert rows == [rows[0]] + rows[1..];
      (if prefix <= rows[0].identifier then [rows[0]] else []) + SelectPrefix(rows[1..], prefix)
  }

  /** `getBlocks(x)` on a wildcard-free `x` selects exactly the rows whose identifier starts with `x`. */
  lemma {:induction false} GetBlocksIsPrefixSearch(rows: seq<BlockRow>, x: string)
    requires NoWildcards(x)
    ensures SelectLike(rows, x + "%") == SelectPrefix(rows, x)
  {
    if rows != [] {
      PrefixPattern(rows[0].identifier, x);
      GetBlocksIsPrefixSearch(rows[1..], x);
    }
  }

  /** `UPDATE data SET value = v WHERE data.identifier = identifier`. */
  function UpdateBlockRows(rows: seq<BlockRow>, identifier: string, value: string): (rows': seq<BlockRow>)
    ensures |rows'| == |rows|
    ensures forall k :: 0 <= k < |rows| ==> rows'[k].identifier == rows[k].identifier
    ensures forall k :: 0 <= k < |rows| ==> rows'[k].value == if rows[k].identifier == identifier then value else rows[k].value
  {
    seq(|rows|, k requires 0 <= k < |rows| => if rows[k].identifier == identifier then BlockRow(identifier, value) else rows[k])
  }

  /**
   * `updateBlock` rewrites the rows with exactly that identifier and no other,
   * so the blocks below it in the hierarchy keep their values.
   */
  lemma UpdateBlockOnlyExact(rows: seq<BlockRow>, identifier: string, value: string)
    ensures var rows' := UpdateBlockRows(rows, identifier, value);
      && (forall k :: 0 <= k < |rows| && rows[k].identifier != identifier ==> rows'[k] == rows[k])
      && (forall k :: 0 <= k < |rows| && rows[k].identifier == identifier ==> rows'[k] == BlockRow(identifier, value))
      && (forall k, sub :: 0 <= k < |rows| && rows[k].identifier == identifier + "." + sub ==> rows'[k] == rows[k])
  {
    forall k, sub | 0 <= k < |rows| && rows[k].identifier == identifier + "." + sub
      ensures rows[k].identifier != identifier
    {
      assert |rows[k].identifier| > |identifier|;
    }
  }

  /** `DELETE FROM data WHERE data.identifier = identifier`, keeping the order of the rest. */
  function DeleteBlockRows(rows: seq<BlockRow>, identifier: string): (rows': seq<BlockRow>)
    ensures |rows'| <= |rows|
    ensures forall r :: r in rows' <==> r in rows && r.identifier != identifier
    ensures forall r :: multiset(rows')[r] == if r.identifier != identifier then multiset(rows)[r] else 0
  {
    if rows == [] then []
    else
      assert rows == [rows[0]] + rows[1..];
      (if rows[0].identifier != identifier then [rows[0]] else []) + DeleteBlockRows(rows[1..], identifier)
  }

  /** `deleteBlock` does not cascade: every block below the deleted one stays. */
  lemma DeleteBlockKeepsChildren(rows: seq<BlockRow>, identifier: string, sub: string)
    ensures forall r :: r in rows && r.identifier == identifier + "." + sub ==> r in DeleteBlockRows(rows, identifier)
  {
    forall r | r in rows && r.identifier == identifier + "." + sub
      ensures r in DeleteBlockRows(rows, identifier)
    {
      assert |r.identifier| > |identifier|;
    }
  }

  /** How a stored row comes back from `getUsers`, rebuilt through the `User` constructor. */
  predicate RehydratedFrom(u: User, row: UserRow, hasher: Hasher, entropy: Entropy)
    reads u
  {
    && u.username == row.username && u.uniqueid == row.uniqueid && u.email == row.email
    && UniqueIdToMap(row.uniqueid).Ok? && u.env == UniqueIdToMap(row.uniqueid).value.env
    && u.accessKey == DeriveAccessKey(Some(row.accesskey), entropy)
    && u.password == hasher.hash(row.password)
  }

  /** The `(identifier, value)` pairs of the selected rows. */
  function RowPairs(rows: seq<BlockRow>): (raws: seq<(string, string)>)
    ensures |raws| == |rows|
    ensures forall k :: 0 <= k < |rows| ==> raws[k] == (rows[k].identifier, rows[k].value)
  {
    seq(|rows|, k requires 0 <= k < |rows| => (rows[k].identifier, rows[k].value))
  }

  class DBService {
    /** The password hasher (Argon2 in the source). */
    const hasher: Hasher
    var users: seq<UserRow>
    var data: seq<BlockRow>

    /** A service over the given tables; the connection set-up is not modelled. */
    constructor(hasher: Hasher, users: seq<UserRow>, data: seq<BlockRow>)
      ensures this.hasher == hasher && this.users == users && this.data == data
    {
      this.hasher := hasher;
      this.users := users;
      this.data := data;
    }

    /** `verifyAccessKey(username, accessKey)`. */
    method VerifyAccessKey(username: string, accessKey: string) returns (r: Option<string>)
      ensures r == VerifyAccessKeyResult(users, username, accessKey)
    {
      if |accessKey| != KeyLength || !IsAlnum(accessKey) {
        return None;
      }
      var queryResult := SelectUsers(users, [(ColUsername, username), (ColAccessKey, accessKey)]);
      if |queryResult| > 0 {
        return Some(queryResult[0].accesskey);
      }
      return None;
    }

    /**
     * The term-building loop of `getUsers`: one `"<name> = %s"` statement and one
     * data item per parameter that is a string, in parameter order.
     */
    static method BuildSearch(username: Option<string>, uniqueid: Option<string>, email: Option<string>, accessKey: Option<string>)
      returns (statements: seq<string>, data: seq<string>)
      ensures var terms := SearchTerms(username, uniqueid, email, accessKey);
        && |statements| == |data| == |terms|
        && (forall k :: 0 <= k < |terms| ==> statements[k] == ColumnName(terms[k].0) + " = %s" && data[k] == terms[k].1)
    {
      var params := Params(username, uniqueid, email, accessKey);
      statements, data := [], [];
      ghost var terms: seq<(Column, string)> := [];
      for i := 0 to |params|
        invariant terms == TermsOf(params[..i])
        invariant |statements| == |data| == |terms|
        invariant forall k :: 0 <= k < |terms| ==> statements[k] == ColumnName(terms[k].0) + " = %s" && data[k] == terms[k].1
      {
        assert params[..i + 1][..i] == params[..i];
        var (column, value) := params[i];
        if value.Some? {
          statements := statements + [ColumnName(column) + " = %s"];
          data := data + [value.value];
        }
        terms := terms + Term(column, value);
      }
      assert params[..|params|] == params;
      ParamsTerms(username, uniqueid, email, accessKey);
    }

    /**
     * `getUsers`: SqlError when no parameter is a string (the statement ends in
     * `WHERE `); otherwise the matching rows, each rebuilt as a `User` whose env
     * is read back from its identifier (ValueError on the first invalid one).
     * Row `k` draws `draw(k)` should its stored key be empty.
     */
    method GetUsers(username: Option<string>, uniqueid: Option<string>, email: Option<string>, accessKey: Option<string>,
                    draw: nat -> Entropy)
      returns (r: Result<seq<User>, Error>)
      ensures SearchTerms(username, uniqueid, email, accessKey) == [] ==> r == Err(SqlError)
      ensures SearchTerms(username, uniqueid, email, accessKey) != [] ==>
        (r.Err? <==> SomeInvalidId(SelectUsers(users, SearchTerms(username, uniqueid, email, accessKey))))
      ensures SearchTerms(username, uniqueid, email, accessKey) != [] && r.Err? ==> r.error == ValueError
      ensures r.Ok? ==> var sel := SelectUsers(users, SearchTerms(username, uniqueid, email, accessKey));
        && |r.value| == |sel|
        && forall k :: 0 <= k < |sel| ==> fresh(r.value[k]) && RehydratedFrom(r.value[k], sel[k], hasher, draw(k))
    {
      var statements, data := BuildSearch(username, uniqueid, email, accessKey);
      var terms := SearchTerms(username, uniqueid, email, accessKey);
      if |statements| == 0 {
        return Err(SqlError);
      }
      var queryResult := SelectUsers(users, terms);
      r := RehydrateAll(queryResult, hasher, draw);
    }

    /**
     * The loop of `getUsers` over the selected rows: each is rebuilt as a `User`,
     * stopping with ValueError at the first identifier `uniqueIdToMap` rejects.
     */
    static method RehydrateAll(queryResult: seq<UserRow>, hasher: Hasher, draw: nat -> Entropy)
      returns (r: Result<seq<User>, Error>)
      ensures r.Err? <==> SomeInvalidId(queryResult)
      ensures r.Err? ==> r.error == ValueError
      ensures r.Ok? ==> |r.value| == |queryResult|
      ensures r.Ok? ==> forall k :: 0 <= k < |queryResult| ==> fresh(r.value[k]) && RehydratedFrom(r.value[k], queryResult[k], hasher, draw(k))
    {
      var found: seq<User> := [];
      for i := 0 to |queryResult|
        invariant |found| == i
        invariant forall k :: 0 <= k < i ==> fresh(found[k]) && RehydratedFrom(found[k], queryResult[k], hasher, draw(k))
      {
        var row := queryResult[i];
        var idMap := UniqueIdToMap(row.uniqueid);
        if idMap.Err? {
          assert !ValidId(queryResult[i].uniqueid);
          return Err(idMap.error);
        }
        var user := Rehydrate(row, idMap.value, hasher, draw(i));
        found := found + [user];
      }
      return Ok(found);
    }

    /** One row of a `getUsers` result passed through the `User` constructor. */
    static method Rehydrate(row: UserRow, idMap: IdMap, hasher: Hasher, entropy: Entropy) returns (u: User)
      requires UniqueIdToMap(row.uniqueid) == Ok(idMap)
      ensures fresh(u) && RehydratedFrom(u, row, hasher, entropy)
    {
      ValidIdNonEmpty(row.uniqueid);
      var user := User.New(row.username, row.email, row.password, idMap.env, Some(row.uniqueid), Some(row.accesskey), hasher, entropy);
      u := user.value;
    }

    /** `createUser(username, email, password, test)`; `entropy` is the key drawn for the new user. */
    method CreateUser(username: string, email: string, password: string, test: bool, entropy: Entropy)
      returns (r: Result<int, Error>)
      modifies this`users
      ensures var spec := CreateUserResult(old(users), hasher, username, email, password, test, entropy);
        && (spec.Ok? ==> r == Ok(1) && users == spec.value)
        && (spec.Err? ==> r == Err(spec.error) && users == old(users))
    {
      var env := if test then Test else Prod;
      ghost var id := DeriveUniqueId(env, username, None);
      var user := User.New(username, email, password, env, None, None, hasher, entropy);
      if user.Err? {
        return Err(user.error);
      }
      if !ValidateEmail(email) {
        return Err(InvalidEmail);
      }
      NameSearchTerms(username);
      ghost var sel := SelectUsers(users, [(ColUsername, username)]);
      var existing := GetUsers(Some(username), None, None, None, _ => entropy);
      if existing.Err? {
        assert SomeInvalidId(sel);
        return Err(existing.error);
      }
      assert !SomeInvalidId(sel) && |existing.value| == |sel|;
      if |existing.value| > 0 {
        return Err(NonuniqueUsername);
      }
      var u := user.value;
      assert UserRow(u.username, u.uniqueid, u.email, u.accessKey, u.password)
          == NewUserRow(hasher, username, id.value, email, password, entropy);
      users := users + [UserRow(u.username, u.uniqueid, u.email, u.accessKey, u.password)];
      return Ok(1);
    }

    /**
     * `updateUser(uniqueid, valuesToUpdate)`: KeyError, before any change, on a
     * key outside email/accessKey/password or an invalid email; SqlError when
     * there is nothing to set; otherwise the rows with that identifier are updated.
     */
    method UpdateUser(uniqueid: string, values: seq<(string, string)>) returns (r: Result<(), Error>)
      requires forall i, j :: 0 <= i < j < |values| ==> values[i].0 != values[j].0
      modifies this`users
      ensures r.Err? <==> |values| == 0 || exists k :: 0 <= k < |values| && !AllowedUpdate(values[k])
      ensures r.Err? ==> r.error == (if |values| == 0 then SqlError else KeyError) && users == old(users)
      ensures r.Ok? ==> users == UpdateUserRows(old(users), uniqueid, values)
    {
      var setStatements: seq<string> := [];
      for i := 0 to |values|
        invariant |setStatements| == i
        invariant forall k :: 0 <= k < i ==> AllowedUpdate(values[k])
      {
        var (key, value) := values[i];
        if key != "email" && key != "accessKey" && key != "password" {
          return Err(KeyError);
        }
        if key == "email" && !ValidateEmail(value) {
          return Err(KeyError);
        }
        setStatements := setStatements + [key + " = '" + value + "'"];
      }
      if |setStatements| == 0 {
        return Err(SqlError);
      }
      users := UpdateUserRows(users, uniqueid, values);
      return Ok(());
    }

    /** `login(username, password)`. */
    method Login(username: string, password: string) returns (r: Result<Option<string>, Error>)
      ensures r == LoginResult(users, hasher, username, password)
      ensures UsersTableValid(users) ==> r.Ok?
    {
      var queryResult := SelectUsers(users, [(ColUsername, username)]);
      if |queryResult| == 1 {
        if hasher.verify(queryResult[0].password, password) {
          return Ok(Some(queryResult[0].accesskey));
        }
        return Ok(None);
      } else if |queryResult| == 0 {
        return Ok(None);
      }
      if UsersTableValid(users) {
        UniqueNameSelectsOne(users, username);
      }
      return Err(RuntimeError);
    }

    /** `createBlock(identifier, content)`: one row appended, unchecked; returns 1. */
    method CreateBlock(identifier: string, content: string) returns (r: int)
      modifies this`data
      ensures r == 1 && data == old(data) + [BlockRow(identifier, content)]
    {
      var valueBlock := new Block(identifier, content);
      data := data + [BlockRow(valueBlock.GetIdentifier(), valueBlock.GetValue())];
      return 1;
    }

    /** `getBlocks(identifier)`: a new `Block` per row matching `identifier || '%'`, in table order. */
    method GetBlocks(identifier: string) returns (blocks: seq<Block>)
      ensures forall k :: 0 <= k < |blocks| ==> fresh(blocks[k])
      ensures Pairs(blocks) == RowPairs(SelectLike(data, identifier + "%"))
    {
      var queryResult := SelectLike(data, identifier + "%");
      blocks := BlocksFromRows(queryResult);
    }

    /** The loop of `getBlocks`: one new `Block` per row, in order. */
    static method BlocksFromRows(queryResult: seq<BlockRow>) returns (blocks: seq<Block>)
      ensures forall k :: 0 <= k < |blocks| ==> fresh(blocks[k])
      ensures Pairs(blocks) == RowPairs(queryResult)
    {
      blocks := [];
      for i := 0 to |queryResult|
        invariant |blocks| == i
        invariant forall k :: 0 <= k < i ==> fresh(blocks[k])
        invariant Pairs(blocks) == RowPairs(queryResult[..i])
      {
        var block := new Block(queryResult[i].identifier, queryResult[i].value);
        PairsSnoc(blocks, block);
        blocks := blocks + [block];
      }
      assert queryResult[..|queryResult|] == queryResult;
    }

    /** `updateBlock(identifier, value)`. */
    method UpdateBlock(identifier: string, value: string)
      modifies this`data
      ensures data == UpdateBlockRows(old(data), identifier, value)
    {
      data := UpdateBlockRows(data, identifier, value);
    }

    /** `deleteBlock(identifier)`. */
    method DeleteBlock(identifier: string)
      modifies this`data
      ensures data == DeleteBlockRows(old(data), identifier)
    {
      data := DeleteBlockRows(data, identifier);
    }
  }

  /** The parameters of `getUsers` with their columns, in declaration order. */
  function Params(username: Option<string>, uniqueid: Option<string>, email: Option<string>, accessKey: Option<string>)
    : seq<(Column, Option<string>)>
  {
    [(ColUsername, username), (ColUniqueid, uniqueid), (ColEmail, email), (ColAccessKey, accessKey)]
  }

  /** The terms a prefix of the parameter list contributes. */
  function TermsOf(params: seq<(Column, Option<string>)>): seq<(Column, string)>
  {
    if params == [] then [] else TermsOf(params[..|params| - 1]) + Term(params[|params| - 1].0, params[|params| - 1].1)
  }

  /** Walking the parameters one by one gives the search terms. */
  lemma ParamsTerms(username: Option<string>, uniqueid: Option<string>, email: Option<string>, accessKey: Option<string>)
    ensures TermsOf(Params(username, uniqueid, email, accessKey)) == SearchTerms(username, uniqueid, email, accessKey)
  {
    var p := Params(username, uniqueid, email, accessKey);
    assert p[..4][..3] == p[..3] && p[..3][..2] == p[..2] && p[..2][..1] == p[..1] && p[..1][..0] == [];
    assert p[..4] == p;
    assert TermsOf(p[..1]) == Term(ColUsername, username);
    assert TermsOf(p[..2]) == Term(ColUsername, username) + Term(ColUniqueid, uniqueid);
    assert TermsOf(p[..3]) == Term(ColUsername, username) + Term(ColUniqueid, uniqueid) + Term(ColEmail, email);
  }

  /** A search on the user name alone. */
  lemma NameSearchTerms(username: string)
    ensures SearchTerms(Some(username), None, None, None) == [(ColUsername, username)]
  {
  }

  /** A valid identifier has at least two segments, so it is not empty. */
  lemma ValidIdNonEmpty(id: string)
    requires ValidId(id)
    ensures id != ""
  {
  }
}
