/**
 * The request layer of server.py: the credential gate every request passes
 * through, the handlers of the eight endpoints over one `DBService`, the way
 * their exceptions become HTTP statuses, and what the per-user identifier
 * scoping of the block endpoints does and does not guarantee.
 */
module Server {
  import opened Wrappers
  import opened Exceptions
  import opened Strings
  import opened Identifiers
  import opened AccessKeys
  import opened Credentials
  import opened SqlLike
  import opened Records
  import opened Database

  /** The paths the gate lets through without credentials. */
  const MiddlewareExclusions: seq<string> := ["/login", "/create_user", "/docs", "/openapi.json"]

  const UsernameHeader: string := "RequesterUsername"
  const AccessKeyHeader: string := "RequesterAccessKey"

  const CredentialsRequired: string := "Authorization credentials required."
  const CredentialsInvalid: string := "Authorization credentials invalid."
  const InvalidLogin: string := "Invalid login details."

  /** What `get_user` returns of a user: the record without password and access key. */
  datatype UserView = UserView(env: Env, username: string, uniqueid: string, email: string)

  datatype Body =
    | NoContent
    | Detail(text: string)
    /** The message of the exception raised (its text is not modelled). */
    | ExceptionDetail(error: Error)
    | AccessKeyBody(accessKey: string)
    | UserBody(user: Option<UserView>)
    | BlockList(blocks: seq<(string, string)>)

  datatype Response = Response(status: int, body: Body)

  /** What a handler does: answer, or raise an exception for the gate to turn into a 500. */
  datatype Outcome = Done(response: Response) | Raised(error: Error)

  /** The credential check runs for every path outside the exclusions, except for OPTIONS requests. */
  predicate GateApplies(path: string, verb: string)
  {
    path !in MiddlewareExclusions && verb != "OPTIONS"
  }

  /** Both credential headers are present and non-empty. */
  predicate HasCredentials(headers: map<string, string>)
  {
    && UsernameHeader in headers && AccessKeyHeader in headers
    && headers[UsernameHeader] != "" && headers[AccessKeyHeader] != ""
  }

  /** A row holds this user name and this key, and the key has the format `verifyAccessKey` demands. */
  predicate Authenticated(users: seq<UserRow>, username: string, accessKey: string)
  {
    KeyFormatOk(accessKey) && exists row :: row in users && row.username == username && row.accesskey == accessKey
  }

  /**
   * The decision of `verify_request_credentials`: `None` lets the request
   * through to its handler, `Some` is the 401 answered instead.
   */
  function Gate(users: seq<UserRow>, path: string, verb: string, headers: map<string, string>): (d: Option<Response>)
    ensures d.Some? ==> d.value.status == 401
    ensures !GateApplies(path, verb) ==> d == None
    ensures GateApplies(path, verb) && !HasCredentials(headers) ==> d == Some(Response(401, Detail(CredentialsRequired)))
    ensures GateApplies(path, verb) && HasCredentials(headers)
        ==> (d == None <==> Authenticated(users, headers[UsernameHeader], headers[AccessKeyHeader]))
    ensures GateApplies(path, verb) && HasCredentials(headers) && d.Some?
        ==> d.value == Response(401, Detail(CredentialsInvalid))
  {
    if !GateApplies(path, verb) then None
    else if UsernameHeader !in headers || AccessKeyHeader !in headers then Some(Response(401, Detail(CredentialsRequired)))
    else if headers[AccessKeyHeader] == "" || headers[UsernameHeader] == "" then Some(Response(401, Detail(CredentialsRequired)))
    else if !Truthy(VerifyAccessKeyResult(users, headers[UsernameHeader], headers[AccessKeyHeader])) then
      Some(Response(401, Detail(CredentialsInvalid)))
    else None
  }

  /** `verify_request_credentials` up to the call of the handler. */
  method VerifyRequestCredentials(db: DBService, path: string, verb: string, headers: map<string, string>)
    returns (d: Option<Response>)
    ensures d == Gate(db.users, path, verb, headers)
  {
    if path !in MiddlewareExclusions && verb != "OPTIONS" {
      if UsernameHeader !in headers || AccessKeyHeader !in headers {
        return Some(Response(401, Detail(CredentialsRequired)));
      }
      var username := headers[UsernameHeader];
      var accessKey := headers[AccessKeyHeader];
      if accessKey == "" || username == "" {
        return Some(Response(401, Detail(CredentialsRequired)));
      }
      var found := db.VerifyAccessKey(username, accessKey);
      if !Truthy(found) {
        return Some(Response(401, Detail(CredentialsInvalid)));
      }
    }
    return None;
  }

  /** What the gate makes of a handler's outcome: an exception becomes a 500. */
  function Finish(o: Outcome): (resp: Response)
    ensures o.Raised? ==> resp.status == 500 && resp.body == ExceptionDetail(o.error)
    ensures o.Done? ==> resp == o.response
  {
    match o
    case Done(r) => r
    case Raised(e) => Response(500, ExceptionDetail(e))
  }

  /** The identifier a block handler works on: the requester's root, a dot, and the caller's extension. */
  function FullIdentifier(uniqueid: string, ext: string): (full: string)
    ensures |full| == |uniqueid| + 1 + |ext|
    ensures uniqueid + "." <= full
    ensures full[|uniqueid| + 1..] == ext
  {
    uniqueid + "." + ext
  }

  /**
   * `getUsers(username, None, None, None)[0].getUniqueid()`: ValueError when a
   * row with that name holds an invalid identifier, IndexError when there is no
   * such row, otherwise the identifier of the first one.
   */
  function RequesterRoot(users: seq<UserRow>, username: string): (r: Result<string, Error>)
    ensures r == Err(IndexError) <==> !NameTaken(users, username)
    ensures r.Err? ==> r.error == IndexError || r.error == ValueError
    ensures r == Err(ValueError) <==> SomeInvalidId(SelectUsers(users, [(ColUsername, username)]))
    ensures r.Ok? ==> ValidId(r.value) && exists row :: row in users && row.username == username && row.uniqueid == r.value
  {
    var sel := SelectUsers(users, [(ColUsername, username)]);
    SelectByName(users, username);
    if SomeInvalidId(sel) then Err(ValueError)
    else if |sel| == 0 then Err(IndexError)
    else
      assert sel[0] in sel;
      Ok(sel[0].uniqueid)
  }

  /** The root lookup the four block handlers and `update_user` start with. */
  method FetchRequesterRoot(db: DBService, username: string, draw: nat -> Entropy) returns (r: Result<string, Error>)
    ensures r == RequesterRoot(db.users, username)
  {
    NameSearchTerms(username);
    var users := db.GetUsers(Some(username), None, None, None, draw);
    if users.Err? {
      return Err(users.error);
    }
    if |users.value| == 0 {
      return Err(IndexError);
    }
    return Ok(users.value[0].GetUniqueid());
  }

  /** A request that passes the gate on a valid table has its root: `env.username` for one of the two envs. */
  lemma GateGivesRoot(users: seq<UserRow>, username: string, accessKey: string)
    requires UsersTableValid(users) && Authenticated(users, username, accessKey)
    ensures RequesterRoot(users, username).Ok?
    ensures RequesterRoot(users, username).value in {EnvName(Test) + "." + username, EnvName(Prod) + "." + username}
  {
    var sel := SelectUsers(users, [(ColUsername, username)]);
    SelectByName(users, username);
    assert !SomeInvalidId(sel) by {
      forall k | 0 <= k < |sel| ensures ValidId(sel[k].uniqueid) {
        assert sel[k] in sel;
        var j :| 0 <= j < |users| && users[j] == sel[k];
        assert RowWellFormed(users[j]);
      }
    }
    var row :| row in users && row.username == username && row.uniqueid == RequesterRoot(users, username).value;
    var j :| 0 <= j < |users| && users[j] == row;
    assert RowWellFormed(users[j]);
  }

  /**
   * On a valid table, every identifier a block handler builds for an
   * authenticated requester starts with `env.username.` of that requester: the
   * environment and the user name never come from the caller's extension.
   */
  lemma BlockIdentifierOwned(users: seq<UserRow>, username: string, accessKey: string, ext: string)
    requires UsersTableValid(users) && Authenticated(users, username, accessKey)
    ensures RequesterRoot(users, username).Ok?
    ensures exists env :: EnvName(env) + "." + username + "." <= FullIdentifier(RequesterRoot(users, username).value, ext)
  {
    GateGivesRoot(users, username, accessKey);
    var root := RequesterRoot(users, username).value;
    if root == EnvName(Test) + "." + username {
      assert EnvName(Test) + "." + username + "." <= FullIdentifier(root, ext);
    } else {
      assert EnvName(Prod) + "." + username + "." <= FullIdentifier(root, ext);
    }
  }

  /** Two dot-free heads that are each followed by a dot at the start of one string are the same. */
  lemma DotFreeHeads(a: string, b: string, s: string)
    requires '.' !in a && '.' !in b
    requires a + "." <= s && b + "." <= s
    ensures a == b
  {
    DotEndsHead(a, s);
    DotEndsHead(b, s);
    assert a == s[..|a|] == b;
  }

  /** The first dot of a string that starts with a dot-free head and a dot is the one after the head. */
  lemma DotEndsHead(a: string, s: string)
    requires '.' !in a && a + "." <= s
    ensures IndexOf(s, '.') == |a|
  {
    assert s[|a|] == (a + ".")[|a|];
    forall k | 0 <= k < |a| ensures s[k] != '.' {
      assert s[k] == a[k];
    }
    IndexOfIs(s, '.', |a|);
  }

  /** The roots of two users with dot-free names are never both at the head of one identifier, unless they are the same. */
  lemma RootsSeparate(e1: Env, u1: string, e2: Env, u2: string, s: string)
    requires '.' !in u1 && '.' !in u2
    requires EnvName(e1) + "." + u1 + "." <= s && EnvName(e2) + "." + u2 + "." <= s
    ensures e1 == e2 && u1 == u2
  {
    var n1, n2 := EnvName(e1), EnvName(e2);
    assert n1 + "." <= s && n2 + "." <= s;
    DotFreeHeads(n1, n2, s);
    assert EnvByName(n1) == Some(e1) && EnvByName(n2) == Some(e2);
    var t := s[|n1| + 1..];
    assert u1 + "." <= t by {
      assert n1 + "." + u1 + "." == (n1 + ".") + (u1 + ".");
    }
    assert u2 + "." <= t by {
      assert n2 + "." + u2 + "." == (n2 + ".") + (u2 + ".");
    }
    DotFreeHeads(u1, u2, t);
  }

  /** Without wildcards in the root or the extension, `get_blocks` only returns rows under the requester's root. */
  lemma GetBlocksStaysUnderRoot(rows: seq<BlockRow>, root: string, ext: string)
    requires NoWildcards(root) && NoWildcards(ext)
    ensures forall r :: r in SelectLike(rows, FullIdentifier(root, ext) + "%")
                    ==> FullIdentifier(root, ext) <= r.identifier && root + "." <= r.identifier
  {
    var full := FullIdentifier(root, ext);
    assert NoWildcards(full) by {
      forall k | 0 <= k < |full| ensures !IsPatternMeta(full[k]) {
        if k < |root| {
          assert full[k] == root[k];
        } else if k > |root| {
          assert full[k] == ext[k - |root| - 1];
        }
      }
    }
    GetBlocksIsPrefixSearch(rows, full);
  }

  /**
   * A requester whose user name has no dot and no pattern character never gets
   * a block that lies under the root of a different dot-free user, whatever
   * extension (wildcards included) the request carries.
   */
  lemma NoCrossUserBlocks(rows: seq<BlockRow>, e1: Env, u1: string, ext: string, e2: Env, u2: string)
    requires '.' !in u1 && NoWildcards(u1) && '.' !in u2
    ensures forall r :: r in SelectLike(rows, FullIdentifier(EnvName(e1) + "." + u1, ext) + "%")
                    && EnvName(e2) + "." + u2 + "." <= r.identifier
                    ==> e1 == e2 && u1 == u2
  {
    var head := EnvName(e1) + "." + u1 + ".";
    assert NoWildcards(head) by {
      var n := EnvName(e1);
      forall k | 0 <= k < |head| ensures !IsPatternMeta(head[k]) {
        if |n| < k < |head| - 1 {
          assert head[k] == u1[k - |n| - 1];
        } else if k < |n| {
          assert n == "test" || n == "prod";
        }
      }
    }
    var pattern := FullIdentifier(EnvName(e1) + "." + u1, ext) + "%";
    assert pattern == head + (ext + "%");
    forall r | r in SelectLike(rows, pattern) && EnvName(e2) + "." + u2 + "." <= r.identifier
      ensures e1 == e2 && u1 == u2
    {
      LikeLiteralHead(r.identifier, head, ext + "%");
      RootsSeparate(e1, u1, e2, u2, r.identifier);
    }
  }

  /**
   * With a dot in a user name the scoping fails: user `u` writing under the
   * extension `v.x` produces the identifier user `u.v` writes under `x`.
   */
  lemma DottedUsernameCollision(env: Env, u: string, v: string, x: string)
    ensures FullIdentifier(EnvName(env) + "." + u, v + "." + x) == FullIdentifier(EnvName(env) + "." + (u + "." + v), x)
    ensures FullIdentifier(EnvName(env) + "." + (u + "." + v), "") <= FullIdentifier(EnvName(env) + "." + u, v + "." + x)
  {
    var n := EnvName(env);
    assert n + "." + u + "." + (v + "." + x) == n + "." + (u + "." + v) + "." + x;
  }

  /** A `_` in a user name widens its `get_blocks`: user `u_` sees the blocks of user `u` followed by any character. */
  lemma UnderscoreUsernameWidens(env: Env, u: string, c: char, t: string)
    requires NoWildcards(u)
    ensures Like(FullIdentifier(EnvName(env) + "." + u + [c], t), FullIdentifier(EnvName(env) + "." + u + "_", "") + "%")
  {
    var x := EnvName(env) + "." + u;
    assert NoWildcards(x) by {
      var n := EnvName(env);
      forall k | 0 <= k < |x| ensures !IsPatternMeta(x[k]) {
        if k > |n| {
          assert x[k] == u[k - |n| - 1];
        } else if k < |n| {
          assert n == "test" || n == "prod";
        }
      }
    }
    UnderscoreWidens(x, c, ".", t);
    assert FullIdentifier(x + [c], t) == x + [c] + "." + t;
    assert FullIdentifier(x + "_", "") + "%" == x + "_" + "." + "%";
  }

  /**
   * A backslash at the end of a user name escapes the dot that follows it in the
   * pattern: user `u\` asking for `x` gets the blocks user `u` keeps under `x`.
   */
  lemma BackslashUsernameCrosses(env: Env, u: string, x: string)
    requires NoWildcards(u) && NoWildcards(x)
    ensures Like(FullIdentifier(EnvName(env) + "." + u, x), FullIdentifier(EnvName(env) + "." + u + "\\", x) + "%")
  {
    var root := EnvName(env) + "." + u;
    assert NoWildcards(root) by {
      var n := EnvName(env);
      forall k | 0 <= k < |root| ensures !IsPatternMeta(root[k]) {
        if k > |n| {
          assert root[k] == u[k - |n| - 1];
        } else if k < |n| {
          assert n == "test" || n == "prod";
        }
      }
    }
    var s := FullIdentifier(root, x);
    var rest := "\\" + "." + x + "%";
    assert FullIdentifier(root + "\\", x) + "%" == root + rest;
    LikeLiteralHead(s, root, rest);
    assert s[|root|..] == "." + x;
    assert rest[2..] == x + "%";
    PrefixPattern(x, x);
  }

  /** The full identifier is not checked: an empty extension gives an identifier `isUniqueIdValid` rejects. */
  lemma EmptyExtensionInvalid(root: string)
    ensures !ValidId(FullIdentifier(root, ""))
  {
    SplitSnocSep(root, '.');
    assert FullIdentifier(root, "") == root + ['.'];
    var parts := Split(root + ['.'], '.');
    assert parts[|parts| - 1] == [];
  }

  /** `create_user`: 204, 409 on a taken name, 422 on a bad email; anything else is raised. */
  method CreateUserHandler(db: DBService, username: string, email: string, password: string, test: bool, entropy: Entropy)
    returns (o: Outcome)
    modifies db`users
    ensures var spec := CreateUserResult(old(db.users), db.hasher, username, email, password, test, entropy);
      && (spec.Ok? ==> o == Done(Response(204, NoContent)) && db.users == spec.value)
      && (spec == Err(NonuniqueUsername) ==> o == Done(Response(409, ExceptionDetail(NonuniqueUsername))))
      && (spec == Err(InvalidEmail) ==> o == Done(Response(422, ExceptionDetail(InvalidEmail))))
      && (spec.Err? && spec.error != NonuniqueUsername && spec.error != InvalidEmail ==> o == Raised(spec.error))
      && (spec.Err? ==> db.users == old(db.users))
  {
    var r := db.CreateUser(username, email, password, test, entropy);
    if r.Ok? {
      return Done(Response(204, NoContent));
    }
    if r.error == NonuniqueUsername {
      return Done(Response(409, ExceptionDetail(NonuniqueUsername)));
    }
    if r.error == InvalidEmail {
      return Done(Response(422, ExceptionDetail(InvalidEmail)));
    }
    return Raised(r.error);
  }

  /** The number of truthy search parameters, as `get_user` counts them. */
  function TruthyCount(username: Option<string>, uniqueid: Option<string>, email: Option<string>, accessKey: Option<string>): (n: nat)
    ensures n == 0 <==> !Truthy(username) && !Truthy(uniqueid) && !Truthy(email) && !Truthy(accessKey)
    ensures n <= 4
  {
    (if Truthy(username) then 1 else 0) + (if Truthy(uniqueid) then 1 else 0)
    + (if Truthy(email) then 1 else 0) + (if Truthy(accessKey) then 1 else 0)
  }

  /** The view `get_user` returns of a stored row: its env read back from the identifier, and no secrets. */
  function RowView(row: UserRow): (v: UserView)
    requires ValidId(row.uniqueid)
    ensures v.username == row.username && v.uniqueid == row.uniqueid && v.email == row.email
    ensures EnvName(v.env) == Split(row.uniqueid, '.')[0]
  {
    UserView(UniqueIdToMap(row.uniqueid).value.env, row.username, row.uniqueid, row.email)
  }

  /**
   * `get_user`: RuntimeError without a truthy parameter; otherwise the view of
   * the first matching user, or `null` when none matches.
   */
  method GetUserHandler(db: DBService, username: Option<string>, uniqueid: Option<string>, email: Option<string>,
                        accessKey: Option<string>, draw: nat -> Entropy)
    returns (o: Outcome)
    ensures TruthyCount(username, uniqueid, email, accessKey) == 0 ==> o == Raised(RuntimeError)
    ensures TruthyCount(username, uniqueid, email, accessKey) > 0 ==>
      var sel := SelectUsers(db.users, SearchTerms(username, uniqueid, email, accessKey));
      && (o.Raised? <==> SomeInvalidId(sel))
      && (o.Raised? ==> o.error == ValueError)
      && (o.Done? && |sel| == 0 ==> o.response == Response(200, UserBody(None)))
      && (o.Done? && |sel| > 0 ==> ValidId(sel[0].uniqueid) && o.response == Response(200, UserBody(Some(RowView(sel[0])))))
  {
    var count := TruthyCount(username, uniqueid, email, accessKey);
    if count < 1 {
      return Raised(RuntimeError);
    }
    var users := db.GetUsers(username, uniqueid, email, accessKey, draw);
    if users.Err? {
      return Raised(users.error);
    }
    if |users.value| == 0 {
      return Done(Response(200, UserBody(None)));
    }
    var user := users.value[0];
    var view := UserView(user.GetEnv(), user.GetUsername(), user.GetUniqueid(), user.GetEmail());
    return Done(Response(200, UserBody(Some(view))));
  }

  /**
   * `update_user`: the requester's root first (a failure there is raised), then
   * `updateUser` with the parsed values; KeyError becomes 422.
   */
  method UpdateUserHandler(db: DBService, username: string, values: seq<(string, string)>, draw: nat -> Entropy)
    returns (o: Outcome)
    requires forall i, j :: 0 <= i < j < |values| ==> values[i].0 != values[j].0
    modifies db`users
    ensures var root := RequesterRoot(old(db.users), username);
      && (root.Err? ==> o == Raised(root.error) && db.users == old(db.users))
      && (root.Ok? && |values| == 0 ==> o == Raised(SqlError) && db.users == old(db.users))
      && (root.Ok? && |values| > 0 && (exists k :: 0 <= k < |values| && !AllowedUpdate(values[k]))
          ==> o == Done(Response(422, ExceptionDetail(KeyError))) && db.users == old(db.users))
      && (root.Ok? && |values| > 0 && (forall k :: 0 <= k < |values| ==> AllowedUpdate(values[k]))
          ==> o == Done(Response(204, NoContent)) && db.users == UpdateUserRows(old(db.users), root.value, values))
  {
    var root := FetchRequesterRoot(db, username, draw);
    if root.Err? {
      return Raised(root.error);
    }
    var r := db.UpdateUser(root.value, values);
    if r.Err? {
      if r.error == KeyError {
        return Done(Response(422, ExceptionDetail(KeyError)));
      }
      return Raised(r.error);
    }
    return Done(Response(204, NoContent));
  }

  /** `login`: the key on success, 401 on a falsy key, 500 on RuntimeError. */
  method LoginHandler(db: DBService, username: string, password: string) returns (o: Outcome)
    ensures var spec := LoginResult(db.users, db.hasher, username, password);
      && (spec.Err? ==> o == Done(Response(500, ExceptionDetail(RuntimeError))))
      && (spec.Ok? && Truthy(spec.value) ==> o == Done(Response(200, AccessKeyBody(spec.value.value))))
      && (spec.Ok? && !Truthy(spec.value) ==> o == Done(Response(401, Detail(InvalidLogin))))
  {
    var r := db.Login(username, password);
    if r.Err? {
      return Done(Response(500, ExceptionDetail(r.error)));
    }
    if Truthy(r.value) {
      return Done(Response(200, AccessKeyBody(r.value.value)));
    }
    return Done(Response(401, Detail(InvalidLogin)));
  }

  /** `create_block`: one row under `root.ext`, or the root lookup's exception. */
  method CreateBlockHandler(db: DBService, username: string, ext: string, value: string, draw: nat -> Entropy)
    returns (o: Outcome)
    modifies db`data
    ensures var root := RequesterRoot(db.users, username);
      && (root.Err? ==> o == Raised(root.error) && db.data == old(db.data))
      && (root.Ok? ==> o == Done(Response(204, NoContent))
                       && db.data == old(db.data) + [BlockRow(FullIdentifier(root.value, ext), value)])
  {
    var root := FetchRequesterRoot(db, username, draw);
    if root.Err? {
      return Raised(root.error);
    }
    var fullIdentifier := FullIdentifier(root.value, ext);
    var _ := db.CreateBlock(fullIdentifier, value);
    return Done(Response(204, NoContent));
  }

  /** `get_blocks`: the `(identifier, value)` pairs of every row matching `root.ext%`, in table order. */
  method GetBlocksHandler(db: DBService, username: string, ext: string, draw: nat -> Entropy) returns (o: Outcome)
    ensures var root := RequesterRoot(db.users, username);
      && (root.Err? ==> o == Raised(root.error))
      && (root.Ok? ==> o == Done(Response(200, BlockList(RowPairs(SelectLike(db.data, FullIdentifier(root.value, ext) + "%"))))))
  {
    var root := FetchRequesterRoot(db, username, draw);
    if root.Err? {
      return Raised(root.error);
    }
    var fullIdentifier := FullIdentifier(root.value, ext);
    var blocks := db.GetBlocks(fullIdentifier);
    return Done(Response(200, BlockList(Pairs(blocks))));
  }

  /** `update_block`: rewrites the row at `root.ext`. */
  method UpdateBlockHandler(db: DBService, username: string, ext: string, value: string, draw: nat -> Entropy)
    returns (o: Outcome)
    modifies db`data
    ensures var root := RequesterRoot(db.users, username);
      && (root.Err? ==> o == Raised(root.error) && db.data == old(db.data))
      && (root.Ok? ==> o == Done(Response(204, NoContent))
                       && db.data == UpdateBlockRows(old(db.data), FullIdentifier(root.value, ext), value))
  {
    var root := FetchRequesterRoot(db, username, draw);
    if root.Err? {
      return Raised(root.error);
    }
    db.UpdateBlock(FullIdentifier(root.value, ext), value);
    return Done(Response(204, NoContent));
  }

  /** `delete_block`: removes the rows at `root.ext` and none below it. */
  method DeleteBlockHandler(db: DBService, username: string, ext: string, draw: nat -> Entropy) returns (o: Outcome)
    modifies db`data
    ensures var root := RequesterRoot(db.users, username);
      && (root.Err? ==> o == Raised(root.error) && db.data == old(db.data))
      && (root.Ok? ==> o == Done(Response(204, NoContent))
                       && db.data == DeleteBlockRows(old(db.data), FullIdentifier(root.value, ext)))
  {
    var root := FetchRequesterRoot(db, username, draw);
    if root.Err? {
      return Raised(root.error);
    }
    db.DeleteBlock(FullIdentifier(root.value, ext));
    return Done(Response(204, NoContent));
  }

  /** A request to one of the eight endpoints, with its parameters already parsed. */
  datatype Route =
    | CreateUserRoute(username: string, email: string, password: string, test: bool)
    | GetUserRoute(qUsername: Option<string>, qUniqueid: Option<string>, qEmail: Option<string>, qAccessKey: Option<string>)
    | UpdateUserRoute(values: seq<(string, string)>)
    | LoginRoute(username: string, password: string)
    | CreateBlockRoute(ext: string, value: string)
    | GetBlocksRoute(ext: string)
    | UpdateBlockRoute(ext: string, value: string)
    | DeleteBlockRoute(ext: string)

  function RoutePath(route: Route): string
  {
    match route
    case CreateUserRoute(_, _, _, _) => "/create_user"
    case GetUserRoute(_, _, _, _) => "/get_user"
    case UpdateUserRoute(_) => "/update_user"
    case LoginRoute(_, _) => "/login"
    case CreateBlockRoute(_, _) => "/create_block"
    case GetBlocksRoute(_) => "/get_blocks"
    case UpdateBlockRoute(_, _) => "/update_block"
    case DeleteBlockRoute(_) => "/delete_block"
  }

  function RouteMethod(route: Route): string
  {
    match route
    case CreateUserRoute(_, _, _, _) => "POST"
    case GetUserRoute(_, _, _, _) => "GET"
    case UpdateUserRoute(_) => "PATCH"
    case LoginRoute(_, _) => "GET"
    case CreateBlockRoute(_, _) => "POST"
    case GetBlocksRoute(_) => "GET"
    case UpdateBlockRoute(_, _) => "PATCH"
    case DeleteBlockRoute(_) => "POST"
  }

  predicate IsPublic(route: Route)
  {
    route.CreateUserRoute? || route.LoginRoute?
  }

  /** Exactly `create_user` and `login` of the eight endpoints are outside the gate. */
  lemma GatedRoutes(route: Route)
    ensures GateApplies(RoutePath(route), RouteMethod(route)) <==> !IsPublic(route)
  {
  }

  /** What a handler leaves behind: its outcome and the two tables after it. */
  datatype Reply = Reply(outcome: Outcome, users: seq<UserRow>, data: seq<BlockRow>)

  /**
   * The handler of `route` for a request that passed the gate, on the tables
   * before it; `requester` is the user-name header of a gated request. Only the
   * two user-writing routes change the users table, only the three block-writing
   * routes change the data table, a table changes only on a 204, and only
   * `login` answers 401 itself.
   */
  function Handle(hasher: Hasher, users: seq<UserRow>, data: seq<BlockRow>, route: Route, requester: string,
                  entropy: Entropy): (r: Reply)
    ensures !(route.CreateUserRoute? || route.UpdateUserRoute?) ==> r.users == users
    ensures !(route.CreateBlockRoute? || route.UpdateBlockRoute? || route.DeleteBlockRoute?) ==> r.data == data
    ensures r.users != users || r.data != data ==> r.outcome == Done(Response(204, NoContent))
    ensures r.outcome.Done? && r.outcome.response.status == 401 ==> route.LoginRoute?
  {
    match route
    case CreateUserRoute(username, email, password, test) =>
      var spec := CreateUserResult(users, hasher, username, email, password, test, entropy);
      if spec.Ok? then Reply(Done(Response(204, NoContent)), spec.value, data)
      else if spec.error == NonuniqueUsername then Reply(Done(Response(409, ExceptionDetail(NonuniqueUsername))), users, data)
      else if spec.error == InvalidEmail then Reply(Done(Response(422, ExceptionDetail(InvalidEmail))), users, data)
      else Reply(Raised(spec.error), users, data)
    case LoginRoute(username, password) =>
      var spec := LoginResult(users, hasher, username, password);
      if spec.Err? then Reply(Done(Response(500, ExceptionDetail(RuntimeError))), users, data)
      else if Truthy(spec.value) then Reply(Done(Response(200, AccessKeyBody(spec.value.value))), users, data)
      else Reply(Done(Response(401, Detail(InvalidLogin))), users, data)
    case GetUserRoute(username, uniqueid, email, accessKey) =>
      var sel := SelectUsers(users, SearchTerms(username, uniqueid, email, accessKey));
      if TruthyCount(username, uniqueid, email, accessKey) == 0 then Reply(Raised(RuntimeError), users, data)
      else if SomeInvalidId(sel) then Reply(Raised(ValueError), users, data)
      else if |sel| == 0 then Reply(Done(Response(200, UserBody(None))), users, data)
      else Reply(Done(Response(200, UserBody(Some(RowView(sel[0]))))), users, data)
    case UpdateUserRoute(values) =>
      var root := RequesterRoot(users, requester);
      if root.Err? then Reply(Raised(root.error), users, data)
      else if |values| == 0 then Reply(Raised(SqlError), users, data)
      else if exists k :: 0 <= k < |values| && !AllowedUpdate(values[k]) then
        Reply(Done(Response(422, ExceptionDetail(KeyError))), users, data)
      else Reply(Done(Response(204, NoContent)), UpdateUserRows(users, root.value, values), data)
    case CreateBlockRoute(ext, value) =>
      var root := RequesterRoot(users, requester);
      if root.Err? then Reply(Raised(root.error), users, data)
      else Reply(Done(Response(204, NoContent)), users, data + [BlockRow(FullIdentifier(root.value, ext), value)])
    case GetBlocksRoute(ext) =>
      var root := RequesterRoot(users, requester);
      if root.Err? then Reply(Raised(root.error), users, data)
      else Reply(Done(Response(200, BlockList(RowPairs(SelectLike(data, FullIdentifier(root.value, ext) + "%"))))), users, data)
    case UpdateBlockRoute(ext, value) =>
      var root := RequesterRoot(users, requester);
      if root.Err? then Reply(Raised(root.error), users, data)
      else Reply(Done(Response(204, NoContent)), users, UpdateBlockRows(data, FullIdentifier(root.value, ext), value))
    case DeleteBlockRoute(ext) =>
      var root := RequesterRoot(users, requester);
      if root.Err? then Reply(Raised(root.error), users, data)
      else Reply(Done(Response(204, NoContent)), users, DeleteBlockRows(data, FullIdentifier(root.value, ext)))
  }

  /** The user-name header of a request, or the empty string when it has none. */
  function Requester(headers: map<string, string>): string
  {
    if UsernameHeader in headers then headers[UsernameHeader] else ""
  }

  /** Runs the handler of `route`; the outcome and the new tables are what `Handle` gives. */
  method Dispatch(db: DBService, route: Route, requester: string, draw: nat -> Entropy, entropy: Entropy)
    returns (o: Outcome)
    requires route.UpdateUserRoute? ==> forall i, j :: 0 <= i < j < |route.values| ==> route.values[i].0 != route.values[j].0
    modifies db`users, db`data
    ensures Reply(o, db.users, db.data) == Handle(db.hasher, old(db.users), old(db.data), route, requester, entropy)
  {
    match route {
      case CreateUserRoute(username, email, password, test) =>
        o := CreateUserHandler(db, username, email, password, test, entropy);
      case LoginRoute(username, password) =>
        o := LoginHandler(db, username, password);
      case GetUserRoute(username, uniqueid, email, accessKey) =>
        o := GetUserHandler(db, username, uniqueid, email, accessKey, draw);
      case UpdateUserRoute(values) =>
        o := UpdateUserHandler(db, requester, values, draw);
      case CreateBlockRoute(ext, value) =>
        o := CreateBlockHandler(db, requester, ext, value, draw);
      case GetBlocksRoute(ext) =>
        o := GetBlocksHandler(db, requester, ext, draw);
      case UpdateBlockRoute(ext, value) =>
        o := UpdateBlockHandler(db, requester, ext, value, draw);
      case DeleteBlockRoute(ext) =>
        o := DeleteBlockHandler(db, requester, ext, draw);
    }
  }

  /**
   * One request through the gate and its handler. A request the gate refuses
   * gets its 401 and changes neither table; otherwise the route's handler runs
   * and its exception, if any, becomes a 500. Rehydrated users draw `draw`, a
   * new user `entropy`.
   */
  method Serve(db: DBService, route: Route, headers: map<string, string>, draw: nat -> Entropy, entropy: Entropy)
    returns (resp: Response)
    requires route.UpdateUserRoute? ==> forall i, j :: 0 <= i < j < |route.values| ==> route.values[i].0 != route.values[j].0
    modifies db`users, db`data
    ensures var gate := Gate(old(db.users), RoutePath(route), RouteMethod(route), headers);
      && (gate.Some? ==> resp == gate.value && db.users == old(db.users) && db.data == old(db.data))
      && (!IsPublic(route) && !HasCredentials(headers) ==> resp == Response(401, Detail(CredentialsRequired)))
      && (!IsPublic(route) && HasCredentials(headers) && resp.status == 401
          ==> !Authenticated(old(db.users), headers[UsernameHeader], headers[AccessKeyHeader]))
    ensures var gate := Gate(old(db.users), RoutePath(route), RouteMethod(route), headers);
      var reply := Handle(db.hasher, old(db.users), old(db.data), route, Requester(headers), entropy);
      gate.None? ==> resp == Finish(reply.outcome) && db.users == reply.users && db.data == reply.data
  {
    GatedRoutes(route);
    var gate := VerifyRequestCredentials(db, RoutePath(route), RouteMethod(route), headers);
    if gate.Some? {
      return gate.value;
    }
    var o := Dispatch(db, route, Requester(headers), draw, entropy);
    resp := Finish(o);
  }
}
