# EasySave backend — a Dafny model

EasySave is a small storage service. Each user owns a tree of values ("blocks")
addressed by dotted identifiers. An identifier starts with the user's root
`env.username`, where `env` is `prod` or `test`. For example,
`prod.johndoe.documents.report1` lies under the root `prod.johndoe`.

This project models the core of the service:

- **The identifier codec** (`utils.py`): validation, generation, separation, and
  the map form.
- **Email validation and access-key generation** (`utils.py`).
- **The `User` and `Block` records** (`user.py`, `block.py`).
- **The `DBService` operations** (`dbService.py`), over two in-memory tables in
  place of PostgreSQL.
- **The request layer** (`server.py`): the credential gate, the endpoint
  handlers and their status codes.

Each SQL statement is given as a function on the rows: what it selects, or what
it leaves behind. The class methods are proved to do exactly that. Lemmas then
state what the functions guarantee:

- round trips of the codec;
- table invariants kept by `createUser` and `updateUser`;
- login after sign-up;
- prefix search by `LIKE`;
- how far the per-user scoping of block identifiers goes.

Files, in dependency order:

- `wrappers.dfy`: `Option` and `Result`.
- `exceptions.dfy`: the Python exceptions the core raises.
- `strings.dfy`: Python's `str.split` and `str.join` on one separator, `strip`-blankness, and first occurrence.
- `identifiers.dfy` and `identifier_examples.dfy`: the codec and the worked examples from its documentation.
- `email.dfy`: `validateEmail`.
- `access_keys.dfy`: `generateAccessKey` and the key format `verifyAccessKey` demands.
- `credentials.dfy`: the password hasher, taken as a parameter.
- `sql_like.dfy`: PostgreSQL `LIKE`.
- `records.dfy`: `User` and `Block`.
- `db_service.dfy`: `DBService`.
- `server.dfy`: the gate and the handlers.

What the per-user scoping guarantees, and where it fails:

- The block handlers write and read under `uniqueid + "." + extendedIdentifier`, with the requester's own `uniqueid`.
- On a table built by `createUser`, that `uniqueid` is `env.username` of the authenticated user (`Server.BlockIdentifierOwned`).
- For user names without `.`, `_`, `%` or `\`, `get_blocks` never returns a block under another user's root, whatever extension the request carries (`Server.NoCrossUserBlocks`).
- The service does not enforce those conditions on user names. A user `u` writing under `v.x` writes exactly where user `u.v` writes under `x` (`Server.DottedUsernameCollision`).
- A user whose name is `u_`, with `u` free of pattern characters, reads the blocks of every user named `u` followed by one character (`Server.UnderscoreUsernameWidens`). An escaped `\_` is literal and does not widen.
- A user whose name ends in `\` reads the blocks of the user whose name lacks that backslash: PostgreSQL's default escape turns the following `\.` into a literal dot (`Server.BackslashUsernameCrosses`).

`getUsers` rebuilds every row through the `User` constructor:

- The returned users carry the hash of the stored password hash, not the stored hash.
- A row with an empty stored access key comes back with a freshly generated key.
- `Database.RehydratedFrom` states both, and no caller in the core reads either field.

## Model

| member | source | states |
|---|---|---|
| Identifiers.EnvName | utils.py:21-34 | The name of each environment member is four characters, holds no dot, is not blank, and looking it up by name gives the member back |
| Identifiers.IsUniqueIdValid | utils.py:186-220 | True exactly when the dot-split has two or more segments, the first names an environment, and no segment is blank |
| Identifiers.GenerateUniqueIdFromList | utils.py:66-88 | ValueError exactly on an empty path; otherwise the dot-joined path when that is a valid identifier, and RuntimeError when it is not |
| Identifiers.GenerateUniqueId | utils.py:92-109 | Succeeds exactly when the env name, a dot, and the user name and folders joined by dots form a valid identifier, and returns that identifier; RuntimeError otherwise |
| Identifiers.GenerateAcceptsWellFormedPaths | utils.py:79-86 | For dot-free segments, generation succeeds exactly on a well-formed path, and splitting the result gives the segments back |
| Identifiers.RootValidIff | utils.py:92-109 | A user root is generated exactly when no dot-segment of the user name is blank, and then it is `env.username` |
| Identifiers.GenerateFromCleanParts | utils.py:92-109 | A user name and folders without dots or blanks always generate their dot-join |
| Identifiers.SeparateUniqueId | utils.py:112-136 | ValueError exactly on an invalid identifier; otherwise one segment per dot-part, an environment member first and plain strings after, rendering back to the dot-split |
| Identifiers.SeparateRoundTrip | utils.py:112-136 | Joining the rendered segments of a valid identifier gives the identifier back |
| Identifiers.UniqueIdToMap | utils.py:139-166 | ValueError exactly on an invalid identifier; otherwise env, username and folders are the first, second and remaining dot-parts |
| Identifiers.MapToUniqueId | utils.py:169-183 | The documented behaviour, corrected: RuntimeError or a valid identifier |
| Identifiers.MapRoundTrip | utils.py:139-183 | Every valid identifier, turned into a map and back, is returned unchanged |
| Identifiers.MapRoundTripBack | utils.py:139-183 | A map with a dot-free user name and folders that rebuilds successfully decomposes back into the same map |
| Identifiers.PyJoin | utils.py:82 | `str.join` raises TypeError exactly when some item is not a string |
| Identifiers.MapToUniqueIdAsWritten | utils.py:183 | As written, `mapToUniqueId` always raises TypeError |
| IdentifierExamples.RootIsValid | utils.py:186-220 | `env.user` with a clean user name splits into its two parts and is valid |
| IdentifierExamples.SeparateThree | utils.py:127-128 | `env.user.folder` with clean parts separates into the env member, the user name and the folder |
| IdentifierExamples.RootGenerated | utils.py:105 | A clean user name generates the root `env.user` |
| IdentifierExamples.GenerateRootExample | utils.py:105 | `generateUniqueId(envs.prod, "johndoe")` is `prod.johndoe` |
| IdentifierExamples.FolderGenerated | utils.py:106 | A clean user name and one clean folder generate `env.user.folder` |
| IdentifierExamples.ValidIdAcceptsRoot | utils.py:202 | `prod.johndoe` is valid |
| IdentifierExamples.ValidIdRejectsUnknownEnv | utils.py:203 | `invalid.user` is rejected: its first segment is no environment |
| IdentifierExamples.ValidIdRejectsStaging | utils.py:29-30 | Only `test` and `prod` are environments; `staging.john` is rejected |
| IdentifierExamples.ValidIdRejectsShortOrBlank | utils.py:204 | `prod` is too short, and `prod.` has a blank segment |
| IdentifierExamples.MapToUniqueIdOneFolder | utils.py:180-183 | The documented one-folder map raises TypeError as written, and gives `env.user.folder` in the corrected form |
| Email.ValidateEmail | utils.py:240-259 | True exactly on the language of the regular expression: local part, `@`, label, dot, rest, with at most one final newline |
| Email.ShapeDeterministic | utils.py:258 | A string fits the pattern exactly when it fits at its first `@` and the first dot after it |
| Email.AcceptedHasOneAt | utils.py:258 | Every accepted address holds exactly one `@` |
| Email.AtOnlyAtSplit | utils.py:258 | In an accepted split, neither the local part nor the domain holds an `@` |
| Email.AcceptsParts | utils.py:258 | Any local part, label and rest drawn from their character classes form an accepted address |
| EmailExamples.AcceptsPlainAddress | utils.py:254 | `user@example.com` is accepted |
| EmailExamples.RejectsMissingAt | utils.py:255 | `invalid.email` is rejected |
| AccessKeys.GenerateAccessKey | utils.py:223-237 | A key is 128 lowercase hex digits and decodes back to the 64 random bytes drawn |
| AccessKeys.HexRoundTrip | utils.py:237 | Hex decoding inverts hex encoding |
| AccessKeys.GeneratedKeyWellFormed | dbService.py:180-181 | Every generated key passes the length and alphanumeric test of `verifyAccessKey` |
| SqlLike.LikeAnything | dbService.py:447 | `%` alone matches every string |
| SqlLike.LikeLiteralHead | dbService.py:447 | A wildcard-free head of a pattern matches exactly a prefix of the string, and the rest of the pattern matches the rest |
| SqlLike.PrefixPattern | dbService.py:447 | `LIKE x \|\| '%'` on a wildcard-free `x` is exactly the prefix test |
| SqlLike.UnderscoreWidens | dbService.py:447 | An `_` inside the pattern lets any character through at its position |
| Records.DeriveAccessKey | user.py:67-70 | A truthy key is kept; the key a user ends up with is never empty |
| Records.DeriveUniqueId | user.py:62-65 | A truthy uniqueid is kept; otherwise the result is the valid root `env.username`, or RuntimeError |
| Records.DerivedRoot | user.py:62-65 | Without a uniqueid, the constructor fails exactly when a dot-segment of the user name is blank |
| Records.DerivedAccessKeyFormat | user.py:67-70 | A truthy key is kept; otherwise the key is well formed and carries the drawn bytes |
| Records.User.Init | user.py:60-71 | Stores the six fields as given |
| Records.User.New | user.py:43-71 | RuntimeError exactly when the uniqueid must be generated and cannot be; otherwise a fresh user with the derived uniqueid and key, and always the hash of the password |
| Records.User.SetEnv | user.py:91-98 | The getter returns the new env, and no other field changes |
| Records.User.SetUsername | user.py:109-116 | The getter returns the new user name, and no other field changes |
| Records.User.SetUniqueid | user.py:127-134 | The getter returns the new uniqueid, and no other field changes |
| Records.User.SetEmail | user.py:145-152 | The getter returns the new email, and no other field changes |
| Records.User.SetAccessKey | user.py:163-170 | The getter returns the new key, and no other field changes |
| Records.User.SetPassword | user.py:181-191 | Stores the string unchanged and not hashed; no other field changes |
| Records.Block.constructor | block.py:30-39 | Identifier and value are stored unchanged; the value defaults to the empty string and the identifier is not checked |
| Records.Block.SetValue | block.py:50-57 | The value changes and the identifier does not |
| Records.Block.TupleToBlock | block.py:69-86 | A fresh block holding the tuple's identifier and value |
| Records.Block.TupleListToBlocks | block.py:89-114 | Fresh blocks, one per tuple and in the same order, each holding its tuple |
| Database.SelectUsers | dbService.py:280 | A row is selected exactly when it is in the table and matches every term, as many times as the table holds it |
| Database.SearchTerms | dbService.py:270-276 | No term exactly when no parameter is given |
| Database.SearchTermsOrdered | dbService.py:270-276 | One term per parameter that is present, holding that parameter's column and value and nothing else, in the column order username, uniqueid, email, accessKey |
| Database.ParamsTerms | dbService.py:273-276 | Walking the parameters in declaration order yields the search terms |
| Database.DBService.BuildSearch | dbService.py:270-276 | One `column = %s` statement and one data item per string parameter, in order |
| Database.DBService.GetUsers | dbService.py:239-296 | SqlError without a string parameter; ValueError exactly when a selected row holds an invalid identifier; otherwise one fresh user per selected row, in order, rebuilt from it |
| Database.DBService.RehydrateAll | dbService.py:284-296 | Stops with ValueError exactly when some row's identifier is invalid; otherwise rebuilds every row |
| Database.DBService.Rehydrate | dbService.py:285-293 | A row with a valid identifier becomes a fresh user with the env read from that identifier |
| Database.VerifyAccessKeyResult | dbService.py:160-195 | `None` for a badly formed key; otherwise the key itself exactly when some row holds this user name and key |
| Database.DBService.VerifyAccessKey | dbService.py:180-195 | Returns what `VerifyAccessKeyResult` states for the current table |
| Database.SelectByName | dbService.py:373 | A user-name search selects exactly the rows with that name, and finds some exactly when the name is taken |
| Database.SelectByNameAndKey | dbService.py:183-191 | A name-and-key search selects exactly the rows holding both |
| Database.UniqueNameSelectsOne | dbService.py:373-384 | With pairwise different user names, a user-name search finds at most one row |
| Database.LoginResult | dbService.py:342-384 | No row with the name gives no key; exactly one gives its key when its hash verifies the password and no key otherwise; RuntimeError exactly when more than one row has the name |
| Database.LoginTotalOnValidTable | dbService.py:375-384 | On a valid table `login` never raises |
| Database.DBService.Login | dbService.py:373-384 | Returns what `LoginResult` states, and never raises on a valid table |
| Database.NewUserRow | dbService.py:230-234 | The inserted row holds the user name, identifier and email given, the hash of the password, and a well-formed key that carries the bytes drawn |
| Database.CreateUserResult | dbService.py:198-236 | RuntimeError exactly when the root cannot be generated, then InvalidEmail exactly on a bad email; a generatable root, a valid email and a free name always succeed, appending one row with the valid root; NonuniqueUsername and ValueError only for a taken name |
| Database.DBService.CreateUser | dbService.py:222-236 | Returns 1 and appends what `CreateUserResult` states, or its error with the table unchanged |
| Database.AppendPreservesValid | dbService.py:230-234 | Appending a well-formed row under a new name keeps the table valid |
| Database.CreateUserPreservesValid | dbService.py:222-236 | `createUser` keeps every row well formed and user names pairwise different |
| Database.CreateUserRefusesTakenName | dbService.py:227-228 | On a valid table, a taken user name is refused with NonuniqueUsername |
| Database.LoginStoredUser | dbService.py:373-384 | On a valid table, logging in as a stored user gives its key exactly when the password verifies against its hash, and no key otherwise |
| Database.LoginAfterCreate | dbService.py:223-234 | With a sound hasher, the new user logs in with the password given and gets the key generated at creation |
| Database.ApplyUpdates | dbService.py:330-339 | An update never changes the user name or the uniqueid of a row |
| Database.UpdateUserRows | dbService.py:339 | Same number of rows; no row changes its user name or uniqueid, and rows with another uniqueid stay as they were |
| Database.UpdateUserOnlyTarget | dbService.py:339 | Only rows with the given uniqueid change |
| Database.UpdateUserPreservesValid | dbService.py:326-339 | An update keeps the table valid |
| Database.ApplyUpdatesSets | dbService.py:330-339 | With distinct keys, each updated column takes the value given for it |
| Database.ApplyUpdatesKeeps | dbService.py:330-339 | A column named by no pair keeps its value |
| Database.DBService.UpdateUser | dbService.py:299-339 | KeyError before any change on a disallowed key or a bad email; SqlError on an empty update; otherwise exactly the target rows are updated |
| Database.SelectLike | dbService.py:447 | A row is selected exactly when its identifier matches the pattern, as many times as the table holds it |
| Database.SelectPrefix | dbService.py:423-432 | A row is selected exactly when its identifier starts with the prefix, as many times as the table holds it |
| Database.GetBlocksIsPrefixSearch | dbService.py:447 | For a wildcard-free identifier, `getBlocks`' selection is the prefix selection |
| Database.DBService.GetBlocks | dbService.py:423-458 | Fresh blocks holding the pairs of the rows matching `identifier%`, in table order |
| Database.DBService.BlocksFromRows | dbService.py:449-458 | Fresh blocks, one per row and in order, holding that row's pair |
| Database.DBService.CreateBlock | dbService.py:387-420 | Returns 1 and appends one row with the identifier and content, unchecked |
| Database.UpdateBlockOnlyExact | dbService.py:482 | Only rows with exactly the identifier change; blocks below it keep their values |
| Database.DBService.UpdateBlock | dbService.py:461-482 | The table becomes `UpdateBlockRows` of the old one |
| Database.UpdateBlockRows | dbService.py:482 | Same rows with the same identifiers; a row takes the new value exactly when its identifier is the one given |
| Database.DeleteBlockRows | dbService.py:500 | Keeps exactly the rows with another identifier, each as many times as the table held it |
| Database.DeleteBlockKeepsChildren | dbService.py:484-500 | Deleting does not cascade: every block below the deleted one stays |
| Database.DBService.DeleteBlock | dbService.py:484-500 | The table becomes `DeleteBlockRows` of the old one |
| Server.Gate | server.py:113-121 | Excluded paths and OPTIONS pass; otherwise a missing or empty header gives 401 "required", and with both present the request passes exactly when some row holds the user name and a well-formed key, else 401 "invalid" |
| Server.VerifyRequestCredentials | server.py:113-121 | Returns the decision `Gate` states for the current table |
| Server.Finish | server.py:123-127 | A handler's exception becomes a 500; any other answer passes through |
| Server.FullIdentifier | server.py:294 | The requester's uniqueid and a dot head the identifier, and the caller's extension is the rest |
| Server.RequesterRoot | server.py:293 | IndexError exactly when no row has the name; ValueError exactly when a row with the name holds an invalid identifier; otherwise a valid uniqueid of a row with that name |
| Server.FetchRequesterRoot | server.py:293 | Returns what `RequesterRoot` states for the current table |
| Server.GateGivesRoot | server.py:113-121 | On a valid table, an authenticated requester's root is `test.username` or `prod.username` |
| Server.BlockIdentifierOwned | server.py:293-294 | On a valid table, every identifier a block handler builds for an authenticated requester starts with that requester's `env.username.` |
| Server.DotFreeHeads | server.py:294 | Two dot-free heads, each followed by a dot at the start of one string, are equal |
| Server.RootsSeparate | server.py:294 | No identifier starts with the roots of two different users with dot-free names |
| Server.GetBlocksStaysUnderRoot | server.py:322-325 | Without wildcards, `get_blocks` returns only rows under the requester's root and extension |
| Server.NoCrossUserBlocks | server.py:322-325 | A requester whose name has no dot or pattern character never gets a block under a different dot-free user's root, whatever extension it asks for |
| Server.DottedUsernameCollision | server.py:293-296 | With a dot in a user name, two users build the same full identifier |
| Server.UnderscoreUsernameWidens | server.py:322-325 | A user name ending in `_` makes `get_blocks` return blocks of another user |
| Server.BackslashUsernameCrosses | server.py:322-325 | A user name ending in `\` makes `get_blocks` return the blocks of the user named without it |
| Server.EmptyExtensionInvalid | server.py:294-296 | The full identifier is not checked: an empty extension gives an invalid identifier |
| Server.CreateUserHandler | server.py:155-161 | 204 on success, 409 on a taken name, 422 on a bad email; other errors are raised |
| Server.TruthyCount | server.py:191 | Zero exactly when no search parameter is truthy |
| Server.RowView | server.py:199-202 | The returned user keeps name, uniqueid, email and env, and has no password or key |
| Server.GetUserHandler | server.py:191-202 | RuntimeError without a truthy parameter; ValueError exactly when a selected row is invalid; `null` when nothing matches, otherwise the view of the first match |
| Server.UpdateUserHandler | server.py:226-231 | Failures of the root lookup are raised; KeyError gives 422 with the table unchanged; an empty update raises; otherwise 204 and the requester's rows are updated |
| Server.LoginHandler | server.py:259-268 | 500 on RuntimeError, 200 with a truthy key, 401 otherwise |
| Server.CreateBlockHandler | server.py:292-296 | Failures of the root lookup are raised with the table unchanged; otherwise 204 and one row under the full identifier |
| Server.GetBlocksHandler | server.py:321-329 | Failures of the root lookup are raised; otherwise 200 with the pairs of the rows matching the full identifier and `%` |
| Server.UpdateBlockHandler | server.py:354-358 | Failures of the root lookup are raised with the table unchanged; otherwise 204 and the exact row is updated |
| Server.DeleteBlockHandler | server.py:382-386 | Failures of the root lookup are raised with the table unchanged; otherwise 204 and the exact row is deleted |
| Server.GatedRoutes | server.py:73 | Of the eight endpoints, exactly `create_user` and `login` are outside the gate |
| Server.Serve | server.py:113-127 | A refused request gets its 401 and changes neither table; a protected route without credentials always gets 401 "required"; a request that passes runs its route's handler, whose exception becomes a 500, with the outcome and tables `Handle` gives |
| Server.Handle | server.py:155-386 | The eight handlers on the tables before the request: only `create_user` and `update_user` change users, only the three block-writing routes change blocks, a table changes only on a 204, and only `login` answers 401 |
| Server.Dispatch | server.py:124 | Runs the handler of the route; its outcome and the new tables are those `Handle` gives |

## Left out

- The PostgreSQL connection, cursors, commit and rollback, and the `atexit` hook are left out. The tables are sequences of rows held by `DBService`.
- SQL text beyond the WHERE and SET term lists is left out. So is the quoting in `updateUser`, which pastes values into the statement and is open to injection. The model applies the values as data.
- Argon2 hashing and verification are left out. They are a `Hasher` value: a hash function and a verify predicate. `verifyHash` raising is folded into verify returning false. `login` treats both the same way. The hash function is deterministic, while Argon2 salts each hash at random. So in the model two users with the same password store the same hash, and a rehydrated password is one fixed value. No property proved here depends on that.
- The operating system's randomness is left out. A new key is built from an `Entropy` parameter of 64 bytes. `getUsers` takes a `draw` function for the keys of rows whose stored key is empty.
- Python's Unicode-aware `isalnum` and `strip` are modelled on ASCII letters and digits and on Python's whitespace list.
- A `LIKE` pattern ending in a lone backslash matches nothing here. PostgreSQL raises an error instead. The patterns `getBlocks` builds never end that way.
- HTTP headers are looked up by exact name. Starlette compares them case-insensitively.
- FastAPI routing is left out, along with `root_path`, CORS, the OpenAPI document and its cache, the WebSocket set, and the `print` in `login`.
- The JSON parsing in `update_user` is left out. The handler receives the parsed pairs with distinct keys, so a body that is not an object of strings is not modelled.
- The texts of exception messages are left out. A 409, a 422 or a 500 carries the exception raised, not its formatted message.
- The table constraints PostgreSQL may impose are left out. The model states its own invariant, `UsersTableValid`, and proves that `createUser` and `updateUser` keep it.
- `User.__str__` and the `api_schemas.py` models are left out. The one relevant schema fact, `test` defaulting to false, is a parameter of `create_user`.
- Records.User.New: takes `env` explicitly, so the default `prod` of the constructor is not modelled, because every caller in the core passes an env.
- EmailExamples.AcceptsPlainAddress: the example address is given in its three parts, joined in the contract, rather than as one literal string.
- Rows come back from every selection in the order of the table, which is insertion order in this model. A `SELECT` without `ORDER BY` fixes no order, so the row `get_user` takes first and the order of the `get_blocks` list are this model's choice, not a promise of the source.

## Findings

| source | as written | input that shows it | evidently intended | confidence | as-written member | corrected member |
|---|---|---|---|---|---|---|
| utils.py:183 | `mapToUniqueId` passes the folder list as one argument, so `*folders` holds a list and `".".join` raises TypeError | `{"env": envs.prod, "username": "johndoe", "folders": ["docs"]}` | `prod.johndoe.docs`, as its documentation at utils.py:180-181 says | high, not executed | Identifiers.MapToUniqueIdAsWritten | Identifiers.MapToUniqueId |
