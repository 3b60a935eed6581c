/** The worked examples in the documentation of utils.py, checked against the model. */
module IdentifierExamples {
  import opened Wrappers
  import opened Exceptions
  import opened Strings
  import opened Identifiers

  /** A root built from a clean user name is valid. */
  lemma RootIsValid(env: Env, user: string)
    requires '.' !in user && !IsBlank(user)
    ensures Split(EnvName(env) + "." + user, '.') == [EnvName(env), user]
    ensures ValidId(EnvName(env) + "." + user)
  {
    SplitPair(EnvName(env), user, '.');
  }

  /** The first dot-segment of `a.b` is `a` whenever `a` holds no dot. */
  lemma FirstSegment(a: string, b: string)
    requires '.' !in a
    ensures Split(a + "." + b, '.')[0] == a
  {
    SplitCons(a, b, '.');
  }

  /** utils.py:127-128: separating a clean three-segment identifier such as `prod.johndoe.documents`. */
  lemma SeparateThree(env: Env, user: string, folder: string)
    requires '.' !in user && !IsBlank(user) && '.' !in folder && !IsBlank(folder)
    ensures SeparateUniqueId(EnvName(env) + "." + user + "." + folder)
         == Ok([EnvSegment(env), Folder(user), Folder(folder)])
  {
    var id := EnvName(env) + "." + user + "." + folder;
    SplitTriple(EnvName(env), user, folder, '.');
    assert WellFormedPath([EnvName(env), user, folder]);
    var r := SeparateUniqueId(id).value;
    assert |r| == 3 && RenderAll(r) == [EnvName(env), user, folder];
    assert EnvName(r[0].env) == EnvName(env);
    assert EnvByName(EnvName(r[0].env)) == Some(r[0].env);
    assert r[1].name == user && r[2].name == folder;
    assert r == [EnvSegment(env), Folder(user), Folder(folder)];
  }

  /** The root of a clean user name is the env name, a dot and the user name. */
  lemma RootGenerated(env: Env, user: string)
    requires '.' !in user && !IsBlank(user)
    ensures GenerateUniqueId(env, user, []) == Ok(EnvName(env) + "." + user)
  {
    GenerateFromCleanParts(env, user, []);
    assert [EnvName(env), user] + [] == [EnvName(env)] + [user];
    JoinCons(EnvName(env), [user], '.');
  }

  /** utils.py:105: a user root. */
  lemma GenerateRootExample()
    ensures GenerateUniqueId(Prod, "johndoe", []) == Ok("prod.johndoe")
  {
    assert !IsPyWhitespace("johndoe"[0]);
    RootGenerated(Prod, "johndoe");
    assert "prod.johndoe" == EnvName(Prod) + "." + "johndoe";
  }

  /** utils.py:106: one clean folder below a clean root is the root, a dot and the folder. */
  lemma FolderGenerated(env: Env, user: string, folder: string)
    requires '.' !in user && !IsBlank(user) && '.' !in folder && !IsBlank(folder)
    ensures GenerateUniqueId(env, user, [folder]) == Ok(EnvName(env) + "." + user + "." + folder)
  {
    GenerateFromCleanParts(env, user, [folder]);
    assert [EnvName(env), user] + [folder] == [EnvName(env), user, folder];
    JoinTriple(EnvName(env), user, folder, '.');
  }

  /** utils.py:202: an environment followed by a user name is valid. */
  lemma ValidIdAcceptsRoot()
    ensures ValidId("prod.johndoe")
  {
    assert !IsPyWhitespace("johndoe"[0]);
    RootIsValid(Prod, "johndoe");
    assert "prod.johndoe" == EnvName(Prod) + "." + "johndoe";
  }

  /** utils.py:203: an unknown first segment is rejected. */
  lemma ValidIdRejectsUnknownEnv()
    ensures !ValidId("invalid.user")
  {
    FirstSegment("invalid", "user");
    assert "invalid.user" == "invalid" + "." + "user";
  }

  /** Only the two member names are environments: "staging" is not one. */
  lemma ValidIdRejectsStaging()
    ensures !ValidId("staging.john")
  {
    FirstSegment("staging", "john");
    assert "staging.john" == "staging" + "." + "john";
  }

  /** utils.py:204: a single segment is too short; a trailing dot leaves a blank segment. */
  lemma ValidIdRejectsShortOrBlank()
    ensures !ValidId("prod")
    ensures !ValidId("prod.")
  {
    SplitNoSep("prod", '.');
    SplitSnocSep("prod", '.');
    assert "prod." == "prod" + ".";
    assert IsBlank(Split("prod.", '.')[1]);
  }

  /**
   * utils.py:180-181: the documented use of `mapToUniqueId` on a map with one folder
   * raises TypeError as written, and gives the three-segment identifier in the
   * corrected form.
   */
  lemma MapToUniqueIdOneFolder(env: Env, user: string, folder: string)
    requires '.' !in user && !IsBlank(user) && '.' !in folder && !IsBlank(folder)
    ensures MapToUniqueIdAsWritten(IdMap(env, user, [folder])) == Err(TypeError)
    ensures MapToUniqueId(IdMap(env, user, [folder])) == Ok(EnvName(env) + "." + user + "." + folder)
  {
    FolderGenerated(env, user, folder);
  }
}
