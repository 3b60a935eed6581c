/**
 * The hierarchical identifier codec of utils.py.
 *
 * An identifier is a dot-joined path `env.username.folder...`: at least two
 * segments, the first naming an environment, none of them blank. The module
 * gives the validity test, the construction from parts (the two overloads of
 * `generateUniqueId`), and the decompositions back into parts
 * (`separateUniqueId`, `uniqueIdToMap`, `mapToUniqueId`).
 */
module Identifiers {
  import opened Wrappers
  import opened Exceptions
  import opened Strings

  /** The `envs` enumeration. */
  datatype Env = Test | Prod

  /** `str(env)`: `envs.__str__` returns the member's name. */
  function EnvName(e: Env): (name: string)
    ensures |name| == 4 && '.' !in name && !IsBlank(name)
    ensures EnvByName(name) == Some(e)
  {
    var name := match e case Test => "test" case Prod => "prod";
    assert !IsPyWhitespace(name[0]);
    name
  }

  /** `envs[name]`: lookup by member name; `None` stands for the KeyError. */
  function EnvByName(name: string): (r: Option<Env>)
  {
    if name == "test" then Some(Test)
    else if name == "prod" then Some(Prod)
    else None
  }

  /** The segment list of a valid identifier: two or more, an environment first, none blank. */
  predicate WellFormedPath(parts: seq<string>)
  {
    && |parts| >= 2
    && EnvByName(parts[0]).Some?
    && forall k :: 0 <= k < |parts| ==> !IsBlank(parts[k])
  }

  /** Prepending a segment to a path: the well-formedness of the result, part by part. */
  lemma WellFormedCons(head: string, tail: seq<string>)
    ensures WellFormedPath([head] + tail)
        <==> |tail| >= 1 && EnvByName(head).Some? && !IsBlank(head)
             && forall k :: 0 <= k < |tail| ==> !IsBlank(tail[k])
  {
    var path := [head] + tail;
    if |tail| >= 1 && EnvByName(head).Some? && !IsBlank(head) && forall k :: 0 <= k < |tail| ==> !IsBlank(tail[k]) {
      forall k | 0 <= k < |path| ensures !IsBlank(path[k]) {
        if k > 0 { assert path[k] == tail[k - 1]; }
      }
    }
    if WellFormedPath(path) {
      forall k | 0 <= k < |tail| ensures !IsBlank(tail[k]) {
        assert tail[k] == path[k + 1];
      }
    }
  }

  /** What `isUniqueIdValid(id)` decides: the dot-split of `id` is a well-formed path. */
  predicate ValidId(id: string)
  {
    WellFormedPath(Split(id, '.'))
  }

  /**
   * `isUniqueIdValid`: split on dots, reject fewer than two segments or an unknown
   * environment, then scan every segment and reject the first blank one.
   */
  method IsUniqueIdValid(id: string) returns (ok: bool)
    ensures ok <==> ValidId(id)
  {
    var idList := Split(id, '.');
    if |idList| < 2 {
      return false;
    }
    if EnvByName(idList[0]).None? {
      return false;
    }
    var i := 0;
    while i < |idList|
      invariant 0 <= i <= |idList|
      invariant forall k :: 0 <= k < i ==> !IsBlank(idList[k])
    {
      if IsBlank(idList[i]) {
        return false;
      }
      i := i + 1;
    }
    return true;
  }

  /**
   * The list overload of `generateUniqueId`: ValueError for an empty list,
   * otherwise the dot-join when it is a valid identifier and RuntimeError when not.
   */
  function GenerateUniqueIdFromList(path: seq<string>): (r: Result<string, Error>)
    ensures |path| == 0 <==> r == Err(ValueError)
    ensures |path| > 0 ==> (r.Ok? <==> ValidId(Join(path, '.')))
    ensures r.Ok? ==> r.value == Join(path, '.') && ValidId(r.value)
    ensures |path| > 0 && r.Err? ==> r.error == RuntimeError
  {
    if |path| > 0 then
      var id := Join(path, '.');
      if ValidId(id) then Ok(id) else Err(RuntimeError)
    else
      Err(ValueError)
  }

  /**
   * The `(env, user, *folders)` overload: the list form on `[str(env), user, *folders]`
   * (its two branches build the same list). The list is never empty, so the only
   * failure is the RuntimeError of an invalid result.
   */
  function GenerateUniqueId(env: Env, user: string, folders: seq<string>): (r: Result<string, Error>)
    ensures r.Err? ==> r.error == RuntimeError
    ensures r.Ok? <==> ValidId(EnvName(env) + "." + Join([user] + folders, '.'))
    ensures r.Ok? ==> ValidId(r.value) && r.value == EnvName(env) + "." + Join([user] + folders, '.')
  {
    var path := [EnvName(env), user] + folders;
    JoinCons(EnvName(env), [user] + folders, '.');
    assert path == [EnvName(env)] + ([user] + folders);
    GenerateUniqueIdFromList(path)
  }

  /**
   * Construction validates exactly as parsing does: when no part holds a dot, the
   * list overload succeeds precisely on well-formed paths, and splitting the result
   * gives the parts back.
   */
  lemma GenerateAcceptsWellFormedPaths(path: seq<string>)
    requires SepFree(path, '.')
    ensures GenerateUniqueIdFromList(path).Ok? <==> WellFormedPath(path)
    ensures GenerateUniqueIdFromList(path).Ok? ==> Split(GenerateUniqueIdFromList(path).value, '.') == path
  {
    if |path| > 0 {
      SplitJoin(path, '.');
    }
  }

  /**
   * The root a user gets, `str(env) + "." + user`, is valid exactly when no
   * dot-segment of the user name is blank; this is the check that makes the
   * `User` constructor raise.
   */
  lemma RootValidIff(env: Env, user: string)
    ensures GenerateUniqueId(env, user, []).Ok?
        <==> forall k :: 0 <= k < |Split(user, '.')| ==> !IsBlank(Split(user, '.')[k])
    ensures GenerateUniqueId(env, user, []).Ok? ==> GenerateUniqueId(env, user, []).value == EnvName(env) + "." + user
  {
    var root := EnvName(env) + "." + user;
    assert Join([EnvName(env), user], '.') == root;
    assert [EnvName(env), user] + [] == [EnvName(env), user];
    SplitCons(EnvName(env), user, '.');
    assert Split(root, '.') == [EnvName(env)] + Split(user, '.');
    WellFormedCons(EnvName(env), Split(user, '.'));
    assert GenerateUniqueId(env, user, []) == GenerateUniqueIdFromList([EnvName(env), user]);
  }

  /**
   * The env overload on a user name and folders that hold no dot and are not blank
   * always succeeds, with the dot-join of `[str(env), user, *folders]`.
   */
  lemma GenerateFromCleanParts(env: Env, user: string, folders: seq<string>)
    requires '.' !in user && !IsBlank(user)
    requires SepFree(folders, '.') && forall k :: 0 <= k < |folders| ==> !IsBlank(folders[k])
    ensures GenerateUniqueId(env, user, folders) == Ok(Join([EnvName(env), user] + folders, '.'))
  {
    CleanPathWellFormed(env, user, folders);
    GenerateAcceptsWellFormedPaths([EnvName(env), user] + folders);
  }

  /** An env name, a clean user name and clean folders make a dot-free, well-formed path. */
  lemma CleanPathWellFormed(env: Env, user: string, folders: seq<string>)
    requires '.' !in user && !IsBlank(user)
    requires SepFree(folders, '.') && forall k :: 0 <= k < |folders| ==> !IsBlank(folders[k])
    ensures SepFree([EnvName(env), user] + folders, '.')
    ensures WellFormedPath([EnvName(env), user] + folders)
  {
    var path := [EnvName(env), user] + folders;
    forall k | 0 <= k < |path| ensures '.' !in path[k] && !IsBlank(path[k]) {
      if k >= 2 { assert path[k] == folders[k - 2]; }
    }
  }

  /** An element of the list `separateUniqueId` returns: the env member, or a plain string. */
  datatype Segment = EnvSegment(env: Env) | Folder(name: string)

  /** The string a segment stands for in the dotted form. */
  function Render(seg: Segment): string
  {
    match seg
    case EnvSegment(e) => EnvName(e)
    case Folder(name) => name
  }

  function RenderAll(segs: seq<Segment>): (names: seq<string>)
    ensures |names| == |segs|
    ensures forall k :: 0 <= k < |segs| ==> names[k] == Render(segs[k])
  {
    seq(|segs|, k requires 0 <= k < |segs| => Render(segs[k]))
  }

  /**
   * `separateUniqueId`: ValueError on an invalid identifier; otherwise its dot-split
   * with the first element replaced by the env of that name.
   */
  function SeparateUniqueId(id: string): (r: Result<seq<Segment>, Error>)
    ensures r.Err? <==> !ValidId(id)
    ensures r.Err? ==> r.error == ValueError
    ensures r.Ok? ==> |r.value| == |Split(id, '.')| >= 2
    ensures r.Ok? ==> r.value[0].EnvSegment? && forall k :: 1 <= k < |r.value| ==> r.value[k].Folder?
    ensures r.Ok? ==> RenderAll(r.value) == Split(id, '.')
  {
    if !ValidId(id) then
      Err(ValueError)
    else
      var parts := Split(id, '.');
      var idList := seq(|parts|, k requires 0 <= k < |parts| => Folder(parts[k]));
      Ok(idList[0 := EnvSegment(EnvByName(parts[0]).value)])
  }

  /** Rendering the separated segments and joining them with dots gives the identifier back. */
  lemma SeparateRoundTrip(id: string)
    requires ValidId(id)
    ensures Join(RenderAll(SeparateUniqueId(id).value), '.') == id
  {
    JoinSplit(id, '.');
  }

  /** The dictionary `uniqueIdToMap` returns, with its three keys as fields. */
  datatype IdMap = IdMap(env: Env, username: string, folders: seq<string>)

  /** `uniqueIdToMap`: the env, the user name and the remaining folders of a valid identifier. */
  function UniqueIdToMap(id: string): (r: Result<IdMap, Error>)
    ensures r.Err? <==> !ValidId(id)
    ensures r.Err? ==> r.error == ValueError
    ensures r.Ok? ==> EnvName(r.value.env) == Split(id, '.')[0]
    ensures r.Ok? ==> r.value.username == Split(id, '.')[1]
    ensures r.Ok? ==> r.value.folders == Split(id, '.')[2..]
  {
    match SeparateUniqueId(id)
    case Err(e) => Err(e)
    case Ok(idList) => Ok(IdMap(idList[0].env, Render(idList[1]), RenderAll(idList[2..])))
  }

  /**
   * `mapToUniqueId` as its documentation states it: the env overload of
   * `generateUniqueId` on the map's env, user name and folders.
   */
  function MapToUniqueId(m: IdMap): (r: Result<string, Error>)
    ensures r.Err? ==> r.error == RuntimeError
    ensures r.Ok? ==> ValidId(r.value)
  {
    GenerateUniqueId(m.env, m.username, m.folders)
  }

  /** Decompose, then rebuild: every valid identifier comes back unchanged. */
  lemma MapRoundTrip(id: string)
    requires ValidId(id)
    ensures MapToUniqueId(UniqueIdToMap(id).value) == Ok(id)
  {
    var m := UniqueIdToMap(id).value;
    var parts := Split(id, '.');
    assert [EnvName(m.env), m.username] + m.folders == parts;
    JoinSplit(id, '.');
  }

  /**
   * Build, then decompose: a map whose user name and folders hold no dot comes back
   * unchanged from the identifier it builds.
   */
  lemma MapRoundTripBack(m: IdMap)
    requires '.' !in m.username && SepFree(m.folders, '.')
    requires MapToUniqueId(m).Ok?
    ensures UniqueIdToMap(MapToUniqueId(m).value) == Ok(m)
  {
    var path := [EnvName(m.env), m.username] + m.folders;
    assert SepFree(path, '.');
    SplitJoin(path, '.');
    var back := UniqueIdToMap(MapToUniqueId(m).value).value;
    assert EnvByName(EnvName(back.env)) == Some(back.env);
    assert path[2..] == m.folders;
  }

  /** A Python value handed to `str.join`: a string, or a list of strings. */
  datatype PyValue = PyStr(s: string) | PyList(items: seq<string>)

  /** `sep.join(items)`: TypeError when an item is not a string. */
  function PyJoin(items: seq<PyValue>, sep: char): (r: Result<string, Error>)
    ensures r.Ok? <==> forall k :: 0 <= k < |items| ==> items[k].PyStr?
    ensures r.Err? ==> r.error == TypeError
  {
    if forall k :: 0 <= k < |items| ==> items[k].PyStr? then
      Ok(Join(seq(|items|, k requires 0 <= k < |items| => items[k].s), sep))
    else
      Err(TypeError)
  }

  /**
   * `mapToUniqueId` as written: `map["folders"]` is passed as ONE positional argument,
   * so the variadic `folders` is a one-element tuple holding the list, the path is
   * `[str(env), user, <list>]`, and `".".join` raises TypeError on its third item,
   * whatever the map holds.
   */
  function MapToUniqueIdAsWritten(m: IdMap): (r: Result<string, Error>)
    ensures r == Err(TypeError)
  {
    var folders := [PyList(m.folders)];
    var path := [PyStr(EnvName(m.env)), PyStr(m.username)] + folders;
    assert !path[2].PyStr?;
    match PyJoin(path, '.')
    case Err(e) => Err(e)
    case Ok(id) => if ValidId(id) then Ok(id) else Err(RuntimeError)
  }
}
