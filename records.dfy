/**
 * The record classes of user.py and block.py: a `User` with six fields derived
 * once by its constructor and changed by setters, and a `Block` holding an
 * identifier and a value.
 */
module Records {
  import opened Wrappers
  import opened Exceptions
  import opened Strings
  import opened Identifiers
  import opened AccessKeys
  import opened Credentials

  /** Python truthiness of an optional string: present and non-empty. */
  predicate Truthy(s: Option<string>)
  {
    s.Some? && s.value != ""
  }

  /**
   * The identifier the `User` constructor keeps: a truthy `uniqueid` verbatim,
   * otherwise `generateUniqueId(env, username)`, which raises RuntimeError on a
   * user name with a blank dot-segment.
   */
  function DeriveUniqueId(env: Env, username: string, uniqueid: Option<string>): (r: Result<string, Error>)
    ensures Truthy(uniqueid) ==> r == Ok(uniqueid.value)
    ensures !Truthy(uniqueid) && r.Ok? ==> r.value == EnvName(env) + "." + username && ValidId(r.value)
    ensures r.Err? ==> r.error == RuntimeError
  {
    if Truthy(uniqueid) then Ok(uniqueid.value)
    else
      RootValidIff(env, username);
      GenerateUniqueId(env, username, [])
  }

  /** The access key the `User` constructor keeps: a truthy one verbatim, otherwise a fresh one. */
  function DeriveAccessKey(accessKey: Option<string>, entropy: Entropy): (key: string)
    ensures Truthy(accessKey) ==> key == accessKey.value
    ensures key != ""
  {
    if Truthy(accessKey) then accessKey.value else GenerateAccessKey(entropy)
  }

  /**
   * Without a uniqueid the constructor fails exactly when a dot-segment of the
   * user name is blank; a clean user name gets the root `env.username`.
   */
  lemma DerivedRoot(env: Env, username: string, uniqueid: Option<string>)
    requires !Truthy(uniqueid)
    ensures DeriveUniqueId(env, username, uniqueid).Ok?
        <==> forall k :: 0 <= k < |Split(username, '.')| ==> !IsBlank(Split(username, '.')[k])
    ensures '.' !in username && !IsBlank(username)
        ==> DeriveUniqueId(env, username, uniqueid) == Ok(EnvName(env) + "." + username)
  {
    RootValidIff(env, username);
    if '.' !in username {
      SplitNoSep(username, '.');
    }
  }

  /** A supplied key is kept as it is; a generated one is 128 hex digits and passes `verifyAccessKey`'s format test. */
  lemma DerivedAccessKeyFormat(accessKey: Option<string>, entropy: Entropy)
    ensures Truthy(accessKey) ==> DeriveAccessKey(accessKey, entropy) == accessKey.value
    ensures !Truthy(accessKey) ==> KeyFormatOk(DeriveAccessKey(accessKey, entropy))
    ensures !Truthy(accessKey) ==> HexDecode(DeriveAccessKey(accessKey, entropy)) == Some(entropy)
  {
    if !Truthy(accessKey) {
      GeneratedKeyWellFormed(entropy);
    }
  }

  /** A user account (user.py). */
  class User {
    var env: Env
    var username: string
    var uniqueid: string
    var email: string
    var accessKey: string
    var password: string

    /** Stores the six fields as given; `New` does the derivation. */
    constructor Init(env: Env, username: string, uniqueid: string, email: string, accessKey: string, password: string)
      ensures this.env == env && this.username == username && this.uniqueid == uniqueid
      ensures this.email == email && this.accessKey == accessKey && this.password == password
    {
      this.env := env;
      this.username := username;
      this.uniqueid := uniqueid;
      this.email := email;
      this.accessKey := accessKey;
      this.password := password;
    }

    /**
     * `User(username, email, password, env, uniqueid, accessKey)`: derives the
     * identifier and the access key, and always stores the hash of `password`.
     * Raises RuntimeError exactly when the identifier has to be generated and
     * is invalid.
     */
    static method New(username: string, email: string, password: string, env: Env,
                      uniqueid: Option<string>, accessKey: Option<string>,
                      hasher: Hasher, entropy: Entropy)
      returns (r: Result<User, Error>)
      ensures r.Err? <==> DeriveUniqueId(env, username, uniqueid).Err?
      ensures r.Err? ==> r.error == RuntimeError
      ensures r.Ok? ==> fresh(r.value)
      ensures r.Ok? ==> r.value.env == env && r.value.username == username && r.value.email == email
      ensures r.Ok? ==> r.value.uniqueid == DeriveUniqueId(env, username, uniqueid).value
      ensures r.Ok? ==> r.value.accessKey == DeriveAccessKey(accessKey, entropy)
      ensures r.Ok? ==> r.value.password == hasher.hash(password)
    {
      var id := DeriveUniqueId(env, username, uniqueid);
      if id.Err? {
        return Err(id.error);
      }
      var u := new User.Init(env, username, id.value, email, DeriveAccessKey(accessKey, entropy), hasher.hash(password));
      return Ok(u);
    }

    function GetEnv(): Env reads this { env }
    function GetUsername(): string reads this { username }
    function GetUniqueid(): string reads this { uniqueid }
    function GetEmail(): string reads this { email }
    function GetAccessKey(): string reads this { accessKey }
    function GetPassword(): string reads this { password }

    method SetEnv(env: Env)
      modifies this`env
      ensures GetEnv() == env
    {
      this.env := env;
    }

    method SetUsername(username: string)
      modifies this`username
      ensures GetUsername() == username
    {
      this.username := username;
    }

    method SetUniqueid(uniqueid: string)
      modifies this`uniqueid
      ensures GetUniqueid() == uniqueid
    {
      this.uniqueid := uniqueid;
    }

    method SetEmail(email: string)
      modifies this`email
      ensures GetEmail() == email
    {
      this.email := email;
    }

    method SetAccessKey(accessKey: string)
      modifies this`accessKey
      ensures GetAccessKey() == accessKey
    {
      this.accessKey := accessKey;
    }

    /** Stores the string as given: the caller is expected to pass a hash. */
    method SetPassword(password: string)
      modifies this`password
      ensures GetPassword() == password
    {
      this.password := password;
    }
  }

  /** A stored value under a hierarchical identifier (block.py). */
  class Block {
    var identifier: string
    var value: string

    /** `Block(identifier, value="")`: both stored unchanged; the identifier is not checked. */
    constructor(identifier: string, value: string := "")
      ensures this.identifier == identifier && this.value == value
    {
      this.identifier := identifier;
      this.value := value;
    }

    function GetIdentifier(): string reads this { identifier }
    function GetValue(): string reads this { value }

    method SetValue(value: string)
      modifies this`value
      ensures GetValue() == value
    {
      this.value := value;
    }

    /** `Block.tupleToBlock((identifier, value))`. */
    static method TupleToBlock(raw: (string, string)) returns (b: Block)
      ensures fresh(b)
      ensures Pair(b) == raw
    {
      b := new Block(raw.0, raw.1);
    }

    /** `Block.tupleListToBlocks(raws)`: one new block per tuple, in order. */
    static method TupleListToBlocks(raws: seq<(string, string)>) returns (blocks: seq<Block>)
      ensures |blocks| == |raws|
      ensures forall k :: 0 <= k < |blocks| ==> fresh(blocks[k])
      ensures Pairs(blocks) == raws
    {
      blocks := [];
      for i := 0 to |raws|
        invariant |blocks| == i
        invariant forall k :: 0 <= k < i ==> fresh(blocks[k])
        invariant Pairs(blocks) == raws[..i]
      {
        var b := TupleToBlock(raws[i]);
        PairsSnoc(blocks, b);
        blocks := blocks + [b];
      }
    }
  }

  /** The `(identifier, value)` tuple a block holds. */
  function Pair(b: Block): (string, string)
    reads b
  {
    (b.identifier, b.value)
  }

  /** The tuples a list of blocks holds, in order. */
  function Pairs(blocks: seq<Block>): (raws: seq<(string, string)>)
    reads set k | 0 <= k < |blocks| :: blocks[k]
    ensures |raws| == |blocks|
    ensures forall k :: 0 <= k < |blocks| ==> raws[k] == Pair(blocks[k])
  {
    seq(|blocks|, k reads set j | 0 <= j < |blocks| :: blocks[j] requires 0 <= k < |blocks| => Pair(blocks[k]))
  }

  lemma PairsSnoc(blocks: seq<Block>, b: Block)
    ensures Pairs(blocks + [b]) == Pairs(blocks) + [Pair(b)]
  {
  }
}
