/**
 * PostgreSQL's `LIKE` with its default escape character, as `getBlocks`
 * (dbService.py) uses it: `%` matches any run of characters, `_` any one
 * character, a backslash makes the next pattern character literal, and every
 * other character matches itself (case-sensitively).
 */
module SqlLike {

  /** The characters with a meaning of their own in a `LIKE` pattern. */
  predicate IsPatternMeta(c: char)
  {
    c == '%' || c == '_' || c == '\\'
  }

  /** A string that `LIKE` reads literally. */
  predicate NoWildcards(s: string)
  {
    forall k :: 0 <= k < |s| ==> !IsPatternMeta(s[k])
  }

  /**
   * `s LIKE p`. A pattern ending in a lone backslash is an error in PostgreSQL;
   * here it matches nothing. Patterns of the form `x || '%'` never end that way:
   * the final `%` is either a wildcard or escaped by the backslash before it.
   */
  predicate Like(s: string, p: string)
    decreases |p|, |s|
  {
    if p == [] then s == []
    else if p[0] == '%' then Like(s, p[1..]) || (s != [] && Like(s[1..], p))
    else if p[0] == '_' then s != [] && Like(s[1..], p[1..])
    else if p[0] == '\\' then |p| >= 2 && s != [] && s[0] == p[1] && Like(s[1..], p[2..])
    else s != [] && s[0] == p[0] && Like(s[1..], p[1..])
  }

  /** A lone `%` matches every string. */
  lemma {:induction false} LikeAnything(s: string)
    ensures Like(s, "%")
    decreases |s|
  {
    if s != [] {
      LikeAnything(s[1..]);
    }
  }

  /** A literal head of the pattern must be a prefix of the string, and the rest matches the rest. */
  lemma {:induction false} LikeLiteralHead(s: string, x: string, rest: string)
    requires NoWildcards(x)
    ensures Like(s, x + rest) <==> x <= s && Like(s[|x|..], rest)
    decreases |x|
  {
    if x != [] {
      var p := x + rest;
      assert p[1..] == x[1..] + rest;
      assert !IsPatternMeta(x[0]);
      if s != [] {
        LikeLiteralHead(s[1..], x[1..], rest);
        if x <= s {
          assert x[1..] <= s[1..];
          assert s[|x|..] == s[1..][|x| - 1..];
        }
        if x[1..] <= s[1..] {
          assert s[1..][|x[1..]|..] == s[|x|..];
        }
      }
    } else {
      assert x + rest == rest;
    }
  }

  /** `LIKE x || '%'` on a literal `x` is exactly the string-prefix test. */
  lemma PrefixPattern(s: string, x: string)
    requires NoWildcards(x)
    ensures Like(s, x + "%") <==> x <= s
  {
    LikeLiteralHead(s, x, "%");
    if x <= s {
      LikeAnything(s[|x|..]);
    }
  }

  /**
   * `_` in the pattern lets through any character at its position: with literal
   * `x` and `y`, `x || '_' || y || '%'` matches `x`, any `c`, `y` and anything after.
   */
  lemma UnderscoreWidens(x: string, c: char, y: string, t: string)
    requires NoWildcards(x) && NoWildcards(y)
    ensures Like(x + [c] + y + t, x + "_" + y + "%")
  {
    var s := x + [c] + y + t;
    var rest := "_" + y + "%";
    assert x + "_" + y + "%" == x + rest;
    LikeLiteralHead(s, x, rest);
    assert s[|x|..] == [c] + (y + t);
    assert ([c] + (y + t))[1..] == y + t;
    assert rest[1..] == y + "%";
    PrefixPattern(y + t, y);
  }
}
