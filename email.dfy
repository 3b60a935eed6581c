/**
 * `validateEmail` (utils.py): `re.match` of
 * `^[a-zA-Z0-9_.+-]+@[a-zA-Z0-9-]+\.[a-zA-Z0-9-.]+$`.
 *
 * The expression has no alternation and its classes exclude the separators that
 * follow them (the local part has no `@`, the label has no `.`), so it matches
 * `local "@" label "." rest` where `@` is the first `@` and `.` is the first dot
 * after it. Python's `$` also matches just before one final newline.
 */
module Email {
  import opened Strings

  /** `[a-zA-Z0-9_.+-]` */
  predicate IsLocalChar(c: char)
  {
    IsAsciiAlnum(c) || c == '_' || c == '.' || c == '+' || c == '-'
  }

  /** `[a-zA-Z0-9-]` */
  predicate IsLabelChar(c: char)
  {
    IsAsciiAlnum(c) || c == '-'
  }

  /** `[a-zA-Z0-9-.]` */
  predicate IsRestChar(c: char)
  {
    IsAsciiAlnum(c) || c == '-' || c == '.'
  }

  predicate LocalPart(s: string)
  {
    |s| > 0 && forall k :: 0 <= k < |s| ==> IsLocalChar(s[k])
  }

  predicate LabelPart(s: string)
  {
    |s| > 0 && forall k :: 0 <= k < |s| ==> IsLabelChar(s[k])
  }

  predicate RestPart(s: string)
  {
    |s| > 0 && forall k :: 0 <= k < |s| ==> IsRestChar(s[k])
  }

  /** `body` splits at position `i` (the `@`) and `j` (the dot) into the three parts. */
  predicate ShapeAt(body: string, i: int, j: int)
  {
    && 0 <= i < j < |body|
    && body[i] == '@' && body[j] == '.'
    && LocalPart(body[..i]) && LabelPart(body[i + 1..j]) && RestPart(body[j + 1..])
  }

  /** The whole of `body` is `local "@" label "." rest`, for some choice of split. */
  ghost predicate EmailShape(body: string)
  {
    exists i, j :: ShapeAt(body, i, j)
  }

  /** What `$` leaves to the rest of the expression: the string minus one final newline. */
  function Anchored(e: string): (body: string)
    ensures body == e || (e == body + "\n")
  {
    if |e| > 0 && e[|e| - 1] == '\n' then e[..|e| - 1] else e
  }

  /** The regular language the expression accepts. */
  ghost predicate EmailAccepted(e: string)
  {
    EmailShape(Anchored(e))
  }

  /** The split the regex engine settles on: the first `@`, then the first dot after it. */
  function CandidateSplit(body: string): (ij: (int, int))
    ensures ij.0 == IndexOf(body, '@')
    ensures ij.0 < |body| ==> ij.1 == ij.0 + 1 + IndexOf(body[ij.0 + 1..], '.')
  {
    var i := IndexOf(body, '@');
    if i < |body| then (i, i + 1 + IndexOf(body[i + 1..], '.')) else (i, i)
  }

  /** `validateEmail(e)`: the match succeeds exactly on strings of the regular language. */
  function ValidateEmail(e: string): (ok: bool)
    ensures ok <==> EmailAccepted(e)
  {
    var body := Anchored(e);
    var ij := CandidateSplit(body);
    ShapeDeterministic(body);
    ShapeAt(body, ij.0, ij.1)
  }

  /** Any split that fits the shape is the first `@` and the first dot after it. */
  lemma ShapeDeterministic(body: string)
    ensures EmailShape(body) <==> ShapeAt(body, CandidateSplit(body).0, CandidateSplit(body).1)
  {
    if EmailShape(body) {
      var i, j :| ShapeAt(body, i, j);
      ShapeUnique(body, i, j);
    }
  }

  lemma ShapeUnique(body: string, i: int, j: int)
    requires ShapeAt(body, i, j)
    ensures CandidateSplit(body) == (i, j)
  {
    assert forall k :: 0 <= k < i ==> body[k] == body[..i][k];
    assert forall k :: 0 <= k < i ==> body[k] != '@';
    IndexOfIs(body, '@', i);
    var tail := body[i + 1..];
    assert forall k :: 0 <= k < j - i - 1 ==> tail[k] == body[i + 1..j][k];
    assert forall k :: 0 <= k < j - i - 1 ==> tail[k] != '.';
    IndexOfIs(tail, '.', j - i - 1);
  }

  /** An accepted address holds exactly one `@`. */
  lemma AcceptedHasOneAt(e: string)
    requires EmailAccepted(e)
    ensures multiset(e)['@'] == 1
  {
    var body := Anchored(e);
    var i, j :| ShapeAt(body, i, j);
    AtOnlyAtSplit(body, i, j);
    var local, domain := body[..i], body[i + 1..];
    assert body == local + ['@'] + domain;
    assert multiset(body) == multiset(local) + multiset(['@']) + multiset(domain);
    if e != body {
      assert e == body + ['\n'];
      assert multiset(e) == multiset(body) + multiset(['\n']);
    }
  }

  /** In a split that fits the shape, neither the local part nor the domain holds an `@`. */
  lemma AtOnlyAtSplit(body: string, i: int, j: int)
    requires ShapeAt(body, i, j)
    ensures '@' !in body[..i] && '@' !in body[i + 1..]
  {
    var local, domain := body[..i], body[i + 1..];
    forall k | 0 <= k < |local| ensures local[k] != '@' {
      assert IsLocalChar(local[k]);
    }
    var lbl, rest := body[i + 1..j], body[j + 1..];
    forall k | 0 <= k < |domain| ensures domain[k] != '@' {
      if k < j - i - 1 {
        assert domain[k] == lbl[k];
        assert IsLabelChar(lbl[k]);
      } else if k > j - i - 1 {
        assert domain[k] == rest[k - (j - i)];
        assert IsRestChar(rest[k - (j - i)]);
      } else {
        assert domain[k] == body[j];
      }
    }
  }

  /** `local "@" label "." rest` is accepted whenever the three parts fit their classes. */
  lemma AcceptsParts(local: string, domainLabel: string, rest: string)
    requires LocalPart(local) && LabelPart(domainLabel) && RestPart(rest)
    ensures ValidateEmail(local + "@" + domainLabel + "." + rest)
  {
    var e := local + "@" + domainLabel + "." + rest;
    var i, j := |local|, |local| + 1 + |domainLabel|;
    assert e[|e| - 1] == rest[|rest| - 1];
    assert IsRestChar(rest[|rest| - 1]);
    assert Anchored(e) == e;
    assert e[..i] == local;
    assert e[i + 1..j] == domainLabel;
    assert e[j + 1..] == rest;
    assert ShapeAt(e, i, j);
  }
}

/** The examples in the documentation of `validateEmail` (utils.py:254-255). */
module EmailExamples {
  import opened Email

  /** `user@example.com`, taken apart at its `@` and its dot. */
  lemma AcceptsPlainAddress(local: string, domainLabel: string, rest: string)
    requires local == "user" && domainLabel == "example" && rest == "com"
    ensures ValidateEmail(local + "@" + domainLabel + "." + rest)
  {
    AcceptsParts(local, domainLabel, rest);
  }

  lemma RejectsMissingAt()
    ensures !ValidateEmail("invalid.email")
  {
    var e := "invalid.email";
    assert Anchored(e) == e;
    assert '@' !in e;
  }
}
