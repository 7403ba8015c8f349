/** The user record that the login screen stores for a first-time sign-up
    after the OAuth flow returns. The OAuth flow and the insert into the
    hosted data store are outside this model; only the guards and the
    derivation of the record's fields are here. */
module Login {

  datatype Option<T> = None | Some(value: T)

  /** The sign-up details the OAuth flow reports for a new user. */
  datatype SignUp = SignUp(firstName: string, lastName: string, emailAddress: string)

  /** What the OAuth flow returns: a session id when a session was created,
      and sign-up details when the user is new. */
  datatype OAuthResult = OAuthResult(createdSessionId: Option<string>, signUp: Option<SignUp>)

  /** The row inserted into the `Users` table. */
  datatype UserRecord = UserRecord(name: string, email: string, username: string)

  /** The literal appended to every derived username. */
  const UsernameSuffix: string := "atSnaZr"

  /** `s.split(sep)`: the pieces of `s` between occurrences of `sep`; there
      is always at least one piece, and no piece holds `sep`. */
  function Split(s: string, sep: char): (parts: seq<string>)
    ensures |parts| >= 1
    ensures forall k :: 0 <= k < |parts| ==> sep !in parts[k]
  {
    if s == [] then [""]
    else
      var rest := Split(s[1..], sep);
      if s[0] == sep then [""] + rest
      else [[s[0]] + rest[0]] + rest[1..]
  }

  /** `parts.join(sep)`, the inverse of Split. */
  function Join(parts: seq<string>, sep: char): string
    requires |parts| >= 1
  {
    if |parts| == 1 then parts[0] else parts[0] + [sep] + Join(parts[1..], sep)
  }

  /** Splitting and joining back on the same separator gives the input. */
  lemma {:induction false} JoinSplit(s: string, sep: char)
    ensures Join(Split(s, sep), sep) == s
  {
    if s != [] {
      var rest := Split(s[1..], sep);
      JoinSplit(s[1..], sep);
      if s[0] == sep {
        assert Split(s, sep)[1..] == rest;
        assert s == [sep] + s[1..];
      } else {
        var parts := Split(s, sep);
        assert parts[1..] == rest[1..];
        assert s == [s[0]] + s[1..];
      }
    }
  }

  /** `email.split('@')[0]`: the part of the address before its first `@`,
      or the whole address when it has none. */
  function EmailPrefix(email: string): (p: string)
    ensures '@' !in p
    ensures |p| <= |email| && p == email[..|p|]
    ensures p == email || email[|p|] == '@'
  {
    SplitFirstPiece(email, '@');
    Split(email, '@')[0]
  }

  /** The first piece of a split is a prefix of the input that ends either
      the input or just before the first separator. */
  lemma {:induction false} SplitFirstPiece(s: string, sep: char)
    ensures |Split(s, sep)[0]| <= |s|
    ensures Split(s, sep)[0] == s[..|Split(s, sep)[0]|]
    ensures Split(s, sep)[0] == s || s[|Split(s, sep)[0]|] == sep
  {
    if s != [] && s[0] != sep {
      var tail := Split(s[1..], sep)[0];
      SplitFirstPiece(s[1..], sep);
      assert Split(s, sep)[0] == [s[0]] + tail;
      assert s == [s[0]] + s[1..];
    }
  }

  /** The prefix is determined by the two properties in EmailPrefix's
      contract: any `@`-free prefix that is followed by `@` or ends the
      address is the one `split('@')[0]` picks. */
  lemma EmailPrefixUnique(email: string, q: string)
    requires '@' !in q
    requires |q| <= |email| && q == email[..|q|]
    requires q == email || email[|q|] == '@'
    ensures q == EmailPrefix(email)
  {
  }

  /** An address without `@` is its own prefix. */
  lemma EmailPrefixNoAt(email: string)
    requires '@' !in email
    ensures EmailPrefix(email) == email
  {
    EmailPrefixUnique(email, email);
    assert email[..|email|] == email;
  }

  /** The username stored for a new user: the address's prefix followed by
      the fixed suffix. */
  function Username(email: string): (u: string)
    ensures |u| >= |UsernameSuffix| && u[|u| - |UsernameSuffix|..] == UsernameSuffix
    ensures u[..|u| - |UsernameSuffix|] == EmailPrefix(email)
  {
    EmailPrefix(email) + UsernameSuffix
  }

  /** JavaScript truthiness of an optional string: present and non-empty. */
  predicate Truthy(s: Option<string>)
  {
    s.Some? && s.value != ""
  }

  /** The row the login screen inserts after an OAuth flow, or None when it
      inserts nothing: a row is built only when a session was created and
      the sign-up details carry a non-empty e-mail address. */
  function NewUserRecord(res: OAuthResult): (r: Option<UserRecord>)
    ensures r.Some? <==> Truthy(res.createdSessionId) && res.signUp.Some? && res.signUp.value.emailAddress != ""
    ensures r.Some? ==>
      && r.value.name == res.signUp.value.firstName + res.signUp.value.lastName
      && r.value.email == res.signUp.value.emailAddress
      && r.value.username == Username(res.signUp.value.emailAddress)
  {
    if !Truthy(res.createdSessionId) then None
    else match res.signUp
      case None => None
      case Some(su) =>
        if su.emailAddress == "" then None
        else Some(UserRecord(su.firstName + su.lastName, su.emailAddress, Username(su.emailAddress)))
  }

  /** A derived username never contains `@`. */
  lemma UsernameNoAt(email: string)
    ensures '@' !in Username(email)
  {
    var u := Username(email);
    var p := EmailPrefix(email);
    assert u == p + UsernameSuffix;
    assert '@' !in UsernameSuffix;
  }
}
