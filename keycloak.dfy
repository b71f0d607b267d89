/** KeycloakAdminClientService: creates a Keycloak user for a registered
    customer, with a service-account token kept in a one-slot cache. */
module KeycloakAdmin {
  import opened Wrappers
  import opened JavaText

  /** The first and last name sent in the user payload. */
  datatype NameParts = NameParts(firstName: string, lastName: string)

  /** The user payload posted to the admin API; `enabled` is always true. */
  datatype UserPayload = UserPayload(username: string, enabled: bool, email: string,
                                     firstName: string, lastName: string)

  /** The admin API's answer to the user creation: created, with the
      Location header if there is one, or rejected with its error body, None
      when the response has no body. */
  datatype CreateAnswer = Created(location: Option<string>) | Rejected(body: Option<string>)

  /** createUser's split of the full name: at the first space, each side
      trimmed; a name without a space is the first name as it is; a null
      name gives two empty names. */
  function SplitFullName(fullName: Option<string>): (p: NameParts)
    ensures fullName.None? ==> p == NameParts("", "")
    ensures fullName.Some? && ' ' !in fullName.value ==> p == NameParts(fullName.value, "")
    ensures fullName.Some? && ' ' in fullName.value ==>
              var i := IndexOf(fullName.value, ' ');
              && p.firstName == Trim(fullName.value[..i])
              && p.lastName == Trim(fullName.value[i + 1..])
              && ' ' !in p.firstName
  {
    if fullName.Some? && ' ' in fullName.value then
      var s := fullName.value;
      var i := IndexOf(s, ' ');
      TrimIsInfix(s[..i]);
      NameParts(Trim(s[..i]), Trim(s[i + 1..]))
    else
      NameParts(if fullName.Some? then fullName.value else "", "")
  }

  /** Trimming only takes characters away from the ends. */
  lemma TrimIsInfix(s: string)
    ensures forall c :: c in Trim(s) ==> c in s
  {
    var a := Leading(s);
    if a < |s| {
      var b := Trailing(s);
      assert Trim(s) == s[a..|s| - b];
      forall c | c in Trim(s) ensures c in s {
        var k :| 0 <= k < |Trim(s)| && Trim(s)[k] == c;
        assert s[a + k] == c;
      }
    }
  }

  /** A first name without spaces and a last name, each already trimmed and
      not empty, joined by one space are split back into the two. */
  lemma {:induction false} SplitJoin(first: string, last: string)
    requires first != [] && ' ' !in first && !IsTrimmable(first[0]) && !IsTrimmable(first[|first| - 1])
    requires last != [] && !IsTrimmable(last[0]) && !IsTrimmable(last[|last| - 1])
    ensures SplitFullName(Some(first + " " + last)) == NameParts(first, last)
  {
    var s := first + " " + last;
    assert s[|first|] == ' ';
    assert s[..|first|] == first;
    assert ' ' !in s[..|first|];
    var i := IndexOf(s, ' ');
    assert i == |first|;
    assert s[i + 1..] == last;
    TrimKeepsTrimmed(first);
    TrimKeepsTrimmed(last);
  }

  /** The user id: what follows the last '/' of the Location header (all
      of it when there is no '/'); a missing header raises. */
  function UserIdOf(location: Option<string>): (r: Reply<string>)
    ensures location.None? <==> r.Thrown?
    ensures r.Value? ==> '/' !in r.value
    ensures r.Value? ==> exists k :: 0 <= k <= |location.value| && r.value == location.value[k..]
                                     && (k == 0 || location.value[k - 1] == '/')
  {
    match location
    case None => Thrown(NullDereference)
    case Some(s) =>
      var k := LastIndexOf(s, '/') + 1;
      Value(s[k..])
  }

  /** An id without '/' after any base path ending in '/' comes back out. */
  lemma UserIdRoundTrip(base: string, id: string)
    requires '/' !in id
    ensures UserIdOf(Some(base + "/" + id)) == Value(id)
  {
    var s := base + "/" + id;
    var k := LastIndexOf(s, '/');
    assert s[|base|] == '/';
    assert s[k + 1..] == s[k + 1..|base| + 1] + id;
    assert k == |base|;
    assert s[k + 1..] == id;
  }

  class KeycloakAdminClient {
    var cachedToken: Option<string>       // null until the first fetch
    var tokenRequests: nat                // requests sent to the token endpoint
    var createdUsers: seq<UserPayload>    // payloads posted to /users
    var passwordResets: seq<(string, string)>  // (user id, password) put to reset-password

    constructor ()
      ensures cachedToken.None? && tokenRequests == 0 && createdUsers == [] && passwordResets == []
    {
      cachedToken := None;
      tokenRequests := 0;
      createdUsers := [];
      passwordResets := [];
    }

    /** getToken: the cached token without a request; otherwise one request
        to the token endpoint, whose token (if it comes) is cached. */
    method GetToken(fetched: Reply<string>) returns (t: Reply<string>)
      modifies this`cachedToken, this`tokenRequests
      ensures old(cachedToken).Some? ==>
                t == Value(old(cachedToken).value) && cachedToken == old(cachedToken)
                && tokenRequests == old(tokenRequests)
      ensures old(cachedToken).None? ==>
                t == fetched && tokenRequests == old(tokenRequests) + 1
                && cachedToken == (if fetched.Value? then Some(fetched.value) else None)
    {
      if cachedToken.Some? {
        return Value(cachedToken.value);
      }
      tokenRequests := tokenRequests + 1;
      t := fetched;
      if fetched.Value? {
        cachedToken := Some(fetched.value);
      }
    }

    /** createUser: the payload with the split name is posted with the token;
        on a 2xx the user id is read from the Location header and the
        password is put for it. A rejection raises its body; a rejection
        without a body completes with no value (None: block() gives null),
        and no password is put. `fetched`, `answer` and `resetFailure` are
        what the token endpoint, the user creation and the password reset
        answer. */
    method CreateUser(username: string, password: string, email: string, fullName: Option<string>,
                      fetched: Reply<string>, answer: CreateAnswer, resetFailure: Option<string>)
      returns (r: Reply<Option<string>>)
      modifies this
      ensures var names := SplitFullName(fullName);
              var payload := UserPayload(username, true, email, names.firstName, names.lastName);
              var token := if old(cachedToken).Some? then Value(old(cachedToken).value) else fetched;
              && cachedToken == (if token.Value? then Some(token.value) else None)
              && tokenRequests == old(tokenRequests) + (if old(cachedToken).Some? then 0 else 1)
              && (token.Thrown? ==> r == Thrown(token.message) && createdUsers == old(createdUsers)
                                    && passwordResets == old(passwordResets))
              && (token.Value? ==> createdUsers == old(createdUsers) + [payload])
              && (token.Value? && answer.Rejected? ==>
                    r == (if answer.body.Some? then Thrown(answer.body.value) else Value(None))
                    && passwordResets == old(passwordResets))
              && (token.Value? && answer.Created? ==>
                    match UserIdOf(answer.location)
                    case Thrown(m) => r == Thrown(m) && passwordResets == old(passwordResets)
                    case Value(id) =>
                      passwordResets == old(passwordResets) + [(id, password)]
                      && r == (if resetFailure.Some? then Thrown(resetFailure.value) else Value(Some(id))))
    {
      var names := SplitFullName(fullName);
      var payload := UserPayload(username, true, email, names.firstName, names.lastName);
      var token := GetToken(fetched);
      if token.Thrown? {
        return Thrown(token.message);
      }
      createdUsers := createdUsers + [payload];
      if answer.Rejected? {
        if answer.body.None? {
          return Value(None);
        }
        return Thrown(answer.body.value);
      }
      var id := UserIdOf(answer.location);
      if id.Thrown? {
        return Thrown(id.message);
      }
      passwordResets := passwordResets + [(id.value, password)];
      if resetFailure.Some? {
        return Thrown(resetFailure.value);
      }
      r := Value(Some(id.value));
    }
  }

  /** Once a token is cached, every later call is served from the cache:
      a second getToken sends no request, whatever the endpoint would say. */
  method TwoCallsOneRequest(fetched1: Reply<string>, fetched2: Reply<string>)
    returns (t1: Reply<string>, t2: Reply<string>, requests: nat)
    requires fetched1.Value?
    ensures t1 == t2 == fetched1
    ensures requests == 1
  {
    var client := new KeycloakAdminClient();
    t1 := client.GetToken(fetched1);
    t2 := client.GetToken(fetched2);
    requests := client.tokenRequests;
  }
}
