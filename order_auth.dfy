/**
 * The order service's authentication middleware: `authenticateToken` takes the second
 * space-separated piece of the `Authorization` header as the token, has the JWT library
 * decode it, and either answers 401/403 or stores the decoded payload on the request and
 * passes it on; `requireAdmin` passes on only a request whose user has the role `ADMIN`.
 * The JWT library (`jwt.verify` with the secret) is an opaque function from a token to its
 * payload, `None` when verification fails.
 */
module OrderAuth {
  import opened Wrappers

  // ----- String.prototype.split(' ') -----

  /** The pieces joined back with single spaces: the inverse of `Split`. */
  function Join(pieces: seq<string>): string
    requires |pieces| >= 1
  {
    if |pieces| == 1 then pieces[0] else pieces[0] + " " + Join(pieces[1..])
  }

  /**
   * `s.split(' ')`: the maximal runs between single spaces, empty ones included.
   */
  function Split(s: string): (pieces: seq<string>)
    ensures |pieces| >= 1
    decreases |s|
  {
    if s == [] then [""]
    else
      var rest := Split(s[1..]);
      if s[0] == ' ' then [""] + rest
      else [[s[0]] + rest[0]] + rest[1..]
  }

  /** Joining the pieces with single spaces gives the string back. */
  lemma {:induction false} SplitJoin(s: string)
    ensures Join(Split(s)) == s
    decreases |s|
  {
    if s != [] {
      var rest := Split(s[1..]);
      SplitJoin(s[1..]);
      if s[0] == ' ' {
        JoinAfterEmpty(rest);
        assert s == [' '] + s[1..];
      } else {
        JoinExtendFirst(s[0], rest[0], rest[1..]);
        assert [rest[0]] + rest[1..] == rest;
        assert s == [s[0]] + s[1..];
      }
    }
  }

  /** An empty first piece contributes just its separating space. */
  lemma JoinAfterEmpty(ps: seq<string>)
    requires |ps| >= 1
    ensures Join([""] + ps) == [' '] + Join(ps)
  {
    assert ([""] + ps)[1..] == ps;
  }

  /** A character added to the first piece is added to the front of the joined string. */
  lemma JoinExtendFirst(c: char, first: string, more: seq<string>)
    ensures Join([[c] + first] + more) == [c] + Join([first] + more)
  {
    var qs := [[c] + first] + more;
    var ps := [first] + more;
    assert qs[1..] == more && ps[1..] == more;
    if more != [] {
      var tail := Join(more);
      assert ([c] + first) + " " + tail == [c] + (first + " " + tail);
    }
  }

  /** No piece holds a space, and a string with n spaces has n + 1 pieces. */
  lemma {:induction false} SplitPieces(s: string)
    ensures forall i | 0 <= i < |Split(s)| :: ' ' !in Split(s)[i]
    ensures |Split(s)| == 1 + multiset(s)[' ']
    decreases |s|
  {
    if s != [] {
      SplitPieces(s[1..]);
      assert s == [s[0]] + s[1..];
      assert multiset(s) == multiset([s[0]]) + multiset(s[1..]);
    }
  }

  /** A space-free prefix followed by a space is split off as the first piece. */
  lemma {:induction false} SplitAfterWord(a: string, x: string)
    requires ' ' !in a
    ensures Split(a + " " + x) == [a] + Split(x)
    decreases |a|
  {
    if a == [] {
      assert a + " " + x == [' '] + x;
      assert (a + " " + x)[1..] == x;
    } else {
      SplitAfterWord(a[1..], x);
      assert (a + " " + x)[1..] == a[1..] + " " + x;
      assert a == [a[0]] + a[1..];
    }
  }

  /** A space-free word ending the string or followed by a space is the first piece. */
  lemma {:induction false} SplitFirstWord(t: string, rest: string)
    requires ' ' !in t
    requires rest == [] || rest[0] == ' '
    ensures Split(t + rest)[0] == t
    decreases |t|
  {
    if t == [] {
      assert t + rest == rest;
    } else {
      SplitFirstWord(t[1..], rest);
      assert (t + rest)[1..] == t[1..] + rest;
      assert t == [t[0]] + t[1..];
    }
  }

  // ----- authenticateToken -----

  /**
   * The token of `authHeader && authHeader.split(' ')[1]`, when it is truthy: a missing
   * header, a header with fewer than two pieces and an empty second piece give none.
   */
  function TokenOf(header: Option<string>): (t: Option<string>)
    ensures t.Some? ==> t.value != "" && ' ' !in t.value
    ensures t.Some? <==> header.Some? && |Split(header.value)| >= 2 && Split(header.value)[1] != ""
  {
    if header.None? then None
    else
      var pieces := Split(header.value);
      SplitPieces(header.value);
      if |pieces| >= 2 && pieces[1] != "" then Some(pieces[1]) else None
  }

  /** Any scheme word, one space, and a space-free token, optionally followed by more after a space: the token is found. */
  lemma TokenOfBuilt(scheme: string, token: string, rest: string)
    requires ' ' !in scheme && ' ' !in token && token != ""
    requires rest == [] || rest[0] == ' '
    ensures TokenOf(Some(scheme + " " + token + rest)) == Some(token)
  {
    SplitAfterWord(scheme, token + rest);
    assert scheme + " " + token + rest == scheme + " " + (token + rest);
    SplitFirstWord(token, rest);
  }

  /** Conversely, a header that yields a token is its first piece, a space, the token, and the rest after a space. */
  lemma TokenOfShape(header: string)
    requires TokenOf(Some(header)).Some?
    ensures var p := Split(header);
      header == p[0] + " " + TokenOf(Some(header)).value + (if |p| == 2 then "" else " " + Join(p[2..]))
  {
    var p := Split(header);
    SplitJoin(header);
    assert p[1..][1..] == p[2..];
  }

  /** A header with no space, such as a bare token without a scheme, yields no token. */
  lemma NoSpaceNoToken(header: string)
    requires ' ' !in header
    ensures TokenOf(Some(header)).None?
  {
    SplitPieces(header);
    assert multiset(header)[' '] == 0;
  }

  /** The decoded JWT payload: its string-valued claims. */
  datatype Claims = Claims(fields: map<string, string>)

  /** A JSON error answer: the HTTP status and the body's `error` and `message`. */
  datatype Reply = Reply(status: int, error: string, message: string)

  const MISSING_TOKEN: Reply := Reply(401, "Accès non autorisé", "Token JWT manquant")
  const BAD_TOKEN: Reply := Reply(403, "Token invalide", "Token JWT invalide ou expiré")
  const NOT_AUTHENTICATED: Reply := Reply(401, "Non authentifié", "Authentification requise")
  const NOT_ADMIN: Reply := Reply(403, "Accès refusé", "Rôle administrateur requis")

  /** What a middleware decides: answer and stop, or call `next` with the request's user. */
  datatype Decision = Answered(reply: Reply) | Next(user: Claims)

  /**
   * `authenticateToken`: 401 with no token, 403 when the library rejects it, and otherwise
   * the payload becomes the request's user.
   */
  function Authenticate(header: Option<string>, verify: string -> Option<Claims>): (d: Decision)
    ensures TokenOf(header).None? ==> d == Answered(MISSING_TOKEN)
    ensures d.Next? <==> TokenOf(header).Some? && verify(TokenOf(header).value).Some?
    ensures d.Next? ==> d.user == verify(TokenOf(header).value).value
    ensures TokenOf(header).Some? && verify(TokenOf(header).value).None? ==> d == Answered(BAD_TOKEN)
    ensures d.Answered? ==> d.reply.status == 401 || d.reply.status == 403
  {
    match TokenOf(header)
    case None => Answered(MISSING_TOKEN)
    case Some(token) =>
      match verify(token)
      case None => Answered(BAD_TOKEN)
      case Some(decoded) => Next(decoded)
  }

  /** `req.user.role === 'ADMIN'`. */
  predicate IsAdmin(user: Claims) {
    "role" in user.fields && user.fields["role"] == "ADMIN"
  }

  /** `requireAdmin`: 401 without a user, `next` for an admin, 403 for anyone else. */
  function AdminGate(user: Option<Claims>): (d: Decision)
    ensures user.None? ==> d == Answered(NOT_AUTHENTICATED)
    ensures d.Next? <==> user.Some? && IsAdmin(user.value)
    ensures d.Next? ==> d.user == user.value
    ensures user.Some? && !IsAdmin(user.value) ==> d == Answered(NOT_ADMIN)
  {
    if user.None? then Answered(NOT_AUTHENTICATED)
    else if IsAdmin(user.value) then Next(user.value)
    else Answered(NOT_ADMIN)
  }

  /**
   * A route behind both middlewares is reached exactly when the header carries a token the
   * library accepts and whose payload has the role `ADMIN`.
   */
  lemma AdminRouteReached(header: Option<string>, verify: string -> Option<Claims>)
    ensures var first := Authenticate(header, verify);
      (first.Next? && AdminGate(Some(first.user)).Next?) <==>
        && TokenOf(header).Some?
        && verify(TokenOf(header).value).Some?
        && IsAdmin(verify(TokenOf(header).value).value)
  {
  }

  /** `Bearer <token>` with a space-free token always reaches the library with that token. */
  lemma BearerHeaderAuthenticates(token: string, verify: string -> Option<Claims>)
    requires ' ' !in token && token != ""
    ensures Authenticate(Some("Bearer " + token), verify) ==
      (if verify(token).Some? then Next(verify(token).value) else Answered(BAD_TOKEN))
  {
    TokenOfBuilt("Bearer", token, "");
    assert "Bearer" + " " + token + "" == "Bearer " + token;
  }

  /** One request and its response as the middlewares see them. */
  class Exchange {
    /** `req.user`. */
    var user: Option<Claims>
    /** The response sent, if any. */
    var reply: Option<Reply>
    /** How many times `next` has been called. */
    var nextCalls: nat

    constructor ()
      ensures user.None? && reply.None? && nextCalls == 0
    {
      user := None;
      reply := None;
      nextCalls := 0;
    }

    /** `authenticateToken(req, res, next)` for a request with the given `Authorization` header. */
    method AuthenticateToken(header: Option<string>, verify: string -> Option<Claims>)
      modifies this
      ensures Authenticate(header, verify).Answered? ==>
        && reply == Some(Authenticate(header, verify).reply)
        && user == old(user) && nextCalls == old(nextCalls)
      ensures Authenticate(header, verify).Next? ==>
        && user == Some(Authenticate(header, verify).user)
        && reply == old(reply) && nextCalls == old(nextCalls) + 1
    {
      var token := TokenOf(header);
      if token.None? {
        reply := Some(MISSING_TOKEN);
        return;
      }
      var decoded := verify(token.value);
      if decoded.None? {
        reply := Some(BAD_TOKEN);
        return;
      }
      user := Some(decoded.value);
      nextCalls := nextCalls + 1;
    }

    /** `requireAdmin(req, res, next)`. */
    method RequireAdmin()
      modifies this
      ensures user == old(user)
      ensures AdminGate(user).Answered? ==> reply == Some(AdminGate(user).reply) && nextCalls == old(nextCalls)
      ensures AdminGate(user).Next? ==> reply == old(reply) && nextCalls == old(nextCalls) + 1
    {
      if user.None? {
        reply := Some(NOT_AUTHENTICATED);
        return;
      }
      if IsAdmin(user.value) {
        nextCalls := nextCalls + 1;
      } else {
        reply := Some(NOT_ADMIN);
      }
    }
  }
}
