// The request gates of internal/middleware/auth.go: parsing the
// Authorization header into a bearer token, and the admin role gate. The
// effects on the request context (setting values, aborting) are the result
// each gate returns.

module Middleware {
  import opened Common
  import opened Auth

  /** strings.Split with a one-character separator: the pieces between the
      separators, an empty piece wherever two separators touch or one sits
      at either end, and [""] for the empty string. */
  function Split(s: string, sep: char): (parts: seq<string>)
    ensures |parts| >= 1
    ensures forall p :: p in parts ==> sep !in p
  {
    if s == [] then [""]
    else if s[0] == sep then [""] + Split(s[1..], sep)
    else
      var rest := Split(s[1..], sep);
      [[s[0]] + rest[0]] + rest[1..]
  }

  /** strings.Join, the inverse of Split. */
  function Join(parts: seq<string>, sep: char): (s: string)
    requires |parts| >= 1
  {
    if |parts| == 1 then parts[0] else parts[0] + [sep] + Join(parts[1..], sep)
  }

  /** Joining the pieces gives back the split string. */
  lemma {:induction false} JoinSplit(s: string, sep: char)
    ensures Join(Split(s, sep), sep) == s
  {
    if s != [] {
      JoinSplit(s[1..], sep);
      var rest := Split(s[1..], sep);
      if s[0] != sep {
        if |rest| == 1 {
          assert s == [s[0]] + s[1..];
        } else {
          calc {
            Join(Split(s, sep), sep);
            ([s[0]] + rest[0]) + [sep] + Join(rest[1..], sep);
            [s[0]] + (rest[0] + [sep] + Join(rest[1..], sep));
            [s[0]] + Join(rest, sep);
            s;
          }
        }
      }
    }
  }

  /** Splitting pieces that do not contain the separator gives them back. */
  lemma {:induction false} SplitJoin(parts: seq<string>, sep: char)
    requires |parts| >= 1
    requires forall p :: p in parts ==> sep !in p
    ensures Split(Join(parts, sep), sep) == parts
    decreases |parts|, |parts[0]|
  {
    var p := parts[0];
    if p == [] {
      if |parts| > 1 {
        assert Join(parts, sep) == [sep] + Join(parts[1..], sep);
        SplitJoin(parts[1..], sep);
        assert parts == [""] + parts[1..];
      }
    } else {
      var tail := [p[1..]] + parts[1..];
      assert sep !in p[1..] by {
        forall i | 0 <= i < |p| - 1 ensures p[1..][i] != sep {
          assert p[1..][i] == p[i + 1] && p[i + 1] in p;
        }
      }
      assert forall q :: q in parts[1..] ==> q in parts;
      SplitJoin(tail, sep);
      assert Join(parts, sep) == [p[0]] + Join(tail, sep) by {
        if |parts| > 1 {
          assert Join(tail, sep) == p[1..] + [sep] + Join(parts[1..], sep);
          assert p == [p[0]] + p[1..];
        } else {
          assert p == [p[0]] + p[1..];
        }
      }
      assert p[0] != sep by { assert p[0] in p; }
      assert Join(parts, sep)[1..] == Join(tail, sep);
      assert p == [p[0]] + p[1..];
      assert parts == [p] + parts[1..];
    }
  }

  /** The token of a header of the form "Bearer <token>" whose token has no
      space (an empty token included), None for any other header. */
  function BearerToken(header: string): (t: Option<string>)
    ensures t.Some? ==> header == "Bearer " + t.value && ' ' !in t.value
  {
    if |header| >= 7 && header[..7] == "Bearer " && ' ' !in header[7..] then Some(header[7..]) else None
  }

  /** The header passes the format check exactly when it is "Bearer", one
      space and a token without spaces; the token is then the second piece. */
  lemma {:induction false} BearerTokenIsSecondPiece(header: string)
    ensures (|Split(header, ' ')| == 2 && Split(header, ' ')[0] == "Bearer") <==> BearerToken(header).Some?
    ensures BearerToken(header).Some? ==> Split(header, ' ')[1] == BearerToken(header).value
  {
    var parts := Split(header, ' ');
    if |parts| == 2 && parts[0] == "Bearer" {
      JoinSplit(header, ' ');
      assert header == "Bearer" + [' '] + parts[1];
      assert header[..7] == "Bearer " && header[7..] == parts[1];
    }
    if BearerToken(header).Some? {
      var t := header[7..];
      assert header == Join(["Bearer", t], ' ');
      SplitJoin(["Bearer", t], ' ');
    }
  }

  /** What a gate does with the request: abort with a status and a message,
      or let it through with the identity it established. */
  datatype Outcome = Abort(status: int, message: string) | Proceed(claims: Claims)

  /** AuthMiddleware: an empty header, a header not of the form
      "Bearer <token>" and a token that fails validation are each a 401 with
      their own message; otherwise the token's claims identify the caller. */
  function Authenticate(header: string, validateToken: string -> Option<Claims>): (o: Outcome)
    ensures header == "" ==> o == Abort(401, "Authorization header required")
    ensures header != "" && BearerToken(header).None? ==> o == Abort(401, "Invalid authorization header format")
    ensures header != "" && BearerToken(header).Some? ==>
      o == match validateToken(BearerToken(header).value)
           case None => Abort(401, "Invalid or expired token")
           case Some(c) => Proceed(c)
    ensures o.Abort? ==> o.status == 401
  {
    BearerTokenIsSecondPiece(header);
    if header == "" then Abort(401, "Authorization header required")
    else
      var parts := Split(header, ' ');
      if |parts| != 2 || parts[0] != "Bearer" then Abort(401, "Invalid authorization header format")
      else
        match validateToken(parts[1])
        case None => Abort(401, "Invalid or expired token")
        case Some(claims) => Proceed(claims)
  }

  /** Lower-case scheme, two tokens and a doubled space are all refused
      before any token is validated. */
  lemma MalformedHeadersRefused(validateToken: string -> Option<Claims>)
    ensures Authenticate("bearer x", validateToken) == Abort(401, "Invalid authorization header format")
    ensures Authenticate("Bearer a b", validateToken) == Abort(401, "Invalid authorization header format")
    ensures Authenticate("Bearer  x", validateToken) == Abort(401, "Invalid authorization header format")
  {
    assert "bearer x"[..7] != "Bearer " by { assert "bearer x"[0] == 'b'; }
    assert ' ' in "Bearer a b"[7..] by { assert "Bearer a b"[7..][1] == ' '; }
    assert ' ' in "Bearer  x"[7..] by { assert "Bearer  x"[7..][0] == ' '; }
  }

  /** What the role gate does: refuse with a status and a message, or pass. */
  datatype Decision = Deny(status: int, message: string) | Allow

  /** AdminMiddleware over the role the authentication gate stored (None
      when it never ran): no role is a 401, any role but "admin" a 403. */
  function AdminGate(role: Option<string>): (d: Decision)
    ensures role.None? ==> d == Deny(401, "User not authenticated")
    ensures role.Some? && role.value != "admin" ==> d == Deny(403, "Admin access required")
    ensures d.Allow? <==> role == Some("admin")
  {
    match role
    case None => Deny(401, "User not authenticated")
    case Some(r) => if r != "admin" then Deny(403, "Admin access required") else Allow
  }

  /** Behind both gates, only a request whose valid token carries the role
      "admin" reaches an admin handler. */
  lemma AdminRouteNeedsAdminToken(header: string, validateToken: string -> Option<Claims>)
    requires Authenticate(header, validateToken).Proceed?
    requires AdminGate(Some(Authenticate(header, validateToken).claims.role)).Allow?
    ensures BearerToken(header).Some?
    ensures validateToken(BearerToken(header).value).Some?
    ensures validateToken(BearerToken(header).value).value.role == "admin"
  {
  }
}
