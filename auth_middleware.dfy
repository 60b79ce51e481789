/** `authMiddleware` (backend/middleware/auth.js): the `Authorization`
    header must carry a bearer token that the token verifier accepts. The
    verifier (`jwt.verify` with the server's secret) is a partial function
    given to the model; `None` stands for the error it throws. */
module AuthMiddleware {
  import opened Wrappers
  import opened JsString

  const BearerPrefix := "Bearer "
  const MissingTokenMessage := "Authorization token missing"
  const InvalidTokenMessage := "Invalid or expired token"

  /** What the middleware does with a request: a 401 or a 403 reply, or
      passing the decoded identity on to the next handler. */
  datatype Decision<C> = Unauthorized(message: string) | Forbidden(message: string) | Proceed(user: C)

  /** `authHeader.split(" ")[1]`: the text after `"Bearer "` up to the next
      space or the end, possibly empty. */
  function TokenOf(header: string): (token: string)
    requires StartsWith(header, BearerPrefix)
    ensures !Contains(token, " ")
    ensures |BearerPrefix| + |token| <= |header|
    ensures header[|BearerPrefix|..|BearerPrefix| + |token|] == token
    ensures |BearerPrefix| + |token| == |header| || header[|BearerPrefix| + |token|] == ' '
  {
    BearerSplit(header);
    Split(header, " ")[1]
  }

  /** The first space of a bearer header is the one inside `"Bearer "`, so
      the second piece of the split is the head of the rest. */
  lemma BearerSplit(header: string)
    requires StartsWith(header, BearerPrefix)
    ensures |Split(header, " ")| >= 2
    ensures var rest := header[|BearerPrefix|..];
      && Split(header, " ")[1] == Split(rest, " ")[0]
      && (IndexOf(rest, " ").Some? ==> Split(rest, " ")[0] == rest[..IndexOf(rest, " ").value])
      && (IndexOf(rest, " ").None? ==> Split(rest, " ")[0] == rest)
  {
    assert header[..7] == BearerPrefix;
    assert OccursAt(header, " ", 6) by {
      assert header[6..7] == header[..7][6..7];
    }
    forall j | 0 <= j < 6
      ensures !OccursAt(header, " ", j)
    {
      assert header[j..j + 1] == [header[j]];
      assert header[j] == BearerPrefix[j];
    }
    IndexOfIs(header, " ", 6);
    SplitHead(header[7..], " ");
  }

  /** The decision for the header (`None` when absent) and the verifier. */
  function Decide<C>(header: Option<string>, verify: string -> Option<C>): (d: Decision<C>)
    ensures d.Unauthorized? <==> header.None? || !StartsWith(header.value, BearerPrefix)
    ensures d.Unauthorized? ==> d.message == MissingTokenMessage
    ensures d.Forbidden? <==>
      header.Some? && StartsWith(header.value, BearerPrefix) && verify(TokenOf(header.value)).None?
    ensures d.Forbidden? ==> d.message == InvalidTokenMessage
    ensures d.Proceed? ==> verify(TokenOf(header.value)) == Some(d.user)
  {
    if header.None? || !StartsWith(header.value, BearerPrefix) then
      Unauthorized(MissingTokenMessage)
    else
      match verify(TokenOf(header.value))
      case None => Forbidden(InvalidTokenMessage)
      case Some(decoded) => Proceed(decoded)
  }

  /** The scheme is case-sensitive and needs its space: `bearer x` or
      `Bearer` alone is turned away before the verifier is asked. */
  lemma SchemeIsExact<C>(token: string, verify: string -> Option<C>)
    ensures Decide(Some("bearer " + token), verify).Unauthorized?
    ensures Decide(Some("Bearer"), verify).Unauthorized?
  {
    assert ("bearer " + token)[0] == 'b';
  }

  /** A token that is one word and verifies lets the request through with
      its decoded identity. */
  lemma WellFormedHeaderProceeds<C>(token: string, verify: string -> Option<C>, user: C)
    requires !Contains(token, " ") && verify(token) == Some(user)
    ensures Decide(Some(BearerPrefix + token), verify) == Proceed(user)
  {
    var header := BearerPrefix + token;
    assert header[..7] == BearerPrefix;
    assert header[7..] == token;
    BearerSplit(header);
  }

  /** One request going through the middleware: `user` is `req.user`,
      `status` and `body` the reply written (if any), `nextCalls` how often
      `next()` was called. */
  class Exchange<C> {
    var user: Option<C>
    var status: Option<nat>
    var body: Option<string>
    var nextCalls: nat

    constructor ()
      ensures user.None? && status.None? && body.None? && nextCalls == 0
    {
      user := None;
      status := None;
      body := None;
      nextCalls := 0;
    }

    /** `authMiddleware`: exactly one of a reply and a call of `next()`;
        `req.user` is set only on the way through. */
    method Run(header: Option<string>, verify: string -> Option<C>)
      modifies this
      ensures var d := Decide(header, verify);
        && (d.Unauthorized? ==> status == Some(401) && body == Some(MissingTokenMessage))
        && (d.Forbidden? ==> status == Some(403) && body == Some(InvalidTokenMessage))
        && (d.Proceed? ==> user == Some(d.user) && status == old(status) && body == old(body))
        && (!d.Proceed? ==> user == old(user))
        && (nextCalls == old(nextCalls) + 1 <==> d.Proceed?)
        && (nextCalls == old(nextCalls) <==> !d.Proceed?)
    {
      if header.None? || !StartsWith(header.value, BearerPrefix) {
        status, body := Some(401), Some(MissingTokenMessage);
        return;
      }
      var token := TokenOf(header.value);
      match verify(token) {
        case None =>
          status, body := Some(403), Some(InvalidTokenMessage);
        case Some(decoded) =>
          user := Some(decoded);
          nextCalls := nextCalls + 1;
      }
    }
  }
}
