/** The accept/reject decision of the bearer-token middleware (internal/auth/middleware.go).
    Token signature checking and expiry belong to ParseJWT, which is a parameter here. */
module Auth {
  import opened Outcomes

  /** The claims a valid token carries. */
  datatype Claims = Claims(userId: string, email: string, nickname: string)

  datatype AuthError =
    | MissingToken             // no Authorization header
    | MalformedToken           // not of the form "Bearer <token>"
    | InvalidToken(reason: string)  // ParseJWT rejected the token, with its reason

  const StatusUnauthorized: int := 401

  /** Either the chain is aborted with a status and an error and nothing is stored in the
      request context, or the handler chain continues with the stored context keys. */
  datatype Decision = Abort(status: int, error: AuthError) | Next(context: map<string, string>)

  /** Go's strings.Join. */
  function Join(parts: seq<string>, sep: char): string
  {
    if |parts| == 0 then ""
    else if |parts| == 1 then parts[0]
    else parts[0] + [sep] + Join(parts[1..], sep)
  }

  /** Go's strings.Split with a one-character separator: the pieces between separators,
      so n separators always give n + 1 pieces (empty ones included). */
  function Split(s: string, sep: char): (parts: seq<string>)
    ensures |parts| >= 1
    ensures forall i :: 0 <= i < |parts| ==> sep !in parts[i]
    ensures Join(parts, sep) == s
    decreases |s|
  {
    if |s| == 0 then [""]
    else
      var rest := Split(s[1..], sep);
      if s[0] == sep then
        assert s == [sep] + s[1..];
        [""] + rest
      else
        var parts := [[s[0]] + rest[0]] + rest[1..];
        assert parts[1..] == rest[1..];
        assert s == [s[0]] + s[1..];
        parts
  }

  /** A string without the separator splits into itself. */
  lemma {:induction false} SplitWithoutSeparator(s: string, sep: char)
    requires sep !in s
    ensures Split(s, sep) == [s]
    decreases |s|
  {
    if |s| > 0 {
      SplitWithoutSeparator(s[1..], sep);
      assert [s[0]] + s[1..] == s;
    }
  }

  /** A separator-free prefix followed by the separator becomes the first piece. */
  lemma {:induction false} SplitAfterPrefix(x: string, sep: char, t: string)
    requires sep !in x
    ensures Split(x + [sep] + t, sep) == [x] + Split(t, sep)
    decreases |x|
  {
    var s := x + [sep] + t;
    if |x| == 0 {
      assert s[1..] == t;
    } else {
      assert s[1..] == x[1..] + [sep] + t;
      SplitAfterPrefix(x[1..], sep, t);
      assert [x[0]] + x[1..] == x;
    }
  }

  /** The header passes the format check exactly when it is "Bearer " followed by a
      token that contains no space. */
  lemma BearerFormat(header: string)
    ensures (|Split(header, ' ')| == 2 && Split(header, ' ')[0] == "Bearer")
        <==> (|header| >= 7 && header[..7] == "Bearer " && ' ' !in header[7..])
  {
    var parts := Split(header, ' ');
    if |parts| == 2 && parts[0] == "Bearer" {
      assert Join(parts[1..], ' ') == parts[1];
      assert header == "Bearer" + [' '] + parts[1];
      assert header[7..] == parts[1];
    }
    if |header| >= 7 && header[..7] == "Bearer " && ' ' !in header[7..] {
      var t := header[7..];
      assert header == "Bearer" + [' '] + t;
      SplitAfterPrefix("Bearer", ' ', t);
      SplitWithoutSeparator(t, ' ');
    }
  }

  /** The context keys set on success. */
  function ContextOf(c: Claims): map<string, string>
  {
    map["user_id" := c.userId, "user_email" := c.email, "user_nickname" := c.nickname]
  }

  /** AuthMiddleware's decision for one request. */
  function AuthMiddleware(header: string, parseJWT: string -> Result<Claims, string>): (d: Decision)
    ensures d.Abort? ==> d.status == StatusUnauthorized
    ensures header == "" ==> d == Abort(StatusUnauthorized, MissingToken)
  {
    if header == "" then Abort(StatusUnauthorized, MissingToken)
    else
      var parts := Split(header, ' ');
      if |parts| != 2 || parts[0] != "Bearer" then Abort(StatusUnauthorized, MalformedToken)
      else
        match parseJWT(parts[1])
        case Err(reason) => Abort(StatusUnauthorized, InvalidToken(reason))
        case Ok(claims) => Next(ContextOf(claims))
  }

  /** For "Bearer " + t with a space-free t, ParseJWT sees exactly t and alone decides. */
  lemma TokenPassedVerbatim(t: string, parseJWT: string -> Result<Claims, string>)
    requires ' ' !in t
    ensures AuthMiddleware("Bearer " + t, parseJWT) ==
      match parseJWT(t)
      case Err(reason) => Abort(StatusUnauthorized, InvalidToken(reason))
      case Ok(claims) => Next(ContextOf(claims))
  {
    var header := "Bearer " + t;
    assert header == "Bearer" + [' '] + t;
    SplitAfterPrefix("Bearer", ' ', t);
    SplitWithoutSeparator(t, ' ');
  }

  /** A request passes exactly when its header is "Bearer " + t, t has no space and
      ParseJWT accepts t; it then carries exactly the three claims. */
  lemma AcceptsExactlyWellFormedValidTokens(header: string, parseJWT: string -> Result<Claims, string>)
    ensures AuthMiddleware(header, parseJWT).Next? <==>
      |header| >= 7 && header[..7] == "Bearer " && ' ' !in header[7..] && parseJWT(header[7..]).Ok?
    ensures AuthMiddleware(header, parseJWT).Next? ==>
      AuthMiddleware(header, parseJWT).context == ContextOf(parseJWT(header[7..]).value) &&
      AuthMiddleware(header, parseJWT).context.Keys == {"user_id", "user_email", "user_nickname"}
  {
    BearerFormat(header);
    if |header| >= 7 && header[..7] == "Bearer " && ' ' !in header[7..] {
      assert header == "Bearer " + header[7..];
      TokenPassedVerbatim(header[7..], parseJWT);
    }
  }

  /** Headers that the format check rejects: a second space, a double space, the wrong case,
      the scheme alone. */
  lemma MalformedExamples(parseJWT: string -> Result<Claims, string>)
    ensures AuthMiddleware("Bearer a b", parseJWT) == Abort(StatusUnauthorized, MalformedToken)
    ensures AuthMiddleware("Bearer  a", parseJWT) == Abort(StatusUnauthorized, MalformedToken)
    ensures AuthMiddleware("bearer a", parseJWT) == Abort(StatusUnauthorized, MalformedToken)
    ensures AuthMiddleware("Bearer", parseJWT) == Abort(StatusUnauthorized, MalformedToken)
  {
    BearerFormat("Bearer a b");
    assert "Bearer a b"[7..] == "a b" && "a b"[1] == ' ';
    BearerFormat("Bearer  a");
    assert "Bearer  a"[7..][0] == ' ';
    BearerFormat("bearer a");
    assert "bearer a"[..7] != "Bearer " by { assert "bearer a"[0] != 'B'; }
    BearerFormat("Bearer");
  }
}
