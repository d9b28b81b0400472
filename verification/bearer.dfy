/**
 * The `tokenValidation` rule of routes.js: the `Authorization` header must
 * be present, non-empty, start with `Bearer` and carry a non-empty second
 * space-separated field; that field is copied into `access_token`, or into
 * `refresh_token` for the refresh route. Both variants read `Authorization`.
 */
module Bearer {
  import opened Wrappers
  import opened Text

  const Scheme := "Bearer"

  /** The request headers the rule reads and writes. */
  datatype Headers = Headers(
    authorization: Option<string>,
    accessToken: Option<string>,
    refreshToken: Option<string>)

  /**
   * Why the header was refused; `refresh` selects the wording of the message
   * ("… your Refresh token" rather than "… your Authorization token").
   */
  datatype HeaderError =
    | Missing(refresh: bool)   // absent or empty: "Please provide your … token"
    | Invalid(refresh: bool)   // present but not `Bearer <token>`: "Invalid … token"

  /**
   * The custom check: the token is `value.split(' ')[1]`, accepted only when
   * the value starts with `Bearer` (no trailing space required) and that
   * field exists and is non-empty.
   */
  function Extract(value: string): (token: Option<string>)
    ensures token.Some? ==> StartsWith(value, Scheme) && token.value != "" && NoSpace(token.value)
  {
    var parts := Split(value);
    if !StartsWith(value, Scheme) || |parts| < 2 || parts[1] == "" then None
    else Some(parts[1])
  }

  /**
   * The whole rule for one request. On success the headers come back with the
   * token stored in the field `isRefresh` selects.
   */
  function TokenValidation(isRefresh: bool, h: Headers): (r: Result<Headers, HeaderError>)
    ensures r.Success? ==> h.authorization.Some? && r.value.authorization == h.authorization
    ensures r.Failure? ==> r.error.refresh == isRefresh
  {
    match h.authorization
    case None => Failure(Missing(isRefresh))
    case Some(value) =>
      if value == "" then Failure(Missing(isRefresh))
      else match Extract(value)
        case None => Failure(Invalid(isRefresh))
        case Some(token) =>
          if isRefresh then Success(h.(refreshToken := Some(token)))
          else Success(h.(accessToken := Some(token)))
  }

  /**
   * Soundness of `Extract`: an accepted value is a space-free word starting
   * with `Bearer`, one space, the token, and then nothing or a further space.
   */
  lemma ExtractShape(value: string, token: string) returns (head: string, tail: string)
    requires Extract(value) == Some(token)
    ensures value == head + " " + token + tail
    ensures StartsWith(head, Scheme) && NoSpace(head)
    ensures token != "" && NoSpace(token)
    ensures tail == [] || tail[0] == ' '
  {
    var parts := Split(value);
    JoinSplit(value);
    head := parts[0];
    tail := if |parts| == 2 then [] else " " + Join(parts[2..]);
    assert Join(parts) == parts[0] + " " + Join(parts[1..]);
    if |parts| > 2 {
      assert parts[1..][1..] == parts[2..];
      assert Join(parts[1..]) == parts[1] + " " + Join(parts[2..]);
    }
    assert value == head + " " + token + tail;
    assert value[|head|] == ' ';
    assert forall i :: 0 <= i < |Scheme| ==> value[i] == Scheme[i] != ' ';
    assert |head| >= |Scheme|;
    assert head[..|Scheme|] == value[..|Scheme|];
  }

  /** Completeness of `Extract`: every value of that shape yields its token. */
  lemma ExtractFromShape(head: string, token: string, tail: string)
    requires StartsWith(head, Scheme) && NoSpace(head)
    requires token != "" && NoSpace(token)
    requires tail == [] || tail[0] == ' '
    ensures Extract(head + " " + token + tail) == Some(token)
  {
    var value := head + " " + token + tail;
    assert value == head + (" " + (token + tail));
    SplitPrefix(head, " " + (token + tail));
    assert Split(" " + (token + tail)) == [""] + Split(token + tail) by {
      assert (" " + (token + tail))[1..] == token + tail;
    }
    SplitPrefix(token, tail);
    assert Split(tail)[0] == "" by {
      if tail != [] {
        assert Split(tail) == [""] + Split(tail[1..]);
      }
    }
    assert token + "" == token;
    assert value[..|Scheme|] == head[..|Scheme|];
  }

  /** `Bearer <token>` and `Bearerx <token>` both yield the token, and so does a header with a further field. */
  lemma ExtractAcceptsExamples()
    ensures Extract("Bearer abc") == Some("abc")
    ensures Extract("Bearerx abc") == Some("abc")
    ensures Extract("Bearer abc def") == Some("abc")
  {
    ExtractFromShape("Bearer", "abc", "");
    assert "Bearer" + " " + "abc" + "" == "Bearer abc";
    ExtractFromShape("Bearerx", "abc", "");
    assert "Bearerx" + " " + "abc" + "" == "Bearerx abc";
    ExtractFromShape("Bearer", "abc", " def");
    assert "Bearer" + " " + "abc" + " def" == "Bearer abc def";
  }

  /** Two spaces leave an empty second field, so `Bearer  abc` is refused. */
  lemma ExtractRejectsDoubleSpace()
    ensures Extract("Bearer  abc") == None
  {
    var rest := "  abc";
    assert rest[0] == ' ' && rest[1..] == " abc";
    assert Split(rest)[1..] == Split(" abc");
    assert " abc"[0] == ' ' && Split(" abc")[0] == "";
    SplitPrefix("Bearer", rest);
    assert "Bearer" + rest == "Bearer  abc";
    assert Split("Bearer  abc")[1] == "";
  }

  /** A bare `Bearer` has no second field, and the scheme test is case-sensitive. */
  lemma ExtractRejectsExamples()
    ensures Extract("Bearer") == None
    ensures Extract("bearer abc") == None
  {
    SplitPrefix("Bearer", "");
    assert "Bearer" + "" == "Bearer";
    assert |Split("Bearer")| == 1;
    assert "bearer abc"[0] != Scheme[0];
  }

  /**
   * A header passes exactly when it is present and `Extract` accepts it: the
   * separate emptiness check never decides anything on its own, and the rule
   * is the same for the access and the refresh variant.
   */
  lemma AcceptedIff(isRefresh: bool, h: Headers)
    ensures TokenValidation(isRefresh, h).Success?
        <==> h.authorization.Some? && Extract(h.authorization.value).Some?
  {
    if h.authorization == Some("") {
      assert !StartsWith("", Scheme);
    }
  }

  /**
   * What an accepted header stores: exactly the extracted token, in
   * `refresh_token` for the refresh route and `access_token` otherwise;
   * the other token field is left as it was.
   */
  lemma AcceptedStoresToken(isRefresh: bool, h: Headers)
    requires TokenValidation(isRefresh, h).Success?
    ensures var h' := TokenValidation(isRefresh, h).value;
      var token := Split(h.authorization.value)[1];
      && StartsWith(h.authorization.value, Scheme) && token != ""
      && (isRefresh ==> h'.refreshToken == Some(token) && h'.accessToken == h.accessToken)
      && (!isRefresh ==> h'.accessToken == Some(token) && h'.refreshToken == h.refreshToken)
  {
  }

  /** A missing or empty `Authorization` header is refused, on both variants. */
  lemma MissingRejected(isRefresh: bool, h: Headers)
    requires h.authorization == None || h.authorization == Some("")
    ensures TokenValidation(isRefresh, h) == Failure(Missing(isRefresh))
  {
  }

  /**
   * The refresh variant reads `Authorization` like the access variant: its
   * verdict does not depend on any token field already present.
   */
  lemma RefreshReadsAuthorization(h: Headers, access: Option<string>, refresh: Option<string>)
    ensures TokenValidation(true, h).Success?
        == TokenValidation(false, h.(accessToken := access, refreshToken := refresh)).Success?
  {
  }
}
