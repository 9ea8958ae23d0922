/** The front end's request headers: a JSON content type by default, the
    caller's own headers over it, and the stored login token as a bearer
    credential over both. */
module Client {
  import opened Basics
  import opened Text
  import opened AuthMiddleware

  /** `if (token)`: a stored token counts only when it is non-empty. */
  predicate HasToken(token: Option<string>)
  {
    token.Some? && |token.value| > 0
  }

  /** `buildHeaders(customHeaders)` with the stored token passed in. The
      custom headers are spread after the default content type and the
      bearer credential is spread after both, so each later source wins. */
  function BuildHeaders(custom: map<string, string>, token: Option<string>): (h: map<string, string>)
    ensures h.Keys == custom.Keys + {"Content-Type"} + (if HasToken(token) then {"Authorization"} else {})
    ensures forall k :: k in custom && !(k == "Authorization" && HasToken(token)) ==> h[k] == custom[k]
    ensures "Content-Type" !in custom ==> h["Content-Type"] == "application/json"
    ensures HasToken(token) ==> h["Authorization"] == "Bearer " + token.value
  {
    var defaults := map["Content-Type" := "application/json"] + custom;
    if HasToken(token) then defaults["Authorization" := "Bearer " + token.value] else defaults
  }

  /** Without a token no credential is invented: an `Authorization` header
      is sent only when the caller supplied one, and then unchanged. */
  lemma NoTokenNoCredential(custom: map<string, string>, token: Option<string>)
    requires !HasToken(token)
    ensures "Authorization" in BuildHeaders(custom, token) <==> "Authorization" in custom
    ensures "Authorization" in custom ==> BuildHeaders(custom, token)["Authorization"] == custom["Authorization"]
  {
  }

  /** The middleware's `split(' ')[1]` recovers exactly the token this
      function put into the header, whatever the custom headers held. */
  lemma HeaderRoundTrip(custom: map<string, string>, token: string)
    requires |token| > 0 && ' ' !in token
    ensures BearerToken(Some(BuildHeaders(custom, Some(token))["Authorization"])) == Some(token)
  {
    BearerTokenOfWord("Bearer", token);
  }

  /** A token with a space in it does not survive the trip: the middleware
      reads only its first word. */
  lemma SpacedTokenTruncated(custom: map<string, string>, a: string, b: string)
    requires |a| > 0 && ' ' !in a && ' ' !in b
    ensures BearerToken(Some(BuildHeaders(custom, Some(a + " " + b))["Authorization"])) == Some(a)
  {
    var parts := ["Bearer", a, b];
    assert Join(parts, ' ') == "Bearer " + (a + " " + b) by {
      assert Join(parts[1..], ' ') == a + " " + b by {
        assert Join(parts[2..], ' ') == b;
      }
    }
    SplitJoin(parts, ' ');
  }
}
