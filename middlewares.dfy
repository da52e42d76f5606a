// The gRPC authentication gate of internal/middlewares/middlewares.go:
// requiresAuth decides by prefix whether a method is protected, and
// AuthInterceptor lets a call through, with or without a user id, or refuses
// it as Unauthenticated.  Token parsing is the parameter userIdOf, as in the
// module Auth.
module Middlewares {
  import opened Models

  /** strings.HasPrefix. */
  predicate HasPrefix(s: string, prefix: string) {
    |prefix| <= |s| && s[..|prefix|] == prefix
  }

  /** requiresAuth: whether some protected entry is a prefix of the full
      method name. */
  function RequiresAuth(fullMethod: string, protected: seq<string>): (r: bool)
    ensures r <==> exists i :: 0 <= i < |protected| && HasPrefix(fullMethod, protected[i])
    decreases |protected|
  {
    if |protected| == 0 then false
    else if HasPrefix(fullMethod, protected[0]) then true
    else RequiresAuth(fullMethod, protected[1..])
  }

  /** An empty entry protects every method; an empty list protects none. */
  lemma RequiresAuthEdges(fullMethod: string, protected: seq<string>)
    ensures "" in protected ==> RequiresAuth(fullMethod, protected)
    ensures RequiresAuth(fullMethod, []) == false
  {
    if "" in protected {
      var i :| 0 <= i < |protected| && protected[i] == "";
      assert HasPrefix(fullMethod, protected[i]);
    }
  }

  /** More protected entries never unprotect a method. */
  lemma {:induction false} RequiresAuthMonotone(fullMethod: string, protected: seq<string>, more: seq<string>)
    ensures RequiresAuth(fullMethod, protected) ==> RequiresAuth(fullMethod, protected + more)
    ensures RequiresAuth(fullMethod, more) ==> RequiresAuth(fullMethod, protected + more)
  {
    if RequiresAuth(fullMethod, protected) {
      var i :| 0 <= i < |protected| && HasPrefix(fullMethod, protected[i]);
      assert (protected + more)[i] == protected[i];
    }
    if RequiresAuth(fullMethod, more) {
      var i :| 0 <= i < |more| && HasPrefix(fullMethod, more[i]);
      assert (protected + more)[|protected| + i] == more[i];
    }
  }

  /** The token of a call: the first "token" metadata value, or "" when the
      call carries no metadata or no such value. */
  function TokenOf(md: Option<seq<string>>): (token: string)
    ensures md.Some? && |md.value| > 0 ==> token == md.value[0]
    ensures md.None? || md.value == [] ==> token == ""
  {
    if md.Some? && |md.value| > 0 then md.value[0] else ""
  }

  /** What the interceptor does with a call. */
  datatype Interception =
    | CallHandler(userID: Option<string>)   // the handler runs, with the user id in the context if one was checked
    | Unauthenticated(message: string)      // codes.Unauthenticated with that message

  /** AuthInterceptor: unprotected methods run without looking at the token;
      protected ones need a non-empty token ("missing token") that carries a
      user id ("invalid token"), and then run with that user id. */
  function AuthInterceptor(protected: seq<string>, fullMethod: string, md: Option<seq<string>>,
                           userIdOf: string -> string): (r: Interception)
    ensures !RequiresAuth(fullMethod, protected) ==> r == CallHandler(None)
    ensures RequiresAuth(fullMethod, protected) && TokenOf(md) == "" ==> r == Unauthenticated("missing token")
    ensures RequiresAuth(fullMethod, protected) && TokenOf(md) != "" && userIdOf(TokenOf(md)) == ""
            ==> r == Unauthenticated("invalid token")
    ensures r.CallHandler? && RequiresAuth(fullMethod, protected)
            ==> r.userID == Some(userIdOf(TokenOf(md))) && userIdOf(TokenOf(md)) != ""
  {
    if !RequiresAuth(fullMethod, protected) then CallHandler(None)
    else
      var token := TokenOf(md);
      if |token| == 0 then Unauthenticated("missing token")
      else
        var userID := userIdOf(token);
        if userID == "" then Unauthenticated("invalid token")
        else CallHandler(Some(userID))
  }

  /** For an unprotected method, neither the metadata nor the token parser
      makes any difference. */
  lemma UnprotectedIgnoresToken(protected: seq<string>, fullMethod: string,
                                md1: Option<seq<string>>, md2: Option<seq<string>>,
                                f1: string -> string, f2: string -> string)
    requires !RequiresAuth(fullMethod, protected)
    ensures AuthInterceptor(protected, fullMethod, md1, f1) == AuthInterceptor(protected, fullMethod, md2, f2)
  {
  }

  /** A protected call reaches its handler exactly when its first token
      carries a user id. */
  lemma ProtectedNeedsUser(protected: seq<string>, fullMethod: string, md: Option<seq<string>>, userIdOf: string -> string)
    requires RequiresAuth(fullMethod, protected)
    ensures AuthInterceptor(protected, fullMethod, md, userIdOf).CallHandler?
            <==> TokenOf(md) != "" && userIdOf(TokenOf(md)) != ""
  {
  }
}
