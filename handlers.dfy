// The single-request handlers of pkg/handlers: creating one short link
// (HandlePost, HandleJSONPost, CreateJSONShortURL), resolving one
// (HandleGet, GetURL) and listing a user's links (HandleGetUserURLs,
// GetUserURLs).  Only the decisions are modelled: a reply is a status and the
// one string the body carries; headers, cookies and JSON framing are not.
module Handlers {
  import opened Models
  import opened ShortId
  import opened Storage
  import opened Auth

  // ------------------------------------------------------------ whitespace

  /** unicode.IsSpace: the Latin-1 spaces and the other White_Space runes. */
  predicate IsSpace(c: char) {
    var n := c as int;
    (9 <= n <= 13) || n == 32 || n == 0x85 || n == 0xA0 || n == 0x1680
    || (0x2000 <= n <= 0x200A) || n == 0x2028 || n == 0x2029 || n == 0x202F
    || n == 0x205F || n == 0x3000
  }

  /** The first index at or after i that does not hold whitespace, or |s|. */
  function SkipLeading(s: string, i: int): (j: int)
    requires 0 <= i <= |s|
    ensures i <= j <= |s|
    ensures forall k :: i <= k < j ==> IsSpace(s[k])
    ensures j < |s| ==> !IsSpace(s[j])
    decreases |s| - i
  {
    if i < |s| && IsSpace(s[i]) then SkipLeading(s, i + 1) else i
  }

  /** Where s[lo..hi] ends once its trailing whitespace is dropped. */
  function SkipTrailing(s: string, lo: int, hi: int): (j: int)
    requires 0 <= lo <= hi <= |s|
    ensures lo <= j <= hi
    ensures forall k :: j <= k < hi ==> IsSpace(s[k])
    ensures j > lo ==> !IsSpace(s[j - 1])
    decreases hi - lo
  {
    if hi > lo && IsSpace(s[hi - 1]) then SkipTrailing(s, lo, hi - 1) else hi
  }

  /** strings.TrimSpace: what is left between the leading and the trailing
      whitespace.  It neither starts nor ends with whitespace, everything
      around it is whitespace, and it is empty exactly when the input is all
      whitespace. */
  function TrimSpace(s: string): (r: string)
    ensures |r| > 0 ==> !IsSpace(r[0]) && !IsSpace(r[|r| - 1])
    ensures r == "" <==> forall k :: 0 <= k < |s| ==> IsSpace(s[k])
    ensures var i := SkipLeading(s, 0);
      && i + |r| <= |s| && s[i..i + |r|] == r
      && (forall k :: 0 <= k < i ==> IsSpace(s[k]))
      && (forall k :: i + |r| <= k < |s| ==> IsSpace(s[k]))
  {
    var start := SkipLeading(s, 0);
    s[start..SkipTrailing(s, start, |s|)]
  }

  /** Trimming a trimmed string changes nothing. */
  lemma TrimSpaceIdempotent(s: string)
    ensures TrimSpace(TrimSpace(s)) == TrimSpace(s)
  {
    var r := TrimSpace(s);
    var i := SkipLeading(r, 0);
    if r != "" {
      assert i == 0;
      assert SkipTrailing(r, 0, |r|) == |r|;
    }
  }

  // ------------------------------------------------------- create one link

  /** A reply: its status and the one string a successful body carries (a
      short link or a URL); an error reply's body is "", since the message
      http.Error writes is not modelled.  Or the handler panicked and sent
      nothing. */
  datatype Reply = Reply(status: Status, body: string) | Panicked

  /** The request checks before anything is saved: either the reply they
      stop with, or the record to save. */
  datatype Prepared = Stop(reply: Reply) | Proceed(event: URLData)

  /** The create-one protocol up to the save: the caller must be identified,
      the URL read (500 otherwise) and non-empty (400); then a code is drawn
      (a failed draw panics), the record is built, and a finished context
      stops the request with 408. */
  function Prepare(caller: Caller, url: Option<string>, entropy: Entropy, uuid: string, ctxDone: bool): (p: Prepared)
    ensures caller.Refused? ==> p == Stop(Reply(caller.status, ""))
    ensures caller.Identified? && url.None? ==> p == Stop(Reply(InternalServerError, ""))
    // an empty URL is refused whatever the code draw and the context would give
    ensures caller.Identified? && url == Some("") ==> p == Stop(Reply(BadRequest, ""))
    ensures caller.Identified? && url.Some? && url.value != "" && entropy.EntropyFailed? ==> p == Stop(Panicked)
    ensures caller.Identified? && url.Some? && url.value != "" && entropy.Drawn? && ctxDone ==> p == Stop(Reply(RequestTimeout, ""))
    ensures p.Proceed? <==> caller.Identified? && url.Some? && url.value != "" && entropy.Drawn? && !ctxDone
    // the saved record: the URL, the fresh code, the caller, live, no correlation id
    ensures p.Proceed? ==>
      && p.event.originalURL == url.value && p.event.userUUID == caller.userID
      && p.event.uuid == uuid && !p.event.deletedFlag && p.event.correlationID == ""
      && |p.event.shortURL| == 8 && Decode(p.event.shortURL) == Some(entropy.bytes)
  {
    match caller
    case Refused(status) => Stop(Reply(status, ""))
    case Identified(userID, _) =>
      if url.None? then Stop(Reply(InternalServerError, ""))
      else if url.value == "" then Stop(Reply(BadRequest, ""))
      else match GenerateShortId(entropy)
        case None => Stop(Panicked)
        case Some(shortID) =>
          if ctxDone then Stop(Reply(RequestTimeout, ""))
          else Proceed(URLData(uuid, shortID, url.value, false, userID, ""))
  }

  /** A reply and the store state it leaves. */
  datatype Answered = Answered(reply: Reply, state: State)

  /** The create-one protocol from the save on: 201 with the new link, 409
      with the link of the code already held (and ExistingShortURL cleared),
      500 on any other error. */
  function Respond(mode: Mode, st: State, ev: URLData, base: string): (a: Answered)
    ensures a.reply.Reply?
    ensures var o := Save(mode, st, ev);
      && (a.reply.status == Created <==> o.err.None?)
      && (a.reply.status == Conflict <==> o.err == Some(AlreadyExists))
      && (a.reply.status == InternalServerError <==> o.err.Some? && o.err != Some(AlreadyExists))
      && (o.err.None? ==> a.reply.body == ShortLink(base, ev.shortURL))
      && (o.err == Some(AlreadyExists) ==> a.reply.body == ShortLink(base, o.code) && a.state.existing == "")
      && (a.reply.status == InternalServerError ==> a.reply.body == "")
      && a.state.(existing := o.state.existing) == o.state
      && (o.err != Some(AlreadyExists) ==> a.state == o.state)
    // nothing in this protocol leaves a stale code behind
    ensures st.existing == "" ==> a.state.existing == ""
    // outside database mode every save is a creation
    ensures mode != Database ==> a.reply == Reply(Created, ShortLink(base, ev.shortURL))
  {
    var o := Save(mode, st, ev);
    if o.err.None? then Answered(Reply(Created, ShortLink(base, ev.shortURL)), o.state)
    else if o.err == Some(AlreadyExists) then
      Answered(Reply(Conflict, ShortLink(base, o.code)), o.state.(existing := ""))
    else Answered(Reply(InternalServerError, ""), o.state)
  }

  /** Posting the same URL twice in database mode: the second request gets
      409 with the link created by the first, and the table keeps one row. */
  lemma PostTwiceConflicts(st: State, ev1: URLData, ev2: URLData, base: string)
    requires TableValid(st.table) && st.existing == ""
    requires ev1.shortURL != "" && ev2.originalURL == ev1.originalURL
    requires FindByOriginal(st.table, ev1.originalURL).None?
    requires Respond(Database, st, ev1, base).reply.status == Created
    ensures var a1 := Respond(Database, st, ev1, base);
      var a2 := Respond(Database, a1.state, ev2, base);
      a1.reply.body == ShortLink(base, ev1.shortURL)
      && a2.reply == Reply(Conflict, ShortLink(base, ev1.shortURL)) && a2.state.table == a1.state.table
  {
    var a1 := Respond(Database, st, ev1, base);
    assert a1.state == SaveDb(st, ev1).state.(existing := "");
    SaveTwiceDeduplicates(st, ev1, ev2);
  }

  /** Saving and answering, on the store: the shared tail of HandlePost and
      HandleJSONPost. */
  method Create(store: Store, ev: URLData, base: string) returns (reply: Reply)
    requires store.Valid()
    modifies store
    ensures store.Valid()
    ensures var a := Respond(store.mode, old(store.Snapshot()), ev, base);
      reply == a.reply && store.Snapshot() == a.state
  {
    var code, err, saved := store.SaveURL(ev);
    if err.Some? {
      if err.value == AlreadyExists {
        reply := Reply(Conflict, ShortLink(base, code));
        store.existingShortURL := "";
        return;
      }
      return Reply(InternalServerError, "");
    }
    reply := Reply(Created, ShortLink(base, ev.shortURL));
  }

  /** HandlePost: the body, trimmed, is the URL; a request stopped before the
      save leaves the store as it was. */
  method HandlePost(store: Store, cookie: CookieInput, issued: Option<string>, userIdOf: string -> string,
                    body: Option<string>, entropy: Entropy, uuid: string, ctxDone: bool, base: string)
    returns (reply: Reply)
    requires store.Valid()
    modifies store
    ensures store.Valid()
    ensures var url := if body.Some? then Some(TrimSpace(body.value)) else None;
      var p := Prepare(IdentifyCaller(cookie, issued, userIdOf), url, entropy, uuid, ctxDone);
      && (p.Stop? ==> reply == p.reply && store.Snapshot() == old(store.Snapshot()))
      && (p.Proceed? ==> var a := Respond(store.mode, old(store.Snapshot()), p.event, base);
                         reply == a.reply && store.Snapshot() == a.state)
  {
    var url := if body.Some? then Some(TrimSpace(body.value)) else None;
    var p := Prepare(IdentifyCaller(cookie, issued, userIdOf), url, entropy, uuid, ctxDone);
    if p.Stop? {
      return p.reply;
    }
    reply := Create(store, p.event, base);
  }

  /** HandleJSONPost: the decoded url field is the URL, untrimmed; a body
      that does not decode is 500. */
  method HandleJSONPost(store: Store, cookie: CookieInput, issued: Option<string>, userIdOf: string -> string,
                        decoded: Option<string>, entropy: Entropy, uuid: string, ctxDone: bool, base: string)
    returns (reply: Reply)
    requires store.Valid()
    modifies store
    ensures store.Valid()
    ensures var p := Prepare(IdentifyCaller(cookie, issued, userIdOf), decoded, entropy, uuid, ctxDone);
      && (p.Stop? ==> reply == p.reply && store.Snapshot() == old(store.Snapshot()))
      && (p.Proceed? ==> var a := Respond(store.mode, old(store.Snapshot()), p.event, base);
                         reply == a.reply && store.Snapshot() == a.state)
  {
    var p := Prepare(IdentifyCaller(cookie, issued, userIdOf), decoded, entropy, uuid, ctxDone);
    if p.Stop? {
      return p.reply;
    }
    reply := Create(store, p.event, base);
  }

  /** What SaveShortURL reported to CreateJSONShortURL (its body is not part
      of this model): a short URL, a duplicate with the code held, a
      timeout, or another failure. */
  datatype SaveShortURLResult = SavedAs(shortURL: string) | DuplicateOf(code: string) | TimedOut | SaveFailed

  /** The gRPC reply of CreateJSONShortURL: the short URL field, the error
      field and the status. */
  datatype CreateReply = CreateReply(shortUrl: string, error: string, status: Option<GrpcStatus>)

  /** CreateJSONShortURL: an empty URL is rejected before anything is saved;
      a duplicate returns the link of the held code together with an error. */
  function CreateJSONShortURL(originalURL: string, saved: SaveShortURLResult, base: string): (r: CreateReply)
    ensures originalURL == "" ==> r == CreateReply("", "Empty URL", Some(GrpcStatus(400, "Empty URL")))
    ensures originalURL != "" ==> (r.status.None? <==> saved.SavedAs?)
    ensures originalURL != "" && saved.SavedAs? ==> r.shortUrl == saved.shortURL && r.error == ""
    ensures originalURL != "" && saved.DuplicateOf? ==>
      r == CreateReply(ShortLink(base, saved.code), "URL already exists", Some(GrpcStatus(400, "URL already exists")))
    ensures originalURL != "" && saved.TimedOut? ==> r == CreateReply("", "Request timed out", Some(GrpcStatus(408, "Request timed out")))
    ensures originalURL != "" && saved.SaveFailed? ==> r == CreateReply("", "Failed to save URL", Some(GrpcStatus(500, "Failed to save URL")))
  {
    if originalURL == "" then CreateReply("", "Empty URL", Some(GrpcStatus(400, "Empty URL")))
    else match saved
      case SavedAs(shortURL) => CreateReply(shortURL, "", None)
      case DuplicateOf(code) =>
        CreateReply(ShortLink(base, code), "URL already exists", Some(GrpcStatus(400, "URL already exists")))
      case TimedOut => CreateReply("", "Request timed out", Some(GrpcStatus(408, "Request timed out")))
      case SaveFailed => CreateReply("", "Failed to save URL", Some(GrpcStatus(500, "Failed to save URL")))
  }

  // ------------------------------------------------------------- resolving

  /** HandleGet: 400 for an empty id before any lookup, then 404 when the
      code is unknown, 410 when it is deleted, and a 307 redirect to the
      original URL otherwise. */
  function HandleGet(mode: Mode, st: State, id: string): (reply: Reply)
    ensures id == "" ==> reply == Reply(BadRequest, "")
    ensures id != "" ==> var r := Resolve(mode, st, id);
      && (!r.found ==> reply == Reply(NotFound, ""))
      && (r.found && r.deleted ==> reply == Reply(Gone, ""))
      && (r.found && !r.deleted ==> reply == Reply(TemporaryRedirect, r.originalURL))
  {
    if id == "" then Reply(BadRequest, "")
    else
      var r := Resolve(mode, st, id);
      if !r.found then Reply(NotFound, "")
      else if r.deleted then Reply(Gone, "")
      else Reply(TemporaryRedirect, r.originalURL)
  }

  /** A link created by HandlePost redirects to its URL. */
  lemma CreatedThenRedirects(mode: Mode, st: State, ev: URLData, base: string)
    requires TableValid(st.table) && ev.shortURL != "" && !ev.deletedFlag
    requires mode == Database ==> FindByOriginal(st.table, ev.originalURL).None?
    requires Respond(mode, st, ev, base).reply.status == Created
    ensures HandleGet(mode, Respond(mode, st, ev, base).state, ev.shortURL) == Reply(TemporaryRedirect, ev.originalURL)
  {
    SaveThenResolve(mode, st, ev);
  }

  /** Once its owner deleted a link, HandleGet answers 410 for it. */
  lemma DeletedThenGone(st: State, code: string, userID: string)
    requires TableValid(st.table) && code != ""
    requires exists i :: 0 <= i < |st.table| && st.table[i].shortURL == code && st.table[i].userID == userID
    ensures HandleGet(Database, st.(table := MarkDeleted(st.table, code, userID)), code) == Reply(Gone, "")
  {
    var t := MarkDeleted(st.table, code, userID);
    var i :| 0 <= i < |st.table| && st.table[i].shortURL == code && st.table[i].userID == userID;
    assert t[i].shortURL == code && t[i].isDeleted;
    var r := Resolve(Database, st.(table := t), code);
    assert r.found;
    var j :| 0 <= j < |t| && t[j].shortURL == code && r.deleted == t[j].isDeleted;
    MarkDeletedKeepsUnique(st.table, code, userID);
    assert j == i;
  }

  /** The gRPC reply of GetURL: the URL field, the error field and the status. */
  datatype GetURLReply = GetURLReply(url: string, error: string, status: Option<GrpcStatus>)

  /** GetURL: like HandleGet without the empty-id check, and a deleted link
      reports code 404 as an unknown one does, with its own message. */
  function GetURL(mode: Mode, st: State, id: string): (r: GetURLReply)
    ensures var res := Resolve(mode, st, id);
      && (r.status.None? <==> res.found && !res.deleted)
      && (r.status.None? ==> r == GetURLReply(res.originalURL, "", None))
      && (!res.found ==> r == GetURLReply("", "URL not found: " + id, Some(GrpcStatus(404, "URL not found: " + id))))
      && (res.found && res.deleted ==> r == GetURLReply("", "URL deleted: " + id, Some(GrpcStatus(404, "URL deleted: " + id))))
  {
    var res := Resolve(mode, st, id);
    if !res.found then GetURLReply("", "URL not found: " + id, Some(GrpcStatus(404, "URL not found: " + id)))
    else if res.deleted then GetURLReply("", "URL deleted: " + id, Some(GrpcStatus(404, "URL deleted: " + id)))
    else GetURLReply(res.originalURL, "", None)
  }

  /** The gRPC and HTTP lookups agree on every non-empty id: a redirect
      exactly when GetURL returns a URL, and to that URL. */
  lemma GetURLAgreesWithHandleGet(mode: Mode, st: State, id: string)
    requires id != ""
    ensures HandleGet(mode, st, id).status == TemporaryRedirect <==> GetURL(mode, st, id).status.None?
    ensures GetURL(mode, st, id).status.None? ==> HandleGet(mode, st, id).body == GetURL(mode, st, id).url
  {
  }

  // --------------------------------------------------------------- listing

  /** The HTTP reply of HandleGetUserURLs: a status and the listing. */
  datatype ListReply = ListReply(status: Status, urls: seq<URLData>)

  /** HandleGetUserURLs: 401 when the authorization check fails, 204 for an
      empty listing, 200 with the listing otherwise.  The check is an input,
      so either version of CheckIsAuthorized can be plugged in. */
  method HandleGetUserURLs(store: Store, auth: AuthCheck, base: string) returns (reply: ListReply)
    ensures auth.NotAuthorized? ==> reply == ListReply(Unauthorized, [])
    ensures auth.Authorized? ==>
      var urls := if store.mode == Database then UserEntries(store.table, auth.userID, base) else [];
      reply == (if urls == [] then ListReply(NoContent, []) else ListReply(OK, urls))
  {
    if auth.NotAuthorized? {
      return ListReply(Unauthorized, []);
    }
    var urls := store.GetURLsByUser(auth.userID, base);
    if |urls| == 0 {
      return ListReply(NoContent, []);
    }
    reply := ListReply(OK, urls);
  }

  /** Under the check as written, a forged token lists every row stored
      without an owner (rows a caller created under an issued token that
      carried no user id). */
  lemma ForgedTokenListsOwnerless(t: seq<Row>, base: string)
    requires exists i :: 0 <= i < |t| && t[i].userID == ""
    ensures var auth := CheckIsAuthorizedAsWritten(TokenCookie("forged"), tok => "");
      auth == Authorized("") && |UserEntries(t, auth.userID, base)| > 0
    ensures CheckIsAuthorized(TokenCookie("forged"), tok => "") == NotAuthorized
  {
    var i :| 0 <= i < |t| && t[i].userID == "";
    assert i in OwnedIndices(t, "");
  }

  /** One listing entry as the gRPC message carries it. */
  datatype PbURLData = PbURLData(uuid: string, shortUrl: string, originalUrl: string,
                                 userUuid: string, correlationId: string, isDeleted: bool)

  function ToPb(u: URLData): PbURLData {
    PbURLData(u.uuid, u.shortURL, u.originalURL, u.userUUID, u.correlationID, u.deletedFlag)
  }

  function FromPb(p: PbURLData): URLData {
    URLData(p.uuid, p.shortUrl, p.originalUrl, p.isDeleted, p.userUuid, p.correlationId)
  }

  /** The conversion drops and changes nothing. */
  lemma PbRoundTrip(u: URLData, p: PbURLData)
    ensures FromPb(ToPb(u)) == u && ToPb(FromPb(p)) == p
  {
  }

  /** GetUserURLs: "No content" with code 404 for an empty listing, else the
      listing converted entry by entry, in order. */
  method GetUserURLs(store: Store, userID: string, base: string) returns (urls: seq<PbURLData>, status: Option<GrpcStatus>)
    ensures var listed := if store.mode == Database then UserEntries(store.table, userID, base) else [];
      listed == [] ==> urls == [] && status == Some(GrpcStatus(404, "No content"))
    ensures var listed := if store.mode == Database then UserEntries(store.table, userID, base) else [];
      listed != [] ==> status.None? && |urls| == |listed| && forall j :: 0 <= j < |urls| ==> FromPb(urls[j]) == listed[j]
  {
    var listed := store.GetURLsByUser(userID, base);
    if |listed| == 0 {
      return [], Some(GrpcStatus(404, "No content"));
    }
    urls := [];
    var i := 0;
    while i < |listed|
      invariant 0 <= i <= |listed| && |urls| == i
      invariant forall j :: 0 <= j < i ==> FromPb(urls[j]) == listed[j]
    {
      PbRoundTrip(listed[i], ToPb(listed[i]));
      urls := urls + [ToPb(listed[i])];
      i := i + 1;
    }
    status := None;
  }
}
