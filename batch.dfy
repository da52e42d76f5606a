// The batch pipelines of pkg/handlers/batchPost.go and batchDelete.go.  The
// source runs a generator goroutine, five workers and a fan-in; here the
// pipeline is one loop over the items in the order the fan-in delivered them,
// that order being a permutation parameter.
module Batch {
  import opened Models
  import opened ShortId
  import opened Storage
  import opened Auth

  // ---------------------------------------------------------- permutations

  /** 0, 1, ..., n-1. */
  function Range(n: nat): (r: seq<int>)
    ensures |r| == n && forall k :: 0 <= k < n ==> r[k] == k
  {
    if n == 0 then [] else Range(n - 1) + [n - 1]
  }

  /** An arrival order of n items: every index below n exactly once. */
  predicate IsPermutation(order: seq<int>, n: nat) {
    && |order| == n
    && (forall k :: 0 <= k < |order| ==> 0 <= order[k] < n)
    && multiset(order) == multiset(Range(n))
  }

  /** The items in the given order of indices. */
  function Pick<T>(xs: seq<T>, order: seq<int>): (ys: seq<T>)
    requires forall k :: 0 <= k < |order| ==> 0 <= order[k] < |xs|
    ensures |ys| == |order| && forall k :: 0 <= k < |order| ==> ys[k] == xs[order[k]]
  {
    seq(|order|, k requires 0 <= k < |order| => xs[order[k]])
  }

  lemma PickAppend<T>(xs: seq<T>, a: seq<int>, b: seq<int>)
    requires forall k :: 0 <= k < |a| ==> 0 <= a[k] < |xs|
    requires forall k :: 0 <= k < |b| ==> 0 <= b[k] < |xs|
    ensures Pick(xs, a + b) == Pick(xs, a) + Pick(xs, b)
  {
  }

  /** Dropping position j of a sequence drops one copy of its element. */
  lemma MultisetRemove<T>(s: seq<T>, j: nat)
    requires j < |s|
    ensures multiset(s[..j] + s[j + 1..]) == multiset(s) - multiset{s[j]}
  {
    assert s == s[..j] + [s[j]] + s[j + 1..];
  }

  /** The order with position j dropped: indices before j stay, later ones
      move down by one. */
  lemma DropBounds(b: seq<int>, j: nat, n: nat)
    requires forall k :: 0 <= k < |b| ==> 0 <= b[k] < n
    requires j < |b|
    ensures var c := b[..j] + b[j + 1..];
      |c| == |b| - 1 && forall k :: 0 <= k < |c| ==> c[k] == (if k < j then b[k] else b[k + 1]) && 0 <= c[k] < n
  {
  }

  /** Picking with position j dropped picks one copy fewer of its item. */
  lemma PickRemove<T>(xs: seq<T>, b: seq<int>, j: nat)
    requires forall k :: 0 <= k < |b| ==> 0 <= b[k] < |xs|
    requires j < |b|
    ensures multiset(Pick(xs, b)) == multiset(Pick(xs, b[..j] + b[j + 1..])) + multiset{xs[b[j]]}
  {
    var c := b[..j] + b[j + 1..];
    DropBounds(b, j, |xs|);
    var p := Pick(xs, b);
    var q := Pick(xs, c);
    assert p == q[..j] + [xs[b[j]]] + q[j..];
    assert q == q[..j] + q[j..];
  }

  /** Picking by a non-empty order: its first item, then the rest. */
  lemma PickCons<T>(xs: seq<T>, a: seq<int>)
    requires forall k :: 0 <= k < |a| ==> 0 <= a[k] < |xs|
    requires |a| > 0
    ensures Pick(xs, a) == [xs[a[0]]] + Pick(xs, a[1..])
  {
  }

  /** Dropping the same index from two orders that hold the same indices
      leaves two orders that still do. */
  lemma DropBoth(a: seq<int>, b: seq<int>, j: nat)
    requires |a| > 0 && j < |b| && b[j] == a[0]
    requires multiset(a) == multiset(b)
    ensures multiset(a[1..]) == multiset(b[..j] + b[j + 1..])
  {
    assert a[..0] + a[1..] == a[1..];
    MultisetRemove(a, 0);
    MultisetRemove(b, j);
  }

  /** The inductive step of PickMultiset: matching the first index of one
      order with the same index in the other. */
  lemma PickStep<T>(xs: seq<T>, a: seq<int>, b: seq<int>, j: nat)
    requires forall k :: 0 <= k < |a| ==> 0 <= a[k] < |xs|
    requires forall k :: 0 <= k < |b| ==> 0 <= b[k] < |xs|
    requires |a| > 0 && j < |b| && b[j] == a[0]
    requires multiset(Pick(xs, a[1..])) == multiset(Pick(xs, b[..j] + b[j + 1..]))
    ensures multiset(Pick(xs, a)) == multiset(Pick(xs, b))
  {
    PickCons(xs, a);
    PickRemove(xs, b, j);
  }

  /** Picking with two orders that hold the same indices picks the same
      multiset of items. */
  lemma {:induction false} PickMultiset<T>(xs: seq<T>, a: seq<int>, b: seq<int>)
    requires forall k :: 0 <= k < |a| ==> 0 <= a[k] < |xs|
    requires forall k :: 0 <= k < |b| ==> 0 <= b[k] < |xs|
    requires multiset(a) == multiset(b)
    ensures multiset(Pick(xs, a)) == multiset(Pick(xs, b))
    decreases |a|
  {
    if |a| == 0 {
      assert |b| == |multiset(b)| == 0;
    } else {
      assert a[0] in multiset(b) by { assert a[0] in multiset(a); }
      var j :| 0 <= j < |b| && b[j] == a[0];
      DropBoth(a, b, j);
      DropBounds(b, j, |xs|);
      PickMultiset(xs, a[1..], b[..j] + b[j + 1..]);
      PickStep(xs, a, b, j);
    }
  }

  /** A permuted sequence holds the same items. */
  lemma PermutedMultiset<T>(xs: seq<T>, order: seq<int>)
    requires IsPermutation(order, |xs|)
    ensures multiset(Pick(xs, order)) == multiset(xs)
  {
    PickMultiset(xs, order, Range(|xs|));
    assert Pick(xs, Range(|xs|)) == xs;
  }

  // ---------------------------------------------------------- batch create

  /** The record generatorBatchPost builds for one request item. */
  function BatchEvent(req: BatchRequest, userID: string, bytes: Block6, uuid: string): (ev: URLData)
    ensures ev.originalURL == req.originalURL && ev.correlationID == req.correlationID
    ensures ev.userUUID == userID && !ev.deletedFlag && ev.uuid == uuid
    ensures |ev.shortURL| == 8 && Decode(ev.shortURL) == Some(bytes)
  {
    var code := GenerateShortId(Drawn(bytes));
    URLData(uuid, code.value, req.originalURL, false, userID, req.correlationID)
  }

  /** generatorBatchPost: one record per request item, in request order. */
  method GeneratorBatchPost(reqs: seq<BatchRequest>, userID: string, draws: seq<Block6>, uuids: seq<string>)
    returns (evs: seq<URLData>)
    requires |draws| == |reqs| && |uuids| == |reqs|
    ensures |evs| == |reqs|
    ensures forall i :: 0 <= i < |reqs| ==> evs[i] == BatchEvent(reqs[i], userID, draws[i], uuids[i])
  {
    ghost var spec := seq(|reqs|, k requires 0 <= k < |reqs| => BatchEvent(reqs[k], userID, draws[k], uuids[k]));
    evs := [];
    var i := 0;
    while i < |reqs|
      invariant 0 <= i <= |reqs| && evs == spec[..i]
    {
      var ev := BatchEvent(reqs[i], userID, draws[i], uuids[i]);
      PrefixSnoc(spec, i);
      evs := evs + [ev];
      i := i + 1;
    }
    assert spec[..i] == spec;
  }

  /** postURL's answer for one item: the correlation id always; the link of
      the saved code on success, of the held code on a duplicate, nothing on
      any other error. */
  function ItemResponse(correlationID: string, code: string, err: Option<StoreError>, saved: URLData, base: string)
    : (r: BatchResponse)
    ensures r.correlationID == correlationID
    ensures err.None? ==> r.shortURL == ShortLink(base, saved.shortURL)
    ensures err == Some(AlreadyExists) ==> r.shortURL == ShortLink(base, code)
    ensures err.Some? && err != Some(AlreadyExists) ==> r.shortURL == ""
  {
    var r := BatchResponse(correlationID, "");
    if err.None? then r.(shortURL := ShortLink(base, saved.shortURL))
    else if err.value == AlreadyExists then r.(shortURL := ShortLink(base, code))
    else r
  }

  /** The responses of a batch and the store state it leaves. */
  datatype BatchRun = BatchRun(responses: seq<BatchResponse>, state: State)

  /** Answers for all but the last record, then one for the last: every
      record is answered with its own correlation id. */
  lemma AnswerSnoc(prev: seq<BatchResponse>, evs: seq<URLData>, r: BatchResponse)
    requires |evs| > 0 && |prev| == |evs| - 1
    requires forall k :: 0 <= k < |prev| ==> prev[k].correlationID == evs[..|evs| - 1][k].correlationID
    requires r.correlationID == evs[|evs| - 1].correlationID
    ensures forall k :: 0 <= k < |evs| ==> (prev + [r])[k].correlationID == evs[k].correlationID
  {
  }

  /** The records saved one after the other, as the workers do: SaveURL on
      each, ExistingShortURL never cleared in between. */
  function RunBatch(mode: Mode, st: State, evs: seq<URLData>, base: string): (run: BatchRun)
    ensures |run.responses| == |evs|
    ensures forall k :: 0 <= k < |evs| ==> run.responses[k].correlationID == evs[k].correlationID
    ensures TableValid(st.table) ==> TableValid(run.state.table)
    decreases |evs|
  {
    if |evs| == 0 then BatchRun([], st)
    else
      var prev := RunBatch(mode, st, evs[..|evs| - 1], base);
      var ev := evs[|evs| - 1];
      var o := Save(mode, prev.state, ev);
      var r := ItemResponse(ev.correlationID, o.code, o.err, o.event, base);
      AnswerSnoc(prev.responses, evs, r);
      BatchRun(prev.responses + [r], o.state)
  }

  lemma PrefixSnoc<T>(s: seq<T>, i: int)
    requires 0 <= i < |s|
    ensures s[..i + 1] == s[..i] + [s[i]]
  {
  }

  /** One more record: one more response, one more save. */
  lemma RunBatchSnoc(mode: Mode, st: State, evs: seq<URLData>, ev: URLData, base: string)
    ensures var prev := RunBatch(mode, st, evs, base);
      var o := Save(mode, prev.state, ev);
      RunBatch(mode, st, evs + [ev], base)
        == BatchRun(prev.responses + [ItemResponse(ev.correlationID, o.code, o.err, o.event, base)], o.state)
  {
    assert (evs + [ev])[..|evs|] == evs;
  }

  /** Fresh links for all but the last record, then one for the last: a
      fresh link for every record. */
  lemma FreshLinkSnoc(prev: seq<BatchResponse>, evs: seq<URLData>, r: BatchResponse, base: string)
    requires |evs| > 0 && |prev| == |evs| - 1
    requires forall k :: 0 <= k < |prev| ==>
      prev[k] == BatchResponse(evs[..|evs| - 1][k].correlationID, ShortLink(base, evs[..|evs| - 1][k].shortURL))
    requires r == BatchResponse(evs[|evs| - 1].correlationID, ShortLink(base, evs[|evs| - 1].shortURL))
    ensures forall k :: 0 <= k < |evs| ==> (prev + [r])[k] == BatchResponse(evs[k].correlationID, ShortLink(base, evs[k].shortURL))
  {
  }

  /** Outside database mode every item is answered with its own fresh link. */
  lemma {:induction false} RunBatchOutsideDatabase(mode: Mode, st: State, evs: seq<URLData>, base: string)
    requires mode != Database
    ensures forall k :: 0 <= k < |evs| ==>
      RunBatch(mode, st, evs, base).responses[k] == BatchResponse(evs[k].correlationID, ShortLink(base, evs[k].shortURL))
    decreases |evs|
  {
    if |evs| > 0 {
      var init, ev := evs[..|evs| - 1], evs[|evs| - 1];
      RunBatchOutsideDatabase(mode, st, init, base);
      var prev := RunBatch(mode, st, init, base);
      var o := Save(mode, prev.state, ev);
      var r := ItemResponse(ev.correlationID, o.code, o.err, o.event, base);
      assert RunBatch(mode, st, evs, base).responses == prev.responses + [r];
      FreshLinkSnoc(prev.responses, evs, r, base);
    }
  }

  function CorrelationIds(rs: seq<BatchResponse>): (ids: seq<string>)
    ensures |ids| == |rs| && forall k :: 0 <= k < |rs| ==> ids[k] == rs[k].correlationID
  {
    if |rs| == 0 then [] else [rs[0].correlationID] + CorrelationIds(rs[1..])
  }

  function EventIds(evs: seq<URLData>): (ids: seq<string>)
    ensures |ids| == |evs| && forall k :: 0 <= k < |evs| ==> ids[k] == evs[k].correlationID
  {
    if |evs| == 0 then [] else [evs[0].correlationID] + EventIds(evs[1..])
  }

  /** The five postURL workers, run one record after another in the order
      they took the records: each record is saved and answered, so the
      answers and the new state are those of RunBatch over that order. */
  method PostURL(store: Store, arrived: seq<URLData>, base: string) returns (answers: seq<BatchResponse>)
    requires store.Valid()
    modifies store
    ensures store.Valid()
    ensures var run := RunBatch(store.mode, old(store.Snapshot()), arrived, base);
      answers == run.responses && store.Snapshot() == run.state
  {
    ghost var st0 := store.Snapshot();
    answers := [];
    var i := 0;
    while i < |arrived|
      invariant 0 <= i <= |arrived|
      invariant store.Valid()
      invariant answers == RunBatch(store.mode, st0, arrived[..i], base).responses
      invariant store.Snapshot() == RunBatch(store.mode, st0, arrived[..i], base).state
    {
      var ev := arrived[i];
      var code, err, saved := store.SaveURL(ev);
      answers := answers + [ItemResponse(ev.correlationID, code, err, saved, base)];
      PrefixSnoc(arrived, i);
      RunBatchSnoc(store.mode, st0, arrived[..i], ev, base);
      i := i + 1;
    }
    assert arrived[..i] == arrived;
  }

  /** The collecting loop of processBatchPost: the answers appended in the
      order the fan-in delivers them. */
  method Collect(answers: seq<BatchResponse>, delivery: seq<int>) returns (res: seq<BatchResponse>)
    requires forall k :: 0 <= k < |delivery| ==> 0 <= delivery[k] < |answers|
    ensures res == Pick(answers, delivery)
  {
    res := [];
    var j := 0;
    while j < |delivery|
      invariant 0 <= j <= |delivery| && |res| == j
      invariant forall k :: 0 <= k < j ==> res[k] == answers[delivery[k]]
    {
      res := res + [answers[delivery[j]]];
      j := j + 1;
    }
  }

  /** processBatchPost: the workers save the records in the order they take
      them (order), and the fan-in hands their answers to the collecting loop
      in an order of its own (delivery).  Every record yields exactly one
      response, so the responses answer the request's correlation ids, each
      as often as it was sent. */
  method ProcessBatchPost(store: Store, evs: seq<URLData>, order: seq<int>, delivery: seq<int>, base: string)
    returns (res: seq<BatchResponse>)
    requires store.Valid() && IsPermutation(order, |evs|) && IsPermutation(delivery, |evs|)
    modifies store
    ensures store.Valid()
    ensures var run := RunBatch(store.mode, old(store.Snapshot()), Pick(evs, order), base);
      res == Pick(run.responses, delivery) && store.Snapshot() == run.state
    ensures |res| == |evs|
    ensures multiset(CorrelationIds(res)) == multiset(EventIds(evs))
  {
    ghost var st0 := store.Snapshot();
    var answers := PostURL(store, Pick(evs, order), base);
    res := Collect(answers, delivery);
    ResponsesCoverIds(store.mode, st0, evs, order, delivery, base);
  }

  /** Answers that line up with the records in the workers' order, handed
      on in any delivery order, carry each correlation id as often as the
      records do. */
  lemma DeliveredIds(answers: seq<BatchResponse>, evs: seq<URLData>, order: seq<int>, delivery: seq<int>)
    requires IsPermutation(order, |evs|) && IsPermutation(delivery, |evs|)
    requires |answers| == |evs| && forall k :: 0 <= k < |evs| ==> answers[k].correlationID == evs[order[k]].correlationID
    ensures multiset(CorrelationIds(Pick(answers, delivery))) == multiset(EventIds(evs))
  {
    assert CorrelationIds(answers) == Pick(EventIds(evs), order);
    PermutedMultiset(EventIds(evs), order);
    assert CorrelationIds(Pick(answers, delivery)) == Pick(CorrelationIds(answers), delivery);
    PermutedMultiset(CorrelationIds(answers), delivery);
  }

  /** Whatever order the workers save in and whatever order the fan-in
      delivers in, the responses carry the request's correlation ids, each as
      often as it was sent. */
  lemma ResponsesCoverIds(mode: Mode, st: State, evs: seq<URLData>, order: seq<int>, delivery: seq<int>, base: string)
    requires IsPermutation(order, |evs|) && IsPermutation(delivery, |evs|)
    ensures var run := RunBatch(mode, st, Pick(evs, order), base);
      multiset(CorrelationIds(Pick(run.responses, delivery))) == multiset(EventIds(evs))
  {
    DeliveredIds(RunBatch(mode, st, Pick(evs, order), base).responses, evs, order, delivery);
  }

  /** What the request body gave: a read failure, JSON that does not parse,
      or the list of items. */
  datatype BatchBody = BodyReadFailed | BodyInvalid | BodyParsed(reqs: seq<BatchRequest>)

  /** HandleBatchPost: the cookie ladder, 500 on a read failure, 400 on bad
      JSON or an empty batch (nothing is processed then), else 201 with one
      response per item. */
  method HandleBatchPost(store: Store, cookie: CookieInput, issued: Option<string>, userIdOf: string -> string,
                         body: BatchBody, draws: seq<Block6>, uuids: seq<string>, order: seq<int>, delivery: seq<int>, base: string)
    returns (status: Status, res: seq<BatchResponse>)
    requires store.Valid()
    requires body.BodyParsed? ==> |draws| == |body.reqs| && |uuids| == |body.reqs|
    requires body.BodyParsed? ==> IsPermutation(order, |body.reqs|) && IsPermutation(delivery, |body.reqs|)
    modifies store
    ensures store.Valid()
    ensures var caller := IdentifyCaller(cookie, issued, userIdOf);
      && (caller.Refused? ==> status == caller.status && res == [] && store.Snapshot() == old(store.Snapshot()))
      && (caller.Identified? && body.BodyReadFailed? ==> status == InternalServerError && res == [] && store.Snapshot() == old(store.Snapshot()))
      && (caller.Identified? && body.BodyInvalid? ==> status == BadRequest && res == [] && store.Snapshot() == old(store.Snapshot()))
      && (caller.Identified? && body == BodyParsed([]) ==> status == BadRequest && res == [] && store.Snapshot() == old(store.Snapshot()))
      && (caller.Identified? && body.BodyParsed? && body.reqs != [] ==>
            var evs := seq(|body.reqs|, i requires 0 <= i < |body.reqs| => BatchEvent(body.reqs[i], caller.userID, draws[i], uuids[i]));
            var run := RunBatch(store.mode, old(store.Snapshot()), Pick(evs, order), base);
            status == Created && res == Pick(run.responses, delivery) && store.Snapshot() == run.state
            && multiset(CorrelationIds(res)) == multiset(EventIds(evs)))
  {
    var caller := IdentifyCaller(cookie, issued, userIdOf);
    if caller.Refused? {
      return caller.status, [];
    }
    if body.BodyReadFailed? {
      return InternalServerError, [];
    }
    if body.BodyInvalid? || |body.reqs| == 0 {
      return BadRequest, [];
    }
    var evs := GeneratorBatchPost(body.reqs, caller.userID, draws, uuids);
    ghost var spec := seq(|body.reqs|, i requires 0 <= i < |body.reqs| => BatchEvent(body.reqs[i], caller.userID, draws[i], uuids[i]));
    assert evs == spec;
    res := ProcessBatchPost(store, evs, order, delivery, base);
    status := Created;
  }

  /** As written, one duplicate poisons the rest of the batch in database
      mode: ExistingShortURL keeps the duplicate's code, so the next, new URL
      is answered with that code and never inserted. */
  lemma BatchStaleCode()
    ensures var st := State(map[], "", [Row("c1", "http://a", "u", false)], []);
      var evs := [URLData("id1", "c2", "http://a", false, "u", "1"), URLData("id2", "c3", "http://b", false, "u", "2")];
      var run := RunBatch(Database, st, evs, "http://s");
      && run.responses[1] == BatchResponse("2", ShortLink("http://s", "c1"))
      && run.state.table == st.table
  {
    var st := State(map[], "", [Row("c1", "http://a", "u", false)], []);
    var evs := [URLData("id1", "c2", "http://a", false, "u", "1"), URLData("id2", "c3", "http://b", false, "u", "2")];
    assert evs[..1] == [evs[0]] && evs[..1][..0] == [];
    var r0 := RunBatch(Database, st, [], "http://s");
    assert FindByOriginal(st.table, "http://a") == Some(0);
    var r1 := RunBatch(Database, st, evs[..1], "http://s");
    assert r1.state == st.(existing := "c1");
    assert FindByOriginal(st.table, "http://b") == None;
  }

  /** The batch as the single-request handlers run it: the held code is
      cleared after every duplicate, as HandlePost and HandleJSONPost do. */
  function RunBatchReset(mode: Mode, st: State, evs: seq<URLData>, base: string): (run: BatchRun)
    ensures |run.responses| == |evs|
    ensures forall k :: 0 <= k < |evs| ==> run.responses[k].correlationID == evs[k].correlationID
    decreases |evs|
  {
    if |evs| == 0 then BatchRun([], st)
    else
      var prev := RunBatchReset(mode, st, evs[..|evs| - 1], base);
      var ev := evs[|evs| - 1];
      var o := Save(mode, prev.state, ev);
      var next := if o.err == Some(AlreadyExists) then o.state.(existing := "") else o.state;
      var r := ItemResponse(ev.correlationID, o.code, o.err, o.event, base);
      AnswerSnoc(prev.responses, evs, r);
      BatchRun(prev.responses + [r], next)
  }

  /** With the reset, a batch that starts with no held code ends with none,
      so no item ever inherits another item's code. */
  lemma {:induction false} RunBatchResetClean(mode: Mode, st: State, evs: seq<URLData>, base: string)
    requires st.existing == ""
    ensures RunBatchReset(mode, st, evs, base).state.existing == ""
    decreases |evs|
  {
    if |evs| > 0 {
      RunBatchResetClean(mode, st, evs[..|evs| - 1], base);
    }
  }

  /** With the reset, each item is answered against a store with no held
      code: a URL the table does not hold gets its own fresh link. */
  lemma {:induction false} RunBatchResetItem(mode: Mode, st: State, evs: seq<URLData>, base: string)
    requires st.existing == "" && |evs| > 0
    ensures var prev := RunBatchReset(mode, st, evs[..|evs| - 1], base);
      var ev := evs[|evs| - 1];
      var t := prev.state.table;
      prev.state.existing == ""
      && ((forall k :: 0 <= k < |t| ==> t[k].originalURL != ev.originalURL && t[k].shortURL != ev.shortURL)
          ==> RunBatchReset(mode, st, evs, base).responses[|evs| - 1] == BatchResponse(ev.correlationID, ShortLink(base, ev.shortURL)))
  {
    RunBatchResetClean(mode, st, evs[..|evs| - 1], base);
  }

  /** The input that shows the stale code, run with the reset: the new URL
      gets its own link and its row. */
  lemma BatchStaleCodeFixed()
    ensures var st := State(map[], "", [Row("c1", "http://a", "u", false)], []);
      var evs := [URLData("id1", "c2", "http://a", false, "u", "1"), URLData("id2", "c3", "http://b", false, "u", "2")];
      var run := RunBatchReset(Database, st, evs, "http://s");
      && run.responses[1] == BatchResponse("2", ShortLink("http://s", "c3"))
      && run.state.table == st.table + [Row("c3", "http://b", "u", false)]
  {
    var st := State(map[], "", [Row("c1", "http://a", "u", false)], []);
    var evs := [URLData("id1", "c2", "http://a", false, "u", "1"), URLData("id2", "c3", "http://b", false, "u", "2")];
    assert evs[..1] == [evs[0]] && evs[..1][..0] == [];
    assert FindByOriginal(st.table, "http://a") == Some(0);
    var o0 := Save(Database, st, evs[0]);
    assert o0.err == Some(AlreadyExists) && o0.state == st.(existing := "c1");
    assert RunBatchReset(Database, st, evs[..1][..0], "http://s") == BatchRun([], st);
    var r1 := RunBatchReset(Database, st, evs[..1], "http://s");
    assert r1.state == st;
    assert FindByOriginal(st.table, "http://b") == None;
    assert InsertRow(st.table, RowOf(evs[1])) == Some(st.table + [Row("c3", "http://b", "u", false)]);
  }

  // ---------------------------------------------------------- batch delete

  /** BatchUpdateDeleteFlag applied for each id in turn. */
  function MarkAll(t: seq<Row>, ids: seq<string>, userID: string): (r: seq<Row>)
    ensures |r| == |t|
    decreases |ids|
  {
    if |ids| == 0 then t
    else MarkDeleted(MarkAll(t, ids[..|ids| - 1], userID), ids[|ids| - 1], userID)
  }

  /** After the batch, a row is deleted exactly when it was, or when it
      belongs to the user and its code is one of the ids; nothing else of
      any row changes. */
  lemma {:induction false} MarkAllPointwise(t: seq<Row>, ids: seq<string>, userID: string)
    ensures forall i :: 0 <= i < |t| ==>
      MarkAll(t, ids, userID)[i] == t[i].(isDeleted := t[i].isDeleted || (t[i].userID == userID && t[i].shortURL in ids))
    decreases |ids|
  {
    if |ids| > 0 {
      var init := ids[..|ids| - 1];
      MarkAllPointwise(t, init, userID);
      forall i | 0 <= i < |t|
        ensures t[i].shortURL in ids <==> t[i].shortURL in init || t[i].shortURL == ids[|ids| - 1]
      {
        assert ids == init + [ids[|ids| - 1]];
      }
    }
  }

  /** The order in which the workers reach the ids does not matter. */
  lemma MarkAllOrderFree(t: seq<Row>, ids: seq<string>, order: seq<int>, userID: string)
    requires IsPermutation(order, |ids|)
    ensures MarkAll(t, Pick(ids, order), userID) == MarkAll(t, ids, userID)
  {
    var p := Pick(ids, order);
    PermutedMultiset(ids, order);
    forall x ensures x in p <==> x in ids {
      assert x in p <==> x in multiset(p);
      assert x in ids <==> x in multiset(ids);
    }
    MarkAllPointwise(t, p, userID);
    MarkAllPointwise(t, ids, userID);
  }

  /** Re-running the same batch changes nothing. */
  lemma MarkAllIdempotent(t: seq<Row>, ids: seq<string>, userID: string)
    ensures MarkAll(MarkAll(t, ids, userID), ids, userID) == MarkAll(t, ids, userID)
  {
    MarkAllPointwise(t, ids, userID);
    MarkAllPointwise(MarkAll(t, ids, userID), ids, userID);
  }

  /** deleteURL, the workers' loop: BatchUpdateDeleteFlag on each id as it
      arrives, with the request's user, one error per id. */
  method DeleteURL(store: Store, arrived: seq<string>, userID: string) returns (errs: seq<Option<StoreError>>)
    requires store.Valid()
    modifies store`table
    ensures store.Valid()
    ensures |errs| == |arrived|
    ensures store.mode == Database ==> store.table == MarkAll(old(store.table), arrived, userID) && forall k :: 0 <= k < |errs| ==> errs[k].None?
    ensures store.mode != Database ==> store.table == old(store.table) && forall k :: 0 <= k < |errs| ==> errs[k] == Some(NoDatabase)
  {
    errs := [];
    var i := 0;
    while i < |arrived|
      invariant 0 <= i <= |arrived| && |errs| == i
      invariant store.Valid()
      invariant store.mode == Database ==> store.table == MarkAll(old(store.table), arrived[..i], userID) && forall k :: 0 <= k < i ==> errs[k].None?
      invariant store.mode != Database ==> store.table == old(store.table) && forall k :: 0 <= k < i ==> errs[k] == Some(NoDatabase)
    {
      var err := store.BatchUpdateDeleteFlag(arrived[i], userID);
      errs := errs + [err];
      assert arrived[..i + 1][..i] == arrived[..i];
      i := i + 1;
    }
    assert arrived[..i] == arrived;
  }

  /** processDeleteBatch: every id reaches the workers once, in the arrival
      order; the errors are only collected for the log.  The outcome is the
      same for every order. */
  method ProcessDeleteBatch(store: Store, ids: seq<string>, userID: string, order: seq<int>)
    returns (passed: seq<string>, errs: seq<Option<StoreError>>)
    requires store.Valid() && IsPermutation(order, |ids|)
    modifies store`table
    ensures store.Valid()
    ensures passed == Pick(ids, order) && multiset(passed) == multiset(ids)
    ensures |errs| == |ids|
    ensures store.mode == Database ==> store.table == MarkAll(old(store.table), ids, userID) && forall k :: 0 <= k < |errs| ==> errs[k].None?
    ensures store.mode != Database ==> store.table == old(store.table) && forall k :: 0 <= k < |errs| ==> errs[k] == Some(NoDatabase)
    ensures RunDeleteJob(store.mode, old(store.table), DeleteJob(ids, userID)) == Completed(store.table, errs)
  {
    passed := Pick(ids, order);
    errs := DeleteURL(store, passed, userID);
    PermutedMultiset(ids, order);
    MarkAllOrderFree(old(store.table), ids, order, userID);
  }

  /** A deletion job the handlers start in the background. */
  datatype DeleteJob = DeleteJob(ids: seq<string>, userID: string)

  /** The immediate answer of a delete request and the job it starts, if any. */
  datatype DeleteDecision = DeleteDecision(status: Status, job: Option<DeleteJob>)

  /** What the request body gave: a read failure, bad JSON, or the ids. */
  datatype IdsBody = IdsReadFailed | IdsInvalid | IdsParsed(ids: seq<string>)

  /** HandleDeleteURLs: 401 unless authorized, 500 when the body cannot be
      read, 400 for bad JSON or an empty list; otherwise 202 at once, with
      the deletion of the ids for the user started in the background. */
  function HandleDeleteURLs(auth: AuthCheck, body: IdsBody): (d: DeleteDecision)
    ensures d.job.Some? <==> d.status == Accepted
    ensures d.job.Some? <==> auth.Authorized? && body.IdsParsed? && body.ids != []
    ensures d.job.Some? ==> d.job.value == DeleteJob(body.ids, auth.userID)
    ensures auth.NotAuthorized? ==> d.status == Unauthorized
    ensures auth.Authorized? && body.IdsReadFailed? ==> d.status == InternalServerError
    ensures auth.Authorized? && (body.IdsInvalid? || body == IdsParsed([])) ==> d.status == BadRequest
  {
    if auth.NotAuthorized? then DeleteDecision(Unauthorized, None)
    else match body
      case IdsReadFailed => DeleteDecision(InternalServerError, None)
      case IdsInvalid => DeleteDecision(BadRequest, None)
      case IdsParsed(ids) =>
        if |ids| == 0 then DeleteDecision(BadRequest, None)
        else DeleteDecision(Accepted, Some(DeleteJob(ids, auth.userID)))
  }

  /** How a started deletion job ends: the table it leaves and the error of
      each id, or the end of the whole process. */
  datatype JobEnd = Completed(table: seq<Row>, errs: seq<Option<StoreError>>) | ProcessCrashed

  /** processDeleteBatch as written: outside database mode the package-level
      handle is nil, and BatchUpdateDeleteFlag, the one storage function that
      does not test it, calls Exec on it.  The first id a worker takes panics
      in that goroutine, which ends the process. */
  function RunDeleteJobAsWritten(mode: Mode, t: seq<Row>, job: DeleteJob): (e: JobEnd)
    ensures e.ProcessCrashed? <==> mode != Database && job.ids != []
    ensures e.Completed? ==> |e.errs| == |job.ids| && forall k :: 0 <= k < |e.errs| ==> e.errs[k].None?
    ensures e.Completed? && mode == Database ==> e.table == MarkAll(t, job.ids, job.userID)
  {
    if mode == Database then Completed(MarkAll(t, job.ids, job.userID), seq(|job.ids|, _ => None))
    else if |job.ids| == 0 then Completed(t, [])
    else ProcessCrashed
  }

  /** As written, a delete request that is answered 202 outside database
      mode takes the service down once its job runs. */
  lemma DeleteAcceptedThenCrash(auth: AuthCheck, ids: seq<string>, mode: Mode, t: seq<Row>)
    requires auth.Authorized? && ids != [] && mode != Database
    ensures var d := HandleDeleteURLs(auth, IdsParsed(ids));
      d.status == Accepted && RunDeleteJobAsWritten(mode, t, d.job.value) == ProcessCrashed
  {
  }

  /** processDeleteBatch with the handle tested as the other storage
      functions test it: the job always completes; in database mode it marks
      the user's rows among the ids, otherwise every id fails with
      NoDatabase and the table is left as it was. */
  function RunDeleteJob(mode: Mode, t: seq<Row>, job: DeleteJob): (e: JobEnd)
    ensures e.Completed? && |e.errs| == |job.ids|
    ensures mode == Database ==> e.table == MarkAll(t, job.ids, job.userID) && forall k :: 0 <= k < |e.errs| ==> e.errs[k].None?
    ensures mode != Database ==> e.table == t && forall k :: 0 <= k < |e.errs| ==> e.errs[k] == Some(NoDatabase)
  {
    if mode == Database then Completed(MarkAll(t, job.ids, job.userID), seq(|job.ids|, _ => None))
    else Completed(t, seq(|job.ids|, _ => Some(NoDatabase)))
  }

  /** With the handle tested, every job a 202 starts runs to completion, and
      in database mode it leaves the table the as-written job leaves. */
  lemma DeleteAcceptedCompletes(auth: AuthCheck, ids: seq<string>, mode: Mode, t: seq<Row>)
    requires auth.Authorized? && ids != []
    ensures var d := HandleDeleteURLs(auth, IdsParsed(ids));
      && d.status == Accepted
      && RunDeleteJob(mode, t, d.job.value).Completed?
      && (mode == Database ==> RunDeleteJob(mode, t, d.job.value) == RunDeleteJobAsWritten(mode, t, d.job.value))
  {
  }

  /** The gRPC reply of BatchDelete: message, error field and status. */
  datatype BatchDeleteReply = BatchDeleteReply(message: string, error: string, status: Option<GrpcStatus>)

  /** BatchDelete: InvalidArgument (code 3) for an empty list and no job;
      otherwise "Batch deletion started" and the job for the given user. */
  function BatchDelete(userID: string, ids: seq<string>): (r: (BatchDeleteReply, Option<DeleteJob>))
    ensures r.1.Some? <==> ids != []
    ensures r.1.Some? ==> r.1.value == DeleteJob(ids, userID) && r.0 == BatchDeleteReply("Batch deletion started", "", None)
    ensures r.1.None? ==> r.0.status == Some(GrpcStatus(3, "Batch cannot be empty"))
  {
    if |ids| == 0 then (BatchDeleteReply("", "Batch cannot be empty", Some(GrpcStatus(3, "Batch cannot be empty"))), None)
    else (BatchDeleteReply("Batch deletion started", "", None), Some(DeleteJob(ids, userID)))
  }

  /** A started deletion job, run to completion in database mode, marks
      exactly the user's rows among the ids; running it again changes nothing. */
  lemma DeleteJobEffect(t: seq<Row>, job: DeleteJob)
    ensures var r := MarkAll(t, job.ids, job.userID);
      && |r| == |t|
      && (forall i :: 0 <= i < |t| && t[i].userID == job.userID && t[i].shortURL in job.ids ==> r[i].isDeleted)
      && (forall i :: 0 <= i < |t| && !(t[i].userID == job.userID && t[i].shortURL in job.ids) ==> r[i] == t[i])
      && MarkAll(r, job.ids, job.userID) == r
  {
    MarkAllPointwise(t, job.ids, job.userID);
    MarkAllIdempotent(t, job.ids, job.userID);
  }
}
