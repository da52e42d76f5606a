// The package-level mapping store of internal/storage/storage.go.
//
// The store runs in one of three modes, fixed at start-up: a relational table
// (when a database handle is set), an append-only event file with an
// in-memory index (when a file path is set), or the in-memory index alone.
// Its state is the index URLStore, the package variable ExistingShortURL, the
// rows of the short_urls table and the records of the event file.
//
// The pure part of this module (State, Save, Resolve, ...) says what each
// operation does to that state; the class Store holds the same state in
// fields and implements the operations step by step against it.
module Storage {
  import opened Models

  // ---------------------------------------------------------------- modes

  datatype Mode = Database | FileLog | Memory

  /** The order in which the source picks a backing medium: a database
      handle first, then a file path, otherwise memory. */
  function SelectMode(dbConnected: bool, fileStoragePath: string): (m: Mode)
    ensures m == Database <==> dbConnected
    ensures m == FileLog <==> !dbConnected && fileStoragePath != ""
    ensures m == Memory <==> !dbConnected && fileStoragePath == ""
  {
    if dbConnected then Database
    else if fileStoragePath != "" then FileLog
    else Memory
  }

  // ---------------------------------------------------------------- table

  /** A row of the short_urls table (the serial id column is not modelled). */
  datatype Row = Row(shortURL: string, originalURL: string, userID: string, isDeleted: bool)

  /** The two UNIQUE constraints of the table: short_url and original_url. */
  ghost predicate TableValid(t: seq<Row>) {
    && (forall i, j :: 0 <= i < j < |t| ==> t[i].shortURL != t[j].shortURL)
    && (forall i, j :: 0 <= i < j < |t| ==> t[i].originalURL != t[j].originalURL)
  }

  /** SELECT ... WHERE original_url = orig: the first matching row, if any. */
  function FindByOriginal(t: seq<Row>, orig: string): (r: Option<nat>)
    ensures r.Some? ==> r.value < |t| && t[r.value].originalURL == orig
    ensures r.Some? ==> forall k :: 0 <= k < r.value ==> t[k].originalURL != orig
    ensures r.None? ==> forall k :: 0 <= k < |t| ==> t[k].originalURL != orig
  {
    if |t| == 0 then None
    else if t[0].originalURL == orig then Some(0)
    else match FindByOriginal(t[1..], orig)
      case None => None
      case Some(i) => Some(i + 1)
  }

  /** SELECT ... WHERE short_url = code: the first matching row, if any. */
  function FindByShort(t: seq<Row>, code: string): (r: Option<nat>)
    ensures r.Some? ==> r.value < |t| && t[r.value].shortURL == code
    ensures r.Some? ==> forall k :: 0 <= k < r.value ==> t[k].shortURL != code
    ensures r.None? ==> forall k :: 0 <= k < |t| ==> t[k].shortURL != code
  {
    if |t| == 0 then None
    else if t[0].shortURL == code then Some(0)
    else match FindByShort(t[1..], code)
      case None => None
      case Some(i) => Some(i + 1)
  }

  /** INSERT ... ON CONFLICT (original_url) DO UPDATE SET short_url =
      short_urls.short_url.  A clash on original_url rewrites the row with its
      own value (the table is unchanged); a clash on short_url violates its
      UNIQUE constraint (None); otherwise the row is added. */
  function InsertRow(t: seq<Row>, row: Row): (r: Option<seq<Row>>)
    ensures (exists k :: 0 <= k < |t| && t[k].originalURL == row.originalURL) ==> r == Some(t)
    ensures ((forall k :: 0 <= k < |t| ==> t[k].originalURL != row.originalURL)
             && (exists k :: 0 <= k < |t| && t[k].shortURL == row.shortURL)) ==> r.None?
    ensures (forall k :: 0 <= k < |t| ==> t[k].originalURL != row.originalURL && t[k].shortURL != row.shortURL)
         ==> r == Some(t + [row])
    ensures TableValid(t) && r.Some? ==> TableValid(r.value)
  {
    if FindByOriginal(t, row.originalURL).Some? then Some(t)
    else if FindByShort(t, row.shortURL).Some? then None
    else Some(t + [row])
  }

  /** The row a record becomes when it is inserted. */
  function RowOf(ev: URLData): Row {
    Row(ev.shortURL, ev.originalURL, ev.userUUID, ev.deletedFlag)
  }

  // ------------------------------------------------------------- event file

  /** One record of the event file: a decodable event, or a record the JSON
      decoder cannot read. */
  datatype LogRecord = Event(data: URLData) | Corrupt

  predicate HasCorrupt(log: seq<LogRecord>) {
    exists i :: 0 <= i < |log| && log[i].Corrupt?
  }

  /** The events a reader gets before the first unreadable record. */
  function ReadablePrefix(log: seq<LogRecord>): (evs: seq<URLData>)
    ensures |evs| <= |log|
    ensures forall i :: 0 <= i < |evs| ==> log[i] == Event(evs[i])
    ensures |evs| < |log| ==> log[|evs|].Corrupt?
  {
    if |log| == 0 || log[0].Corrupt? then []
    else [log[0].data] + ReadablePrefix(log[1..])
  }

  lemma {:induction false} ReadablePrefixSnoc(log: seq<LogRecord>, e: URLData)
    requires !HasCorrupt(log)
    ensures ReadablePrefix(log + [Event(e)]) == ReadablePrefix(log) + [e]
    decreases |log|
  {
    if |log| == 0 {
    } else {
      assert (log + [Event(e)])[1..] == log[1..] + [Event(e)];
      assert !HasCorrupt(log[1..]) by {
        forall i | 0 <= i < |log[1..]| ensures !log[1..][i].Corrupt? {
          assert log[1..][i] == log[i + 1];
        }
      }
      ReadablePrefixSnoc(log[1..], e);
    }
  }

  /** Replaying events into the index in order: each sets its short code. */
  function ApplyEvents(m: map<string, string>, evs: seq<URLData>): map<string, string>
    decreases |evs|
  {
    if |evs| == 0 then m
    else
      var last := evs[|evs| - 1];
      ApplyEvents(m, evs[..|evs| - 1])[last.shortURL := last.originalURL]
  }

  /** Last write wins: after a replay, a code maps to the URL of the last
      event that wrote it. */
  lemma {:induction false} ApplyEventsLastWins(m: map<string, string>, evs: seq<URLData>, j: nat)
    requires j < |evs|
    requires forall l :: j < l < |evs| ==> evs[l].shortURL != evs[j].shortURL
    ensures evs[j].shortURL in ApplyEvents(m, evs)
    ensures ApplyEvents(m, evs)[evs[j].shortURL] == evs[j].originalURL
    decreases |evs|
  {
    if j < |evs| - 1 {
      var init := evs[..|evs| - 1];
      assert init[j] == evs[j];
      forall l | j < l < |init| ensures init[l].shortURL != init[j].shortURL {
        assert init[l] == evs[l];
      }
      ApplyEventsLastWins(m, init, j);
    }
  }

  /** A code no event writes keeps its old entry, or stays absent. */
  lemma {:induction false} ApplyEventsUntouched(m: map<string, string>, evs: seq<URLData>, k: string)
    requires forall j :: 0 <= j < |evs| ==> evs[j].shortURL != k
    ensures k in ApplyEvents(m, evs) <==> k in m
    ensures k in m ==> ApplyEvents(m, evs)[k] == m[k]
    decreases |evs|
  {
    if |evs| > 0 {
      var init := evs[..|evs| - 1];
      forall j | 0 <= j < |init| ensures init[j].shortURL != k {
        assert init[j] == evs[j];
      }
      ApplyEventsUntouched(m, init, k);
    }
  }

  /** What loadURLsFromFile rebuilds from the file: the readable events, in order. */
  function ApplyLog(m: map<string, string>, log: seq<LogRecord>): map<string, string> {
    ApplyEvents(m, ReadablePrefix(log))
  }

  /** Appending an event to an intact file and updating the index agree:
      replaying the longer file gives the updated index. */
  lemma ApplyLogSnoc(m: map<string, string>, log: seq<LogRecord>, e: URLData)
    requires !HasCorrupt(log)
    ensures ApplyLog(m, log + [Event(e)]) == ApplyLog(m, log)[e.shortURL := e.originalURL]
  {
    ReadablePrefixSnoc(log, e);
    var evs := ReadablePrefix(log) + [e];
    assert evs[..|evs| - 1] == ReadablePrefix(log);
  }

  /** What loadURLsFromDB puts in the index: every row's pair, in table order. */
  function ApplyRows(m: map<string, string>, t: seq<Row>): map<string, string>
    decreases |t|
  {
    if |t| == 0 then m
    else ApplyRows(m, t[..|t| - 1])[t[|t| - 1].shortURL := t[|t| - 1].originalURL]
  }

  /** With unique short codes every row's code resolves to its own URL after loading. */
  lemma {:induction false} ApplyRowsFaithful(m: map<string, string>, t: seq<Row>)
    requires TableValid(t)
    ensures forall i :: 0 <= i < |t| ==> t[i].shortURL in ApplyRows(m, t)
                                         && ApplyRows(m, t)[t[i].shortURL] == t[i].originalURL
    decreases |t|
  {
    if |t| > 0 {
      var init := t[..|t| - 1];
      assert TableValid(init);
      ApplyRowsFaithful(m, init);
      forall i | 0 <= i < |t|
        ensures t[i].shortURL in ApplyRows(m, t) && ApplyRows(m, t)[t[i].shortURL] == t[i].originalURL
      {
        if i < |t| - 1 {
          assert init[i] == t[i];
          assert t[i].shortURL != t[|t| - 1].shortURL;
        }
      }
    }
  }

  // ----------------------------------------------------------- whole state

  /** The package-level state of the store. */
  datatype State = State(
    urlStore: map<string, string>,
    existing: string,
    table: seq<Row>,
    log: seq<LogRecord>)

  datatype StoreError =
    | AlreadyExists   // ErrAlreadyExists: the URL already has a code
    | ShortCodeTaken  // the INSERT violated the UNIQUE constraint on short_url
    | NoDatabase      // a table statement issued while no database handle is set

  /** The (code, error) pair SaveURL returns, the state it leaves and the
      record it was passed, whose ShortURL it may overwrite. */
  datatype SaveOutcome = SaveOutcome(state: State, code: string, err: Option<StoreError>, event: URLData)

  /** SaveURL in database mode: look the URL up, keep the code found in
      ExistingShortURL, report a non-empty ExistingShortURL as a duplicate,
      and otherwise insert the record. */
  function SaveDb(st: State, ev: URLData): (o: SaveOutcome)
    // the lookup finds the URL's row: that row's code is reported and the table is untouched
    ensures TableValid(st.table) && (exists k :: 0 <= k < |st.table| && st.table[k].originalURL == ev.originalURL && st.table[k].shortURL != "")
            ==> o.err == Some(AlreadyExists) && o.state.table == st.table
                && exists k :: 0 <= k < |st.table| && st.table[k].originalURL == ev.originalURL
                               && o.code == o.state.existing == o.event.shortURL == st.table[k].shortURL
    // the row found holds an empty code: ExistingShortURL is cleared, the
    // insert is a no-op on the conflict, and the save reports no error
    ensures TableValid(st.table) && (exists k :: 0 <= k < |st.table| && st.table[k].originalURL == ev.originalURL && st.table[k].shortURL == "")
            ==> o == SaveOutcome(st.(existing := ""), "", None, ev)
    // no row, but a code left over in ExistingShortURL: that code is reported, nothing is inserted
    ensures (forall k :: 0 <= k < |st.table| ==> st.table[k].originalURL != ev.originalURL) && st.existing != ""
            ==> o == SaveOutcome(st, st.existing, Some(AlreadyExists), ev.(shortURL := st.existing))
    // no row and nothing left over: the record is inserted, or its code clashes
    ensures (forall k :: 0 <= k < |st.table| ==> st.table[k].originalURL != ev.originalURL) && st.existing == ""
            ==> o.code == "" && o.state == st.(table := o.state.table) && o.event == ev
                && ((forall k :: 0 <= k < |st.table| ==> st.table[k].shortURL != ev.shortURL)
                    ==> o.err.None? && o.state.table == st.table + [RowOf(ev)])
                && ((exists k :: 0 <= k < |st.table| && st.table[k].shortURL == ev.shortURL)
                    ==> o.err == Some(ShortCodeTaken) && o.state.table == st.table)
    // a non-empty ExistingShortURL is only ever replaced by a looked-up code
    ensures o.state.existing != st.existing ==>
            exists k :: 0 <= k < |st.table| && st.table[k].originalURL == ev.originalURL && st.table[k].shortURL == o.state.existing
    ensures o.state.urlStore == st.urlStore && o.state.log == st.log
    ensures TableValid(st.table) ==> TableValid(o.state.table)
  {
    var existing := match FindByOriginal(st.table, ev.originalURL)
      case Some(i) => st.table[i].shortURL
      case None => st.existing;
    var st1 := st.(existing := existing);
    if existing != "" then
      SaveOutcome(st1, existing, Some(AlreadyExists), ev.(shortURL := existing))
    else
      match InsertRow(st.table, RowOf(ev))
      case None => SaveOutcome(st1, "", Some(ShortCodeTaken), ev)
      case Some(t) => SaveOutcome(st1.(table := t), "", None, ev)
  }

  /** SaveURL: database mode deduplicates; file and memory modes overwrite
      the index entry of the record's code, and file mode appends the record
      to the event file. */
  function Save(mode: Mode, st: State, ev: URLData): (o: SaveOutcome)
    ensures mode == Database ==> o == SaveDb(st, ev)
    ensures mode != Database ==>
      && o.err.None? && o.code == "" && o.event == ev
      && o.state.urlStore == st.urlStore[ev.shortURL := ev.originalURL]
      && o.state.existing == st.existing && o.state.table == st.table
      && o.state.log == (if mode == FileLog then st.log + [Event(ev)] else st.log)
  {
    match mode
    case Database => SaveDb(st, ev)
    case FileLog =>
      SaveOutcome(st.(urlStore := st.urlStore[ev.shortURL := ev.originalURL], log := st.log + [Event(ev)]), "", None, ev)
    case Memory =>
      SaveOutcome(st.(urlStore := st.urlStore[ev.shortURL := ev.originalURL]), "", None, ev)
  }

  /** The triple GetOriginalURL returns: original URL, deleted flag, found. */
  datatype Resolution = Resolution(originalURL: string, deleted: bool, found: bool)

  /** GetOriginalURL: the table row with that code in database mode (with its
      tombstone), the index entry otherwise (never deleted). */
  function Resolve(mode: Mode, st: State, shortID: string): (r: Resolution)
    ensures mode == Database ==>
      (r.found <==> exists i :: 0 <= i < |st.table| && st.table[i].shortURL == shortID)
    ensures mode == Database && r.found ==>
      exists i :: 0 <= i < |st.table| && st.table[i].shortURL == shortID
                  && r.originalURL == st.table[i].originalURL && r.deleted == st.table[i].isDeleted
    ensures !r.found ==> r == Resolution("", false, false)
    ensures mode != Database ==>
      r.found == (shortID in st.urlStore) && !r.deleted
      && (r.found ==> r.originalURL == st.urlStore[shortID])
  {
    if mode == Database then
      match FindByShort(st.table, shortID)
      case Some(i) => Resolution(st.table[i].originalURL, st.table[i].isDeleted, true)
      case None => Resolution("", false, false)
    else if shortID in st.urlStore then Resolution(st.urlStore[shortID], false, true)
    else Resolution("", false, false)
  }

  /** A record saved successfully resolves to its URL, live, in every mode. */
  lemma SaveThenResolve(mode: Mode, st: State, ev: URLData)
    requires TableValid(st.table)
    requires Save(mode, st, ev).err.None?
    requires mode == Database ==> FindByOriginal(st.table, ev.originalURL).None?
    ensures Resolve(mode, Save(mode, st, ev).state, ev.shortURL) == Resolution(ev.originalURL, ev.deletedFlag && mode == Database, true)
  {
    if mode == Database {
      var t := Save(mode, st, ev).state.table;
      assert t == st.table + [RowOf(ev)];
      assert t[|st.table|].shortURL == ev.shortURL;
    }
  }

  /** One listing entry: the full short link and the URL; the other fields
      are not selected and stay at their zero values. */
  function Entry(base: string, row: Row): URLData {
    URLData("", ShortLink(base, row.shortURL), row.originalURL, false, "", "")
  }

  /** The positions of the rows a user owns, in table order. */
  function OwnedIndices(t: seq<Row>, userID: string): (ix: seq<nat>)
    ensures forall j :: 0 <= j < |ix| ==> ix[j] < |t| && t[ix[j]].userID == userID
    ensures forall j1, j2 :: 0 <= j1 < j2 < |ix| ==> ix[j1] < ix[j2]
    ensures forall i :: 0 <= i < |t| && t[i].userID == userID ==> i in ix
    decreases |t|
  {
    if |t| == 0 then []
    else
      var init := OwnedIndices(t[..|t| - 1], userID);
      if t[|t| - 1].userID == userID then init + [|t| - 1] else init
  }

  /** GetURLsByUser in database mode: one entry per row the user owns,
      deleted or not, in table order. */
  function UserEntries(t: seq<Row>, userID: string, base: string): (r: seq<URLData>)
    ensures |r| == |OwnedIndices(t, userID)|
    ensures forall j :: 0 <= j < |r| ==> r[j] == Entry(base, t[OwnedIndices(t, userID)[j]])
    decreases |t|
  {
    if |t| == 0 then []
    else
      var init := UserEntries(t[..|t| - 1], userID, base);
      if t[|t| - 1].userID == userID then init + [Entry(base, t[|t| - 1])] else init
  }

  /** UPDATE short_urls SET is_deleted = TRUE WHERE short_url = code AND
      user_id = userID: exactly the matching rows get the tombstone. */
  function MarkDeleted(t: seq<Row>, code: string, userID: string): (r: seq<Row>)
    ensures |r| == |t|
    ensures forall i :: 0 <= i < |t| ==>
      r[i] == if t[i].shortURL == code && t[i].userID == userID then t[i].(isDeleted := true) else t[i]
    decreases |t|
  {
    if |t| == 0 then []
    else
      var row := t[0];
      var row' := if row.shortURL == code && row.userID == userID then row.(isDeleted := true) else row;
      [row'] + MarkDeleted(t[1..], code, userID)
  }

  /** Marking changes no code and no URL, so both UNIQUE constraints survive it. */
  lemma MarkDeletedKeepsUnique(t: seq<Row>, code: string, userID: string)
    requires TableValid(t)
    ensures TableValid(MarkDeleted(t, code, userID))
  {
    var r := MarkDeleted(t, code, userID);
    assert forall i :: 0 <= i < |t| ==> r[i].shortURL == t[i].shortURL && r[i].originalURL == t[i].originalURL;
  }

  /** Marking twice is marking once. */
  lemma MarkDeletedIdempotent(t: seq<Row>, code: string, userID: string)
    ensures MarkDeleted(MarkDeleted(t, code, userID), code, userID) == MarkDeleted(t, code, userID)
  {
    var once := MarkDeleted(t, code, userID);
    var twice := MarkDeleted(once, code, userID);
    assert forall i :: 0 <= i < |t| ==> twice[i] == once[i];
  }

  /** The deduplication protocol in database mode: once a URL was inserted
      and the caller reset ExistingShortURL, saving the same URL again under
      any fresh code reports the first code as a duplicate and adds no row. */
  lemma SaveTwiceDeduplicates(st: State, ev1: URLData, ev2: URLData)
    requires TableValid(st.table) && st.existing == ""
    requires ev1.shortURL != "" && ev2.originalURL == ev1.originalURL
    requires SaveDb(st, ev1).err.None?
    requires FindByOriginal(st.table, ev1.originalURL).None?
    ensures var st1 := SaveDb(st, ev1).state.(existing := "");
      var o2 := SaveDb(st1, ev2);
      o2.err == Some(AlreadyExists) && o2.code == ev1.shortURL && o2.state.table == st1.table
  {
    var t1 := SaveDb(st, ev1).state.table;
    assert t1 == st.table + [RowOf(ev1)];
    assert t1[|st.table|].originalURL == ev2.originalURL;
    assert TableValid(t1);
  }

  // ------------------------------------------------------------- the store

  /** The package-level state of storage.go as one object: the index, the
      ExistingShortURL variable, the table rows and the event file. */
  class Store {
    const mode: Mode
    var urlStore: map<string, string>
    var existingShortURL: string
    var table: seq<Row>
    var log: seq<LogRecord>

    function Snapshot(): State
      reads this
    {
      State(urlStore, existingShortURL, table, log)
    }

    /** The table keeps its UNIQUE constraints, and in file mode an intact
        event file replays to exactly the current index. */
    ghost predicate Valid()
      reads this
    {
      && TableValid(table)
      && (mode == FileLog && !HasCorrupt(log) ==> urlStore == ApplyLog(map[], log))
    }

    /** InitializeStorage: select the mode, then load the index from the
        table (database mode) or from the event file (file mode). */
    constructor (dbConnected: bool, fileStoragePath: string, rows: seq<Row>, file: seq<LogRecord>)
      requires TableValid(rows)
      ensures Valid()
      ensures mode == SelectMode(dbConnected, fileStoragePath)
      ensures existingShortURL == ""
      ensures table == (if mode == Database then rows else [])
      ensures log == (if mode == FileLog then file else [])
      ensures urlStore == match mode
        case Database => ApplyRows(map[], rows)
        case FileLog => ApplyLog(map[], file)
        case Memory => map[]
    {
      mode := SelectMode(dbConnected, fileStoragePath);
      urlStore := map[];
      existingShortURL := "";
      table := if dbConnected then rows else [];
      log := if !dbConnected && fileStoragePath != "" then file else [];
      new;
      if mode == Database {
        LoadURLsFromDB();
      } else if mode == FileLog {
        LoadURLsFromFile();
      }
    }

    /** loadURLsFromDB: copy every row's pair into the index, in table order. */
    method LoadURLsFromDB()
      modifies this`urlStore
      ensures urlStore == ApplyRows(old(urlStore), table)
    {
      var i := 0;
      while i < |table|
        invariant 0 <= i <= |table|
        invariant urlStore == ApplyRows(old(urlStore), table[..i])
      {
        urlStore := urlStore[table[i].shortURL := table[i].originalURL];
        assert table[..i + 1][..i] == table[..i];
        i := i + 1;
      }
      assert table[..i] == table;
    }

    /** loadURLsFromFile: replay events in order until the first record
        that cannot be decoded; the rest of the file is ignored silently. */
    method LoadURLsFromFile()
      modifies this`urlStore
      ensures urlStore == ApplyLog(old(urlStore), log)
    {
      ghost var evs := ReadablePrefix(log);
      var i := 0;
      while i < |log| && log[i].Event?
        invariant 0 <= i <= |evs|
        invariant urlStore == ApplyEvents(old(urlStore), evs[..i])
      {
        urlStore := urlStore[log[i].data.shortURL := log[i].data.originalURL];
        assert evs[..i + 1][..i] == evs[..i];
        i := i + 1;
      }
      assert evs[..i] == evs;
    }

    /** SaveURL. */
    method SaveURL(event: URLData) returns (code: string, err: Option<StoreError>, saved: URLData)
      requires Valid()
      modifies this
      ensures Valid()
      ensures var o := Save(mode, old(Snapshot()), event);
        Snapshot() == o.state && code == o.code && err == o.err && saved == o.event
    {
      saved := event;
      if mode == Database {
        var found := FindByOriginal(table, event.originalURL);
        if found.Some? {
          existingShortURL := table[found.value].shortURL;
        }
        if existingShortURL != "" {
          saved := saved.(shortURL := existingShortURL);
          return existingShortURL, Some(AlreadyExists), saved;
        }
        var inserted := InsertRow(table, RowOf(event));
        if inserted.None? {
          return "", Some(ShortCodeTaken), saved;
        }
        table := inserted.value;
        return "", None, saved;
      } else if mode == FileLog {
        urlStore := urlStore[event.shortURL := event.originalURL];
        if !HasCorrupt(old(log)) {
          ApplyLogSnoc(map[], old(log), event);
        }
        log := log + [Event(event)];
        assert HasCorrupt(old(log)) ==> HasCorrupt(log) by {
          forall i | 0 <= i < |old(log)| ensures log[i] == old(log)[i] { }
        }
        return "", None, saved;
      }
      urlStore := urlStore[event.shortURL := event.originalURL];
      return "", None, saved;
    }

    /** GetOriginalURL, read from the current state. */
    function GetOriginalURL(shortID: string): Resolution
      reads this
    {
      Resolve(mode, Snapshot(), shortID)
    }

    /** GetURLsByUser: in database mode, the owned rows as listing entries;
        no listing in the other modes. */
    method GetURLsByUser(userID: string, base: string) returns (urls: seq<URLData>)
      ensures mode == Database ==> urls == UserEntries(table, userID, base)
      ensures mode != Database ==> urls == []
    {
      urls := [];
      if mode != Database {
        return;
      }
      var i := 0;
      while i < |table|
        invariant 0 <= i <= |table|
        invariant urls == UserEntries(table[..i], userID, base)
      {
        if table[i].userID == userID {
          urls := urls + [Entry(base, table[i])];
        }
        assert table[..i + 1][..i] == table[..i];
        i := i + 1;
      }
      assert table[..i] == table;
    }

    /** BatchUpdateDeleteFlag: tombstone the user's row with that code.  The
        statement needs the database handle; without one there is none to run it on. */
    method BatchUpdateDeleteFlag(urlID: string, userID: string) returns (err: Option<StoreError>)
      requires Valid()
      modifies this`table
      ensures Valid()
      ensures mode == Database ==> err.None? && table == MarkDeleted(old(table), urlID, userID)
      ensures mode != Database ==> err == Some(NoDatabase) && table == old(table)
    {
      if mode != Database {
        return Some(NoDatabase);
      }
      MarkDeletedKeepsUnique(table, urlID, userID);
      table := MarkDeleted(table, urlID, userID);
      return None;
    }
  }
}
