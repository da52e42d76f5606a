// FileStorage of internal/storage/fileStorage.go: a slice of slimmed records
// kept in memory and rewritten to a JSON file after every Save.  Save is an
// upsert keyed by ShortURL; Get is a linear search.  The file itself is not
// part of this model.
module FileBackend {
  import opened Models

  /** The record Save keeps: UUID, ShortURL and OriginalURL only; the owner,
      the tombstone and the correlation id fall back to their zero values. */
  function Slim(d: URLData): (s: URLData)
    ensures s.uuid == d.uuid && s.shortURL == d.shortURL && s.originalURL == d.originalURL
    ensures !s.deletedFlag && s.userUUID == "" && s.correlationID == ""
  {
    URLData(d.uuid, d.shortURL, d.originalURL, false, "", "")
  }

  /** The position of the first record with that short code, if any. */
  function FirstIndex(data: seq<URLData>, code: string): (r: Option<nat>)
    ensures r.Some? ==> r.value < |data| && data[r.value].shortURL == code
    ensures r.Some? ==> forall k :: 0 <= k < r.value ==> data[k].shortURL != code
    ensures r.None? ==> forall k :: 0 <= k < |data| ==> data[k].shortURL != code
  {
    if |data| == 0 then None
    else if data[0].shortURL == code then Some(0)
    else match FirstIndex(data[1..], code)
      case None => None
      case Some(i) => Some(i + 1)
  }

  /** The first match is the only index with both of its properties. */
  lemma FirstIndexIs(data: seq<URLData>, code: string, i: nat)
    requires i < |data| && data[i].shortURL == code
    requires forall k :: 0 <= k < i ==> data[k].shortURL != code
    ensures FirstIndex(data, code) == Some(i)
  {
  }

  ghost predicate DistinctCodes(data: seq<URLData>) {
    forall i, j :: 0 <= i < j < |data| ==> data[i].shortURL != data[j].shortURL
  }

  /** What Save does to the slice: replace the first record with the same
      short code in place, or append when there is none. */
  function Upsert(data: seq<URLData>, rec: URLData): (r: seq<URLData>)
    ensures FirstIndex(data, rec.shortURL).Some? ==>
      var i := FirstIndex(data, rec.shortURL).value;
      |r| == |data| && r[i] == rec && forall j :: 0 <= j < |data| && j != i ==> r[j] == data[j]
    ensures FirstIndex(data, rec.shortURL).None? ==> |r| == |data| + 1 && r[..|data|] == data && r[|data|] == rec
    ensures DistinctCodes(data) ==> DistinctCodes(r)
  {
    match FirstIndex(data, rec.shortURL)
    case Some(i) => data[i := rec]
    case None => data + [rec]
  }

  /** Round trip: after an upsert, the first record with the code is the new one. */
  lemma UpsertThenFind(data: seq<URLData>, rec: URLData)
    ensures var r := Upsert(data, rec);
      FirstIndex(r, rec.shortURL).Some? && r[FirstIndex(r, rec.shortURL).value] == rec
  {
    var r := Upsert(data, rec);
    match FirstIndex(data, rec.shortURL)
    case Some(i) =>
      FirstIndexIs(r, rec.shortURL, i);
    case None =>
      FirstIndexIs(r, rec.shortURL, |data|);
  }

  class FileStorage {
    const filename: string
    var data: seq<URLData>

    /** NewFileStorage: an empty slice (the JSON load is not modelled). */
    constructor (filename: string)
      ensures this.filename == filename && data == []
    {
      this.filename := filename;
      data := [];
    }

    /** Save: the upsert of the slimmed record, by a scan over the slice. */
    method Save(d: URLData)
      modifies this
      ensures data == Upsert(old(data), Slim(d))
    {
      var urlData := URLData(d.uuid, d.shortURL, d.originalURL, false, "", "");
      var i := 0;
      while i < |data|
        invariant 0 <= i <= |data| && data == old(data)
        invariant forall k :: 0 <= k < i ==> data[k].shortURL != urlData.shortURL
      {
        if data[i].shortURL == urlData.shortURL {
          FirstIndexIs(data, urlData.shortURL, i);
          data := data[i := urlData];
          return;
        }
        i := i + 1;
      }
      data := data + [urlData];
    }

    /** Get: the URL of the first record with that short code, or an error. */
    method Get(shortID: string) returns (originalURL: string, err: Option<string>)
      ensures FirstIndex(data, shortID).Some? ==>
        originalURL == data[FirstIndex(data, shortID).value].originalURL && err.None?
      ensures FirstIndex(data, shortID).None? ==> originalURL == "" && err == Some("URL not found")
    {
      var i := 0;
      while i < |data|
        invariant 0 <= i <= |data|
        invariant forall k :: 0 <= k < i ==> data[k].shortURL != shortID
      {
        if data[i].shortURL == shortID {
          FirstIndexIs(data, shortID, i);
          return data[i].originalURL, None;
        }
        i := i + 1;
      }
      return "", Some("URL not found");
    }

    /** Ping: always healthy. */
    method Ping() returns (err: Option<string>)
      ensures err.None?
    {
      return None;
    }
  }

  /** Round trip: what Save stores, Get returns. */
  method SaveThenGet(fs: FileStorage, d: URLData) returns (url: string, err: Option<string>)
    modifies fs
    ensures url == d.originalURL && err.None?
  {
    fs.Save(d);
    UpsertThenFind(old(fs.data), Slim(d));
    url, err := fs.Get(d.shortURL);
  }
}
