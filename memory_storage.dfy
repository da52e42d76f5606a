// MemoryStorage of internal/storage/memoryStorage.go: a map from short code to
// original URL.  Save files a record under the part of its ShortURL after the
// last '/', so a full short link and a bare code land on the same key.
module MemoryBackend {
  import opened Models

  /** strings.LastIndex(s, "/"): the position of the last '/', or -1. */
  function LastSlash(s: string): (i: int)
    ensures -1 <= i < |s|
    ensures i >= 0 ==> s[i] == '/'
    ensures forall k :: i < k < |s| ==> s[k] != '/'
    decreases |s|
  {
    if |s| == 0 then -1
    else if s[|s| - 1] == '/' then |s| - 1
    else LastSlash(s[..|s| - 1])
  }

  /** The key Save uses: the suffix after the last '/', or the whole string
      when there is none. */
  function ShortKey(shortURL: string): (key: string)
    ensures |key| <= |shortURL| && shortURL[|shortURL| - |key|..] == key
    ensures forall k :: 0 <= k < |key| ==> key[k] != '/'
    ensures |key| < |shortURL| ==> shortURL[|shortURL| - |key| - 1] == '/'
  {
    shortURL[LastSlash(shortURL) + 1..]
  }

  /** A full short link is filed under its bare code, and a bare code under
      itself, whenever the code holds no '/'. */
  lemma ShortKeyOfLink(base: string, code: string)
    requires forall k :: 0 <= k < |code| ==> code[k] != '/'
    ensures ShortKey(ShortLink(base, code)) == code
    ensures ShortKey(code) == code
  {
  }

  class MemoryStorage {
    var data: map<string, string>

    /** NewMemoryStorage: an empty map. */
    constructor ()
      ensures data == map[]
    {
      data := map[];
    }

    /** Save: overwrite the entry under the record's key; never fails. */
    method Save(d: URLData) returns (err: Option<string>)
      modifies this
      ensures data == old(data)[ShortKey(d.shortURL) := d.originalURL]
      ensures err.None?
    {
      var shortID := ShortKey(d.shortURL);
      data := data[shortID := d.originalURL];
      return None;
    }

    /** Get: the stored URL, or "" with a "not found" error. */
    method Get(shortURL: string) returns (originalURL: string, err: Option<string>)
      ensures shortURL in data ==> originalURL == data[shortURL] && err.None?
      ensures shortURL !in data ==> originalURL == "" && err == Some("not found")
    {
      if shortURL !in data {
        return "", Some("not found");
      }
      return data[shortURL], None;
    }

    /** Ping: nothing to reach, always healthy. */
    method Ping() returns (err: Option<string>)
      ensures err.None?
    {
      return None;
    }
  }

  /** The round trip the storage tests rely on: what Save files under a key,
      Get returns, and every other key keeps its entry. */
  method SaveThenGet(ms: MemoryStorage, d: URLData, other: string) returns (url: string, err: Option<string>)
    requires other != ShortKey(d.shortURL)
    modifies ms
    ensures url == d.originalURL && err.None?
    ensures other in ms.data <==> other in old(ms.data)
    ensures other in ms.data ==> ms.data[other] == old(ms.data)[other]
  {
    var _ := ms.Save(d);
    url, err := ms.Get(ShortKey(d.shortURL));
  }
}
