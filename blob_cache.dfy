/** The local download cache: blobs keyed by file name, written once on a
    miss and read back on every later request. The directory and the files
    are modelled as a map from file name to bytes; the network as a function
    from URL to bytes or a transport error. */
module BlobCache {
  import opened Wrappers
  import opened Errors

  newtype byte = x: int | 0 <= x < 256

  type Bytes = seq<byte>

  /** `_download`: the bytes behind a URL, or the error it raised. */
  type Downloader = string -> Result<Bytes, Error>

  /** What is on disk, and how many downloads have been attempted. */
  datatype CacheState = CacheState(store: map<string, Bytes>, downloads: nat)

  /** The cache-or-download step every fetcher runs: read the blob if the
      file exists; otherwise download it, write it, and use it. A failed
      download writes nothing. */
  function FetchStep(s: CacheState, key: string, url: string, download: Downloader): (r: (CacheState, Result<Bytes, Error>))
    ensures key in s.store ==> r == (s, Ok(s.store[key]))
    ensures key !in s.store ==> r.1 == download(url) && r.0.downloads == s.downloads + 1
    ensures key !in s.store && r.1.Ok? ==> r.0.store == s.store[key := r.1.value]
    ensures key !in s.store && r.1.Err? ==> r.0.store == s.store
  {
    if key in s.store then (s, Ok(s.store[key]))
    else match download(url)
      case Ok(b) => (CacheState(s.store[key := b], s.downloads + 1), Ok(b))
      case Err(e) => (CacheState(s.store, s.downloads + 1), Err(e))
  }

  /** A hit reads what is stored and touches neither the network nor the disk. */
  lemma HitDoesNotDownload(s: CacheState, key: string, url: string, download: Downloader)
    requires key in s.store
    ensures FetchStep(s, key, url, download) == (s, Ok(s.store[key]))
  {
  }

  /** A miss downloads exactly once; on success the blob is stored under the
      key and returned, on failure the error is returned and nothing is
      written. */
  lemma MissDownloadsOnce(s: CacheState, key: string, url: string, download: Downloader)
    requires key !in s.store
    ensures FetchStep(s, key, url, download).0.downloads == s.downloads + 1
    ensures download(url).Ok? ==>
      var (s', r) := FetchStep(s, key, url, download);
      r == download(url) && s'.store == s.store[key := download(url).value]
    ensures download(url).Err? ==>
      FetchStep(s, key, url, download) == (CacheState(s.store, s.downloads + 1), download(url))
  {
  }

  /** Write once: a stored blob is never changed or removed, and no key
      other than the requested one is ever written. */
  lemma WriteOnce(s: CacheState, key: string, url: string, download: Downloader)
    ensures var s' := FetchStep(s, key, url, download).0;
      && (forall k :: k in s.store ==> k in s'.store && s'.store[k] == s.store[k])
      && (forall k :: k in s'.store ==> k in s.store || k == key)
      && s.downloads <= s'.downloads <= s.downloads + 1
  {
  }

  /** What one cache-or-download step may do to the cache: at most one
      download, no file other than `key` touched, and nothing at all when
      `key` was already there. */
  ghost predicate OnlyWrites(s: CacheState, s': CacheState, key: string)
  {
    && s.downloads <= s'.downloads <= s.downloads + 1
    && (forall k :: k != key ==> (k in s'.store <==> k in s.store))
    && (forall k :: k in s.store ==> k in s'.store && s'.store[k] == s.store[k])
    && (key in s.store ==> s' == s)
  }

  lemma StepOnlyWrites(s: CacheState, key: string, url: string, download: Downloader)
    ensures OnlyWrites(s, FetchStep(s, key, url, download).0, key)
  {
  }

  /** A successful step leaves the returned blob stored under the key. */
  lemma OkIsStored(s: CacheState, key: string, url: string, download: Downloader)
    requires FetchStep(s, key, url, download).1.Ok?
    ensures var (s', r) := FetchStep(s, key, url, download);
      key in s'.store && s'.store[key] == r.value
  {
  }

  /** Re-fetching a key that was fetched successfully returns byte-identical
      content without a second download. */
  lemma RepeatIsIdentical(s: CacheState, key: string, url: string, url2: string, download: Downloader)
    requires FetchStep(s, key, url, download).1.Ok?
    ensures var (s1, r1) := FetchStep(s, key, url, download);
      FetchStep(s1, key, url2, download) == (s1, r1)
  {
  }

  /** The cache directory, as an object the fetchers update in place. */
  class Cache {
    var store: map<string, Bytes>
    var downloads: nat

    function Snapshot(): CacheState
      reads this
    {
      CacheState(store, downloads)
    }

    constructor (initial: map<string, Bytes>)
      ensures store == initial && downloads == 0
    {
      store := initial;
      downloads := 0;
    }

    /** The cache-or-download branch of a fetcher. */
    method Fetch(key: string, url: string, download: Downloader) returns (r: Result<Bytes, Error>)
      modifies this
      ensures (Snapshot(), r) == FetchStep(old(Snapshot()), key, url, download)
    {
      if key in store {
        r := Ok(store[key]);
      } else {
        r := download(url);
        downloads := downloads + 1;
        if r.Ok? {
          store := store[key := r.value];
        }
      }
    }
  }
}
