/** The pickle cache of autocog/cache.py. The files under
    `<repo_path>/.autocog/cache/` are a map from the repository and the
    cache name to the value pickled there; the wrapped function of
    `cached(cache_name)` is an oracle from the repository and the other
    arguments to what it returns or raises. */
module Cache {
  import opened Wrappers

  /** Where `Cache(repo_path, cache_name)` keeps its file. */
  datatype Key = Key(repoPath: string, cacheName: string)

  /** The store after `cached(name)` runs: an entry already there is
      kept, and otherwise `computed` is stored. */
  function Stored<V>(files: map<Key, V>, key: Key, computed: V): (r: map<Key, V>)
    ensures key in r && r.Keys == files.Keys + {key}
    ensures key in files ==> r == files
    ensures key !in files ==> r[key] == computed
    ensures forall k :: k in files ==> r[k] == files[k]
  {
    if key in files then files else files[key := computed]
  }

  /** The store after `purge_cache(repo_path)`. */
  function Purged<V>(files: map<Key, V>, repoPath: string): (r: map<Key, V>)
    ensures forall k :: k in r <==> k in files && k.repoPath != repoPath
    ensures forall k :: k in r ==> r[k] == files[k]
  {
    map k | k in files && k.repoPath != repoPath :: files[k]
  }

  /** The cache directories of all repositories, file by file. */
  class Store<V> {
    var files: map<Key, V>

    constructor (files: map<Key, V>)
      ensures this.files == files
    {
      this.files := files;
    }

    /** `Cache.exists`. */
    predicate Exists(key: Key)
      reads this
    {
      key in files
    }

    /** `Cache.read`: the value stored, or the error `open` raises. */
    method Read(key: Key) returns (r: Outcome<V>)
      ensures key in files ==> r == Returned(files[key])
      ensures key !in files ==> r.Raised? && r.error.kind == "FileNotFoundError"
    {
      if key in files {
        return Returned(files[key]);
      }
      return Raised(Exception("FileNotFoundError", "No such file or directory"));
    }

    /** `Cache.write`: the file is created or replaced. */
    method Write(key: Key, data: V)
      modifies this
      ensures files == old(files)[key := data]
    {
      files := files[key := data];
    }

    /** The wrapper of `cached(cacheName)` called with `repoPath` and the
        other arguments `args`: a stored value is returned without calling
        `func`; otherwise `func` is called once, and what it returns is
        stored and returned, while what it raises propagates and nothing
        is stored. `calls` is the number of calls of `func`. */
    method Cached<A>(cacheName: string, func: (string, A) -> Outcome<V>, repoPath: string, args: A)
      returns (r: Outcome<V>, calls: nat)
      modifies this
      ensures var key := Key(repoPath, cacheName);
        if key in old(files) then
          files == old(files) && r == Returned(old(files)[key]) && calls == 0
        else
          r == func(repoPath, args) && calls == 1 &&
          files == (if r.Returned? then Stored(old(files), key, r.value) else old(files))
    {
      var key := Key(repoPath, cacheName);
      if Exists(key) {
        r := Read(key);
        return r, 0;
      }
      r := func(repoPath, args);
      calls := 1;
      if r.Returned? {
        Write(key, r.value);
      }
    }

    /** `purge_cache(repoPath)`: the repository's cache directory goes, if
        there is one. */
    method PurgeCache(repoPath: string)
      modifies this
      ensures files == Purged(old(files), repoPath)
    {
      var kept := map k | k in files && k.repoPath != repoPath :: files[k];
      if exists k :: k in files && k.repoPath == repoPath {
        files := kept;
      } else {
        assert kept == files;
      }
    }
  }

  /** A second call with the same repository and name returns what the
      first left, without calling the function, whatever the arguments. */
  lemma CachedIdempotent<V>(files: map<Key, V>, key: Key, first: V, second: V)
    ensures var after := Stored(files, key, first);
      key in after && Stored(after, key, second) == after && after[key] == (if key in files then files[key] else first)
  {
  }

  /** The value returned depends on the key alone once it is stored: two
      calls with different arguments agree. */
  lemma KeyIgnoresArgs<V>(files: map<Key, V>, key: Key, a: V, b: V)
    requires key in files
    ensures Stored(files, key, a) == Stored(files, key, b) == files
  {
  }

  /** Purging is idempotent, and a no-op when the repository has no cache. */
  lemma PurgeIdempotent<V>(files: map<Key, V>, repoPath: string)
    ensures Purged(Purged(files, repoPath), repoPath) == Purged(files, repoPath)
    ensures (forall k :: k in files ==> k.repoPath != repoPath) ==> Purged(files, repoPath) == files
  {
  }

  /** After a purge an entry of that repository is computed afresh. */
  lemma PurgeThenCached<V>(files: map<Key, V>, repoPath: string, cacheName: string, computed: V)
    ensures Stored(Purged(files, repoPath), Key(repoPath, cacheName), computed)[Key(repoPath, cacheName)] == computed
  {
  }
}
