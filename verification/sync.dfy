/**
 * The client's cache synchronisation (MusicPlayer.syncPlaylist): for each
 * name the server lists, in listing order, a name already present in the
 * local `songs/` directory is skipped; any other name is downloaded and its
 * bytes are written under the name's base name.  A failed remote call ends
 * the routine, keeping what was written so far.
 */
module CacheSync {
  import opened Options
  import opened Paths

  newtype byte = x: int | 0 <= x < 256

  type Bytes = seq<byte>

  /** The local song cache: a flat directory, file name to file contents. */
  type Cache = map<string, Bytes>

  /**
   * The answer to downloadSong for one name: the file's bytes, a failed
   * remote call, or a null array.  A null array is noticed only after the
   * output file has been opened, so it leaves that file empty.
   */
  datatype Download = Data(bytes: Bytes) | Failed | Null

  /**
   * The remote file service as the sync routine sees it: the answer to
   * checkAvailableSongs (None when the call fails or returns null) and the
   * answer to downloadSong for each name.
   */
  datatype Server = Server(listing: Option<seq<string>>, download: string -> Download)

  /** The cache after a sync, and whether the sync ran to the end of the listing. */
  datatype SyncOutcome = SyncOutcome(cache: Cache, ok: bool)

  /** Every cached file sits directly in the cache directory. */
  predicate Flat(cache: Cache) {
    forall f :: f in cache ==> IsPlain(f)
  }

  /**
   * The loop of syncPlaylist over the remaining listed names.  No local
   * file is ever removed, whatever the outcome.
   */
  function SyncNames(cache: Cache, names: seq<string>, download: string -> Download): (r: SyncOutcome)
    ensures cache.Keys <= r.cache.Keys
    decreases |names|
  {
    if names == [] then SyncOutcome(cache, true)
    else if names[0] in cache then SyncNames(cache, names[1..], download)
    else match download(names[0])
      case Failed => SyncOutcome(cache, false)
      case Null => SyncOutcome(cache[BaseName(names[0]) := []], false)
      case Data(data) => SyncNames(cache[BaseName(names[0]) := data], names[1..], download)
  }

  /** syncPlaylist: list the server's songs, then fetch the missing ones. */
  function Sync(cache: Cache, server: Server): (r: SyncOutcome)
    ensures cache.Keys <= r.cache.Keys
    ensures server.listing.None? ==> r == SyncOutcome(cache, false)
    ensures r.ok ==> server.listing.Some?
  {
    match server.listing
    case None => SyncOutcome(cache, false)
    case Some(names) => SyncNames(cache, names, server.download)
  }

  /**
   * A local file keeps its contents unless some listed name that is missing
   * locally has that file's name as its base name.
   */
  lemma {:induction false} SyncKeepsUnshadowed(cache: Cache, names: seq<string>, download: string -> Download, f: string)
    requires f in cache
    requires forall s :: s in names && s !in cache ==> BaseName(s) != f
    ensures f in SyncNames(cache, names, download).cache
    ensures SyncNames(cache, names, download).cache[f] == cache[f]
    decreases |names|
  {
    if names != [] {
      assert names[0] in names;
      forall s | s in names[1..] ensures s in names { }
      if names[0] in cache {
        SyncKeepsUnshadowed(cache, names[1..], download, f);
      } else {
        match download(names[0])
        case Failed =>
        case Null =>
        case Data(data) =>
          var next := cache[BaseName(names[0]) := data];
          SyncKeepsUnshadowed(next, names[1..], download, f);
      }
    }
  }

  /** With plain listed names, every existing file keeps its contents. */
  lemma SyncPreservesExisting(cache: Cache, names: seq<string>, download: string -> Download)
    requires forall s :: s in names ==> IsPlain(s)
    ensures var r := SyncNames(cache, names, download).cache;
      forall f :: f in cache ==> f in r && r[f] == cache[f]
  {
    forall f | f in cache
      ensures f in SyncNames(cache, names, download).cache
      ensures SyncNames(cache, names, download).cache[f] == cache[f]
    {
      SyncKeepsUnshadowed(cache, names, download, f);
    }
  }

  /**
   * What a download leaves in the file it opened: its bytes, or nothing
   * when the server answered with a null array and the sync stopped.
   */
  predicate FetchedAs(d: Download, bytes: Bytes, ok: bool) {
    d == Data(bytes) || (!ok && d == Null && bytes == [])
  }

  /**
   * Every file that is new or changed holds exactly the downloaded bytes of
   * a listed name that was missing locally and whose base name it is; the
   * one exception is the empty file a null download leaves behind, which
   * ends the sync.
   */
  lemma {:induction false} SyncProvenance(cache: Cache, names: seq<string>, download: string -> Download)
    ensures var r := SyncNames(cache, names, download);
      forall f :: f in r.cache && (f !in cache || r.cache[f] != cache[f]) ==>
        exists s :: s in names && s !in cache && BaseName(s) == f && FetchedAs(download(s), r.cache[f], r.ok)
    decreases |names|
  {
    if names != [] {
      var r := SyncNames(cache, names, download);
      if names[0] in cache {
        SyncProvenance(cache, names[1..], download);
        forall f | f in r.cache && (f !in cache || r.cache[f] != cache[f])
          ensures exists s :: s in names && s !in cache && BaseName(s) == f && FetchedAs(download(s), r.cache[f], r.ok)
        {
          var s :| s in names[1..] && s !in cache && BaseName(s) == f && FetchedAs(download(s), r.cache[f], r.ok);
          assert s in names;
        }
      } else {
        match download(names[0])
        case Failed =>
        case Null =>
          assert names[0] in names;
        case Data(data) =>
          var b := BaseName(names[0]);
          var next := cache[b := data];
          SyncProvenance(next, names[1..], download);
          forall f | f in r.cache && (f !in cache || r.cache[f] != cache[f])
            ensures exists s :: s in names && s !in cache && BaseName(s) == f && FetchedAs(download(s), r.cache[f], r.ok)
          {
            if f in next && r.cache[f] == next[f] {
              assert f == b;
              assert names[0] in names;
            } else {
              var s :| s in names[1..] && s !in next && BaseName(s) == f && FetchedAs(download(s), r.cache[f], r.ok);
              assert s in names;
            }
          }
      }
    }
  }

  /** Every listed name missing from `cache` can be downloaded. */
  predicate MissingDownloadable(cache: Cache, names: seq<string>, download: string -> Download) {
    forall s :: s in names && s !in cache ==> download(s).Data?
  }

  /**
   * The sync runs to the end when every listed name missing locally
   * downloads; for plain listed names that is also the only way it does.
   * (With nested names a download can fail unnoticed: the name may already
   * have been written under its base name by an earlier entry.)
   */
  lemma {:induction false} SyncOkIff(cache: Cache, names: seq<string>, download: string -> Download)
    ensures MissingDownloadable(cache, names, download) ==> SyncNames(cache, names, download).ok
    ensures (forall s :: s in names ==> IsPlain(s)) ==>
      (SyncNames(cache, names, download).ok <==> MissingDownloadable(cache, names, download))
    decreases |names|
  {
    if names != [] {
      var s0 := names[0];
      assert s0 in names;
      if s0 in cache {
        SyncOkIff(cache, names[1..], download);
        assert MissingDownloadable(cache, names, download) <==> MissingDownloadable(cache, names[1..], download) by {
          forall s | s in names ensures s == s0 || s in names[1..] { }
        }
      } else {
        match download(s0)
        case Failed =>
        case Null =>
        case Data(data) =>
          var next := cache[BaseName(s0) := data];
          SyncOkIff(next, names[1..], download);
          if MissingDownloadable(cache, names, download) {
            forall s | s in names[1..] && s !in next ensures download(s).Data? {
              assert s in names;
            }
          } else if forall s :: s in names ==> IsPlain(s) {
            var s :| s in names && s !in cache && !download(s).Data?;
            assert s != s0;
            assert BaseName(s0) == s0;
            assert s in names[1..] && s !in next;
          }
      }
    }
  }

  /** After a complete sync, each listed name is present itself or under its base name. */
  lemma {:induction false} SyncComplete(cache: Cache, names: seq<string>, download: string -> Download)
    requires SyncNames(cache, names, download).ok
    ensures var r := SyncNames(cache, names, download).cache;
      forall s :: s in names ==> s in r || BaseName(s) in r
    decreases |names|
  {
    if names != [] {
      var r := SyncNames(cache, names, download).cache;
      if names[0] in cache {
        SyncComplete(cache, names[1..], download);
      } else {
        match download(names[0])
        case Data(data) =>
          var next := cache[BaseName(names[0]) := data];
          SyncComplete(next, names[1..], download);
      }
      forall s | s in names ensures s in r || BaseName(s) in r {
        if s != names[0] { assert s in names[1..]; }
      }
    }
  }

  /** A flat cache stays flat: files are only written under base names. */
  lemma {:induction false} SyncKeepsFlat(cache: Cache, names: seq<string>, download: string -> Download)
    requires Flat(cache)
    ensures Flat(SyncNames(cache, names, download).cache)
    decreases |names|
  {
    if names != [] {
      if names[0] in cache {
        SyncKeepsFlat(cache, names[1..], download);
      } else {
        match download(names[0])
        case Failed =>
        case Null =>
        case Data(data) => SyncKeepsFlat(cache[BaseName(names[0]) := data], names[1..], download);
      }
    }
  }

  /**
   * Completeness holds exactly for the listed names with no directory part:
   * after a complete sync of a flat cache, a listed name is present locally
   * if and only if it is plain.
   */
  lemma SyncCompleteExactly(cache: Cache, names: seq<string>, download: string -> Download, s: string)
    requires Flat(cache)
    requires SyncNames(cache, names, download).ok
    requires s in names
    ensures s in SyncNames(cache, names, download).cache <==> IsPlain(s)
  {
    SyncComplete(cache, names, download);
    SyncKeepsFlat(cache, names, download);
  }

  /** With plain listed names, each one missing locally is written with exactly its downloaded bytes. */
  lemma {:induction false} SyncWritesDownloads(cache: Cache, names: seq<string>, download: string -> Download)
    requires SyncNames(cache, names, download).ok
    requires forall s :: s in names ==> IsPlain(s)
    ensures var r := SyncNames(cache, names, download).cache;
      forall s :: s in names && s !in cache ==> s in r && download(s) == Data(r[s])
    decreases |names|
  {
    if names != [] {
      var r := SyncNames(cache, names, download).cache;
      if names[0] in cache {
        SyncWritesDownloads(cache, names[1..], download);
        forall s | s in names && s !in cache ensures s in r && download(s) == Data(r[s]) {
          assert s in names[1..];
        }
      } else {
        match download(names[0])
        case Data(data) =>
          var s0 := names[0];
          var next := cache[s0 := data];
          assert BaseName(s0) == s0;
          SyncWritesDownloads(next, names[1..], download);
          SyncKeepsUnshadowed(next, names[1..], download, s0);
          forall s | s in names && s !in cache ensures s in r && download(s) == Data(r[s]) {
            if s != s0 { assert s in names[1..]; }
          }
      }
    }
  }

  /** A sync over names that are all present changes nothing. */
  lemma {:induction false} SyncAllPresent(cache: Cache, names: seq<string>, download: string -> Download)
    requires forall s :: s in names ==> s in cache
    ensures SyncNames(cache, names, download) == SyncOutcome(cache, true)
    decreases |names|
  {
    if names != [] {
      assert names[0] in names;
      SyncAllPresent(cache, names[1..], download);
    }
  }

  /** With plain listed names, a second complete sync downloads and changes nothing. */
  lemma SyncIdempotent(cache: Cache, names: seq<string>, download: string -> Download)
    requires SyncNames(cache, names, download).ok
    requires forall s :: s in names ==> IsPlain(s)
    ensures var r := SyncNames(cache, names, download).cache;
      SyncNames(r, names, download) == SyncOutcome(r, true)
  {
    var r := SyncNames(cache, names, download).cache;
    SyncComplete(cache, names, download);
    SyncAllPresent(r, names, download);
  }

  /**
   * The presence check and the write disagree for a nested name: listing
   * "sub/a.mp3" checks for a local "sub/a.mp3" but replaces the local "a.mp3".
   */
  lemma SyncOverwritesThroughBaseName(local: Bytes, remote: Bytes)
    ensures var r := SyncNames(map["a.mp3" := local], ["sub/a.mp3"], _ => Data(remote));
      r.ok && r.cache == map["a.mp3" := remote]
  {
    BaseNameOfNestedPath("sub", "a.mp3");
    assert "sub" + "/" + "a.mp3" == "sub/a.mp3";
  }

  /**
   * A nested name can hide a failed download: after "sub/a.mp3" is written as
   * "a.mp3", the listed "a.mp3" counts as present and is never fetched.
   */
  lemma SyncSkipsShadowedName(remote: Bytes)
    ensures var r := SyncNames(map[], ["sub/a.mp3", "a.mp3"],
                               s => if s == "sub/a.mp3" then Data(remote) else Failed);
      r.ok && r.cache == map["a.mp3" := remote]
  {
    BaseNameOfNestedPath("sub", "a.mp3");
    assert "sub" + "/" + "a.mp3" == "sub/a.mp3";
  }

  /**
   * A null download truncates the local file of that base name and ends the
   * sync; a later sync then counts the empty file as present.
   */
  lemma SyncNullLeavesEmptyFile(local: Bytes)
    ensures var r := SyncNames(map["a.mp3" := local], ["sub/a.mp3"], _ => Null);
      !r.ok && r.cache == map["a.mp3" := []] &&
      SyncNames(r.cache, ["a.mp3"], _ => Null) == SyncOutcome(r.cache, true)
  {
    BaseNameOfNestedPath("sub", "a.mp3");
    assert "sub" + "/" + "a.mp3" == "sub/a.mp3";
  }
}
