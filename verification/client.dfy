/**
 * The music player client session: the local `songs/` cache, the playlist
 * built from it, the now-playing index and the pause state of the player,
 * with the operations the client's buttons trigger.
 */
module Client {
  import opened Options
  import opened Paths
  import opened CacheSync
  import opened Playback
  import opened PlaylistTable

  /** No name occurs twice. */
  predicate Distinct(names: seq<string>) {
    forall i, j :: 0 <= i < j < |names| ==> names[i] != names[j]
  }

  /** `names` lists every element of `keys` exactly once, in some order. */
  ghost predicate Enumerates(names: seq<string>, keys: set<string>) {
    Distinct(names) && forall k :: k in names <==> k in keys
  }

  class MusicPlayer {
    /** The files of the local `songs/` directory. */
    var songs: Cache
    /** The file names loaded into the player, in playback order. */
    var playlist: seq<string>
    /** Position in `playlist` of the song playing. */
    var nowPlayingID: int
    /** Whether the player is paused. */
    var paused: bool
    /** Whether a player object exists (it is dropped while the cache is reloaded). */
    var hasPlayer: bool

    /** A running player whose index points into the playlist. */
    ghost predicate Valid()
      reads this
    {
      hasPlayer && 0 <= nowPlayingID < |playlist|
    }

    /** The state of the client before startup: no playlist, no player. */
    constructor (localSongs: Cache)
      requires Flat(localSongs)
      ensures songs == localSongs && playlist == [] && nowPlayingID == 0
      ensures !paused && !hasPlayer
    {
      songs := localSongs;
      playlist := [];
      nowPlayingID := 0;
      paused := false;
      hasPlayer := false;
    }

    /** The listing of `songs/`, in an order the file system chooses. */
    method ListSongFiles() returns (names: seq<string>)
      ensures Enumerates(names, songs.Keys)
      ensures |names| == |songs|
    {
      names := [];
      var rest := songs.Keys;
      while rest != {}
        invariant rest <= songs.Keys
        invariant Distinct(names)
        invariant forall k :: k in names <==> k in songs.Keys - rest
        invariant |names| + |rest| == |songs.Keys|
        decreases |rest|
      {
        var f :| f in rest;
        assert f !in names;
        names := names + [f];
        rest := rest - {f};
      }
    }

    /** syncPlaylist: fetch every listed song the cache lacks. */
    method SyncPlaylist(server: Server) returns (ok: bool)
      requires Flat(songs)
      modifies this`songs
      ensures SyncOutcome(songs, ok) == Sync(old(songs), server)
      ensures Flat(songs)
    {
      if server.listing.None? {
        return false;
      }
      var names := server.listing.value;
      ghost var start := songs;
      SyncKeepsFlat(start, names, server.download);
      var i := 0;
      while i < |names|
        invariant 0 <= i <= |names|
        invariant SyncNames(songs, names[i..], server.download) == SyncNames(start, names, server.download)
      {
        var s := names[i];
        assert names[i..][1..] == names[i + 1..];
        if s !in songs {
          match server.download(s)
          case Failed =>
            return false;
          case Null =>
            songs := songs[BaseName(s) := []];
            return false;
          case Data(data) =>
            songs := songs[BaseName(s) := data];
        }
        i := i + 1;
      }
      ok := true;
    }

    /** startPlayer: load the cache into a fresh playlist and play from its first song. */
    method StartPlayer()
      modifies this`playlist, this`nowPlayingID, this`paused, this`hasPlayer
      ensures Enumerates(playlist, songs.Keys) && |playlist| == |songs|
      ensures nowPlayingID == 0 && !paused && hasPlayer
      ensures Valid() <==> |songs| > 0
    {
      playlist := [];
      var entries := ListSongFiles();
      var i := 0;
      while i < |entries|
        invariant 0 <= i <= |entries|
        invariant playlist == entries[..i]
      {
        playlist := playlist + [entries[i]];
        i := i + 1;
      }
      hasPlayer := true;
      nowPlayingID := 0;
      paused := false;
    }

    /**
     * Sync the cache, then restart the player on it; a failed sync leaves
     * the playlist as it was and no player.
     */
    method SyncAndStart(server: Server) returns (ok: bool)
      requires Flat(songs)
      modifies this
      ensures SyncOutcome(songs, ok) == Sync(old(songs), server)
      ensures ok ==> Enumerates(playlist, songs.Keys) && nowPlayingID == 0 && !paused && hasPlayer
      ensures ok ==> (Valid() <==> |songs| > 0)
      ensures !ok ==> playlist == old(playlist) && nowPlayingID == old(nowPlayingID)
      ensures !ok ==> paused == old(paused) && hasPlayer == old(hasPlayer)
      ensures Flat(songs)
      ensures ok ==> forall s :: s in server.listing.value ==> (s in playlist <==> IsPlain(s))
    {
      ok := SyncPlaylist(server);
      if ok {
        StartPlayer();
        forall s | s in server.listing.value ensures s in playlist <==> IsPlain(s) {
          SyncCompleteExactly(old(songs), server.listing.value, server.download, s);
        }
      }
    }

    /** The play/pause button. */
    method PlayPause()
      requires hasPlayer
      modifies this`paused
      ensures paused == !old(paused)
    {
      paused := !paused;
    }

    /** The next button: resume playback and move to the following song. */
    method Next() returns (nowPlaying: string)
      requires Valid()
      modifies this`nowPlayingID, this`paused
      ensures Valid() && !paused
      ensures nowPlayingID == NextIndex(old(nowPlayingID), |playlist|)
      ensures nowPlaying == playlist[nowPlayingID]
    {
      if paused {
        paused := false;
      }
      if nowPlayingID == |playlist| - 1 {
        nowPlayingID := 0;
      } else {
        nowPlayingID := nowPlayingID + 1;
      }
      nowPlaying := playlist[nowPlayingID];
    }

    /** The previous button: resume playback and move to the preceding song. */
    method Previous() returns (nowPlaying: string)
      requires Valid()
      modifies this`nowPlayingID, this`paused
      ensures Valid() && !paused
      ensures nowPlayingID == PrevIndex(old(nowPlayingID), |playlist|)
      ensures nowPlaying == playlist[nowPlayingID]
    {
      if paused {
        paused := false;
      }
      if nowPlayingID == 0 {
        nowPlayingID := |playlist| - 1;
      } else {
        nowPlayingID := nowPlayingID - 1;
      }
      nowPlaying := playlist[nowPlayingID];
    }

    /**
     * The upload button.  `uploaded` says whether a file was chosen, read and
     * accepted by the server; `server` is the server after the upload.  With
     * no player the stop call fails and the handler gives up.
     */
    method Upload(uploaded: bool, server: Server) returns (ok: bool)
      requires Flat(songs)
      modifies this
      ensures Flat(songs)
      ensures !uploaded || !old(hasPlayer) ==>
        !ok && songs == old(songs) && playlist == old(playlist) &&
        nowPlayingID == old(nowPlayingID) && paused == old(paused) && hasPlayer == old(hasPlayer)
      ensures uploaded && old(hasPlayer) ==> SyncOutcome(songs, ok) == Sync(old(songs), server)
      ensures uploaded && old(hasPlayer) && ok ==>
        Enumerates(playlist, songs.Keys) && nowPlayingID == 0 && !paused && hasPlayer &&
        (Valid() <==> |songs| > 0)
      ensures uploaded && old(hasPlayer) && !ok ==>
        !hasPlayer && playlist == old(playlist) && nowPlayingID == old(nowPlayingID)
    {
      if !uploaded || !hasPlayer {
        return false;
      }
      hasPlayer := false;
      ok := SyncAndStart(server);
    }

    /**
     * The delete button: remove the song playing from the cache, ask the
     * server to delete it (`deleted` says whether that call succeeded;
     * `server` is the server after it), then reload as after an upload.
     */
    method Delete(deleted: bool, server: Server) returns (ok: bool)
      requires 0 <= nowPlayingID < |playlist|
      requires Flat(songs)
      modifies this
      ensures Flat(songs)
      ensures var rest := old(songs) - {old(playlist[nowPlayingID])};
        !deleted || !old(hasPlayer) ==>
          !ok && songs == rest && playlist == old(playlist) &&
          nowPlayingID == old(nowPlayingID) && paused == old(paused) && hasPlayer == old(hasPlayer)
      ensures var rest := old(songs) - {old(playlist[nowPlayingID])};
        deleted && old(hasPlayer) ==> SyncOutcome(songs, ok) == Sync(rest, server)
      ensures deleted && old(hasPlayer) && ok ==>
        Enumerates(playlist, songs.Keys) && nowPlayingID == 0 && !paused && hasPlayer &&
        (Valid() <==> |songs| > 0)
      ensures deleted && old(hasPlayer) && !ok ==>
        !hasPlayer && playlist == old(playlist) && nowPlayingID == old(nowPlayingID)
    {
      var name := playlist[nowPlayingID];
      songs := songs - {name};
      if !deleted || !hasPlayer {
        return false;
      }
      hasPlayer := false;
      ok := SyncAndStart(server);
    }

    /** configurePlaylist: the table data, one row per playlist entry. */
    method ConfigurePlaylist() returns (data: array2<string>)
      ensures data.Length0 == |playlist| && data.Length1 == 2
      ensures forall i :: 0 <= i < |playlist| ==>
        IsDecimal(data[i, 0]) && ParseDecimal(data[i, 0]) == i + 1 && (|data[i, 0]| > 1 ==> data[i, 0][0] != '0') &&
        data[i, 1] == playlist[i]
    {
      data := new string[|playlist|, 2];
      var i := 0;
      while i < |playlist|
        invariant 0 <= i <= |playlist|
        invariant forall k :: 0 <= k < i ==>
          IsDecimal(data[k, 0]) && ParseDecimal(data[k, 0]) == k + 1 && (|data[k, 0]| > 1 ==> data[k, 0][0] != '0') &&
          data[k, 1] == playlist[k]
      {
        var row := Row(i, playlist[i]);
        data[i, 0] := row[0];
        data[i, 1] := row[1];
        i := i + 1;
      }
    }
  }
}
