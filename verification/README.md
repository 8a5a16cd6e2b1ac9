# MusicPlayer client session, modelled in Dafny

This project models the client side of a two-tier music player (`MusicPlayer.java`),
without its Swing, RMI and MP3 glue. The client keeps a local `songs/` cache of MP3 files.
It reconciles that cache with the song library of a remote file service, then plays the
cached files as a looping playlist.

- `Paths` models `java.io.File.getName()` on Unix paths (`BaseName`).
- `CacheSync` models `syncPlaylist` as a function over the cache (a map from file name to
  bytes) and a server (a listing plus a download function, each of which may fail). Its
  lemmas say what a sync keeps, what it writes, and when it completes.
- `Playback` holds the next/previous index arithmetic with wraparound.
- `PlaylistTable` holds the row data of the playlist table, with `String.valueOf` written
  out as a decimal-digit function that has a parse round trip.
- `Client.MusicPlayer` is a class whose fields are the client's static state: the cache
  directory, `playlist`, `nowPlayingID`, the pause state of the player, and whether a player
  object exists. Its methods are the button handlers, `syncPlaylist`, `startPlayer` and
  `configurePlaylist`. Each is proved against the functions above.

The sync routine checks whether a file is present under `songs/` + the listed name. It
writes the file under the listed name's base name. The two agree exactly for names with no
directory part. The model keeps both, so the lemmas can state the consequences:

- For a flat cache, after a complete sync a listed name is present locally if and only if
  it has no directory part (`SyncCompleteExactly`).
- Existing files keep their contents unless a missing listed name has the same base name
  (`SyncKeepsUnshadowed`). The code's own comment promises only to download missing
  songs, but for a nested name the write replaces an unrelated local file of the same base
  name (`SyncOverwritesThroughBaseName`).
- A failed download can go unnoticed when an earlier nested name already wrote the same
  base name (`SyncSkipsShadowedName`).
- A download answered with a null array opens, and so empties, the local file before the
  write fails. The sync stops there, and later syncs count the empty file as present
  (`SyncNullLeavesEmptyFile`).

Directory-enumeration order is unspecified. The model reads the cache's keys in an order
picked by nondeterministic choice (`ListSongFiles`). So nothing proved depends on that order.

An empty cache gives an empty playlist. In the code, that case fails when the table
highlights row 0 (line 125), before the "Now Playing" label is read (line 153). The model
records it as `Valid()` being false after `StartPlayer` exactly when the cache is empty.
The handlers that index the playlist require `Valid()`.

## Model

| member | source | states |
|---|---|---|
| `Paths.BaseName` | MusicPlayer/src/MusicPlayer.java:76 | the name a downloaded file is written under has no directory part, and a name without one is written under itself |
| `Paths.LastSegment` | MusicPlayer/src/MusicPlayer.java:76 | the part after the last separator has no separator, and a separator-free name is its own last part |
| `Paths.LastSegmentIsLongestPlainSuffix` | MusicPlayer/src/MusicPlayer.java:76 | the last part is the longest separator-free suffix of the path |
| `Paths.StripTrailingSlashes` | MusicPlayer/src/MusicPlayer.java:76 | the result is a prefix of the path that does not end in a separator, and only separators were dropped |
| `Paths.BaseNameOfNestedPath` | MusicPlayer/src/MusicPlayer.java:72-76 | a listed `dir/name` is written as `name`, while the presence check looked for `dir/name` |
| `CacheSync.SyncNames` | MusicPlayer/src/MusicPlayer.java:71-80 | the loop over the listing skips present names, writes each missing one under its base name, stops at a failed or null download, and never removes a local file |
| `CacheSync.Sync` | MusicPlayer/src/MusicPlayer.java:69-81 | syncPlaylist never removes a local file; a failed listing call changes nothing and fails; success implies the listing was obtained |
| `CacheSync.SyncKeepsUnshadowed` | MusicPlayer/src/MusicPlayer.java:72-77 | a local file keeps its bytes unless a missing listed name has it as base name |
| `CacheSync.SyncPreservesExisting` | MusicPlayer/src/MusicPlayer.java:72-73 | with plain listed names, every existing file is kept with unchanged contents |
| `CacheSync.SyncProvenance` | MusicPlayer/src/MusicPlayer.java:74-77 | every new or changed file holds exactly the downloaded bytes of a listed, locally missing name whose base name it is, except the empty file a null download leaves in a failed sync |
| `CacheSync.SyncOkIff` | MusicPlayer/src/MusicPlayer.java:71-74 | a sync completes if every missing listed name downloads, and for plain names only then |
| `CacheSync.SyncComplete` | MusicPlayer/src/MusicPlayer.java:71-80 | after a complete sync each listed name is present locally, itself or under its base name |
| `CacheSync.SyncKeepsFlat` | MusicPlayer/src/MusicPlayer.java:76 | a sync writes only into the cache directory itself |
| `CacheSync.SyncCompleteExactly` | MusicPlayer/src/MusicPlayer.java:71-80 | after a complete sync of a flat cache, a listed name is present locally if and only if it has no directory part |
| `CacheSync.SyncWritesDownloads` | MusicPlayer/src/MusicPlayer.java:74-77 | with plain names, each missing listed name is stored with exactly all of its downloaded bytes |
| `CacheSync.SyncAllPresent` | MusicPlayer/src/MusicPlayer.java:72-73 | a sync whose listed names are all present downloads nothing and changes nothing |
| `CacheSync.SyncIdempotent` | MusicPlayer/src/MusicPlayer.java:71-80 | with plain names, a second sync after a complete one changes nothing |
| `CacheSync.SyncNullLeavesEmptyFile` | MusicPlayer/src/MusicPlayer.java:72-77 | a null download empties the local file of that base name and fails the sync, and a later sync skips the empty file as present |
| `CacheSync.SyncOverwritesThroughBaseName` | MusicPlayer/src/MusicPlayer.java:72-76 | listing `sub/a.mp3` replaces an existing local `a.mp3` |
| `CacheSync.SyncSkipsShadowedName` | MusicPlayer/src/MusicPlayer.java:72-76 | after `sub/a.mp3` is written as `a.mp3`, a listed `a.mp3` is never fetched, so its failing download goes unnoticed |
| `Playback.NextIndex` | MusicPlayer/src/MusicPlayer.java:229-232 | next keeps the index in `[0, len)` and equals `(i + 1) mod len` |
| `Playback.PrevIndex` | MusicPlayer/src/MusicPlayer.java:251-254 | previous keeps the index in `[0, len)` and equals `(i - 1) mod len` |
| `Playback.PrevAfterNext` | MusicPlayer/src/MusicPlayer.java:229-254 | previous after next restores the index |
| `Playback.NextAfterPrev` | MusicPlayer/src/MusicPlayer.java:229-254 | next after previous restores the index |
| `Playback.Advance` | MusicPlayer/src/MusicPlayer.java:229-232 | any number of next presses keeps the index in range |
| `Playback.AdvanceIsModular` | MusicPlayer/src/MusicPlayer.java:229-232 | `k` next presses move the index to `(i + k) mod len` |
| `Playback.FullCycle` | MusicPlayer/src/MusicPlayer.java:229-232 | `len` next presses return to the same song, and no smaller positive number does |
| `PlaylistTable.DecimalString` | MusicPlayer/src/MusicPlayer.java:113 | `String.valueOf` of a non-negative int is a non-empty digit string without a leading zero |
| `PlaylistTable.DecimalRoundTrip` | MusicPlayer/src/MusicPlayer.java:113 | reading the row number back gives the number written |
| `PlaylistTable.DecimalStringInjective` | MusicPlayer/src/MusicPlayer.java:113 | different rows get different numbers |
| `PlaylistTable.Row` | MusicPlayer/src/MusicPlayer.java:113-114 | row `i` has two cells: `i + 1` in canonical decimal (digits only, no leading zero) and the playlist entry |
| `Client.MusicPlayer.constructor` | MusicPlayer/src/MusicPlayer.java:39-42 | before startup the cache is the (flat) `songs/` directory, there is no playlist, the index is 0 and there is no player |
| `Client.MusicPlayer.ListSongFiles` | MusicPlayer/src/MusicPlayer.java:92 | the directory listing holds each cached file exactly once |
| `Client.MusicPlayer.SyncPlaylist` | MusicPlayer/src/MusicPlayer.java:69-81 | the loop leaves the cache and the outcome the sync function gives, stopping at the first failed remote call |
| `Client.MusicPlayer.StartPlayer` | MusicPlayer/src/MusicPlayer.java:89-99 | the playlist lists every cached file exactly once, the index is 0, playback runs, and the state is valid exactly when the cache is non-empty |
| `Client.MusicPlayer.SyncAndStart` | MusicPlayer/src/MusicPlayer.java:145-147 | sync then restart: on success the playlist enumerates the synced cache from index 0, a player exists, and of the listed names the playlist holds exactly the plain ones; on failure the playlist is untouched; the cache stays flat |
| `Client.MusicPlayer.PlayPause` | MusicPlayer/src/MusicPlayer.java:203-216 | the play button flips the paused state |
| `Client.MusicPlayer.Next` | MusicPlayer/src/MusicPlayer.java:219-238 | next unpauses, moves the index by `NextIndex`, keeps it valid and reports the song now playing |
| `Client.MusicPlayer.Previous` | MusicPlayer/src/MusicPlayer.java:241-260 | previous unpauses, moves the index by `PrevIndex`, keeps it valid and reports the song now playing |
| `Client.MusicPlayer.Upload` | MusicPlayer/src/MusicPlayer.java:263-286 | a successful upload re-syncs and restarts with a new player at index 0; a cancelled or failed one, or one with no player, changes nothing; a failed re-sync leaves no player |
| `Client.MusicPlayer.Delete` | MusicPlayer/src/MusicPlayer.java:289-308 | the playing song's file is removed locally; if the server delete succeeds, the session re-syncs from there and restarts with a new player at index 0; a failed re-sync leaves no player |
| `Client.MusicPlayer.ConfigurePlaylist` | MusicPlayer/src/MusicPlayer.java:108-115 | the table has one row per playlist entry; row `i` reads `i + 1` in canonical decimal and `playlist[i]` |

## Left out

- Window layout, fonts, the JTable and JScrollPane setup, column headers, the file chooser, button labels, the "Now Playing" label and the row highlight (lines 111, 116-127, 140-200, 208, 213, 224, 234-236, 246, 256-258, 278, 301): presentation only.
- The MP3 playback library (`play`, `pause`, `skipForward`, `skipBackward`, `setRepeat`, `stop`, `addToPlayList`): its internals are not visible. The model keeps only the paused flag and whether a player object exists.
- The RMI lookup (line 138) and album-art fetching and decoding (lines 54-60, 142): foreign calls.
- `FileInterface.java` declares only the remote signatures, and the server implementation is not part of this model. The server is a parameter: a listing and a download answer per name, each of which may fail. An upload or server-side delete is visible only through the server state passed in afterwards. Upload/download round trip and idempotent delete are therefore not stated.
- Real file I/O: the cache is a map. Local write failures are not modelled, so a write always stores all the downloaded bytes. (A null answer from `downloadSong` is modelled: it leaves an empty file and fails the sync.) A failed local delete leaves the file, and the model does not cover that case either.
- The presence check `new File("songs/" + s).exists()` is modelled as key membership of the listed name. Operating-system path resolution is not modelled: trailing or doubled separators, `.` and `..`, the empty name resolving to the directory itself, and names leading outside the cache.
- `BaseName` follows Unix `java.io.File` with `/` as separator. Windows separators are not modelled.
- `listFiles()` returning null for a missing directory, and subdirectories inside `songs/`, are not modelled. The cache is flat: the constructor requires it, and every operation keeps it.
- Exception printing in the upload and delete handlers (lines 280-283, 303-306). Their failure paths are modelled as boolean outcomes.
- `Client.MusicPlayer.Next`, `Client.MusicPlayer.Previous` and `Client.MusicPlayer.PlayPause` require a player object (and, for next and previous, an index inside a non-empty playlist). `Client.MusicPlayer.Delete` requires the index to be in range. Without these, the handlers throw an exception at lines 206, 222, 229-234, 244, 251-256 or 291. Any partial effect of such an exception is not modelled, for example next on an empty playlist stepping the index to 1.
- Java's 32-bit `int` for the index and the row numbers is modelled as unbounded: playlists of 2^31 or more songs are not covered.
