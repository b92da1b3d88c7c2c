# navicon library cache, modelled in Dafny

navicon is a terminal client for a Subsonic music server. Its library layer
keeps an in-memory cache of the server's catalogue. The cache has two maps:

- an entry map from server id to entry. An entry holds the item (an artist,
  an album or a song), an optional parent id, and an ordered list of child ids;
- an index map from alphabetic index name to a set of artist ids.

The maps are filled by ingesting response pages: the artist listing, one
artist's album list, and one album's song list. They are read by parent
lookup, by per-kind case-insensitive substring search, and by point lookup.
Songs are displayed as `track: title [m:ss]`.

The library exists in three revisions. This model keeps them as separate
modules:

- `src/library/cache.rs`: `LibraryCache`, which ingests a page it is given.
  Modelled by `Cache.LibraryCache`.
- `src/library.rs`: an older `Library`. It fetches each page through the
  connection, then runs the same ingest loops itself. Modelled by
  `LegacyLibrary.Library`.
- `src/library/mod.rs`: `Library`. It owns the connection and a
  `LibraryCache`, fetches the page, and hands it to the cache. Modelled by
  `Library.Library`.

All three revisions share one datatype layer:

- `Items`: artist, album, song, item, entry, and the `Display` text of songs
  and items.
- `SearchStrings`: `SearchString`.
- `Decimal`: integer formatting.
- `Subsonic`: the response fields the ingest reads, and the connection.

They also share one pure specification:

- `Writes`: a run of `HashMap::insert` calls.
- `Ingest`: what each `update_*` does to the two maps.
- `Lookup`: the read-only queries.

Each class method that has a loop is proved to leave its maps equal to the
matching `Ingest` function of the old maps. The properties the source
implies for ingest are lemmas about those functions. They cover which keys
exist, what each key holds, order of children, last write wins, nothing
removed, and untouched keys unchanged.

The constructors set up the class invariant `Valid()`. The `Update*` methods
and the outer root loop `InsertGroups` keep it. The inner loops are helpers of
those methods. `InsertIndexArtists` keeps only the first part of the
invariant. `InsertAlbums` and `InsertSongs` state only the writes they make.
The method around each of them restores `Valid()`, using the `Ingest` lemmas.
The invariant has two parts. First, each stored search form is the lower-cased display form.
Second, every id that an index lists has an entry
(`Ingest.IndexesReferenceEntries`). The second part claims only that the key
is present. A later album or song page with the same id can overwrite an
artist's entry with another kind of item.

The model follows the code where the code has quirks:

- `update_album` stores the album's own entry with parent `None`. After an
  album is browsed, it no longer appears among its artist's children
  (`Ingest.AlbumListingDetachesAlbum`).
- `get_children` scans parent pointers. The `children` lists that ingest
  writes are never read (`Lookup.ChildrenIgnoreChildLists`).
- `update_artist` and `update_album` file the children under the requested
  id. They store the parent's own entry under the id in the response. The two
  ids may differ, and the model keeps them apart.
- When a page lists an id twice, the later entry overwrites the earlier one.
  The lemmas name the last occurrence.

`HashMap` iteration order is unspecified. So `get_children` and the `find_*`
queries yield sets of keys. Rust's `Vec` of distinct keys becomes a Dafny
`set`.

None of the three files has a `get_children` that returns an `Option` to
tell "not fetched" apart from "no children". None has a fetch-at-most-once
resolve operation or a request/event channel. So the model has none either.
A parent that no entry points to looks the same to `get_children` as one
that was never browsed. An entry's own child list does not decide what
`get_children` returns. For example, re-reading the root resets an artist's
child list to empty, but the albums that an earlier `update_artist` filed
under that artist keep their parent pointer and are still its children.

## Model

| member | source | states |
|---|---|---|
| SearchStrings.LowerChar | src/library.rs:229 | ASCII upper-case letters map to their lower-case letter; every other character is unchanged; the result is never an upper-case letter |
| SearchStrings.Lower | src/library.rs:229 | `to_lowercase` keeps the length and lower-cases each character in place |
| SearchStrings.LowerIdempotent | src/library.rs:229 | lower-casing an already lower-cased string changes nothing |
| SearchStrings.IsSubstringIff | src/library.rs:220-222 | the left-to-right scan used for `str::contains` is true exactly when the needle occurs at some position of the text |
| SearchStrings.From | src/library.rs:225-238 | `SearchString::from(s)` displays as `s`, its search form is the lower-cased `s`, and the two forms stay coherent |
| SearchStrings.ShowDisplayOnly | src/library.rs:234-238 | `Display` for `SearchString` writes the display form only: the search form never changes the shown text, and a coherent value's shown text lower-cases to its search form |
| SearchStrings.Contains | src/library.rs:220-222 | `contains` holds exactly when the other value's search form occurs at some position of this value's search form |
| SearchStrings.ContainsQuery | src/library.rs:220-232 | a coherent search string contains `From(q)` exactly when lower-cased `q` occurs in its lower-cased display text |
| SearchStrings.ContainsIgnoresQueryCase | src/library/mod.rs:121-134 | a query and its lower-cased form match the same strings |
| SearchStrings.ContainsIgnoresTextCase | src/library/mod.rs:121-134 | a text and its lower-cased form are matched by the same queries |
| SearchStrings.EmptyQueryMatches | src/library.rs:220-222 | the empty query is contained in every search string |
| SearchStrings.MissingCharNotSubstring | src/library.rs:220-222 | a query with a character the text lacks is never contained in it |
| SearchStrings.MatchExample | src/library/mod.rs:121-134 | "First Light" is matched by "first" and by "LIGHT" and not by "second" |
| SearchStrings.LowerExample | src/library.rs:229 | lower-casing examples used by the match example |
| Decimal.Digits | src/library.rs:205-208 | `{}` of an unsigned integer is a non-empty digit string with no leading zero; it is one digit exactly when the number is below 10 |
| Decimal.DigitsRoundTrip | src/library.rs:205-208 | reading the written digits back gives the number |
| Decimal.Pad2 | src/library.rs:205-209 | `{:02}` writes digits only, at least two of them, and exactly two for numbers below 100. A number below 10 gets one leading `0` before its `{}` digits. Any larger number is written exactly as `{}` writes it |
| Decimal.Pad2RoundTrip | src/library.rs:205-209 | the zero-padded field reads back as the number |
| Items.TrackOf | src/library.rs:206 | a missing track number is displayed as 0, a present one as itself |
| Items.DurationOf | src/library.rs:208-209 | a missing duration is displayed as 0, a present one as itself |
| Items.DurationField | src/library/mod.rs:107-111 | the duration field is the `{}` digits of `d / 60` (no leading zero), a colon, and the `{:02}` field of `d % 60`. The minutes read back as `d / 60`, and the seconds as `d % 60`, which is below 60 |
| Items.DurationRoundTrip | src/library/mod.rs:103-114 | reading minutes and seconds back from the duration field gives the duration |
| Items.SongText | src/library.rs:201-212 | the song line is, in order and with nothing else, the track field, `": "`, the title's display form, `" ["`, the duration field and `]`; its length is the sum of the three fields' lengths plus 5 |
| Items.SongTextReadBack | src/library.rs:201-212 | the song line has that layout around the song's title, its track field reads back as the track number and its duration field as the duration, a missing one reading as 0 |
| Items.SongTextExample | src/library/mod.rs:103-114 | track 3, 125 seconds and title `t` display as `3: t [2:05]` |
| Items.ItemText | src/library/mod.rs:79-87 | an artist or album displays its name's display form; a song displays its song line |
| Lookup.ChildrenOf | src/library/cache.rs:45-51 | `get_children(p)` is exactly the keys whose entry's parent equals `p` |
| Lookup.FindArtist | src/library/cache.rs:53-66 | exactly the artist entries whose name contains the query |
| Lookup.FindAlbum | src/library/cache.rs:103-116 | exactly the album entries whose name contains the query |
| Lookup.FindSong | src/library/cache.rs:155-168 | exactly the song entries whose title contains the query |
| Lookup.FindEntry | src/library/cache.rs:170-181 | exactly the entries whose name or title contains the query |
| Lookup.GetItem | src/library/cache.rs:183-185 | `Some` exactly when the key is present, holding that entry's item |
| Lookup.FindEntryIsUnion | src/library/cache.rs:53-181 | `find_entry` equals the union of `find_artist`, `find_album` and `find_song` |
| Lookup.FindKindsDisjoint | src/library.rs:140-153 | `find_song` never yields an artist or album key; the three per-kind searches share no key |
| Lookup.FindEntryIgnoresCase | src/library/cache.rs:170-181 | over coherent entries, a key is found exactly when lower-cased `q` occurs in the lower-cased displayed name or title |
| Lookup.FindKindsIgnoreCase | src/library/cache.rs:53-168 | over coherent entries, `find_artist`, `find_album` and `find_song` each find exactly the keys of their kind whose lower-cased displayed name or title contains lower-cased `q` |
| Lookup.FindEntryEmptyQuery | src/library/cache.rs:170-181 | the empty query finds every key |
| Lookup.ChildrenIgnoreChildLists | src/library/cache.rs:45-51 | children depend on keys and parent pointers only, never on the stored `children` lists |
| Writes.ApplyWrites | src/library/cache.rs:22-153 | a run of `HashMap::insert` calls keeps every old key, and the key of the run's final insert holds that insert's value |
| Writes.ApplyWritesKeys | src/library/cache.rs:22-153 | after a run of inserts the keys are the old keys plus the written ones: nothing is removed |
| Writes.ApplyWritesUntouched | src/library/cache.rs:22-153 | a key no insert names keeps its old value, or stays absent |
| Writes.ApplyWritesLast | src/library/cache.rs:28-37 | a written key holds the value of the last insert to it |
| Writes.ApplyWritesAppend | src/library/cache.rs:24-40 | inserting one run and then another is inserting their concatenation |
| Ingest.IngestRoot | src/library/cache.rs:22-43 | without an artist listing the state is unchanged; otherwise no entry key and no index name is lost |
| Ingest.PageArtistsListed | src/library/cache.rs:24-26 | an artist is ingested exactly when some index group of the page lists it |
| Ingest.IngestRootEntries | src/library/cache.rs:24-37 | after `update_root` every listed artist id is an entry with parent `None`, no children and the artist item of its last listing; keys not listed keep their entry |
| Ingest.IngestRootIndexes | src/library/cache.rs:24-39 | each index name on the page maps to exactly the ids of its last group of that name; other names keep their old set |
| Ingest.IngestRootChildren | src/library/cache.rs:22-51 | after `update_root` the children of `None` gain the listed artists; listed artists leave other parents; nothing else moves |
| Ingest.IngestArtist | src/library/cache.rs:68-101 | without an artist page the state is unchanged; indexes are never changed; no key is lost |
| Ingest.IngestArtistWrites | src/library/cache.rs:73-98 | the artist ingest writes exactly the album ids and the response's artist id |
| Ingest.IngestArtistKeys | src/library/cache.rs:75-98 | after `update_artist` the keys are the old keys, the album ids and the artist id; every other key keeps its entry |
| Ingest.IngestArtistListed | src/library/cache.rs:89-98 | the response's artist id holds the artist with parent `None` and the album ids as children in server order |
| Ingest.IngestArtistAlbums | src/library/cache.rs:75-87 | every other listed album id holds its last-listed album, with parent the requested artist id and no children |
| Ingest.IngestArtistChildren | src/library/cache.rs:45-98 | after `update_artist`, the requested id's children gain the albums and the artist id sits under `None`; nothing else moves |
| Ingest.IngestAlbum | src/library/cache.rs:118-153 | without an album page the state is unchanged; indexes are never changed; no key is lost |
| Ingest.IngestAlbumWrites | src/library/cache.rs:123-150 | the album ingest writes exactly the song ids and the response's album id |
| Ingest.IngestAlbumKeys | src/library/cache.rs:125-150 | after `update_album` the keys are the old keys, the song ids and the album id; every other key keeps its entry |
| Ingest.IngestAlbumListed | src/library/cache.rs:141-150 | the response's album id holds the album with parent reset to `None` and the song ids as children in server order |
| Ingest.IngestAlbumSongs | src/library/cache.rs:125-138 | every other listed song id holds its last-listed song with its title, track number and duration copied, parent the requested album id and no children |
| Ingest.IngestAlbumChildren | src/library/cache.rs:45-150 | after `update_album`, the requested id's children gain the songs and the album id sits under `None`; nothing else moves |
| Ingest.AlbumListingDetachesAlbum | src/library/cache.rs:141-150 | an album filed under its artist by `update_artist` is no longer among the artist's children once `update_album` has run for it |
| Ingest.ApplyWritesCoherent | src/library/cache.rs:22-153 | inserting coherent entries keeps a coherent entry map coherent |
| Ingest.IngestKeepsCoherent | src/library/cache.rs:22-153 | every ingest keeps each stored search form equal to its lower-cased display form |
| Ingest.IngestRootKeepsReferences | src/library/cache.rs:22-43 | if every id an index lists has an entry, that still holds after `update_root`: every id it records in an index has also been inserted as an entry |
| Ingest.IngestArtistKeepsReferences | src/library/cache.rs:68-101 | `update_artist` keeps every id an index lists backed by an entry |
| Ingest.IngestAlbumKeepsReferences | src/library/cache.rs:118-153 | `update_album` keeps every id an index lists backed by an entry |
| Cache.LibraryCache.constructor | src/library/cache.rs:15-20 | `new` starts with both maps empty |
| Cache.LibraryCache.UpdateRoot | src/library/cache.rs:22-43 | the nested loops leave the maps equal to `IngestRoot` of the old maps, and the call returns `Ok` |
| Cache.LibraryCache.InsertGroups | src/library/cache.rs:24-40 | the outer loop: the entry map becomes the old one with every group's artists written in page order, and each group's id set is written under its name in page order |
| Cache.LibraryCache.InsertIndexArtists | src/library/cache.rs:25-38 | the inner loop inserts one root entry per artist of the group, collects exactly the group's ids, and leaves the indexes alone |
| Cache.LibraryCache.UpdateArtist | src/library/cache.rs:68-101 | the loop leaves the maps equal to `IngestArtist` of the old maps, and the call returns `Ok` |
| Cache.LibraryCache.InsertAlbums | src/library/cache.rs:74-87 | the loop writes one album entry per listed album, filed under the requested id, collects the album ids in server order, and leaves the indexes alone |
| Cache.LibraryCache.UpdateAlbum | src/library/cache.rs:118-153 | the loop leaves the maps equal to `IngestAlbum` of the old maps, and the call returns `Ok` |
| Cache.LibraryCache.InsertSongs | src/library/cache.rs:124-139 | the loop writes one song entry per listed song, filed under the requested id, collects the song ids in server order, and leaves the indexes alone |
| Cache.LibraryCache.GetChildren | src/library/cache.rs:45-51 | exactly the keys whose entry's parent is the argument |
| Cache.LibraryCache.FindArtist | src/library/cache.rs:53-66 | exactly the artist keys whose name contains the query; when the object is valid, exactly the artist keys whose name, lower-cased, contains the lower-cased query |
| Cache.LibraryCache.FindAlbum | src/library/cache.rs:103-116 | exactly the album keys whose name contains the query; when the object is valid, exactly the album keys whose name, lower-cased, contains the lower-cased query |
| Cache.LibraryCache.FindSong | src/library/cache.rs:155-168 | exactly the song keys whose title contains the query; when the object is valid, exactly the song keys whose title, lower-cased, contains the lower-cased query |
| Cache.LibraryCache.FindEntry | src/library/cache.rs:170-181 | the union of the three per-kind searches |
| Cache.LibraryCache.GetItem | src/library/cache.rs:183-185 | `Some` exactly for present keys, holding that key's item |
| LegacyLibrary.Library.constructor | src/library.rs:13-18 | `new` starts with both maps empty |
| LegacyLibrary.Library.UpdateRoot | src/library.rs:20-42 | a failed `get_artists` returns its error and changes nothing; otherwise the maps become `IngestRoot` of the response and the call returns `Ok` |
| LegacyLibrary.Library.InsertGroups | src/library.rs:23-39 | the outer loop: the entry map becomes the old one with every group's artists written in page order, and each group's id set is written under its name in page order |
| LegacyLibrary.Library.InsertIndexArtists | src/library.rs:24-37 | the inner loop inserts one root entry per artist of the group and collects exactly the group's ids |
| LegacyLibrary.Library.UpdateArtist | src/library.rs:59-89 | a failed `get_artist(id)` returns its error and changes nothing; otherwise the maps become `IngestArtist` of the response for that id |
| LegacyLibrary.Library.InsertAlbums | src/library.rs:62-75 | the loop writes one album entry per listed album, filed under the requested id, and collects the album ids in server order |
| LegacyLibrary.Library.UpdateAlbum | src/library.rs:106-138 | a failed `get_album(id)` returns its error and changes nothing; otherwise the maps become `IngestAlbum` of the response for that id |
| LegacyLibrary.Library.InsertSongs | src/library.rs:109-124 | the loop writes one song entry per listed song, filed under the requested id, and collects the song ids in server order |
| LegacyLibrary.Library.FindArtist | src/library.rs:44-57 | exactly the artist keys whose name contains the query; when the object is valid, exactly the artist keys whose name, lower-cased, contains the lower-cased query |
| LegacyLibrary.Library.FindAlbum | src/library.rs:91-104 | exactly the album keys whose name contains the query; when the object is valid, exactly the album keys whose name, lower-cased, contains the lower-cased query |
| LegacyLibrary.Library.FindSong | src/library.rs:140-153 | exactly the song keys whose title contains the query; when the object is valid, exactly the song keys whose title, lower-cased, contains the lower-cased query |
| LegacyLibrary.Library.FindEntry | src/library.rs:155-166 | the union of the three per-kind searches |
| LegacyLibrary.Library.GetItem | src/library.rs:168-170 | `Some` exactly for present keys, holding that key's item |
| Library.Library.constructor | src/library/mod.rs:15-20 | `new` keeps the connection and starts from a fresh, empty cache |
| Library.Library.UpdateRoot | src/library/mod.rs:22-26 | a failed fetch returns its error with the cache untouched; otherwise the cache becomes `IngestRoot` of the response |
| Library.Library.UpdateArtist | src/library/mod.rs:36-40 | a failed fetch returns its error with the cache untouched; otherwise the cache becomes `IngestArtist` of the response for the requested id |
| Library.Library.UpdateAlbum | src/library/mod.rs:46-50 | a failed fetch returns its error with the cache untouched; otherwise the cache becomes `IngestAlbum` of the response for the requested id |
| Library.Library.GetChildren | src/library/mod.rs:28-30 | the cache's children: exactly the cached keys whose parent is the argument |
| Library.Library.FindArtist | src/library/mod.rs:32-34 | exactly the artist keys whose name contains the query; when the object is valid, exactly the artist keys whose name, lower-cased, contains the lower-cased query |
| Library.Library.FindAlbum | src/library/mod.rs:42-44 | exactly the album keys whose name contains the query; when the object is valid, exactly the album keys whose name, lower-cased, contains the lower-cased query |
| Library.Library.FindSong | src/library/mod.rs:52-54 | exactly the song keys whose title contains the query; when the object is valid, exactly the song keys whose title, lower-cased, contains the lower-cased query |
| Library.Library.FindEntry | src/library/mod.rs:56-58 | the union of the cache's three per-kind searches |
| Library.Library.GetItem | src/library/mod.rs:60-62 | the cache's item for the key, `Some` exactly for cached keys |

The `Display` for `Song` and the `SearchString` type are identical in
`src/library.rs:195-238` and `src/library/mod.rs:97-140`. Each is modelled
once, and the table cites one of the two copies.

## Left out

- `src/conn.rs` is not part of this model. HTTP, query signing with a random
  salt and an MD5 token, and XML parsing are replaced by `Subsonic.Connection`.
  Its three total functions return a parsed response or a `FetchError`.
  A server is therefore modelled as deterministic: the same request gets the
  same answer.
- Response fields the ingest never reads (status, version, counts, dates,
  genres and so on) and the licence and music-folder payloads are dropped.
- Unicode `to_lowercase` is restricted to ASCII `A`-`Z`. Every other
  character is left unchanged, so multi-character and non-ASCII case mappings
  are not modelled.
- `usize` is modelled as `nat`. The song display only divides and takes a
  remainder, so no wrap-around can occur.
- `HashMap` iteration order is not modelled. `get_children` and `find_*`
  return sets, not vectors in an unspecified order.
- Library.Library.UpdateRoot, Library.Library.UpdateArtist, Library.Library.UpdateAlbum: "exactly one fetch" is shown only by the method body making one connection call. The contract does not count calls.
- The UI, the request/event channels, process start-up and the smoke
  assertions in `src/main.rs` are outside the library core and are not
  modelled.
