/** `LibraryCache`: the entry map and the index map, filled by ingesting
    response pages that the caller has already fetched. */
module Cache {
  import opened Wrappers
  import opened SearchStrings
  import opened Items
  import opened Writes
  import opened Lookup
  import opened Ingest
  import Subsonic

  class LibraryCache {
    var indexes: Indexes
    var entries: Entries

    /** The search strings stored in the cache keep their two forms together,
        and every id an index lists has an entry. */
    ghost predicate Valid()
      reads this
    {
      AllCoherent(entries) && IndexesReferenceEntries(Model())
    }

    /** The cache's two maps as a value. */
    function Model(): State
      reads this
    {
      State(indexes, entries)
    }

    /** `new`: both maps empty. */
    constructor ()
      ensures Valid() && Model() == Empty
    {
      indexes, entries := map[], map[];
    }

    /** `update_root`: for each index group, insert an entry per listed artist
        and record the group's artist ids under its name. A response without
        an artist listing changes nothing. Never fails. */
    method UpdateRoot(resp: Subsonic.Response) returns (r: Outcome<Subsonic.FetchError>)
      requires Valid()
      modifies this
      ensures Valid()
      ensures r == Pass
      ensures Model() == IngestRoot(old(Model()), resp)
    {
      match resp.data {
        case Some(ArtistsData(artists)) =>
          InsertGroups(artists.index);
        case _ =>
      }
      r := Pass;
    }

    /** The outer loop of `update_root`: for each index group in order,
        insert its artists and record its artist ids under its name. */
    method InsertGroups(groups: seq<Subsonic.Index>)
      requires Valid()
      modifies this
      ensures Valid()
      ensures entries == ApplyWrites(old(entries), RootWrites(PageArtists(groups)))
      ensures indexes == ApplyWrites(old(indexes), IndexWrites(groups))
    {
      var i := 0;
      while i < |groups|
        invariant 0 <= i <= |groups|
        invariant Valid()
        invariant entries == ApplyWrites(old(entries), RootWrites(PageArtists(groups[..i])))
        invariant indexes == ApplyWrites(old(indexes), IndexWrites(groups[..i]))
      {
        var index := groups[i];
        ghost var before := entries;
        var indexArtists := InsertIndexArtists(index.artist);
        RootWritesKeys(index.artist);
        ApplyWritesKeys(before, RootWrites(index.artist));
        GroupStepKeepsReferences(State(indexes, before), entries, index.name, indexArtists);
        IndexStep(groups, i);
        RootWritesAppend(PageArtists(groups[..i]), index.artist);
        ApplyWritesAppend(old(entries), RootWrites(PageArtists(groups[..i])), RootWrites(index.artist));
        ApplyWritesSnoc(old(indexes), IndexWrites(groups[..i]), index.name, IdsOf(index.artist));
        indexes := indexes[index.name := indexArtists];
        i := i + 1;
      }
      assert groups[..i] == groups;
    }

    /** The inner loop of `update_root`: insert an entry per artist of one
        index group and collect the group's artist ids. */
    method InsertIndexArtists(arts: seq<Subsonic.Artist>) returns (ids: set<Key>)
      requires AllCoherent(entries)
      modifies this
      ensures AllCoherent(entries)
      ensures ids == IdsOf(arts)
      ensures entries == ApplyWrites(old(entries), RootWrites(arts))
      ensures indexes == old(indexes)
    {
      ids := {};
      var j := 0;
      while j < |arts|
        invariant 0 <= j <= |arts|
        invariant AllCoherent(entries)
        invariant ids == IdsOf(arts[..j])
        invariant entries == ApplyWrites(old(entries), RootWrites(arts[..j]))
        invariant indexes == old(indexes)
      {
        var artist := arts[j];
        ids := ids + {artist.id};
        RootStep([], arts, j);
        assert [] + arts[..j] == arts[..j] && [] + arts[..j + 1] == arts[..j + 1];
        ApplyWritesSnoc(old(entries), RootWrites(arts[..j]), artist.id, RootArtistEntry(artist));
        entries := entries[artist.id := Entry(None, [], ArtistItem(Artist(From(artist.name))))];
        j := j + 1;
      }
      assert arts[..j] == arts;
    }

    /** `update_artist`: insert an entry per listed album, filed under the
        requested id, then the artist entry under the response's own id with
        the album ids as children. A response without an artist changes
        nothing. Never fails. */
    method UpdateArtist(resp: Subsonic.Response, artistId: Key) returns (r: Outcome<Subsonic.FetchError>)
      requires Valid()
      modifies this
      ensures Valid()
      ensures r == Pass
      ensures Model() == IngestArtist(old(Model()), resp, artistId)
    {
      match resp.data {
        case Some(ArtistData(artist)) =>
          ghost var e0 := entries;
          var albumIds := InsertAlbums(artistId, artist.album);
          ApplyWritesSnoc(e0, AlbumWrites(artistId, artist.album), artist.id, ListedArtistEntry(artist));
          entries := entries[artist.id := Entry(None, albumIds, ArtistItem(Artist(From(artist.name))))];
          assert entries == ApplyWrites(e0, ArtistListingWrites(artistId, artist));
        case _ =>
      }
      IngestKeepsCoherent(old(Model()), resp, artistId);
      IngestArtistKeepsReferences(old(Model()), resp, artistId);
      r := Pass;
    }

    /** `update_album`: insert an entry per listed song, filed under the
        requested id, then the album entry under the response's own id with
        the song ids as children and no parent. A response without an album
        changes nothing. Never fails. */
    method UpdateAlbum(resp: Subsonic.Response, albumId: Key) returns (r: Outcome<Subsonic.FetchError>)
      requires Valid()
      modifies this
      ensures Valid()
      ensures r == Pass
      ensures Model() == IngestAlbum(old(Model()), resp, albumId)
    {
      match resp.data {
        case Some(AlbumData(album)) =>
          ghost var e0 := entries;
          var songIds := InsertSongs(albumId, album.song);
          ApplyWritesSnoc(e0, SongWrites(albumId, album.song), album.id, ListedAlbumEntry(album));
          entries := entries[album.id := Entry(None, songIds, AlbumItem(Album(From(album.name))))];
          assert entries == ApplyWrites(e0, AlbumListingWrites(albumId, album));
        case _ =>
      }
      IngestKeepsCoherent(old(Model()), resp, albumId);
      IngestAlbumKeepsReferences(old(Model()), resp, albumId);
      r := Pass;
    }

    /** The loop of `update_artist`: insert an entry per album, filed under
        the requested id, and collect the album ids in order. */
    method InsertAlbums(artistId: Key, albums: seq<Subsonic.Album>) returns (ids: seq<Key>)
      modifies this
      ensures ids == AlbumIds(albums)
      ensures entries == ApplyWrites(old(entries), AlbumWrites(artistId, albums))
      ensures indexes == old(indexes)
    {
      ids := [];
      var i := 0;
      while i < |albums|
        invariant 0 <= i <= |albums|
        invariant ids == AlbumIds(albums[..i])
        invariant entries == ApplyWrites(old(entries), AlbumWrites(artistId, albums[..i]))
        invariant indexes == old(indexes)
      {
        var album := albums[i];
        ids := ids + [album.id];
        AlbumStep(artistId, albums, i);
        ApplyWritesSnoc(old(entries), AlbumWrites(artistId, albums[..i]), album.id, AlbumEntry(artistId, album));
        entries := entries[album.id := Entry(Some(artistId), [], AlbumItem(Album(From(album.name))))];
        i := i + 1;
      }
      assert albums[..i] == albums;
    }

    /** The loop of `update_album`: insert an entry per song, filed under the
        requested id, and collect the song ids in order. */
    method InsertSongs(albumId: Key, songs: seq<Subsonic.Child>) returns (ids: seq<Key>)
      modifies this
      ensures ids == SongIds(songs)
      ensures entries == ApplyWrites(old(entries), SongWrites(albumId, songs))
      ensures indexes == old(indexes)
    {
      ids := [];
      var i := 0;
      while i < |songs|
        invariant 0 <= i <= |songs|
        invariant ids == SongIds(songs[..i])
        invariant entries == ApplyWrites(old(entries), SongWrites(albumId, songs[..i]))
        invariant indexes == old(indexes)
      {
        var song := songs[i];
        ids := ids + [song.id];
        SongStep(albumId, songs, i);
        ApplyWritesSnoc(old(entries), SongWrites(albumId, songs[..i]), song.id, SongEntry(albumId, song));
        entries := entries[song.id := Entry(Some(albumId), [], SongItem(Song(From(song.title), song.track, song.duration)))];
        i := i + 1;
      }
      assert songs[..i] == songs;
    }

    /** `get_children`. */
    function GetChildren(parent: Option<Key>): (r: set<Key>)
      reads this
      ensures forall k :: k in r <==> k in entries && entries[k].parent == parent
    {
      ChildrenOf(entries, parent)
    }

    /** `find_artist`. */
    function FindArtist(contains: string): (r: set<Key>)
      reads this
      ensures forall k :: k in r <==>
        k in entries && entries[k].item.ArtistItem? && Contains(entries[k].item.artist.name, From(contains))
      ensures Valid() ==> forall k :: k in r <==>
        k in entries && entries[k].item.ArtistItem? && FoundIgnoringCase(entries[k].item.artist.name, contains)
    {
      FindKindsIgnoreCase(entries, contains);
      Lookup.FindArtist(entries, contains)
    }

    /** `find_album`. */
    function FindAlbum(contains: string): (r: set<Key>)
      reads this
      ensures forall k :: k in r <==>
        k in entries && entries[k].item.AlbumItem? && Contains(entries[k].item.album.name, From(contains))
      ensures Valid() ==> forall k :: k in r <==>
        k in entries && entries[k].item.AlbumItem? && FoundIgnoringCase(entries[k].item.album.name, contains)
    {
      FindKindsIgnoreCase(entries, contains);
      Lookup.FindAlbum(entries, contains)
    }

    /** `find_song`. */
    function FindSong(contains: string): (r: set<Key>)
      reads this
      ensures forall k :: k in r <==>
        k in entries && entries[k].item.SongItem? && Contains(entries[k].item.song.title, From(contains))
      ensures Valid() ==> forall k :: k in r <==>
        k in entries && entries[k].item.SongItem? && FoundIgnoringCase(entries[k].item.song.title, contains)
    {
      FindKindsIgnoreCase(entries, contains);
      Lookup.FindSong(entries, contains)
    }

    /** `find_entry`. */
    function FindEntry(contains: string): (r: set<Key>)
      reads this
      ensures r == FindArtist(contains) + FindAlbum(contains) + FindSong(contains)
    {
      FindEntryIsUnion(entries, contains);
      Lookup.FindEntry(entries, contains)
    }

    /** `get_item`. */
    function GetItem(id: Key): (r: Option<Item>)
      reads this
      ensures r.Some? <==> id in entries
      ensures r.Some? ==> r.value == entries[id].item
    {
      Lookup.GetItem(entries, id)
    }
  }
}
