/** `Library` (`src/library/mod.rs`): owns the connection and a
    `LibraryCache`; each `update_*` performs one request and hands a
    successful response to the cache, and every lookup is the cache's. */
module Library {
  import opened Wrappers
  import opened SearchStrings
  import opened Items
  import opened Lookup
  import opened Ingest
  import opened Cache
  import Subsonic

  class Library {
    const conn: Subsonic.Connection
    const cache: LibraryCache

    /** The cache's own invariant. */
    ghost predicate Valid()
      reads cache
    {
      cache.Valid()
    }

    /** `new`: keeps the connection, starts with an empty cache. */
    constructor (conn: Subsonic.Connection)
      ensures this.conn == conn
      ensures fresh(cache)
      ensures Valid() && cache.Model() == Empty
    {
      this.conn := conn;
      cache := new LibraryCache();
    }

    /** `update_root`: `get_artists`; on error return it, otherwise the
        cache's `update_root` of the response. `cache.update_root(resp)?`
        followed by `Ok(())` is the cache's outcome itself. */
    method UpdateRoot() returns (r: Outcome<Subsonic.FetchError>)
      requires Valid()
      modifies cache
      ensures Valid()
      ensures conn.getArtists().Failure? ==> r == Fail(conn.getArtists().error) && cache.Model() == old(cache.Model())
      ensures conn.getArtists().Success? ==> r == Pass && cache.Model() == IngestRoot(old(cache.Model()), conn.getArtists().value)
    {
      var fetched := conn.getArtists();
      if fetched.Failure? {
        return Fail(fetched.error);
      }
      r := cache.UpdateRoot(fetched.value);
    }

    /** `update_artist`: `get_artist(artist_id)`, then the cache's `update_artist`. */
    method UpdateArtist(artistId: Key) returns (r: Outcome<Subsonic.FetchError>)
      requires Valid()
      modifies cache
      ensures Valid()
      ensures conn.getArtist(artistId).Failure? ==> r == Fail(conn.getArtist(artistId).error) && cache.Model() == old(cache.Model())
      ensures conn.getArtist(artistId).Success? ==> r == Pass && cache.Model() == IngestArtist(old(cache.Model()), conn.getArtist(artistId).value, artistId)
    {
      var fetched := conn.getArtist(artistId);
      if fetched.Failure? {
        return Fail(fetched.error);
      }
      r := cache.UpdateArtist(fetched.value, artistId);
    }

    /** `update_album`: `get_album(album_id)`, then the cache's `update_album`. */
    method UpdateAlbum(albumId: Key) returns (r: Outcome<Subsonic.FetchError>)
      requires Valid()
      modifies cache
      ensures Valid()
      ensures conn.getAlbum(albumId).Failure? ==> r == Fail(conn.getAlbum(albumId).error) && cache.Model() == old(cache.Model())
      ensures conn.getAlbum(albumId).Success? ==> r == Pass && cache.Model() == IngestAlbum(old(cache.Model()), conn.getAlbum(albumId).value, albumId)
    {
      var fetched := conn.getAlbum(albumId);
      if fetched.Failure? {
        return Fail(fetched.error);
      }
      r := cache.UpdateAlbum(fetched.value, albumId);
    }

    /** `get_children`: the cache's answer. */
    function GetChildren(parent: Option<Key>): (r: set<Key>)
      reads cache
      ensures forall k :: k in r <==> k in cache.entries && cache.entries[k].parent == parent
    {
      cache.GetChildren(parent)
    }

    /** `find_artist`: the cache's answer. */
    function FindArtist(contains: string): (r: set<Key>)
      reads cache
      ensures forall k :: k in r <==>
        k in cache.entries && cache.entries[k].item.ArtistItem? && Contains(cache.entries[k].item.artist.name, From(contains))
      ensures Valid() ==> forall k :: k in r <==>
        k in cache.entries && cache.entries[k].item.ArtistItem? && FoundIgnoringCase(cache.entries[k].item.artist.name, contains)
    {
      cache.FindArtist(contains)
    }

    /** `find_album`: the cache's answer. */
    function FindAlbum(contains: string): (r: set<Key>)
      reads cache
      ensures forall k :: k in r <==>
        k in cache.entries && cache.entries[k].item.AlbumItem? && Contains(cache.entries[k].item.album.name, From(contains))
      ensures Valid() ==> forall k :: k in r <==>
        k in cache.entries && cache.entries[k].item.AlbumItem? && FoundIgnoringCase(cache.entries[k].item.album.name, contains)
    {
      cache.FindAlbum(contains)
    }

    /** `find_song`: the cache's answer. */
    function FindSong(contains: string): (r: set<Key>)
      reads cache
      ensures forall k :: k in r <==>
        k in cache.entries && cache.entries[k].item.SongItem? && Contains(cache.entries[k].item.song.title, From(contains))
      ensures Valid() ==> forall k :: k in r <==>
        k in cache.entries && cache.entries[k].item.SongItem? && FoundIgnoringCase(cache.entries[k].item.song.title, contains)
    {
      cache.FindSong(contains)
    }

    /** `find_entry`: the cache's answer. */
    function FindEntry(contains: string): (r: set<Key>)
      reads cache
      ensures r == FindArtist(contains) + FindAlbum(contains) + FindSong(contains)
    {
      cache.FindEntry(contains)
    }

    /** `get_item`: the cache's answer. */
    function GetItem(id: Key): (r: Option<Item>)
      reads cache
      ensures r.Some? <==> id in cache.entries
      ensures r.Some? ==> r.value == cache.entries[id].item
    {
      cache.GetItem(id)
    }
  }
}
