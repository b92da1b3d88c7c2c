/** What `update_root`, `update_artist` and `update_album` do to the two maps,
    as pure functions of the old state and the response page: each ingest is
    the run of `insert` calls its loops make, applied in order. */
module Ingest {
  import opened Wrappers
  import opened SearchStrings
  import opened Items
  import opened Writes
  import opened Lookup
  import Subsonic

  type Indexes = map<string, set<Key>>

  /** The two maps of a library: index name to artist ids, and id to entry. */
  datatype State = State(indexes: Indexes, entries: Entries)

  const Empty := State(map[], map[])

  // ---------------------------------------------------------------- root

  /** The entry `update_root` writes for a listed artist. */
  function RootArtistEntry(a: Subsonic.Artist): Entry
  {
    Entry(None, [], ArtistItem(Artist(From(a.name))))
  }

  /** The writes for a run of listed artists, in listing order. */
  function RootWrites(arts: seq<Subsonic.Artist>): (w: seq<(Key, Entry)>)
    ensures |w| == |arts|
    ensures forall i :: 0 <= i < |arts| ==> w[i] == (arts[i].id, RootArtistEntry(arts[i]))
  {
    seq(|arts|, i requires 0 <= i < |arts| => (arts[i].id, RootArtistEntry(arts[i])))
  }

  /** Every artist of the page, index group by index group. */
  function PageArtists(ix: seq<Subsonic.Index>): seq<Subsonic.Artist>
  {
    if ix == [] then [] else PageArtists(ix[..|ix| - 1]) + ix[|ix| - 1].artist
  }

  /** An artist is on the page exactly when some index group lists it. */
  lemma {:induction false} PageArtistsListed(ix: seq<Subsonic.Index>, a: Subsonic.Artist)
    ensures a in PageArtists(ix) <==> exists i :: 0 <= i < |ix| && a in ix[i].artist
  {
    if ix != [] {
      var init := ix[..|ix| - 1];
      PageArtistsListed(init, a);
      if a in PageArtists(ix) && a !in ix[|ix| - 1].artist {
        var i :| 0 <= i < |init| && a in init[i].artist;
        assert ix[i] == init[i];
      }
      if a !in PageArtists(ix) {
        forall i | 0 <= i < |ix| ensures a !in ix[i].artist {
          if i < |init| { assert ix[i] == init[i]; }
        }
      }
    }
  }

  /** The ids of a run of artists. */
  function IdsOf(arts: seq<Subsonic.Artist>): set<Key>
  {
    set i | 0 <= i < |arts| :: arts[i].id
  }

  /** The `indexes.insert(name, ids)` writes of the page, in order. */
  function IndexWrites(ix: seq<Subsonic.Index>): (w: seq<(string, set<Key>)>)
    ensures |w| == |ix|
    ensures forall i :: 0 <= i < |ix| ==> w[i] == (ix[i].name, IdsOf(ix[i].artist))
  {
    seq(|ix|, i requires 0 <= i < |ix| => (ix[i].name, IdsOf(ix[i].artist)))
  }

  function IndexNames(ix: seq<Subsonic.Index>): set<string>
  {
    set i | 0 <= i < |ix| :: ix[i].name
  }

  /** The state after `update_root` with the given response. */
  function IngestRoot(s: State, resp: Subsonic.Response): (r: State)
    ensures !(resp.data.Some? && resp.data.value.ArtistsData?) ==> r == s
    ensures s.entries.Keys <= r.entries.Keys && s.indexes.Keys <= r.indexes.Keys
  {
    match resp.data
    case Some(ArtistsData(a)) =>
      ApplyWritesKeys(s.entries, RootWrites(PageArtists(a.index)));
      ApplyWritesKeys(s.indexes, IndexWrites(a.index));
      State(ApplyWrites(s.indexes, IndexWrites(a.index)),
            ApplyWrites(s.entries, RootWrites(PageArtists(a.index))))
    case _ => s
  }

  /** After `update_root`, every listed artist is an entry with no parent, no
      children and an artist item: that of the last listing of its id. Keys
      the page does not list keep their old entry. */
  lemma IngestRootEntries(s: State, page: Subsonic.Artists)
    ensures var e, arts := IngestRoot(s, Subsonic.Response(Some(Subsonic.ArtistsData(page)))).entries, PageArtists(page.index);
      && e.Keys == s.entries.Keys + IdsOf(arts)
      && (forall k :: k in IdsOf(arts) ==>
            && e[k].parent == None && e[k].children == [] && e[k].item.ArtistItem?
            && exists i: nat :: i < |arts| && arts[i].id == k && (forall j :: i < j < |arts| ==> arts[j].id != k)
                && e[k].item == ArtistItem(Artist(From(arts[i].name))))
      && (forall k :: k in s.entries && k !in IdsOf(arts) ==> e[k] == s.entries[k])
  {
    RootEntries(s.entries, PageArtists(page.index));
  }

  lemma RootEntries(m: Entries, arts: seq<Subsonic.Artist>)
    ensures var e := ApplyWrites(m, RootWrites(arts));
      && e.Keys == m.Keys + IdsOf(arts)
      && (forall k :: k in IdsOf(arts) ==>
            && e[k].parent == None && e[k].children == [] && e[k].item.ArtistItem?
            && exists i: nat :: i < |arts| && arts[i].id == k && (forall j :: i < j < |arts| ==> arts[j].id != k)
                && e[k].item == ArtistItem(Artist(From(arts[i].name))))
      && (forall k :: k in m && k !in IdsOf(arts) ==> e[k] == m[k])
  {
    var w := RootWrites(arts);
    RootWritesKeys(arts);
    ApplyWritesKeys(m, w);
    forall k | k in IdsOf(arts) {
      RootListed(m, arts, k);
    }
    forall k | k in m && k !in IdsOf(arts) {
      ApplyWritesUntouched(m, w, k);
    }
  }

  lemma RootWritesKeys(arts: seq<Subsonic.Artist>)
    ensures KeysOf(RootWrites(arts)) == IdsOf(arts)
  {
    var w := RootWrites(arts);
    forall k | k in IdsOf(arts) ensures k in KeysOf(w) {
      var i :| 0 <= i < |arts| && arts[i].id == k;
      assert w[i].0 == k;
    }
  }

  lemma RootListed(m: Entries, arts: seq<Subsonic.Artist>, k: Key)
    requires k in IdsOf(arts)
    ensures var e := ApplyWrites(m, RootWrites(arts));
      && k in e && e[k].parent == None && e[k].children == [] && e[k].item.ArtistItem?
      && exists i: nat :: i < |arts| && arts[i].id == k && (forall j :: i < j < |arts| ==> arts[j].id != k)
          && e[k].item == ArtistItem(Artist(From(arts[i].name)))
  {
    var w := RootWrites(arts);
    var e := ApplyWrites(m, w);
    RootWritesKeys(arts);
    ApplyWritesLast(m, w, k);
    var i: nat :| LastWriteAt(w, k, i) && e[k] == w[i].1;
    forall j | i < j < |arts| ensures arts[j].id != k {
      assert w[j].0 == arts[j].id;
    }
    assert e[k] == RootArtistEntry(arts[i]);
    assert i < |arts| && arts[i].id == k && e[k].item == ArtistItem(Artist(From(arts[i].name)));
  }

  /** After `update_root`, each index name on the page maps to exactly the
      ids listed under its last group of that name; other names keep their
      old set. */
  lemma IngestRootIndexes(s: State, page: Subsonic.Artists)
    ensures var ix, g := IngestRoot(s, Subsonic.Response(Some(Subsonic.ArtistsData(page)))).indexes, page.index;
      && ix.Keys == s.indexes.Keys + IndexNames(g)
      && (forall n :: n in IndexNames(g) ==>
            exists i: nat :: i < |g| && g[i].name == n && (forall j :: i < j < |g| ==> g[j].name != n)
              && ix[n] == IdsOf(g[i].artist))
      && (forall n :: n in s.indexes && n !in IndexNames(g) ==> ix[n] == s.indexes[n])
  {
    RootIndexes(s.indexes, page.index);
  }

  lemma RootIndexes(m: Indexes, g: seq<Subsonic.Index>)
    ensures var ix := ApplyWrites(m, IndexWrites(g));
      && ix.Keys == m.Keys + IndexNames(g)
      && (forall n :: n in IndexNames(g) ==>
            exists i: nat :: i < |g| && g[i].name == n && (forall j :: i < j < |g| ==> g[j].name != n)
              && ix[n] == IdsOf(g[i].artist))
      && (forall n :: n in m && n !in IndexNames(g) ==> ix[n] == m[n])
  {
    var w := IndexWrites(g);
    var ix := ApplyWrites(m, w);
    assert KeysOf(w) == IndexNames(g) by {
      forall n | n in IndexNames(g) ensures n in KeysOf(w) {
        var i :| 0 <= i < |g| && g[i].name == n;
        assert w[i].0 == n;
      }
    }
    ApplyWritesKeys(m, w);
    forall n | n in IndexNames(g)
      ensures exists i: nat :: i < |g| && g[i].name == n && (forall j :: i < j < |g| ==> g[j].name != n)
                && ix[n] == IdsOf(g[i].artist)
    {
      ApplyWritesLast(m, w, n);
      var i: nat :| LastWriteAt(w, n, i) && ix[n] == w[i].1;
      forall j | i < j < |g| ensures g[j].name != n {
        assert w[j].0 == g[j].name;
      }
      assert i < |g| && g[i].name == n && ix[n] == IdsOf(g[i].artist);
    }
    forall n | n in m && n !in IndexNames(g) {
      ApplyWritesUntouched(m, w, n);
    }
  }

  // ---------------------------------------------------------------- artist

  function AlbumEntry(parent: Key, al: Subsonic.Album): Entry
  {
    Entry(Some(parent), [], AlbumItem(Album(From(al.name))))
  }

  /** The album ids of a listing, in server order. */
  function AlbumIds(albums: seq<Subsonic.Album>): (ids: seq<Key>)
    ensures |ids| == |albums|
    ensures forall i :: 0 <= i < |albums| ==> ids[i] == albums[i].id
  {
    seq(|albums|, i requires 0 <= i < |albums| => albums[i].id)
  }

  function AlbumWrites(parent: Key, albums: seq<Subsonic.Album>): (w: seq<(Key, Entry)>)
    ensures |w| == |albums|
    ensures forall i :: 0 <= i < |albums| ==> w[i] == (albums[i].id, AlbumEntry(parent, albums[i]))
  {
    seq(|albums|, i requires 0 <= i < |albums| => (albums[i].id, AlbumEntry(parent, albums[i])))
  }

  /** The artist entry `update_artist` writes last: keyed by the response's id,
      no parent, the album ids as children. */
  function ListedArtistEntry(a: Subsonic.Artist): Entry
  {
    Entry(None, AlbumIds(a.album), ArtistItem(Artist(From(a.name))))
  }

  function ArtistListingWrites(artistId: Key, a: Subsonic.Artist): seq<(Key, Entry)>
  {
    AlbumWrites(artistId, a.album) + [(a.id, ListedArtistEntry(a))]
  }

  /** The state after `update_artist` for the requested id. */
  function IngestArtist(s: State, resp: Subsonic.Response, artistId: Key): (r: State)
    ensures !(resp.data.Some? && resp.data.value.ArtistData?) ==> r == s
    ensures r.indexes == s.indexes
    ensures s.entries.Keys <= r.entries.Keys
  {
    match resp.data
    case Some(ArtistData(a)) =>
      ApplyWritesKeys(s.entries, ArtistListingWrites(artistId, a));
      State(s.indexes, ApplyWrites(s.entries, ArtistListingWrites(artistId, a)))
    case _ => s
  }

  function AlbumIdSet(albums: seq<Subsonic.Album>): set<Key>
  {
    set i | 0 <= i < |albums| :: albums[i].id
  }

  /** `update_artist` with an artist page is the run of its writes. */
  lemma IngestArtistWrites(s: State, a: Subsonic.Artist, artistId: Key)
    ensures IngestArtist(s, Subsonic.Response(Some(Subsonic.ArtistData(a))), artistId).entries
      == ApplyWrites(s.entries, ArtistListingWrites(artistId, a))
    ensures KeysOf(ArtistListingWrites(artistId, a)) == AlbumIdSet(a.album) + {a.id}
  {
    ArtistListingKeys(artistId, a);
  }

  lemma ArtistListingKeys(artistId: Key, a: Subsonic.Artist)
    ensures KeysOf(ArtistListingWrites(artistId, a)) == AlbumIdSet(a.album) + {a.id}
  {
    var al, w := a.album, ArtistListingWrites(artistId, a);
    forall k | k in AlbumIdSet(al) ensures k in KeysOf(w) {
      var i :| 0 <= i < |al| && al[i].id == k;
      assert w[i].0 == k;
    }
    forall k | k in KeysOf(w) ensures k in AlbumIdSet(al) + {a.id} {
      var i :| 0 <= i < |w| && w[i].0 == k;
      if i < |al| { assert al[i].id == k; }
    }
    assert w[|w| - 1].0 == a.id;
    SameMembers(KeysOf(w), AlbumIdSet(al) + {a.id});
  }

  /** After `update_artist` the keys are the old ones, the listed album ids
      and the response's artist id; keys outside those keep their entry. */
  lemma IngestArtistKeys(s: State, a: Subsonic.Artist, artistId: Key)
    ensures var e := IngestArtist(s, Subsonic.Response(Some(Subsonic.ArtistData(a))), artistId).entries;
      && e.Keys == s.entries.Keys + AlbumIdSet(a.album) + {a.id}
      && (forall k :: k in s.entries && k !in AlbumIdSet(a.album) && k != a.id ==> e[k] == s.entries[k])
  {
    var w := ArtistListingWrites(artistId, a);
    IngestArtistWrites(s, a, artistId);
    ApplyWritesKeys(s.entries, w);
    forall k | k in s.entries && k !in AlbumIdSet(a.album) && k != a.id
      ensures ApplyWrites(s.entries, w)[k] == s.entries[k]
    {
      ApplyWritesUntouched(s.entries, w, k);
    }
  }

  /** After `update_artist` the response's artist id holds the artist with no
      parent and its album ids as children, in server order. */
  lemma IngestArtistListed(s: State, a: Subsonic.Artist, artistId: Key)
    ensures var e := IngestArtist(s, Subsonic.Response(Some(Subsonic.ArtistData(a))), artistId).entries;
      && a.id in e
      && e[a.id].parent == None
      && e[a.id].item == ArtistItem(Artist(From(a.name)))
      && |e[a.id].children| == |a.album|
      && (forall i :: 0 <= i < |a.album| ==> e[a.id].children[i] == a.album[i].id)
  {
    var w := ArtistListingWrites(artistId, a);
    IngestArtistWrites(s, a, artistId);
    assert ApplyWrites(s.entries, w) == ApplyWrites(s.entries, w[..|w| - 1])[a.id := ListedArtistEntry(a)];
  }

  /** After `update_artist` every listed album id other than the artist's own
      holds the album of its last listing, filed under the requested id, with
      no children. */
  lemma IngestArtistAlbums(s: State, a: Subsonic.Artist, artistId: Key)
    ensures var e, al := IngestArtist(s, Subsonic.Response(Some(Subsonic.ArtistData(a))), artistId).entries, a.album;
      forall k :: k in AlbumIdSet(al) && k != a.id ==>
        && k in e && e[k].parent == Some(artistId) && e[k].children == []
        && exists i: nat :: i < |al| && al[i].id == k && (forall j :: i < j < |al| ==> al[j].id != k)
            && e[k].item == AlbumItem(Album(From(al[i].name)))
  {
    IngestArtistWrites(s, a, artistId);
    forall k | k in AlbumIdSet(a.album) && k != a.id {
      ListedAlbum(s.entries, a, artistId, k);
    }
  }

  lemma ListedAlbum(m: Entries, a: Subsonic.Artist, artistId: Key, k: Key)
    requires k in AlbumIdSet(a.album) && k != a.id
    ensures var e, al := ApplyWrites(m, ArtistListingWrites(artistId, a)), a.album;
      && k in e && e[k].parent == Some(artistId) && e[k].children == []
      && exists i: nat :: i < |al| && al[i].id == k && (forall j :: i < j < |al| ==> al[j].id != k)
          && e[k].item == AlbumItem(Album(From(al[i].name)))
  {
    var al, sub := a.album, AlbumWrites(artistId, a.album);
    var e := ApplyWrites(m, ArtistListingWrites(artistId, a));
    var i0 :| 0 <= i0 < |al| && al[i0].id == k;
    assert sub[i0].0 == k;
    ApplyWritesLastBefore(m, sub, a.id, ListedArtistEntry(a), k);
    var i: nat :| LastWriteAt(sub, k, i) && e[k] == sub[i].1;
    forall j | i < j < |al| ensures al[j].id != k {
      assert sub[j].0 == al[j].id;
    }
    assert e[k] == AlbumEntry(artistId, al[i]);
    assert i < |al| && al[i].id == k && e[k].item == AlbumItem(Album(From(al[i].name)));
  }

  // ---------------------------------------------------------------- album

  function SongEntry(parent: Key, c: Subsonic.Child): Entry
  {
    Entry(Some(parent), [], SongItem(Song(From(c.title), c.track, c.duration)))
  }

  /** The song ids of a listing, in server order. */
  function SongIds(songs: seq<Subsonic.Child>): (ids: seq<Key>)
    ensures |ids| == |songs|
    ensures forall i :: 0 <= i < |songs| ==> ids[i] == songs[i].id
  {
    seq(|songs|, i requires 0 <= i < |songs| => songs[i].id)
  }

  function SongWrites(parent: Key, songs: seq<Subsonic.Child>): (w: seq<(Key, Entry)>)
    ensures |w| == |songs|
    ensures forall i :: 0 <= i < |songs| ==> w[i] == (songs[i].id, SongEntry(parent, songs[i]))
  {
    seq(|songs|, i requires 0 <= i < |songs| => (songs[i].id, SongEntry(parent, songs[i])))
  }

  /** The album entry `update_album` writes last: keyed by the response's id,
      with its parent reset to none and the song ids as children. */
  function ListedAlbumEntry(al: Subsonic.Album): Entry
  {
    Entry(None, SongIds(al.song), AlbumItem(Album(From(al.name))))
  }

  function AlbumListingWrites(albumId: Key, al: Subsonic.Album): seq<(Key, Entry)>
  {
    SongWrites(albumId, al.song) + [(al.id, ListedAlbumEntry(al))]
  }

  /** The state after `update_album` for the requested id. */
  function IngestAlbum(s: State, resp: Subsonic.Response, albumId: Key): (r: State)
    ensures !(resp.data.Some? && resp.data.value.AlbumData?) ==> r == s
    ensures r.indexes == s.indexes
    ensures s.entries.Keys <= r.entries.Keys
  {
    match resp.data
    case Some(AlbumData(al)) =>
      ApplyWritesKeys(s.entries, AlbumListingWrites(albumId, al));
      State(s.indexes, ApplyWrites(s.entries, AlbumListingWrites(albumId, al)))
    case _ => s
  }

  function SongIdSet(songs: seq<Subsonic.Child>): set<Key>
  {
    set i | 0 <= i < |songs| :: songs[i].id
  }

  /** `update_album` with an album page is the run of its writes. */
  lemma IngestAlbumWrites(s: State, al: Subsonic.Album, albumId: Key)
    ensures IngestAlbum(s, Subsonic.Response(Some(Subsonic.AlbumData(al))), albumId).entries
      == ApplyWrites(s.entries, AlbumListingWrites(albumId, al))
    ensures KeysOf(AlbumListingWrites(albumId, al)) == SongIdSet(al.song) + {al.id}
  {
    AlbumListingKeys(albumId, al);
  }

  lemma AlbumListingKeys(albumId: Key, al: Subsonic.Album)
    ensures KeysOf(AlbumListingWrites(albumId, al)) == SongIdSet(al.song) + {al.id}
  {
    var sg, w := al.song, AlbumListingWrites(albumId, al);
    forall k | k in SongIdSet(sg) ensures k in KeysOf(w) {
      var i :| 0 <= i < |sg| && sg[i].id == k;
      assert w[i].0 == k;
    }
    forall k | k in KeysOf(w) ensures k in SongIdSet(sg) + {al.id} {
      var i :| 0 <= i < |w| && w[i].0 == k;
      if i < |sg| { assert sg[i].id == k; }
    }
    assert w[|w| - 1].0 == al.id;
    SameMembers(KeysOf(w), SongIdSet(sg) + {al.id});
  }

  /** After `update_album` the keys are the old ones, the listed song ids and
      the response's album id; keys outside those keep their entry. */
  lemma IngestAlbumKeys(s: State, al: Subsonic.Album, albumId: Key)
    ensures var e := IngestAlbum(s, Subsonic.Response(Some(Subsonic.AlbumData(al))), albumId).entries;
      && e.Keys == s.entries.Keys + SongIdSet(al.song) + {al.id}
      && (forall k :: k in s.entries && k !in SongIdSet(al.song) && k != al.id ==> e[k] == s.entries[k])
  {
    var w := AlbumListingWrites(albumId, al);
    IngestAlbumWrites(s, al, albumId);
    ApplyWritesKeys(s.entries, w);
    forall k | k in s.entries && k !in SongIdSet(al.song) && k != al.id
      ensures ApplyWrites(s.entries, w)[k] == s.entries[k]
    {
      ApplyWritesUntouched(s.entries, w, k);
    }
  }

  /** After `update_album` the response's album id holds the album with its
      song ids as children, in server order, and its parent reset to none. */
  lemma IngestAlbumListed(s: State, al: Subsonic.Album, albumId: Key)
    ensures var e := IngestAlbum(s, Subsonic.Response(Some(Subsonic.AlbumData(al))), albumId).entries;
      && al.id in e
      && e[al.id].parent == None
      && e[al.id].item == AlbumItem(Album(From(al.name)))
      && |e[al.id].children| == |al.song|
      && (forall i :: 0 <= i < |al.song| ==> e[al.id].children[i] == al.song[i].id)
  {
    var w := AlbumListingWrites(albumId, al);
    IngestAlbumWrites(s, al, albumId);
    assert ApplyWrites(s.entries, w) == ApplyWrites(s.entries, w[..|w| - 1])[al.id := ListedAlbumEntry(al)];
  }

  /** After `update_album` every listed song id other than the album's own
      holds the song of its last listing, filed under the requested id, with
      no children and its title, track number and duration copied unchanged. */
  lemma IngestAlbumSongs(s: State, al: Subsonic.Album, albumId: Key)
    ensures var e, sg := IngestAlbum(s, Subsonic.Response(Some(Subsonic.AlbumData(al))), albumId).entries, al.song;
      forall k :: k in SongIdSet(sg) && k != al.id ==>
        && k in e && e[k].parent == Some(albumId) && e[k].children == []
        && exists i: nat :: i < |sg| && sg[i].id == k && (forall j :: i < j < |sg| ==> sg[j].id != k)
            && e[k].item == SongItem(Song(From(sg[i].title), sg[i].track, sg[i].duration))
  {
    IngestAlbumWrites(s, al, albumId);
    forall k | k in SongIdSet(al.song) && k != al.id {
      ListedSong(s.entries, al, albumId, k);
    }
  }

  lemma ListedSong(m: Entries, al: Subsonic.Album, albumId: Key, k: Key)
    requires k in SongIdSet(al.song) && k != al.id
    ensures var e, sg := ApplyWrites(m, AlbumListingWrites(albumId, al)), al.song;
      && k in e && e[k].parent == Some(albumId) && e[k].children == []
      && exists i: nat :: i < |sg| && sg[i].id == k && (forall j :: i < j < |sg| ==> sg[j].id != k)
          && e[k].item == SongItem(Song(From(sg[i].title), sg[i].track, sg[i].duration))
  {
    var sg, sub := al.song, SongWrites(albumId, al.song);
    var e := ApplyWrites(m, AlbumListingWrites(albumId, al));
    var i0 :| 0 <= i0 < |sg| && sg[i0].id == k;
    assert sub[i0].0 == k;
    ApplyWritesLastBefore(m, sub, al.id, ListedAlbumEntry(al), k);
    var i: nat :| LastWriteAt(sub, k, i) && e[k] == sub[i].1;
    forall j | i < j < |sg| ensures sg[j].id != k {
      assert sub[j].0 == sg[j].id;
    }
    assert e[k] == SongEntry(albumId, sg[i]);
    assert i < |sg| && sg[i].id == k && e[k].item == SongItem(Song(From(sg[i].title), sg[i].track, sg[i].duration));
  }

  // ---------------------------------------------------------------- children

  /** After `update_root`, the children of `None` gain every listed artist;
      listed artists leave whatever parent they had; nothing else moves. */
  lemma IngestRootChildren(s: State, page: Subsonic.Artists, parent: Option<Key>)
    ensures var ids := IdsOf(PageArtists(page.index));
      ChildrenOf(IngestRoot(s, Subsonic.Response(Some(Subsonic.ArtistsData(page)))).entries, parent)
        == (if parent == None then ids else {}) + (ChildrenOf(s.entries, parent) - ids)
  {
    IngestRootEntries(s, page);
  }

  /** After `update_artist`, the requested id's children gain the listed
      albums (except one that shares the artist's id), the response's artist
      id moves under `None`, and nothing else moves. */
  lemma IngestArtistChildren(s: State, a: Subsonic.Artist, artistId: Key, parent: Option<Key>)
    ensures var ids := AlbumIdSet(a.album);
      ChildrenOf(IngestArtist(s, Subsonic.Response(Some(Subsonic.ArtistData(a))), artistId).entries, parent)
        == (if parent == None then {a.id} else {})
         + (if parent == Some(artistId) then ids - {a.id} else {})
         + (ChildrenOf(s.entries, parent) - ids - {a.id})
  {
    IngestArtistWrites(s, a, artistId);
    ArtistListingChildren(s.entries, a, artistId, parent);
  }

  lemma ArtistListingChildren(m: Entries, a: Subsonic.Artist, artistId: Key, parent: Option<Key>)
    ensures ChildrenOf(ApplyWrites(m, ArtistListingWrites(artistId, a)), parent)
        == (if parent == None then {a.id} else {})
         + (if parent == Some(artistId) then AlbumIdSet(a.album) - {a.id} else {})
         + (ChildrenOf(m, parent) - AlbumIdSet(a.album) - {a.id})
  {
    var e := ApplyWrites(m, ArtistListingWrites(artistId, a));
    var rhs := (if parent == None then {a.id} else {})
             + (if parent == Some(artistId) then AlbumIdSet(a.album) - {a.id} else {})
             + (ChildrenOf(m, parent) - AlbumIdSet(a.album) - {a.id});
    forall k ensures k in ChildrenOf(e, parent) <==> k in rhs {
      ArtistChildAt(m, a, artistId, parent, k);
    }
    SameMembers(ChildrenOf(e, parent), rhs);
  }

  /** Two sets with the same members are equal. */
  lemma SameMembers(a: set<Key>, b: set<Key>)
    requires forall k :: k in a <==> k in b
    ensures a == b
  {
  }

  /** Where one key sits after an artist listing's writes. */
  lemma ArtistChildAt(m: Entries, a: Subsonic.Artist, artistId: Key, parent: Option<Key>, k: Key)
    ensures k in ChildrenOf(ApplyWrites(m, ArtistListingWrites(artistId, a)), parent) <==>
        k in (if parent == None then {a.id} else {})
           + (if parent == Some(artistId) then AlbumIdSet(a.album) - {a.id} else {})
           + (ChildrenOf(m, parent) - AlbumIdSet(a.album) - {a.id})
  {
    ArtistListingKeys(artistId, a);
    if k == a.id {
      ApplyWritesSnoc(m, AlbumWrites(artistId, a.album), a.id, ListedArtistEntry(a));
    } else if k in AlbumIdSet(a.album) {
      ListedAlbum(m, a, artistId, k);
    } else {
      ApplyWritesUntouched(m, ArtistListingWrites(artistId, a), k);
    }
  }

  /** After `update_album`, the requested id's children gain the listed songs
      (except one that shares the album's id), the response's album id moves
      under `None`, and nothing else moves. */
  lemma IngestAlbumChildren(s: State, al: Subsonic.Album, albumId: Key, parent: Option<Key>)
    ensures var ids := SongIdSet(al.song);
      ChildrenOf(IngestAlbum(s, Subsonic.Response(Some(Subsonic.AlbumData(al))), albumId).entries, parent)
        == (if parent == None then {al.id} else {})
         + (if parent == Some(albumId) then ids - {al.id} else {})
         + (ChildrenOf(s.entries, parent) - ids - {al.id})
  {
    IngestAlbumWrites(s, al, albumId);
    AlbumListingChildren(s.entries, al, albumId, parent);
  }

  lemma AlbumListingChildren(m: Entries, al: Subsonic.Album, albumId: Key, parent: Option<Key>)
    ensures ChildrenOf(ApplyWrites(m, AlbumListingWrites(albumId, al)), parent)
        == (if parent == None then {al.id} else {})
         + (if parent == Some(albumId) then SongIdSet(al.song) - {al.id} else {})
         + (ChildrenOf(m, parent) - SongIdSet(al.song) - {al.id})
  {
    var e := ApplyWrites(m, AlbumListingWrites(albumId, al));
    var rhs := (if parent == None then {al.id} else {})
             + (if parent == Some(albumId) then SongIdSet(al.song) - {al.id} else {})
             + (ChildrenOf(m, parent) - SongIdSet(al.song) - {al.id});
    forall k ensures k in ChildrenOf(e, parent) <==> k in rhs {
      AlbumChildAt(m, al, albumId, parent, k);
    }
    SameMembers(ChildrenOf(e, parent), rhs);
  }

  /** Where one key sits after an album listing's writes. */
  lemma AlbumChildAt(m: Entries, al: Subsonic.Album, albumId: Key, parent: Option<Key>, k: Key)
    ensures k in ChildrenOf(ApplyWrites(m, AlbumListingWrites(albumId, al)), parent) <==>
        k in (if parent == None then {al.id} else {})
           + (if parent == Some(albumId) then SongIdSet(al.song) - {al.id} else {})
           + (ChildrenOf(m, parent) - SongIdSet(al.song) - {al.id})
  {
    AlbumListingKeys(albumId, al);
    if k == al.id {
      ApplyWritesSnoc(m, SongWrites(albumId, al.song), al.id, ListedAlbumEntry(al));
    } else if k in SongIdSet(al.song) {
      ListedSong(m, al, albumId, k);
    } else {
      ApplyWritesUntouched(m, AlbumListingWrites(albumId, al), k);
    }
  }

  /** Browsing an artist files its albums under it; browsing one of those
      albums then resets the album's parent, so it is no longer among the
      artist's children. */
  lemma AlbumListingDetachesAlbum(s: State, a: Subsonic.Artist, artistId: Key, al: Subsonic.Album)
    requires al.id in AlbumIdSet(a.album) && al.id != a.id
    ensures var s1 := IngestArtist(s, Subsonic.Response(Some(Subsonic.ArtistData(a))), artistId);
      var s2 := IngestAlbum(s1, Subsonic.Response(Some(Subsonic.AlbumData(al))), al.id);
      && al.id in ChildrenOf(s1.entries, Some(artistId))
      && al.id !in ChildrenOf(s2.entries, Some(artistId))
      && al.id in ChildrenOf(s2.entries, None)
  {
    var s1 := IngestArtist(s, Subsonic.Response(Some(Subsonic.ArtistData(a))), artistId);
    IngestArtistAlbums(s, a, artistId);
    IngestAlbumListed(s1, al, al.id);
  }

  // ---------------------------------------------------------------- coherence

  /** Writes of coherent entries keep a coherent map coherent. */
  lemma {:induction false} ApplyWritesCoherent(m: Entries, w: seq<(Key, Entry)>)
    requires AllCoherent(m)
    requires forall i :: 0 <= i < |w| ==> EntryCoherent(w[i].1)
    ensures AllCoherent(ApplyWrites(m, w))
    decreases |w|
  {
    if w != [] {
      var init := w[..|w| - 1];
      assert forall i :: 0 <= i < |init| ==> init[i] == w[i];
      ApplyWritesCoherent(m, init);
    }
  }

  /** Every ingest stores only search strings built by `From`, so the entry
      map stays coherent. */
  lemma IngestKeepsCoherent(s: State, resp: Subsonic.Response, id: Key)
    requires AllCoherent(s.entries)
    ensures AllCoherent(IngestRoot(s, resp).entries)
    ensures AllCoherent(IngestArtist(s, resp, id).entries)
    ensures AllCoherent(IngestAlbum(s, resp, id).entries)
  {
    match resp.data
    case Some(ArtistsData(page)) => ApplyWritesCoherent(s.entries, RootWrites(PageArtists(page.index)));
    case Some(ArtistData(a)) => ApplyWritesCoherent(s.entries, ArtistListingWrites(id, a));
    case Some(AlbumData(al)) => ApplyWritesCoherent(s.entries, AlbumListingWrites(id, al));
    case _ =>
  }

  // ---------------------------------------------------------------- index references

  /** Every artist id a named index lists has an entry. Keys are shared by
      all kinds, so the entry need not still be an artist: a later album or
      song with the same id replaces it. */
  predicate IndexesReferenceEntries(s: State)
  {
    forall n, k :: n in s.indexes && k in s.indexes[n] ==> k in s.entries
  }

  /** `update_root` records an index's ids only after inserting an entry for
      each of them, and never removes an entry. */
  lemma IngestRootKeepsReferences(s: State, resp: Subsonic.Response)
    requires IndexesReferenceEntries(s)
    ensures IndexesReferenceEntries(IngestRoot(s, resp))
  {
    match resp.data
    case Some(ArtistsData(page)) =>
      var arts := PageArtists(page.index);
      var ix := ApplyWrites(s.indexes, IndexWrites(page.index));
      var e := ApplyWrites(s.entries, RootWrites(arts));
      RootWritesKeys(arts);
      ApplyWritesKeys(s.entries, RootWrites(arts));
      forall n, k | n in ix && k in ix[n] ensures k in e {
        RootIndexReference(s.indexes, page.index, n, k);
      }
    case _ =>
  }

  /** An id the page's index writes leave under a name was either there
      before or is the id of an artist on the page. */
  lemma RootIndexReference(x: Indexes, g: seq<Subsonic.Index>, n: string, k: Key)
    requires n in ApplyWrites(x, IndexWrites(g)) && k in ApplyWrites(x, IndexWrites(g))[n]
    ensures (n in x && k in x[n]) || k in IdsOf(PageArtists(g))
  {
    var w := IndexWrites(g);
    if n in KeysOf(w) {
      ApplyWritesLast(x, w, n);
      var i: nat :| LastWriteAt(w, n, i) && ApplyWrites(x, w)[n] == w[i].1;
      assert k in IdsOf(g[i].artist);
      var j :| 0 <= j < |g[i].artist| && g[i].artist[j].id == k;
      var a := g[i].artist[j];
      PageArtistsListed(g, a);
      var arts := PageArtists(g);
      var p :| 0 <= p < |arts| && arts[p] == a;
      assert arts[p].id == k;
    } else {
      ApplyWritesUntouched(x, w, n);
    }
  }

  /** One step of `update_root`'s outer loop keeps the indexes pointing at
      entries: the entries only grow, and the group's ids are all in them. */
  lemma GroupStepKeepsReferences(s: State, e: Entries, n: string, ids: set<Key>)
    requires IndexesReferenceEntries(s)
    requires s.entries.Keys <= e.Keys && ids <= e.Keys
    ensures IndexesReferenceEntries(State(s.indexes[n := ids], e))
  {
  }

  /** `update_artist` leaves the indexes alone and never removes an entry. */
  lemma IngestArtistKeepsReferences(s: State, resp: Subsonic.Response, artistId: Key)
    requires IndexesReferenceEntries(s)
    ensures IndexesReferenceEntries(IngestArtist(s, resp, artistId))
  {
  }

  /** `update_album` leaves the indexes alone and never removes an entry. */
  lemma IngestAlbumKeepsReferences(s: State, resp: Subsonic.Response, albumId: Key)
    requires IndexesReferenceEntries(s)
    ensures IndexesReferenceEntries(IngestAlbum(s, resp, albumId))
  {
  }

  // ---------------------------------------------------------------- loop steps

  /** The write runs grow by one element per loop iteration. */
  lemma RootStep(page: seq<Subsonic.Artist>, arts: seq<Subsonic.Artist>, j: nat)
    requires j < |arts|
    ensures RootWrites(page + arts[..j + 1]) == RootWrites(page + arts[..j]) + [(arts[j].id, RootArtistEntry(arts[j]))]
    ensures IdsOf(arts[..j + 1]) == IdsOf(arts[..j]) + {arts[j].id}
  {
    assert page + arts[..j + 1] == (page + arts[..j]) + [arts[j]];
    var pre := arts[..j + 1];
    forall k | k in IdsOf(pre) ensures k in IdsOf(arts[..j]) + {arts[j].id} {
      var i :| 0 <= i < |pre| && pre[i].id == k;
      if i < j { assert arts[..j][i] == pre[i]; }
    }
    forall k | k in IdsOf(arts[..j]) ensures k in IdsOf(pre) {
      var i :| 0 <= i < j && arts[..j][i].id == k;
      assert pre[i] == arts[..j][i];
    }
    assert arts[j].id == pre[j].id;
  }

  lemma IndexStep(ix: seq<Subsonic.Index>, i: nat)
    requires i < |ix|
    ensures PageArtists(ix[..i + 1]) == PageArtists(ix[..i]) + ix[i].artist
    ensures IndexWrites(ix[..i + 1]) == IndexWrites(ix[..i]) + [(ix[i].name, IdsOf(ix[i].artist))]
  {
    assert ix[..i + 1][..i] == ix[..i];
  }

  lemma AlbumStep(parent: Key, albums: seq<Subsonic.Album>, i: nat)
    requires i < |albums|
    ensures AlbumWrites(parent, albums[..i + 1]) == AlbumWrites(parent, albums[..i]) + [(albums[i].id, AlbumEntry(parent, albums[i]))]
    ensures AlbumIds(albums[..i + 1]) == AlbumIds(albums[..i]) + [albums[i].id]
  {
  }

  lemma SongStep(parent: Key, songs: seq<Subsonic.Child>, i: nat)
    requires i < |songs|
    ensures SongWrites(parent, songs[..i + 1]) == SongWrites(parent, songs[..i]) + [(songs[i].id, SongEntry(parent, songs[i]))]
    ensures SongIds(songs[..i + 1]) == SongIds(songs[..i]) + [songs[i].id]
  {
  }

  lemma RootWritesAppend(a: seq<Subsonic.Artist>, b: seq<Subsonic.Artist>)
    ensures RootWrites(a + b) == RootWrites(a) + RootWrites(b)
  {
  }
}
