/** The read-only queries over the entry map, shared by every revision:
    children by parent pointer, case-insensitive search per item kind, and
    point lookup. `HashMap` iteration order is unspecified, so each query
    that collects keys yields a set. */
module Lookup {
  import opened Wrappers
  import opened SearchStrings
  import opened Items

  type Entries = map<Key, Entry>

  /** `get_children`: the keys whose entry's parent pointer equals `parent`.
      The entries' own `children` lists play no part. */
  function ChildrenOf(entries: Entries, parent: Option<Key>): (r: set<Key>)
    ensures forall k :: k in r <==> k in entries && entries[k].parent == parent
  {
    set k | k in entries && entries[k].parent == parent
  }

  /** Whether the item's search text contains the query, per `find_entry`'s match. */
  predicate ItemMatches(item: Item, query: SearchString)
  {
    match item
    case ArtistItem(a) => Contains(a.name, query)
    case AlbumItem(a) => Contains(a.name, query)
    case SongItem(s) => Contains(s.title, query)
  }

  /** `find_artist`: artist entries whose name contains the query. */
  function FindArtist(entries: Entries, q: string): (r: set<Key>)
    ensures forall k :: k in r <==>
      k in entries && entries[k].item.ArtistItem? && Contains(entries[k].item.artist.name, From(q))
  {
    var query := From(q);
    set k | k in entries && entries[k].item.ArtistItem? && Contains(entries[k].item.artist.name, query)
  }

  /** `find_album`: album entries whose name contains the query. */
  function FindAlbum(entries: Entries, q: string): (r: set<Key>)
    ensures forall k :: k in r <==>
      k in entries && entries[k].item.AlbumItem? && Contains(entries[k].item.album.name, From(q))
  {
    var query := From(q);
    set k | k in entries && entries[k].item.AlbumItem? && Contains(entries[k].item.album.name, query)
  }

  /** `find_song`: song entries whose title contains the query. */
  function FindSong(entries: Entries, q: string): (r: set<Key>)
    ensures forall k :: k in r <==>
      k in entries && entries[k].item.SongItem? && Contains(entries[k].item.song.title, From(q))
  {
    var query := From(q);
    set k | k in entries && entries[k].item.SongItem? && Contains(entries[k].item.song.title, query)
  }

  /** `find_entry`: entries of any kind whose search text contains the query. */
  function FindEntry(entries: Entries, q: string): (r: set<Key>)
    ensures forall k :: k in r <==> k in entries && Contains(ItemName(entries[k].item), From(q))
  {
    var query := From(q);
    set k | k in entries && ItemMatches(entries[k].item, query)
  }

  /** `get_item`: the item stored under a key, if any. */
  function GetItem(entries: Entries, k: Key): (r: Option<Item>)
    ensures r.Some? <==> k in entries
    ensures r.Some? ==> r.value == entries[k].item
  {
    if k in entries then Some(entries[k].item) else None
  }

  /** `find_entry` is the union of the three per-kind searches. */
  lemma FindEntryIsUnion(entries: Entries, q: string)
    ensures FindEntry(entries, q) == FindArtist(entries, q) + FindAlbum(entries, q) + FindSong(entries, q)
  {
    var all, query := FindEntry(entries, q), From(q);
    forall k | k in all
      ensures k in FindArtist(entries, q) + FindAlbum(entries, q) + FindSong(entries, q)
    {
      match entries[k].item
      case ArtistItem(_) => assert k in FindArtist(entries, q);
      case AlbumItem(_) => assert k in FindAlbum(entries, q);
      case SongItem(_) => assert k in FindSong(entries, q);
    }
  }

  /** A song search never yields an artist or an album, and the three
      per-kind searches never share a key. */
  lemma FindKindsDisjoint(entries: Entries, q: string)
    ensures forall k :: k in FindSong(entries, q) ==> !entries[k].item.ArtistItem? && !entries[k].item.AlbumItem?
    ensures FindArtist(entries, q) !! FindAlbum(entries, q)
    ensures FindArtist(entries, q) !! FindSong(entries, q)
    ensures FindAlbum(entries, q) !! FindSong(entries, q)
  {
  }

  /** Every stored search string keeps its two forms together. */
  predicate AllCoherent(entries: Entries)
  {
    forall k :: k in entries ==> EntryCoherent(entries[k])
  }

  /** The lower-cased query occurs somewhere in the lower-cased display text. */
  ghost predicate FoundIgnoringCase(name: SearchString, q: string)
  {
    exists i: nat :: OccursAt(Lower(Show(name)), Lower(q), i)
  }

  /** Over coherent entries, `find_entry` is case-insensitive substring
      search on the displayed name or title. */
  lemma FindEntryIgnoresCase(entries: Entries, q: string, k: Key)
    requires AllCoherent(entries)
    ensures k in FindEntry(entries, q) <==>
      k in entries && FoundIgnoringCase(ItemName(entries[k].item), q)
  {
    if k in entries {
      var name := ItemName(entries[k].item);
      assert EntryCoherent(entries[k]);
      ContainsQuery(name, q);
      assert ItemMatches(entries[k].item, From(q)) == Contains(name, From(q));
    }
  }

  /** Over coherent entries, each per-kind search is case-insensitive
      substring search on the displayed name or title of that kind. */
  lemma FindKindsIgnoreCase(entries: Entries, q: string)
    ensures AllCoherent(entries) ==> forall k :: k in FindArtist(entries, q) <==>
      k in entries && entries[k].item.ArtistItem? && FoundIgnoringCase(entries[k].item.artist.name, q)
    ensures AllCoherent(entries) ==> forall k :: k in FindAlbum(entries, q) <==>
      k in entries && entries[k].item.AlbumItem? && FoundIgnoringCase(entries[k].item.album.name, q)
    ensures AllCoherent(entries) ==> forall k :: k in FindSong(entries, q) <==>
      k in entries && entries[k].item.SongItem? && FoundIgnoringCase(entries[k].item.song.title, q)
  {
    if AllCoherent(entries) {
      forall k | k in entries
        ensures Contains(ItemName(entries[k].item), From(q)) <==> FoundIgnoringCase(ItemName(entries[k].item), q)
      {
        assert EntryCoherent(entries[k]);
        ContainsQuery(ItemName(entries[k].item), q);
      }
    }
  }

  /** The empty query finds every entry. */
  lemma FindEntryEmptyQuery(entries: Entries)
    ensures FindEntry(entries, "") == entries.Keys
  {
    forall k | k in entries ensures k in FindEntry(entries, "") {
      EmptyQueryMatches(ItemName(entries[k].item));
      assert ItemMatches(entries[k].item, From("")) == Contains(ItemName(entries[k].item), From(""));
    }
  }

  /** Children are found by parent pointers alone: two entry maps with the
      same keys and parent pointers have the same children, whatever their
      `children` lists say. */
  lemma ChildrenIgnoreChildLists(a: Entries, b: Entries, parent: Option<Key>)
    requires a.Keys == b.Keys
    requires forall k :: k in a ==> a[k].parent == b[k].parent
    ensures ChildrenOf(a, parent) == ChildrenOf(b, parent)
  {
  }
}
