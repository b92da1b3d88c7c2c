/** The item types shared by the three library revisions: artists, albums and
    songs with their search strings, the cache entry that holds them, and the
    `Display` text of songs and items. */
module Items {
  import opened Wrappers
  import opened SearchStrings
  import opened Decimal

  /** Entry keys are the server's opaque id strings. */
  type Key = string

  datatype Artist = Artist(name: SearchString)

  datatype Album = Album(name: SearchString)

  datatype Song = Song(title: SearchString, trackNumber: Option<nat>, duration: Option<nat>)

  datatype Item = ArtistItem(artist: Artist) | AlbumItem(album: Album) | SongItem(song: Song)

  /** A cache entry: the item, the key it was filed under, and the children ids
      written by the ingest of its own listing. */
  datatype Entry = Entry(parent: Option<Key>, children: seq<Key>, item: Item)

  /** The text an item is searched by: an artist's or album's name, a song's title. */
  function ItemName(item: Item): SearchString
  {
    match item
    case ArtistItem(a) => a.name
    case AlbumItem(a) => a.name
    case SongItem(s) => s.title
  }

  /** Every search string stored in the entry keeps its two forms together. */
  predicate EntryCoherent(e: Entry)
  {
    Coherent(ItemName(e.item))
  }

  /** `unwrap_or_default` on the optional track number and duration. */
  function TrackOf(s: Song): (t: nat)
    ensures s.trackNumber.Some? ==> t == s.trackNumber.value
    ensures s.trackNumber.None? ==> t == 0
  {
    if s.trackNumber.Some? then s.trackNumber.value else 0
  }

  function DurationOf(s: Song): (d: nat)
    ensures s.duration.Some? ==> d == s.duration.value
    ensures s.duration.None? ==> d == 0
  {
    if s.duration.Some? then s.duration.value else 0
  }

  /** `{}:{:02}` of `d / 60` and `d % 60`: whole minutes written as `{}`
      writes them (no leading zero), a colon, and the remaining seconds as
      exactly two digits. */
  function DurationField(d: nat): (r: string)
    ensures |r| >= 4 && r[|r| - 3] == ':'
    ensures r[..|r| - 3] == Digits(d / 60) && r[|r| - 2..] == Pad2(d % 60)
    ensures AllDigits(r[..|r| - 3]) && ParseDigits(r[..|r| - 3]) == d / 60
    ensures AllDigits(r[|r| - 2..]) && ParseDigits(r[|r| - 2..]) == d % 60 < 60
  {
    var minutes, seconds := Digits(d / 60), Pad2(d % 60);
    DigitsRoundTrip(d / 60);
    Pad2RoundTrip(d % 60);
    var r := minutes + ":" + seconds;
    assert r[..|r| - 3] == minutes;
    assert r[|r| - 2..] == seconds;
    r
  }

  /** Reads a `minutes:ss` field back as a number of seconds. */
  function ParseDuration(f: string): nat
    requires |f| >= 3 && AllDigits(f[..|f| - 3]) && AllDigits(f[|f| - 2..])
  {
    ParseDigits(f[..|f| - 3]) * 60 + ParseDigits(f[|f| - 2..])
  }

  /** The duration field loses nothing: reading it back gives the duration. */
  lemma DurationRoundTrip(d: nat)
    ensures ParseDuration(DurationField(d)) == d
  {
  }

  /** `Display` for `Song`: `"{track}: {title} [{minutes}:{seconds:02}]"`:
      the track field, `": "`, the title's display form, `" ["`, the duration
      field and `]`, in that order and nothing else. */
  function SongText(s: Song): (r: string)
    ensures LineShape(r, Digits(TrackOf(s)), Show(s.title), DurationField(DurationOf(s)))
  {
    var line := Digits(TrackOf(s)) + ": " + Show(s.title) + " [" + DurationField(DurationOf(s)) + "]";
    LineSlices(line, Digits(TrackOf(s)), Show(s.title), DurationField(DurationOf(s)));
    line
  }

  /** `r` is the track field `t`, `": "`, the title text, `" ["`, the duration
      field `f` and `]`, each at its own place and nothing else. */
  predicate LineShape(r: string, t: string, title: string, f: string)
  {
    && |r| == |t| + |title| + |f| + 5
    && r[..|t|] == t
    && r[|t|..|t| + 2] == ": "
    && r[|t| + 2..|t| + 2 + |title|] == title
    && r[|t| + 2 + |title|..|t| + 4 + |title|] == " ["
    && r[|t| + 4 + |title|..|r| - 1] == f
    && r[|r| - 1] == ']'
  }

  /** The song line reads back: it has the line's shape around the song's
      title; its leading field parses to the track number and its bracketed
      trailing field to the duration. A missing track or duration reads as 0. */
  lemma SongTextReadBack(s: Song)
    ensures var t, f := Digits(TrackOf(s)), DurationField(DurationOf(s));
      && LineShape(SongText(s), t, Show(s.title), f)
      && ParseDigits(t) == TrackOf(s)
      && ParseDuration(f) == DurationOf(s)
  {
    DigitsRoundTrip(TrackOf(s));
    DurationRoundTrip(DurationOf(s));
  }

  /** The concatenation that builds a song line has the line's shape. */
  lemma LineSlices(r: string, t: string, title: string, f: string)
    requires r == t + ": " + title + " [" + f + "]"
    ensures LineShape(r, t, title, f)
  {
  }

  /** A worked line: track 3, 125 seconds, any title. */
  lemma SongTextExample(title: SearchString)
    ensures SongText(Song(title, Some(3), Some(125))) == "3: " + Show(title) + " [2:05]"
  {
    assert Digits(3) == "3";
    DurationFieldExample();
    ExampleLine(Show(title));
  }

  lemma ExampleLine(x: string)
    ensures "3" + ": " + x + " [" + "2:05" + "]" == "3: " + x + " [2:05]"
  {
  }

  lemma DurationFieldExample()
    ensures DurationField(125) == "2:05"
  {
    assert 125 / 60 == 2 && 125 % 60 == 5;
    assert Digits(2) == "2";
    assert Pad2(5) == "05" by {
      assert Digits(5) == "5";
    }
  }

  /** `Display` for `Item`: an artist's or album's name, or the song line. */
  function ItemText(item: Item): (r: string)
    ensures item.ArtistItem? ==> r == item.artist.name.display
    ensures item.AlbumItem? ==> r == item.album.name.display
    ensures item.SongItem? ==> r == SongText(item.song)
  {
    match item
    case ArtistItem(a) => Show(a.name)
    case AlbumItem(a) => Show(a.name)
    case SongItem(s) => SongText(s)
  }
}
