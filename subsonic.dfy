/** The parts of a Subsonic API response that the library reads, and the
    connection that fetches them. Deserialisation, authentication and HTTP
    are outside the model: a connection is three request functions whose
    results are either a parsed response or an error. */
module Subsonic {
  import opened Wrappers

  /** A song entry (`Child`): only the fields the album ingest copies. */
  datatype Child = Child(id: string, title: string, track: Option<nat>, duration: Option<nat>)

  /** An album; `song` is empty unless the album's own listing was requested. */
  datatype Album = Album(id: string, name: string, song: seq<Child>)

  /** An artist; `album` is empty unless the artist's own listing was requested. */
  datatype Artist = Artist(id: string, name: string, album: seq<Album>)

  /** One alphabetic index group of the artist listing. */
  datatype Index = Index(name: string, artist: seq<Artist>)

  datatype Artists = Artists(index: seq<Index>)

  /** The response payload variants; the licence and music-folder payloads
      carry nothing the library reads. */
  datatype Data =
    | License
    | MusicFolders
    | ArtistsData(artists: Artists)
    | ArtistData(artist: Artist)
    | AlbumData(album: Album)

  datatype Response = Response(data: Option<Data>)

  /** A transport, authentication or parse failure, passed through unchanged. */
  datatype FetchError = FetchError(message: string)

  type Fetched = Result<Response, FetchError>

  /** `getArtists`, `getArtist?id=` and `getAlbum?id=` of a server. */
  datatype Connection = Connection(
    getArtists: () -> Fetched,
    getArtist: string -> Fetched,
    getAlbum: string -> Fetched)
}
