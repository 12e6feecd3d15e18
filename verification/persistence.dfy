/** The storage codecs of `hooks/useLocalStorage.ts` (lines 30-68): the
    JSON-ready forms of a catalog record, a collection and a daily playlist,
    in which every `Date` becomes its ISO-8601 text.

    `Date.prototype.toISOString` and `new Date(text)` are not re-implemented:
    they are the two functions of a `DateCodec` passed in, and every
    round-trip fact below assumes only that the pair is `Faithful`. */
module Persistence {
  import opened Wrappers
  import opened Types

  /** `format` stands for `toISOString`, `parse` for `new Date(text)`. */
  datatype DateCodec = DateCodec(format: Instant -> string, parse: string -> Instant)

  /** What the built-ins guarantee and the round trips rely on: parsing the
      ISO text of an instant gives back that instant, and the text is never
      empty (so it is truthy when tested). */
  ghost predicate Faithful(c: DateCodec) {
    forall t: Instant {:trigger c.format(t)} :: c.parse(c.format(t)) == t && c.format(t) != ""
  }

  /** A stored catalog record: the `File` object is dropped (`file: null`)
      and its name, type and size are kept beside the other fields. */
  datatype StoredVideo = StoredVideo(
    id: string,
    name: string,
    fileUrl: string,
    dateAdded: string,
    firstPlayDate: Option<string>,
    reviewCount: int,
    nextReviewDate: Option<string>,
    status: Status,
    collectionId: string,
    episodeNumber: Option<int>,
    thumbnail: Option<string>,
    duration: Option<real>,
    fileSize: Option<int>,
    mimeType: Option<string>,
    mediaType: Option<MediaType>,
    fileName: Option<string>,
    fileType: Option<string>)

  datatype StoredCollection = StoredCollection(
    id: string,
    name: string,
    description: Option<string>,
    dateCreated: string,
    isActive: bool,
    totalVideos: int,
    completedVideos: int,
    color: string)

  datatype StoredPlaylist = StoredPlaylist(
    id: string,
    date: string,
    items: seq<PlaylistItem>,
    isCompleted: bool,
    lastPlayedIndex: int,
    isExtraSession: bool,
    playlistType: Kind)

  /** `date?.toISOString()`: text for a present date, absent for an absent one. */
  function FormatOptional(c: DateCodec, d: Option<Instant>): (r: Option<string>)
    ensures r.Some? <==> d.Some?
    ensures d.Some? ==> r.value == c.format(d.value)
  {
    match d
    case Some(t) => Some(c.format(t))
    case None => None
  }

  /** `text ? new Date(text) : undefined`: the empty text counts as absent. */
  function ParseOptional(c: DateCodec, s: Option<string>): (r: Option<Instant>)
    ensures r.Some? <==> s.Some? && s.value != ""
    ensures r.Some? ==> r.value == c.parse(s.value)
  {
    if s.Some? && s.value != "" then Some(c.parse(s.value)) else None
  }

  /** Absent dates stay absent and present ones come back as the same
      instant. */
  lemma OptionalDateRoundTrip(c: DateCodec, d: Option<Instant>)
    requires Faithful(c)
    ensures ParseOptional(c, FormatOptional(c, d)) == d
  {
  }

  /** `serializeVideoFile`. */
  function SerializeVideo(c: DateCodec, v: VideoFile): (r: StoredVideo)
    ensures r.dateAdded == c.format(v.dateAdded)
    ensures r.firstPlayDate == FormatOptional(c, v.firstPlayDate)
    ensures r.nextReviewDate == FormatOptional(c, v.nextReviewDate)
    ensures r.firstPlayDate.Some? <==> v.firstPlayDate.Some?
    ensures r.nextReviewDate.Some? <==> v.nextReviewDate.Some?
    ensures r.fileName.Some? <==> v.file.Some?
    ensures r.fileSize.Some? <==> v.file.Some?
    ensures r.fileType.Some? <==> v.file.Some?
    ensures v.file.Some? ==>
              (r.fileName == Some(v.file.value.name)
               && r.fileType == Some(v.file.value.mimeType)
               && r.fileSize == Some(v.file.value.size))
    ensures r.id == v.id && r.name == v.name && r.fileUrl == v.fileUrl
    ensures r.reviewCount == v.reviewCount && r.status == v.status
    ensures r.collectionId == v.collectionId && r.mimeType == v.mimeType
    ensures r.episodeNumber == v.episodeNumber && r.thumbnail == v.thumbnail
    ensures r.duration == v.duration && r.mediaType == v.mediaType
  {
    StoredVideo(
      id := v.id,
      name := v.name,
      fileUrl := v.fileUrl,
      dateAdded := c.format(v.dateAdded),
      firstPlayDate := FormatOptional(c, v.firstPlayDate),
      reviewCount := v.reviewCount,
      nextReviewDate := FormatOptional(c, v.nextReviewDate),
      status := v.status,
      collectionId := v.collectionId,
      episodeNumber := v.episodeNumber,
      thumbnail := v.thumbnail,
      duration := v.duration,
      fileSize := if v.file.Some? then Some(v.file.value.size) else None,
      mimeType := v.mimeType,
      mediaType := v.mediaType,
      fileName := if v.file.Some? then Some(v.file.value.name) else None,
      fileType := if v.file.Some? then Some(v.file.value.mimeType) else None)
  }

  /** `deserializeVideoFile`: the dates are parsed back; the `file` field
      stays `null`. */
  function DeserializeVideo(c: DateCodec, s: StoredVideo): (r: VideoFile)
    ensures r.file.None?
    ensures r.dateAdded == c.parse(s.dateAdded)
    ensures r.firstPlayDate == ParseOptional(c, s.firstPlayDate)
    ensures r.nextReviewDate == ParseOptional(c, s.nextReviewDate)
    ensures r.fileSize == s.fileSize
    ensures r.id == s.id && r.name == s.name && r.fileUrl == s.fileUrl
    ensures r.reviewCount == s.reviewCount && r.status == s.status
    ensures r.collectionId == s.collectionId && r.mimeType == s.mimeType
    ensures r.episodeNumber == s.episodeNumber && r.thumbnail == s.thumbnail
    ensures r.duration == s.duration && r.mediaType == s.mediaType
  {
    VideoFile(
      id := s.id,
      name := s.name,
      file := None,
      fileUrl := s.fileUrl,
      dateAdded := c.parse(s.dateAdded),
      firstPlayDate := ParseOptional(c, s.firstPlayDate),
      reviewCount := s.reviewCount,
      nextReviewDate := ParseOptional(c, s.nextReviewDate),
      status := s.status,
      collectionId := s.collectionId,
      episodeNumber := s.episodeNumber,
      thumbnail := s.thumbnail,
      duration := s.duration,
      fileSize := s.fileSize,
      mimeType := s.mimeType,
      mediaType := s.mediaType)
  }

  /** The record a storage round trip gives back: the same record, with the
      `File` object gone and `fileSize` taken from it. */
  function AfterStorage(v: VideoFile): VideoFile {
    v.(file := None, fileSize := if v.file.Some? then Some(v.file.value.size) else None)
  }

  /** Restoring a stored record gives back every field, the three dates as
      the same instants (absent ones absent), except that `file` is `null`
      and `fileSize` is the file's size. */
  lemma VideoRoundTrip(c: DateCodec, v: VideoFile)
    requires Faithful(c)
    ensures DeserializeVideo(c, SerializeVideo(c, v)) == AfterStorage(v)
  {
    OptionalDateRoundTrip(c, v.firstPlayDate);
    OptionalDateRoundTrip(c, v.nextReviewDate);
  }

  /** The round trip is not the identity: a record that holds its `File`
      comes back without it. */
  lemma VideoRoundTripDropsFile(c: DateCodec, v: VideoFile)
    requires Faithful(c)
    requires v.file.Some?
    ensures DeserializeVideo(c, SerializeVideo(c, v)) != v
  {
    VideoRoundTrip(c, v);
  }

  /** Storing a record that was itself restored from storage records no
      file name, type or size, because `file` is then `null`. */
  lemma StoringRestoredVideoLosesFileFacts(c: DateCodec, v: VideoFile)
    ensures var again := SerializeVideo(c, DeserializeVideo(c, SerializeVideo(c, v)));
      again.fileName.None? && again.fileType.None? && again.fileSize.None?
  {
  }

  /** `serializeCollection`. */
  function SerializeCollection(c: DateCodec, col: Collection): (r: StoredCollection)
    ensures r.dateCreated == c.format(col.dateCreated)
    ensures r.id == col.id && r.name == col.name && r.description == col.description
    ensures r.isActive == col.isActive && r.color == col.color
    ensures r.totalVideos == col.totalVideos && r.completedVideos == col.completedVideos
  {
    StoredCollection(col.id, col.name, col.description, c.format(col.dateCreated),
                     col.isActive, col.totalVideos, col.completedVideos, col.color)
  }

  /** `deserializeCollection`. */
  function DeserializeCollection(c: DateCodec, s: StoredCollection): (r: Collection)
    ensures r.dateCreated == c.parse(s.dateCreated)
    ensures r.id == s.id && r.name == s.name && r.description == s.description
    ensures r.isActive == s.isActive && r.color == s.color
    ensures r.totalVideos == s.totalVideos && r.completedVideos == s.completedVideos
  {
    Collection(s.id, s.name, s.description, c.parse(s.dateCreated),
               s.isActive, s.totalVideos, s.completedVideos, s.color)
  }

  /** A collection survives storage unchanged. */
  lemma CollectionRoundTrip(c: DateCodec, col: Collection)
    requires Faithful(c)
    ensures DeserializeCollection(c, SerializeCollection(c, col)) == col
  {
  }

  /** `serializePlaylist`. */
  function SerializePlaylist(c: DateCodec, p: DailyPlaylist): (r: StoredPlaylist)
    ensures r.date == c.format(p.date)
    ensures r.id == p.id && r.items == p.items && r.isCompleted == p.isCompleted
    ensures r.lastPlayedIndex == p.lastPlayedIndex && r.isExtraSession == p.isExtraSession
    ensures r.playlistType == p.playlistType
  {
    StoredPlaylist(p.id, c.format(p.date), p.items, p.isCompleted,
                   p.lastPlayedIndex, p.isExtraSession, p.playlistType)
  }

  /** `deserializePlaylist`. */
  function DeserializePlaylist(c: DateCodec, s: StoredPlaylist): (r: DailyPlaylist)
    ensures r.date == c.parse(s.date)
    ensures r.id == s.id && r.items == s.items && r.isCompleted == s.isCompleted
    ensures r.lastPlayedIndex == s.lastPlayedIndex && r.isExtraSession == s.isExtraSession
    ensures r.playlistType == s.playlistType
  {
    DailyPlaylist(s.id, c.parse(s.date), s.items, s.isCompleted,
                  s.lastPlayedIndex, s.isExtraSession, s.playlistType)
  }

  /** A daily playlist survives storage unchanged. */
  lemma PlaylistRoundTrip(c: DateCodec, p: DailyPlaylist)
    requires Faithful(c)
    ensures DeserializePlaylist(c, SerializePlaylist(c, p)) == p
  {
  }

  /** The other direction: stored text that some instant formats to is
      stored again exactly as it was. */
  lemma StoredPlaylistRoundTrip(c: DateCodec, s: StoredPlaylist, t: Instant)
    requires Faithful(c)
    requires s.date == c.format(t)
    ensures SerializePlaylist(c, DeserializePlaylist(c, s)) == s
  {
  }

  /** Likewise for collections. */
  lemma StoredCollectionRoundTrip(c: DateCodec, s: StoredCollection, t: Instant)
    requires Faithful(c)
    requires s.dateCreated == c.format(t)
    ensures SerializeCollection(c, DeserializeCollection(c, s)) == s
  {
  }
}
