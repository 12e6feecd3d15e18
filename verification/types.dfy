/** The records of `types/index.ts`. A JavaScript `Date` is an integer
    instant (milliseconds since the epoch); an optional field (`x?: T`) is an
    `Option<T>`; a browser `File` is its name, byte size and reported type. */
module Types {
  import opened Wrappers

  /** Milliseconds since the epoch: what a `Date` object holds. */
  type Instant = int

  /** A browser `File`: `name`, `size` in bytes and the MIME `type` the
      browser reports (the empty string when it reports none). */
  datatype FileInfo = FileInfo(name: string, size: nat, mimeType: string)

  /** `VideoFile.status`. */
  datatype Status = New | Learning | Completed

  /** `VideoFile.mediaType`. */
  datatype MediaType = Video | Audio

  /** The `'new' | 'review'` union used by `PlaylistItem.reviewType`,
      `DailyPlaylist.playlistType` and the preview's selector. */
  datatype Kind = NewKind | ReviewKind

  /** One catalog record. `file` is `None` once the record has been through
      storage, where the `File` object is replaced by `null`. */
  datatype VideoFile = VideoFile(
    id: string,
    name: string,
    file: Option<FileInfo>,
    fileUrl: string,
    dateAdded: Instant,
    firstPlayDate: Option<Instant>,
    reviewCount: int,
    nextReviewDate: Option<Instant>,
    status: Status,
    collectionId: string,
    episodeNumber: Option<int>,
    thumbnail: Option<string>,
    duration: Option<real>,
    fileSize: Option<int>,
    mimeType: Option<string>,
    mediaType: Option<MediaType>)

  datatype Collection = Collection(
    id: string,
    name: string,
    description: Option<string>,
    dateCreated: Instant,
    isActive: bool,
    totalVideos: int,
    completedVideos: int,
    color: string)

  datatype PlaylistItem = PlaylistItem(
    videoId: string,
    reviewType: Kind,
    reviewNumber: int,
    daysSinceFirstPlay: Option<int>,
    isRecommendedForVideo: Option<bool>)

  datatype DailyPlaylist = DailyPlaylist(
    id: string,
    date: Instant,
    items: seq<PlaylistItem>,
    isCompleted: bool,
    lastPlayedIndex: int,
    isExtraSession: bool,
    playlistType: Kind)

  /** An entry of `PlaylistPreview.newVideos`: a playlist item that may carry
      its index in the catalog. */
  datatype PreviewEntry = PreviewEntry(item: PlaylistItem, originalIndex: Option<int>)

  datatype PlaylistPreview = PlaylistPreview(
    newVideos: seq<PreviewEntry>,
    reviews: seq<PlaylistItem>,
    totalCount: int,
    isExtraSession: bool,
    lastPlayedIndex: Option<int>)

  /** `todayReviewCount` is declared as a required number in
      `types/index.ts`, but `getStats` never sets it, so the record the app
      builds has it undefined; it is optional here to say so. */
  datatype LearningStats = LearningStats(
    totalVideos: int,
    completedVideos: int,
    todayNewCount: int,
    todayReviewCount: Option<int>,
    overallProgress: int,
    activeCollections: int,
    canAddExtra: bool,
    todayAudioReviewCount: Option<int>,
    todayVideoReviewCount: Option<int>)
}
