/** The records the player receives from the search API and keeps in storage. */
module Media {

  /** The bundled placeholder artwork, used for missing and broken images. */
  const Fallback: string := "./default-podcast.png"

  /** An episode as delivered by the episodes endpoint; empty strings and a
      zero date stand for the absent (falsy) JSON fields. */
  datatype Episode = Episode(
    id: int,
    title: string,
    description: string,
    image: string,
    feedImage: string,
    datePublished: int,
    enclosureUrl: string)

  /** A podcast feed as delivered by the search endpoint. */
  datatype Feed = Feed(
    itunesId: int,
    title: string,
    description: string,
    image: string,
    episodeCount: int,
    newestItemPubdate: int)

  /** The six fields the player persists while it is playing. */
  datatype Snapshot = Snapshot(
    title: string,
    datePublished: string,
    currentTime: nat,
    duration: nat,
    image: string,
    src: string)

  /** The artwork of an episode card, queue card or the player: the episode's
      own image, else its feed's image, else the placeholder. */
  function EpisodeArtwork(e: Episode): (url: string)
    ensures url != ""
    ensures e.image != "" ==> url == e.image
    ensures e.image == "" && e.feedImage != "" ==> url == e.feedImage
    ensures e.image == "" && e.feedImage == "" ==> url == Fallback
  {
    if e.image != "" then e.image
    else if e.feedImage != "" then e.feedImage
    else Fallback
  }

  /** The artwork of a search-result card: the feed's image or the placeholder. */
  function FeedArtwork(f: Feed): (url: string)
    ensures url != ""
    ensures f.image != "" ==> url == f.image
    ensures f.image == "" ==> url == Fallback
  {
    if f.image != "" then f.image else Fallback
  }
}
