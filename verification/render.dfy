/** Rendering a result list into card images (the loops of `searchPodcast`
    and `loadEpisodes`). Feeds are kept when they have episodes and their
    title has not been kept before; every card after original index 20 has
    its image URL moved into `data-src` and its `src` cleared, and the
    scheduler is then run with an eager limit of 20. */
module Render {
  import opened Media
  import opened ImageScheduler

  /** The eager limit both lists pass to `handleImageLoad`. */
  const EagerLimit: nat := 20

  /** Which cards get their image deferred: as written, those whose original
      index is above 20; or those whose rendered position is at least `limit`. */
  datatype DeferPolicy = IndexAbove20 | PositionFrom(limit: nat)

  function Defers(policy: DeferPolicy, index: nat, position: nat): bool {
    match policy
    case IndexAbove20 => index > 20
    case PositionFrom(limit) => position >= limit
  }

  /** A freshly rendered card image: loading `url`, or with `url` stashed. */
  function CardImg(url: string, deferred: bool): (img: Img)
    requires url != ""
    ensures img.phase == Waiting && !img.settled
    ensures deferred ==> img.src == "" && img.stash == url
    ensures !deferred ==> img.src == url && img.stash == ""
  {
    if deferred then Img("", url, Waiting, false) else Img(url, "", Waiting, false)
  }

  /** Feed `i` is rendered: it has episodes and no earlier feed with episodes
      has the same title. */
  predicate FirstWithEpisodes(feeds: seq<Feed>, i: nat)
    requires i < |feeds|
  {
    && feeds[i].episodeCount > 0
    && forall j :: 0 <= j < i && feeds[j].episodeCount > 0 ==> feeds[j].title != feeds[i].title
  }

  /** The `data.feeds.forEach` loop of `searchPodcast`: the original indices of
      the rendered feeds, and their card images in container order. */
  method RenderFeeds(feeds: seq<Feed>, policy: DeferPolicy) returns (kept: seq<nat>, imgs: seq<Img>)
    ensures |kept| == |imgs|
    ensures forall k :: 0 <= k < |kept| ==> kept[k] < |feeds|
    ensures forall k, l :: 0 <= k < l < |kept| ==> kept[k] < kept[l]
    ensures forall i :: 0 <= i < |feeds| ==> (i in kept <==> FirstWithEpisodes(feeds, i))
    ensures forall k :: 0 <= k < |kept| ==>
      imgs[k] == CardImg(FeedArtwork(feeds[kept[k]]), Defers(policy, kept[k], k))
  {
    var titles: set<string> := {};
    kept := [];
    imgs := [];
    var index := 0;
    while index < |feeds|
      invariant 0 <= index <= |feeds|
      invariant |kept| == |imgs|
      invariant forall k :: 0 <= k < |kept| ==> kept[k] < index
      invariant forall k, l :: 0 <= k < l < |kept| ==> kept[k] < kept[l]
      invariant forall i :: 0 <= i < index ==> (i in kept <==> FirstWithEpisodes(feeds, i))
      invariant forall t :: t in titles <==>
        exists j :: 0 <= j < index && feeds[j].episodeCount > 0 && feeds[j].title == t
      invariant forall k :: 0 <= k < |kept| ==>
        imgs[k] == CardImg(FeedArtwork(feeds[kept[k]]), Defers(policy, kept[k], k))
    {
      var podcast := feeds[index];
      ghost var before := kept;
      assert FirstWithEpisodes(feeds, index) <==> podcast.episodeCount > 0 && podcast.title !in titles;
      if podcast.episodeCount > 0 && podcast.title !in titles {
        titles := titles + {podcast.title};
        imgs := imgs + [CardImg(FeedArtwork(podcast), Defers(policy, index, |kept|))];
        kept := kept + [index];
        assert forall k :: 0 <= k < |before| ==> kept[k] == before[k];
        assert forall i :: i in kept <==> i in before || i == index;
      }
      index := index + 1;
    }
  }

  /** The `data.items.forEach` loop of `loadEpisodes`: every episode gets a card. */
  function RenderEpisodes(items: seq<Episode>, policy: DeferPolicy): (imgs: seq<Img>)
    ensures |imgs| == |items|
    ensures forall i :: 0 <= i < |items| ==> imgs[i].phase == Waiting && !imgs[i].settled
    ensures forall i :: 0 <= i < |items| && Defers(policy, i, i) ==>
      imgs[i].src == "" && imgs[i].stash == EpisodeArtwork(items[i])
    ensures forall i :: 0 <= i < |items| && !Defers(policy, i, i) ==>
      imgs[i].src == EpisodeArtwork(items[i]) && imgs[i].stash == ""
  {
    seq(|items|, i requires 0 <= i < |items| => CardImg(EpisodeArtwork(items[i]), Defers(policy, i, i)))
  }

  /** Deferring by rendered position partitions the cards: exactly the images
      the scheduler observes lazily carry a stash, and exactly the eager ones
      are loading their artwork. */
  predicate Partitioned(imgs: seq<Img>, limit: nat) {
    forall k :: 0 <= k < |imgs| ==> (imgs[k].stash != "" <==> k >= limit) && (imgs[k].src != "" <==> k < limit)
  }

  lemma EpisodesPartitioned(items: seq<Episode>)
    ensures Partitioned(RenderEpisodes(items, PositionFrom(EagerLimit)), EagerLimit)
  {
  }

  lemma FeedsPartitioned(feeds: seq<Feed>, kept: seq<nat>, imgs: seq<Img>)
    requires |kept| == |imgs| && forall k :: 0 <= k < |kept| ==> kept[k] < |feeds|
    requires forall k :: 0 <= k < |kept| ==>
      imgs[k] == CardImg(FeedArtwork(feeds[kept[k]]), Defers(PositionFrom(EagerLimit), kept[k], k))
    ensures Partitioned(imgs, EagerLimit)
  {
  }

  /** As written, with 21 or more episodes the card at index 20 is neither
      eager nor deferred: it loads its artwork at once, but it is also
      observed, and having no stash it is given the placeholder as soon as it
      enters the viewport, whatever the events before. */
  lemma TwentyFirstEpisodeLosesArtwork(items: seq<Episode>, evs: seq<ImgEvent>)
    requires |items| > 20
    ensures var imgs := RenderEpisodes(items, IndexAbove20);
      var s := Run(HandleImageLoad(imgs, EagerLimit), evs, AsWritten);
      && imgs[20].src == EpisodeArtwork(items[20])
      && (s.lazyStarts > 0 && s.imgs[20].phase == Waiting ==>
          Step(s, EnterViewport(20), AsWritten).imgs[20].src == Fallback)
  {
    var imgs := RenderEpisodes(items, IndexAbove20);
    DeferredImagesStayCoherent(imgs, EagerLimit, evs, AsWritten);
  }

  /** Deferring from position 20 instead, every observed episode card that
      enters the viewport shows its own artwork. */
  lemma DeferredEpisodesKeepArtwork(items: seq<Episode>, evs: seq<ImgEvent>, p: nat)
    requires EagerLimit <= p < |items|
    ensures var imgs := RenderEpisodes(items, PositionFrom(EagerLimit));
      var s := Run(HandleImageLoad(imgs, EagerLimit), evs, AsWritten);
      (s.lazyStarts > 0 && s.imgs[p].phase == Waiting ==>
        Step(s, EnterViewport(p), AsWritten).imgs[p].src == EpisodeArtwork(items[p]))
  {
    var imgs := RenderEpisodes(items, PositionFrom(EagerLimit));
    DeferredImagesStayCoherent(imgs, EagerLimit, evs, AsWritten);
  }

  /** An eager image showing the placeholder keeps it along any events: eager
      handlers only ever set the placeholder, and the observer never sees
      positions inside the eager slice. */
  lemma {:induction false} EagerPlaceholderStays(s: Sched, p: nat, evs: seq<ImgEvent>, w: Wiring)
    requires p < |s.imgs| && p < s.limit && s.imgs[p].src == Fallback
    ensures Run(s, evs, w).imgs[p].src == Fallback
    decreases |evs|
  {
    if |evs| > 0 {
      var s' := Step(s, evs[0], w);
      assert s'.imgs[p].src == Fallback;
      EagerPlaceholderStays(s', p, evs[1..], w);
    }
  }

  /** As written, on the feeds path: a feed kept at a rendered position below
      20 but with an original index above 20 (earlier feeds were filtered
      out) has its `src` cleared, yet it sits in the eager slice. The empty
      source errors, the handler gives it the placeholder, and it is never
      observed, so whatever happens next its stashed artwork is never shown. */
  lemma FeedStashedInEagerSliceLosesArtwork(imgs: seq<Img>, position: nat, index: nat, url: string,
                                            evs: seq<ImgEvent>)
    requires position < |imgs| && position < EagerLimit && index > 20 && url != ""
    requires imgs[position] == CardImg(url, Defers(IndexAbove20, index, position))
    ensures imgs[position].src == "" && imgs[position].stash == url
    ensures var s := Step(HandleImageLoad(imgs, EagerLimit), LoadEnd(position, true), AsWritten);
      && s.imgs[position].src == Fallback
      && Run(s, evs, AsWritten).imgs[position].src == Fallback
  {
    var s := Step(HandleImageLoad(imgs, EagerLimit), LoadEnd(position, true), AsWritten);
    EagerPlaceholderStays(s, position, evs, AsWritten);
  }
}
