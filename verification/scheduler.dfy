/** The image-load scheduler of a rendered card list (`handleImageLoad` and
    `lazyLoadImages`). The first `limit` images carry a load/error handler
    that decrements a pending counter; the decrement that lands exactly on
    zero hides the loader and starts observing the remaining images. An
    observed image that enters the viewport gets its stashed URL (or, with no
    stash, the placeholder) and is unobserved once resolved. Load and error
    events and viewport entries are inputs: the browser decides when they
    happen. */
module ImageScheduler {
  import opened Media

  /** An image's state under the viewport observer. */
  datatype Phase = Waiting | Activated | Resolved

  /** A card image: its active `src`, the URL stashed in `data-src` ("" when
      there is none), its observer phase, and whether a handler has already
      received a load or error event from it. */
  datatype Img = Img(src: string, stash: string, phase: Phase, settled: bool)

  /** The scheduler of one `handleImageLoad(limit)` call: the images of the
      container, the limit, the pending counter, and how many times the loader
      was hidden and the lazy phase started. */
  datatype Sched = Sched(imgs: seq<Img>, limit: nat, pending: int, hides: nat, lazyStarts: nat)

  /** A load or error event of the image at `pos`, `broken` when the image
      is complete with no natural width; or the image entering the viewport. */
  datatype ImgEvent = LoadEnd(pos: nat, broken: bool) | EnterViewport(pos: nat)

  /** How the eager handler is wired: as written it stays attached after the
      fallback swap, so the swap's own load event reaches it again;
      `DetachOnFirst` ignores every event after an image's first. */
  datatype Wiring = AsWritten | DetachOnFirst

  function Min(a: nat, b: nat): nat {
    if a < b then a else b
  }

  /** The number of images given an eager handler: `min(images.length, limit)`. */
  function EagerSize(s: Sched): nat {
    Min(|s.imgs|, s.limit)
  }

  /** `handleImageLoad(limit)`: with nothing to load the loader is hidden at
      once and the lazy phase is never started. */
  function HandleImageLoad(imgs: seq<Img>, limit: nat): (s: Sched)
    ensures s.imgs == imgs && s.limit == limit
    ensures s.pending == EagerSize(s) && s.lazyStarts == 0
    ensures s.hides == (if |imgs| == 0 || limit == 0 then 1 else 0)
  {
    var p := Min(|imgs|, limit);
    Sched(imgs, limit, p, if p == 0 then 1 else 0, 0)
  }

  /** Every image other than the one at `p` is as it was. */
  predicate OthersUnchanged(r: Sched, s: Sched, p: nat) {
    |r.imgs| == |s.imgs| && forall i :: 0 <= i < |s.imgs| && i != p ==> r.imgs[i] == s.imgs[i]
  }

  /** The counters are as they were. */
  predicate CountersUnchanged(r: Sched, s: Sched) {
    r.pending == s.pending && r.hides == s.hides && r.lazyStarts == s.lazyStarts
  }

  /** The eager handler of image `p`: decrement, swap a broken image for the
      placeholder, and complete on the decrement that reaches zero. */
  function Eager(s: Sched, p: nat, broken: bool, w: Wiring): (r: Sched)
    requires p < |s.imgs| && p < s.limit
    ensures |r.imgs| == |s.imgs| && r.limit == s.limit
    ensures w == DetachOnFirst && s.imgs[p].settled ==> r == s
    ensures !(w == DetachOnFirst && s.imgs[p].settled) ==>
      && r.pending == s.pending - 1
      && r.imgs[p].settled && r.imgs[p].stash == s.imgs[p].stash && r.imgs[p].phase == s.imgs[p].phase
      && r.imgs[p].src == (if broken then Fallback else s.imgs[p].src)
      && OthersUnchanged(r, s, p)
    ensures r.hides == s.hides + (if r.pending == 0 && r.pending < s.pending then 1 else 0)
    ensures r.lazyStarts == s.lazyStarts + (if r.pending == 0 && r.pending < s.pending then 1 else 0)
  {
    var img := s.imgs[p];
    if w == DetachOnFirst && img.settled then s
    else
      var img' := img.(src := if broken then Fallback else img.src, settled := true);
      var r := s.(imgs := s.imgs[p := img'], pending := s.pending - 1);
      if r.pending == 0 then r.(hides := s.hides + 1, lazyStarts := s.lazyStarts + 1) else r
  }

  /** The handler an activated deferred image carries: swap a broken image
      for the placeholder and unobserve it. It stays attached afterwards. */
  function Lazy(s: Sched, p: nat, broken: bool): (r: Sched)
    requires s.limit <= p < |s.imgs|
    ensures |r.imgs| == |s.imgs| && r.limit == s.limit
    ensures s.imgs[p].phase == Waiting || s.imgs[p].stash == "" ==> r == s
    ensures s.imgs[p].phase != Waiting && s.imgs[p].stash != "" ==>
      && r.imgs[p].phase == Resolved && r.imgs[p].settled && r.imgs[p].stash == s.imgs[p].stash
      && r.imgs[p].src == (if broken then Fallback else s.imgs[p].src)
      && OthersUnchanged(r, s, p)
    ensures CountersUnchanged(r, s)
  {
    var img := s.imgs[p];
    if img.phase == Waiting || img.stash == "" then s
    else s.(imgs := s.imgs[p := img.(src := if broken then Fallback else img.src,
                                     phase := Resolved, settled := true)])
  }

  /** The viewport observer's callback for an image entering the viewport. */
  function Enter(s: Sched, p: nat): (r: Sched)
    requires s.limit <= p < |s.imgs|
    ensures |r.imgs| == |s.imgs| && r.limit == s.limit
    ensures s.lazyStarts == 0 || s.imgs[p].phase == Resolved ==> r == s
    ensures s.lazyStarts > 0 && s.imgs[p].phase != Resolved ==>
      && r.imgs[p].src == (if s.imgs[p].stash != "" then s.imgs[p].stash else Fallback)
      && r.imgs[p].phase == (if s.imgs[p].stash != "" then Activated else Resolved)
      && r.imgs[p].stash == s.imgs[p].stash && r.imgs[p].settled == s.imgs[p].settled
      && OthersUnchanged(r, s, p)
    ensures CountersUnchanged(r, s)
  {
    var img := s.imgs[p];
    if s.lazyStarts == 0 || img.phase == Resolved then s
    else if img.stash != "" then s.(imgs := s.imgs[p := img.(src := img.stash, phase := Activated)])
    else s.(imgs := s.imgs[p := img.(src := Fallback, phase := Resolved)])
  }

  /** One event, dispatched to the handler the image at its position carries:
      events for positions past the list, and viewport entries of eager
      images, change nothing. */
  function Step(s: Sched, e: ImgEvent, w: Wiring): (r: Sched)
    ensures |r.imgs| == |s.imgs| && r.limit == s.limit
    ensures e.pos >= |s.imgs| || (e.EnterViewport? && e.pos < s.limit) ==> r == s
    ensures e.LoadEnd? && e.pos < |s.imgs| && e.pos < s.limit ==> r == Eager(s, e.pos, e.broken, w)
    ensures e.LoadEnd? && s.limit <= e.pos < |s.imgs| ==> r == Lazy(s, e.pos, e.broken)
    ensures e.EnterViewport? && s.limit <= e.pos < |s.imgs| ==> r == Enter(s, e.pos)
    ensures w == AsWritten && e.LoadEnd? && e.pos < EagerSize(s) ==> r.pending == s.pending - 1
    ensures e.EnterViewport? || e.pos >= s.limit ==> CountersUnchanged(r, s)
    ensures r.pending <= s.pending && r.hides >= s.hides && r.lazyStarts >= s.lazyStarts
  {
    match e
    case LoadEnd(p, broken) =>
      if p >= |s.imgs| then s
      else if p < s.limit then Eager(s, p, broken, w)
      else Lazy(s, p, broken)
    case EnterViewport(p) =>
      if p >= |s.imgs| || p < s.limit then s else Enter(s, p)
  }

  /** A sequence of events, in order: the counter never goes up and the
      loader is never shown again. */
  function Run(s: Sched, evs: seq<ImgEvent>, w: Wiring): (r: Sched)
    ensures |r.imgs| == |s.imgs| && r.limit == s.limit
    ensures r.pending <= s.pending && r.hides >= s.hides && r.lazyStarts >= s.lazyStarts
    ensures |evs| == 0 ==> r == s
    decreases |evs|
  {
    if |evs| == 0 then s else Run(Step(s, evs[0], w), evs[1..], w)
  }

  /** The number of events in `evs` that reach an eager handler. */
  function EagerEvents(evs: seq<ImgEvent>, size: nat): nat {
    if |evs| == 0 then 0
    else (if evs[0].LoadEnd? && evs[0].pos < size then 1 else 0) + EagerEvents(evs[1..], size)
  }

  /** The counter as written: it counts events, not images. */
  predicate CounterInv(s: Sched, start: Sched) {
    && |s.imgs| == |start.imgs| && s.limit == start.limit
    && s.hides == (if EagerSize(s) == 0 || s.pending <= 0 then 1 else 0)
    && s.lazyStarts == (if EagerSize(s) > 0 && s.pending <= 0 then 1 else 0)
  }

  lemma {:induction false} RunCountsEvents(s: Sched, evs: seq<ImgEvent>, start: Sched)
    requires CounterInv(s, start) && s.pending <= EagerSize(s)
    requires EagerSize(s) == 0 ==> s.pending == 0
    ensures var r := Run(s, evs, AsWritten);
      && CounterInv(r, start)
      && r.pending == s.pending - EagerEvents(evs, EagerSize(s))
    decreases |evs|
  {
    if |evs| > 0 {
      var s' := Step(s, evs[0], AsWritten);
      assert s'.pending == s.pending - (if evs[0].LoadEnd? && evs[0].pos < EagerSize(s) then 1 else 0);
      assert s'.pending < s.pending ==> EagerSize(s) > 0;
      RunCountsEvents(s', evs[1..], start);
    }
  }

  /** Exactly-once completion, as written: over any sequence of events, the
      loader is hidden at most once, and the lazy phase starts at most once,
      exactly when as many eager events as eager images have arrived. With
      nothing to load, the loader is hidden at once and the lazy phase never
      starts. */
  lemma CompletionAtMostOnce(imgs: seq<Img>, limit: nat, evs: seq<ImgEvent>)
    ensures var size := Min(|imgs|, limit);
      var r := Run(HandleImageLoad(imgs, limit), evs, AsWritten);
      && r.pending == size - EagerEvents(evs, size)
      && r.hides == (if size == 0 || EagerEvents(evs, size) >= size then 1 else 0)
      && r.lazyStarts == (if size > 0 && EagerEvents(evs, size) >= size then 1 else 0)
  {
    var s := HandleImageLoad(imgs, limit);
    RunCountsEvents(s, evs, s);
  }

  /** The observer invariant of one deferred image, against its rendered
      state `i0`: waiting images keep their source, an activated image shows
      its stash, and a resolved one shows its stash or the placeholder. */
  predicate ImgInv(i0: Img, i: Img) {
    && i.stash == i0.stash
    && match i.phase
       case Waiting => i.src == i0.src
       case Activated => i.stash != "" && i.src == i.stash
       case Resolved => i.src == Fallback || (i.stash != "" && i.src == i.stash)
  }

  predicate LazyInv(init: seq<Img>, s: Sched) {
    && |s.imgs| == |init|
    && (forall p :: s.limit <= p < |init| ==> ImgInv(init[p], s.imgs[p]))
    && (forall p :: 0 <= p < |init| && p < s.limit ==> s.imgs[p].phase == Waiting)
    && (s.lazyStarts == 0 ==> forall p :: 0 <= p < |init| ==> s.imgs[p].phase == Waiting)
  }

  lemma StepKeepsLazyInv(init: seq<Img>, s: Sched, e: ImgEvent, w: Wiring)
    requires LazyInv(init, s)
    ensures LazyInv(init, Step(s, e, w))
  {
  }

  lemma {:induction false} RunKeepsLazyInv(init: seq<Img>, s: Sched, evs: seq<ImgEvent>, w: Wiring)
    requires LazyInv(init, s)
    ensures LazyInv(init, Run(s, evs, w))
    decreases |evs|
  {
    if |evs| > 0 {
      StepKeepsLazyInv(init, s, evs[0], w);
      RunKeepsLazyInv(init, Step(s, evs[0], w), evs[1..], w);
    }
  }

  /** Whatever happens, every deferred image keeps its stash and shows its
      rendered source, its stash or the placeholder; before the eager phase
      completes, no image has been touched by the observer. */
  lemma DeferredImagesStayCoherent(imgs: seq<Img>, limit: nat, evs: seq<ImgEvent>, w: Wiring)
    requires forall p :: 0 <= p < |imgs| ==> imgs[p].phase == Waiting
    ensures LazyInv(imgs, Run(HandleImageLoad(imgs, limit), evs, w))
  {
    RunKeepsLazyInv(imgs, HandleImageLoad(imgs, limit), evs, w);
  }

  /** An unobserved image is never handled again by the observer, and it
      stays resolved whatever event follows. */
  lemma ResolvedIsFinal(s: Sched, p: nat, e: ImgEvent, w: Wiring)
    requires s.limit <= p < |s.imgs| && s.imgs[p].phase == Resolved
    ensures Step(s, e, w).imgs[p].phase == Resolved
    ensures Step(s, EnterViewport(p), w) == s
  {
  }

  /** A deferred image with a stash: entering the viewport activates the
      stashed URL; its next load or error resolves it, with the placeholder
      only if broken; entering the viewport again changes nothing. */
  lemma DeferredActivation(s: Sched, p: nat, broken: bool, w: Wiring)
    requires s.limit <= p < |s.imgs| && s.lazyStarts > 0
    requires s.imgs[p].phase == Waiting && s.imgs[p].stash != ""
    ensures var s1 := Step(s, EnterViewport(p), w);
      var s2 := Step(s1, LoadEnd(p, broken), w);
      && s1.imgs[p].src == s.imgs[p].stash && s1.imgs[p].phase == Activated
      && s2.imgs[p].phase == Resolved
      && s2.imgs[p].src == (if broken then Fallback else s.imgs[p].stash)
      && Step(s2, EnterViewport(p), w) == s2
  {
  }

  /** A deferred image without a stash gets the placeholder as soon as it
      enters the viewport and is unobserved. */
  lemma UnstashedGetsFallback(s: Sched, p: nat, w: Wiring)
    requires s.limit <= p < |s.imgs| && s.lazyStarts > 0
    requires s.imgs[p].phase == Waiting && s.imgs[p].stash == ""
    ensures Step(s, EnterViewport(p), w).imgs[p].src == Fallback
    ensures Step(s, EnterViewport(p), w).imgs[p].phase == Resolved
  {
  }

  /** As written, a broken eager image is counted twice (its error and the
      placeholder's load), so with two eager images of which the first is
      broken, the loader is hidden and the lazy phase started while the
      second image has not loaded; its own load later drives the counter
      below zero without a second completion. */
  lemma PrematureCompletion()
    ensures var imgs := [Img("a.png", "", Waiting, false), Img("b.png", "", Waiting, false)];
      var s := Run(HandleImageLoad(imgs, 2), [LoadEnd(0, true), LoadEnd(0, false)], AsWritten);
      && s.hides == 1 && s.lazyStarts == 1
      && !s.imgs[1].settled
      && Step(s, LoadEnd(1, false), AsWritten).pending == -1
      && Step(s, LoadEnd(1, false), AsWritten).lazyStarts == 1
  {
  }

  /** Three broken images among five with a limit of three: their errors
      complete the eager phase once, the placeholders' loads drive the
      counter below zero without a second completion, and all three show
      the placeholder. */
  lemma ThreeBrokenOfFive()
    ensures var imgs := seq(5, i => Img("cover.png", "", Waiting, false));
      var evs := [LoadEnd(0, true), LoadEnd(1, true), LoadEnd(2, true),
                  LoadEnd(0, false), LoadEnd(1, false), LoadEnd(2, false)];
      var s := Run(HandleImageLoad(imgs, 3), evs, AsWritten);
      && s.hides == 1 && s.lazyStarts == 1 && s.pending == -3
      && s.imgs[0].src == Fallback && s.imgs[1].src == Fallback && s.imgs[2].src == Fallback
  {
  }

  /** The number of settled images of a list. */
  function CountSettled(imgs: seq<Img>): (n: nat)
    ensures n <= |imgs|
    ensures n == |imgs| <==> forall i :: 0 <= i < |imgs| ==> imgs[i].settled
  {
    if |imgs| == 0 then 0
    else
      var rest := CountSettled(imgs[1..]);
      assert forall i :: 1 <= i < |imgs| ==> imgs[i] == imgs[1..][i - 1];
      (if imgs[0].settled then 1 else 0) + rest
  }

  lemma {:induction false} CountSettledUpdate(imgs: seq<Img>, p: nat, x: Img)
    requires p < |imgs|
    ensures CountSettled(imgs[p := x]) ==
      CountSettled(imgs) - (if imgs[p].settled then 1 else 0) + (if x.settled then 1 else 0)
  {
    if p > 0 {
      assert imgs[p := x][1..] == imgs[1..][p - 1 := x];
      CountSettledUpdate(imgs[1..], p - 1, x);
    }
  }

  /** With the handler detached after an image's first event, the counter
      counts images: it is the number of eager images not yet settled. */
  predicate DetachedInv(s: Sched) {
    var size := EagerSize(s);
    && s.pending == size - CountSettled(s.imgs[..size])
    && s.hides == (if s.pending == 0 then 1 else 0)
    && s.lazyStarts == (if size > 0 && s.pending == 0 then 1 else 0)
  }

  lemma DetachedStep(s: Sched, e: ImgEvent)
    requires DetachedInv(s)
    ensures DetachedInv(Step(s, e, DetachOnFirst))
    ensures Step(s, e, DetachOnFirst).imgs[..EagerSize(s)] == s.imgs[..EagerSize(s)]
      || (e.LoadEnd? && e.pos < EagerSize(s))
  {
    var size := EagerSize(s);
    if e.LoadEnd? && e.pos < size && !s.imgs[e.pos].settled {
      var p := e.pos;
      var img' := s.imgs[p].(src := if e.broken then Fallback else s.imgs[p].src, settled := true);
      assert s.imgs[p := img'][..size] == s.imgs[..size][p := img'];
      CountSettledUpdate(s.imgs[..size], p, img');
    } else if e.LoadEnd? && e.pos >= size && e.pos < |s.imgs| {
      var r := Step(s, e, DetachOnFirst);
      assert r.imgs[..size] == s.imgs[..size];
    } else if e.EnterViewport? && e.pos >= size && e.pos < |s.imgs| {
      var r := Step(s, e, DetachOnFirst);
      assert r.imgs[..size] == s.imgs[..size];
    }
  }

  lemma {:induction false} DetachedRun(s: Sched, evs: seq<ImgEvent>)
    requires DetachedInv(s)
    ensures DetachedInv(Run(s, evs, DetachOnFirst))
    decreases |evs|
  {
    if |evs| > 0 {
      DetachedStep(s, evs[0]);
      DetachedRun(Step(s, evs[0], DetachOnFirst), evs[1..]);
    }
  }

  /** With the handler detached after the first event, the loader is hidden
      and the lazy phase started exactly when every eager image has settled,
      and never twice. */
  lemma DetachedCompletesWhenAllSettled(imgs: seq<Img>, limit: nat, evs: seq<ImgEvent>)
    requires forall i :: 0 <= i < |imgs| ==> !imgs[i].settled
    ensures var r := Run(HandleImageLoad(imgs, limit), evs, DetachOnFirst);
      var size := Min(|imgs|, limit);
      && r.hides <= 1 && r.lazyStarts <= 1
      && (r.hides == 1 <==> forall i :: 0 <= i < size ==> r.imgs[i].settled)
      && (r.lazyStarts == 1 <==> size > 0 && forall i :: 0 <= i < size ==> r.imgs[i].settled)
  {
    var s := HandleImageLoad(imgs, limit);
    var size := Min(|imgs|, limit);
    assert CountSettled(imgs[..size]) == 0 by {
      NoneSettled(imgs[..size]);
    }
    DetachedRun(s, evs);
    var r := Run(s, evs, DetachOnFirst);
    assert |r.imgs| == |imgs| && r.limit == limit;
    assert EagerSize(r) == size;
    assert DetachedInv(r);
    assert CountSettled(r.imgs[..size]) == size <==> forall i :: 0 <= i < size ==> r.imgs[..size][i].settled;
  }

  lemma {:induction false} NoneSettled(imgs: seq<Img>)
    requires forall i :: 0 <= i < |imgs| ==> !imgs[i].settled
    ensures CountSettled(imgs) == 0
  {
    if |imgs| > 0 {
      NoneSettled(imgs[1..]);
    }
  }
}
