/** The playback queue: the in-memory `queueItems` list, written through to the
    `queue` storage key on every change, and the queue cards on screen. The
    list refuses a second entry with a title already queued, but removal goes
    by episode `id`, while the on-screen cards are removed by title. */
module QueueStore {
  import opened Opt
  import opened Media
  import opened DurableStore

  /** `queueItems` together with the titles of the queue cards, in screen order. */
  datatype QueueView = QueueView(items: seq<Episode>, cards: seq<string>)

  /** The outcome of `saveQueue`: whether it appended, the new list and the new store. */
  datatype SaveResult = SaveResult(added: bool, items: seq<Episode>, store: Store)

  function Titles(items: seq<Episode>): (ts: seq<string>)
    ensures |ts| == |items|
    ensures forall i :: 0 <= i < |items| ==> ts[i] == items[i].title
  {
    seq(|items|, i requires 0 <= i < |items| => items[i].title)
  }

  /** No two queue entries share a title: the queue's uniqueness invariant. */
  predicate DistinctTitles(items: seq<Episode>) {
    forall i, j :: 0 <= i < j < |items| ==> items[i].title != items[j].title
  }

  /** The cards on screen are exactly the queued titles, in order. */
  predicate InSync(v: QueueView) {
    v.cards == Titles(v.items)
  }

  /** The store mirrors the list: the key holds it, or the key was never
      written and the list is still empty. */
  predicate Mirrored(items: seq<Episode>, s: Store) {
    Get(s, QueueKey) == Some(Episodes(items)) || (QueueKey !in s && items == [])
  }

  /** `saveQueue`: refuse an episode whose title is already queued; otherwise
      append it and write the whole list to the `queue` key. */
  function SaveQueue(items: seq<Episode>, s: Store, ep: Episode): (r: SaveResult)
    ensures r.added <==> ep.title !in Titles(items)
    ensures !r.added ==> r.items == items && r.store == s
    ensures r.added ==> r.items == items + [ep]
    ensures r.added ==> Get(r.store, QueueKey) == Some(Episodes(r.items))
    ensures forall k :: k != QueueKey ==> Get(r.store, k) == Get(s, k)
  {
    if ep.title in Titles(items) then SaveResult(false, items, s)
    else
      var items' := items + [ep];
      SaveResult(true, items', Put(s, QueueKey, Episodes(items')))
  }

  /** The "Add to Queue" button: save, and add a queue card only when saved. */
  function AddToQueue(v: QueueView, s: Store, ep: Episode): (r: (QueueView, Store))
    ensures r.0.items == SaveQueue(v.items, s, ep).items
    ensures r.1 == SaveQueue(v.items, s, ep).store
    ensures r.0.cards == if ep.title in Titles(v.items) then v.cards else v.cards + [ep.title]
  {
    var res := SaveQueue(v.items, s, ep);
    (QueueView(res.items, if res.added then v.cards + [ep.title] else v.cards), res.store)
  }

  /** The entries whose `id` differs from `id`, in their original order. */
  function Without(items: seq<Episode>, id: int): (r: seq<Episode>)
    ensures |r| <= |items|
    ensures forall e :: e in r <==> e in items && e.id != id
  {
    if |items| == 0 then []
    else
      var rest := Without(items[1..], id);
      assert forall e :: e in items <==> e == items[0] || e in items[1..];
      if items[0].id != id then [items[0]] + rest else rest
  }

  /** The card titles other than `title`, in their original order. */
  function DropCards(cards: seq<string>, title: string): (r: seq<string>)
    ensures forall t :: t in r <==> t in cards && t != title
  {
    if |cards| == 0 then []
    else
      var rest := DropCards(cards[1..], title);
      assert forall t :: t in cards <==> t == cards[0] || t in cards[1..];
      if cards[0] != title then [cards[0]] + rest else rest
  }

  /** `removeFromQueue`: filter the list by `id`, write it back, and remove
      the queue cards whose heading equals the episode's title. The two
      membership clauses are corollaries of the exact results with the
      contracts of `Without` and `DropCards`, stated here for readers. */
  function RemoveFromQueue(v: QueueView, s: Store, ep: Episode): (r: (QueueView, Store))
    ensures forall e :: e in r.0.items <==> e in v.items && e.id != ep.id
    ensures Get(r.1, QueueKey) == Some(Episodes(r.0.items))
    ensures forall k :: k != QueueKey ==> Get(r.1, k) == Get(s, k)
    ensures forall t :: t in r.0.cards <==> t in v.cards && t != ep.title
    ensures r.0.items == Without(v.items, ep.id) && r.0.cards == DropCards(v.cards, ep.title)
  {
    var items' := Without(v.items, ep.id);
    (QueueView(items', DropCards(v.cards, ep.title)), Put(s, QueueKey, Episodes(items')))
  }

  /** `loadQueue` as written: it reads the `queue` key and iterates over what
      it parsed, so it needs the key to be present (a missing key makes
      `forEach` run on `null`). The list and the cards are rebuilt from it. */
  function LoadQueue(s: Store, v: QueueView): (r: QueueView)
    requires WellTyped(s)
    requires QueueKey in s
    ensures Get(s, QueueKey) == Some(Episodes(r.items))
    ensures InSync(r)
  {
    var saved := s[QueueKey].episodes;
    QueueView(saved, Titles(saved))
  }

  /** `loadQueue` with the `forEach` inside the null check: a missing key
      clears the queue container and keeps the list. */
  function LoadQueueGuarded(s: Store, v: QueueView): (r: QueueView)
    requires WellTyped(s)
    ensures QueueKey in s ==> r == LoadQueue(s, v)
    ensures QueueKey !in s ==> r == QueueView(v.items, [])
  {
    if QueueKey in s then LoadQueue(s, v) else QueueView(v.items, [])
  }

  /** On a first visit nothing has been stored: the store is well typed but
      has no `queue` key, so `LoadQueue` cannot be applied to it, while the
      guarded load leaves the empty queue. */
  lemma FirstVisitHasNoQueue()
    ensures var first: Store := map[];
      && WellTyped(first) && QueueKey !in first
      && LoadQueueGuarded(first, QueueView([], [])) == QueueView([], [])
  {
  }

  /** Filtering distributes over concatenation: `Without` keeps the order. */
  lemma {:induction false} WithoutAppend(a: seq<Episode>, b: seq<Episode>, id: int)
    ensures Without(a + b, id) == Without(a, id) + Without(b, id)
  {
    if |a| == 0 {
      assert a + b == b;
    } else {
      assert (a + b)[1..] == a[1..] + b;
      WithoutAppend(a[1..], b, id);
    }
  }

  /** The card removal distributes over concatenation, so the cards that stay
      keep their order on the page. */
  lemma {:induction false} DropCardsAppend(a: seq<string>, b: seq<string>, title: string)
    ensures DropCards(a + b, title) == DropCards(a, title) + DropCards(b, title)
  {
    if |a| == 0 {
      assert a + b == b;
    } else {
      assert (a + b)[1..] == a[1..] + b;
      DropCardsAppend(a[1..], b, title);
    }
  }

  /** Removing a title no card shows leaves the cards as they were. */
  lemma {:induction false} DropCardsAbsentTitle(cards: seq<string>, title: string)
    requires title !in cards
    ensures DropCards(cards, title) == cards
  {
    if |cards| > 0 {
      DropCardsAbsentTitle(cards[1..], title);
      assert [cards[0]] + cards[1..] == cards;
    }
  }

  /** An entry is kept exactly when its `id` differs: removal of an id no
      entry carries leaves the list as it was. */
  lemma {:induction false} WithoutAbsentId(items: seq<Episode>, id: int)
    requires forall i :: 0 <= i < |items| ==> items[i].id != id
    ensures Without(items, id) == items
  {
    if |items| > 0 {
      WithoutAbsentId(items[1..], id);
      assert items == [items[0]] + items[1..];
    }
  }

  lemma {:induction false} WithoutKeepsDistinct(items: seq<Episode>, id: int)
    requires DistinctTitles(items)
    ensures DistinctTitles(Without(items, id))
  {
    if |items| > 0 {
      WithoutKeepsDistinct(items[1..], id);
      var rest := Without(items[1..], id);
      if items[0].id != id {
        forall j | 0 <= j < |rest|
          ensures items[0].title != rest[j].title
        {
          assert rest[j] in items[1..];
        }
      }
    }
  }

  /** Both mutating operations keep the titles pairwise distinct. */
  lemma QueueKeepsDistinctTitles(v: QueueView, s: Store, ep: Episode)
    requires DistinctTitles(v.items)
    ensures DistinctTitles(AddToQueue(v, s, ep).0.items)
    ensures DistinctTitles(RemoveFromQueue(v, s, ep).0.items)
  {
    WithoutKeepsDistinct(v.items, ep.id);
  }

  /** A refused save changes nothing at all, so the queue's length is unchanged. */
  lemma DuplicateTitleIsNoOp(v: QueueView, s: Store, ep: Episode, i: nat)
    requires i < |v.items| && v.items[i].title == ep.title
    ensures AddToQueue(v, s, ep) == (v, s)
  {
    assert Titles(v.items)[i] == ep.title;
  }

  /** Write-through: after either operation the store mirrors the list. */
  lemma QueueWritesThrough(v: QueueView, s: Store, ep: Episode)
    requires Mirrored(v.items, s)
    ensures Mirrored(AddToQueue(v, s, ep).0.items, AddToQueue(v, s, ep).1)
    ensures Mirrored(RemoveFromQueue(v, s, ep).0.items, RemoveFromQueue(v, s, ep).1)
  {
  }

  /** Round trip: the list an operation leaves behind is what the next page
      load reads back, in the same order. */
  lemma QueueReloads(v: QueueView, s: Store, ep: Episode, later: QueueView)
    requires WellTyped(s) && Mirrored(v.items, s)
    ensures var (v', s') := AddToQueue(v, s, ep);
      WellTyped(s') && (QueueKey in s' ==> LoadQueue(s', later).items == v'.items)
    ensures var (v', s') := RemoveFromQueue(v, s, ep);
      WellTyped(s') && QueueKey in s' && LoadQueue(s', later).items == v'.items
  {
  }

  lemma {:induction false} RemoveMatchesCards(items: seq<Episode>, ep: Episode)
    requires forall i :: 0 <= i < |items| ==> (items[i].id == ep.id <==> items[i].title == ep.title)
    ensures Titles(Without(items, ep.id)) == DropCards(Titles(items), ep.title)
  {
    if |items| > 0 {
      RemoveMatchesCards(items[1..], ep);
      TitlesCons(items);
      if items[0].id != ep.id {
        var kept := [items[0]] + Without(items[1..], ep.id);
        assert kept[1..] == Without(items[1..], ep.id);
        TitlesCons(kept);
      }
    }
  }

  /** Saving keeps the cards in step with the list. */
  lemma AddKeepsInSync(v: QueueView, s: Store, ep: Episode)
    requires InSync(v)
    ensures InSync(AddToQueue(v, s, ep).0)
  {
  }

  /** Removal keeps the cards in step with the list exactly when the two keys
      agree: every entry shares the removed episode's `id` if and only if it
      shares its title. */
  lemma RemoveKeepsInSync(v: QueueView, s: Store, ep: Episode)
    requires InSync(v)
    requires forall i :: 0 <= i < |v.items| ==> (v.items[i].id == ep.id <==> v.items[i].title == ep.title)
    ensures InSync(RemoveFromQueue(v, s, ep).0)
  {
    RemoveMatchesCards(v.items, ep);
  }

  /** Dropping cards by one title keeps every other title as often as it was. */
  lemma {:induction false} DropCardsCount(cards: seq<string>, title: string, t: string)
    ensures t != title ==> multiset(DropCards(cards, title))[t] == multiset(cards)[t]
  {
    if |cards| > 0 {
      DropCardsCount(cards[1..], title, t);
      assert cards == [cards[0]] + cards[1..];
    }
  }

  /** The titles of a non-empty list: its head's, then its tail's. */
  lemma TitlesCons(items: seq<Episode>)
    requires |items| > 0
    ensures Titles(items) == [items[0].title] + Titles(items[1..])
  {
    assert Titles(items)[1..] == Titles(items[1..]);
  }

  /** Filtering by id never shows a title more often than before. */
  lemma {:induction false} WithoutTitlesCount(items: seq<Episode>, id: int, t: string)
    ensures multiset(Titles(Without(items, id)))[t] <= multiset(Titles(items))[t]
  {
    if |items| > 0 {
      var tail := items[1..];
      WithoutTitlesCount(tail, id, t);
      TitlesCons(items);
      if items[0].id != id {
        var kept := [items[0]] + Without(tail, id);
        assert kept[1..] == Without(tail, id);
        TitlesCons(kept);
      }
    }
  }

  /** A first entry the id filter keeps shows its title among the cards
      left, so that title is not the removed one. */
  lemma KeptHeadKeepsTitle(items: seq<Episode>, ep: Episode)
    requires |items| > 0 && items[0].id != ep.id
    requires DropCards(Titles(items), ep.title) == Titles(Without(items, ep.id))
    ensures items[0].title != ep.title
  {
    var kept := [items[0]] + Without(items[1..], ep.id);
    assert kept[1..] == Without(items[1..], ep.id);
    TitlesCons(kept);
    assert items[0].title in DropCards(Titles(items), ep.title);
  }

  /** A first entry the id filter drops must have its card dropped as well:
      otherwise its title would be shown once more than the list holds it. */
  lemma DroppedHeadDropsTitle(items: seq<Episode>, ep: Episode)
    requires |items| > 0 && items[0].id == ep.id
    requires DropCards(Titles(items), ep.title) == Titles(Without(items, ep.id))
    ensures items[0].title == ep.title
  {
    var t := items[0].title;
    var tail := items[1..];
    TitlesCons(items);
    assert Without(items, ep.id) == Without(tail, ep.id);
    DropCardsCount(Titles(items), ep.title, t);
    WithoutTitlesCount(tail, ep.id, t);
    assert multiset(Titles(items))[t] == multiset(Titles(tail))[t] + 1;
  }

  /** If the cards left by title equal the titles left by id, every entry
      shares the id exactly when it shares the title. */
  lemma {:induction false} SyncedRemovalAgrees(items: seq<Episode>, ep: Episode)
    requires DropCards(Titles(items), ep.title) == Titles(Without(items, ep.id))
    ensures forall i :: 0 <= i < |items| ==> (items[i].id == ep.id <==> items[i].title == ep.title)
  {
    if |items| > 0 {
      var h := items[0];
      var tail := items[1..];
      TitlesCons(items);
      if h.id != ep.id {
        KeptHeadKeepsTitle(items, ep);
        var kept := [h] + Without(tail, ep.id);
        assert kept[1..] == Without(tail, ep.id);
        TitlesCons(kept);
        var dropped := DropCards(Titles(tail), ep.title);
        assert dropped == ([h.title] + dropped)[1..];
      } else {
        DroppedHeadDropsTitle(items, ep);
      }
      SyncedRemovalAgrees(tail, ep);
    }
  }

  /** The converse of `RemoveKeepsInSync`: if the cards matched the list
      before and after a removal, the id and the title agreed on every entry. */
  lemma RemoveInSyncOnlyIfAgree(v: QueueView, s: Store, ep: Episode)
    requires InSync(v) && InSync(RemoveFromQueue(v, s, ep).0)
    ensures forall i :: 0 <= i < |v.items| ==> (v.items[i].id == ep.id <==> v.items[i].title == ep.title)
  {
    SyncedRemovalAgrees(v.items, ep);
  }

  /** When two queued episodes share an `id` under different titles, removing
      one drops both from the list but only its own card from the screen. */
  lemma RemoveByIdDivergesFromCards()
    ensures var a := Episode(7, "A", "", "", "", 0, "a.mp3");
      var b := Episode(7, "B", "", "", "", 0, "b.mp3");
      var v := AddToQueue(AddToQueue(QueueView([], []), map[], a).0, map[], b).0;
      v.items == [a, b] && InSync(v)
      && RemoveFromQueue(v, map[], a).0.items == []
      && RemoveFromQueue(v, map[], a).0.cards == ["B"]
  {
  }
}
