/** One run: the cards read from the page are merged into the loaded database. */
module Pipeline {
  import opened Listings
  import opened Extraction
  import opened Store
  import opened Render

  /** The database saved by a run, from the loaded list and the page's cards. */
  function Run(db: seq<Listing>, cards: seq<Card>): (r: MergeOutcome)
    ensures |r.store| <= Capacity
    ensures r.added <= |cards|
  {
    var batch := Extract(cards);
    assert |Unseen(batch, Ids(db))| <= |batch| <= |cards|;
    Merge(db, batch)
  }

  /**
    Every entry a run adds comes from a kept card of this page: its id is
    non-empty and its link is the site origin followed by the card's `href`.
   */
  lemma RunAddsOnlyPageRecords(db: seq<Listing>, cards: seq<Card>)
    ensures forall x :: x in Run(db, cards).store && x !in db ==>
      && x.id != "" && x.id !in Ids(db)
      && |SiteOrigin| <= |x.link| && x.link[..|SiteOrigin|] == SiteOrigin
      && (exists k :: 0 <= k < |cards| && ReadCard(cards[k]) == Kept(x))
  {
    var batch := Extract(cards);
    MergeProvenance(db, batch);
    ExtractAtKeptIndices(cards);
    var ks := KeptIndices(cards);
    forall x | x in batch
      ensures x.id != "" && |SiteOrigin| <= |x.link| && x.link[..|SiteOrigin|] == SiteOrigin
      ensures exists k :: 0 <= k < |cards| && ReadCard(cards[k]) == Kept(x)
    {
      var k :| 0 <= k < |batch| && batch[k] == x;
      var c := cards[ks[k]];
      assert ReadCard(c).Kept?;
      assert x.link == SiteOrigin + c.anchor.value.href.value;
      assert ReadCard(cards[ks[k]]) == Kept(x);
    }
  }

  /**
    The grid written after a run shows the placeholder exactly when the
    loaded database was empty and the page gave no record; otherwise it
    holds one card per saved entry.
   */
  lemma RunGrid(db: seq<Listing>, cards: seq<Card>)
    ensures GridBody(Run(db, cards).store) == Placeholder <==> |db| == 0 && |Extract(cards)| == 0
    ensures |Run(db, cards).store| > 0 ==> GridBody(Run(db, cards).store) == CardsHtml(Run(db, cards).store)
  {
    var batch := Extract(cards);
    var news := Unseen(batch, Ids(db));
    if |db| == 0 {
      assert Ids(db) == {};
      UnseenMembers(batch, Ids(db));
      if |batch| > 0 {
        assert batch[0] in news;
      }
    }
  }
}
