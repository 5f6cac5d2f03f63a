/**
  Turning the listing cards found on the result page into listing records.
  A card is kept when it has a non-empty `data-id`, a heading and a price
  element; building its link then needs an anchor with an `href`, and a card
  lacking either raises inside the per-card `try`, whose bare `except`
  skips it.
 */
module Extraction {
  import opened Wrappers
  import opened Text
  import opened Listings

  /** Prefix put in front of every `href`, whatever its form. */
  const SiteOrigin: string := "https://www.emlakjet.com"

  /** The first `<a>` inside a card; `href` is `None` when the attribute is absent. */
  datatype Anchor = Anchor(href: Option<string>)

  /**
    What the page reports for one card: the `data-id` attribute, the inner
    text of the `h3` heading and of the price element, and the first anchor;
    `None` for whatever is absent.
   */
  datatype Card = Card(dataId: Option<string>, heading: Option<string>, priceBox: Option<string>, anchor: Option<Anchor>)

  /** What happens to one card: a record appended, filtered out by the test, or dropped by the `except`. */
  datatype CardOutcome = Kept(record: Listing) | Filtered | Raised

  /** The `if` test: a non-empty id, a heading and a price element. */
  predicate PassesTest(c: Card) {
    c.dataId.Some? && c.dataId.value != "" && c.heading.Some? && c.priceBox.Some?
  }

  predicate HasHref(c: Card) {
    c.anchor.Some? && c.anchor.value.href.Some?
  }

  /** The cards that end up in the result. */
  predicate Keeps(c: Card) {
    PassesTest(c) && HasHref(c)
  }

  /** One iteration of the card loop. */
  function ReadCard(c: Card): (o: CardOutcome)
    ensures o.Kept? <==> Keeps(c)
    ensures o.Raised? <==> PassesTest(c) && !HasHref(c)
    ensures o.Kept? ==>
      && o.record.id == c.dataId.value && o.record.id != ""
      && o.record.title == Strip(c.heading.value) && o.record.price == Strip(c.priceBox.value)
      && Trimmed(o.record.title) && Trimmed(o.record.price)
      && o.record.link == SiteOrigin + c.anchor.value.href.value
  {
    if !PassesTest(c) then
      Filtered
    else
      match c.anchor
      case None => Raised
      case Some(a) =>
        match a.href
        case None => Raised
        case Some(h) =>
          Kept(Listing(c.dataId.value, Strip(c.heading.value), Strip(c.priceBox.value), SiteOrigin + h))
  }

  /** What one card adds to the result: its record, or nothing. */
  function Produced(c: Card): (r: seq<Listing>) {
    match ReadCard(c)
    case Kept(l) => [l]
    case _ => []
  }

  /** The records of the kept cards, in page order. */
  function Extract(cards: seq<Card>): (r: seq<Listing>)
    ensures |r| <= |cards|
  {
    if cards == [] then [] else Produced(cards[0]) + Extract(cards[1..])
  }

  /** The loop over the cards, appending the record of each kept card. */
  method ScrapeCards(cards: seq<Card>) returns (results: seq<Listing>)
    ensures |results| == |KeptIndices(cards)|
    ensures forall k :: 0 <= k < |results| ==>
      results[k] == ReadCard(cards[KeptIndices(cards)[k]]).record
  {
    results := [];
    var i := 0;
    while i < |cards|
      invariant 0 <= i <= |cards|
      invariant results == Extract(cards[..i])
    {
      ExtractStep(cards, i);
      var outcome := ReadCard(cards[i]);
      match outcome {
        case Kept(l) =>
          results := results + [l];
        case Filtered =>
        case Raised =>
      }
      i := i + 1;
    }
    assert cards[..i] == cards;
    ExtractAtKeptIndices(cards);
  }

  /** Extraction works card by card, so it distributes over concatenation. */
  lemma {:induction false} ExtractAppend(a: seq<Card>, b: seq<Card>)
    ensures Extract(a + b) == Extract(a) + Extract(b)
  {
    if a != [] {
      assert (a + b)[0] == a[0];
      assert (a + b)[1..] == a[1..] + b;
      ExtractAppend(a[1..], b);
      assert Extract(a + b) == Produced(a[0]) + (Extract(a[1..]) + Extract(b));
    } else {
      assert a + b == b;
    }
  }

  lemma ExtractStep(cards: seq<Card>, i: nat)
    requires i < |cards|
    ensures Extract(cards[..i + 1]) == Extract(cards[..i]) + Produced(cards[i])
  {
    var front, c := cards[..i], cards[i];
    assert cards[..i + 1] == front + [c];
    ExtractAppend(front, [c]);
    ExtractSingle(c);
  }

  lemma ExtractSingle(c: Card)
    ensures Extract([c]) == Produced(c)
  {
    assert [c][1..] == [];
  }

  /** The positions of the kept cards, in increasing order. */
  function KeptIndices(cards: seq<Card>): (r: seq<nat>)
    ensures forall k :: 0 <= k < |r| ==> r[k] < |cards| && Keeps(cards[r[k]])
    ensures forall k, l :: 0 <= k < l < |r| ==> r[k] < r[l]
    ensures forall i :: 0 <= i < |cards| && Keeps(cards[i]) ==> i in r
  {
    if cards == [] then []
    else
      var n := |cards| - 1;
      var front := KeptIndices(cards[..n]);
      assert forall k :: 0 <= k < |front| ==> cards[front[k]] == cards[..n][front[k]];
      front + (if Keeps(cards[n]) then [n] else [])
  }

  /**
    Independent description of the extraction: the k-th record is the record
    of the k-th kept card, so exactly the kept cards contribute, in page order.
   */
  lemma {:induction false} ExtractAtKeptIndices(cards: seq<Card>)
    ensures |Extract(cards)| == |KeptIndices(cards)|
    ensures forall k :: 0 <= k < |Extract(cards)| ==>
      Extract(cards)[k] == ReadCard(cards[KeptIndices(cards)[k]]).record
    decreases |cards|
  {
    if cards != [] {
      var n := |cards| - 1;
      var front, last := cards[..n], cards[n];
      assert cards == front + [last];
      ExtractAppend(front, [last]);
      ExtractSingle(last);
      ExtractAtKeptIndices(front);
      forall k | 0 <= k < |Extract(front)|
        ensures Extract(cards)[k] == ReadCard(cards[KeptIndices(cards)[k]]).record
      {
        assert cards[KeptIndices(front)[k]] == front[KeptIndices(front)[k]];
      }
    }
  }
}
