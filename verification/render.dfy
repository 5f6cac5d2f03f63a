/**
  The card grid of the generated page: one card per database entry, in list
  order, or a fixed notice when there is no card at all.
 */
module Render {
  import opened Listings

  /** Shown inside the grid when the card text is empty. */
  const Placeholder: string := "<p>" + "Henüz veri çekilemedi. Bir sonraki tarama bekleniyor..." + "</p>"

  /** The fixed pieces of one card, between which price, title and link are spliced unescaped. */
  const CardOpen: string := "\n" + "        <div class=\"card\">\n            <div class=\"price\">"
  const TitleOpen: string := "</div>\n            <div class=\"title\">"
  const LinkOpen: string := "</div>\n            <a href=\""
  const CardClose: string := "\" target=\"_blank\" class=\"btn\">İlana Git</a>\n        </div>"

  /** The markup of one card. */
  function CardHtml(l: Listing): (r: string) {
    CardOpen + l.price + TitleOpen + l.title + LinkOpen + l.link + CardClose
  }

  /** The pieces glued together in order. */
  function Join(pieces: seq<string>): (r: string)
    ensures |pieces| == 0 ==> r == ""
    ensures |pieces| > 0 && |pieces[0]| > 0 ==> |r| > 0 && r[0] == pieces[0][0]
  {
    if pieces == [] then "" else pieces[0] + Join(pieces[1..])
  }

  lemma {:induction false} JoinAppend(a: seq<string>, b: seq<string>)
    ensures Join(a + b) == Join(a) + Join(b)
  {
    if a == [] {
      assert a + b == b;
    } else {
      assert (a + b)[0] == a[0];
      assert (a + b)[1..] == a[1..] + b;
      JoinAppend(a[1..], b);
    }
  }

  lemma JoinAt(p: seq<string>, i: nat)
    requires i < |p|
    ensures Join(p) == Join(p[..i]) + p[i] + Join(p[i + 1..])
  {
    var tail := p[i..];
    assert p == p[..i] + tail;
    JoinAppend(p[..i], tail);
    assert tail[0] == p[i] && tail[1..] == p[i + 1..];
  }

  /** The card of each entry, position by position. */
  function Cards(db: seq<Listing>): (r: seq<string>)
    ensures |r| == |db|
    ensures forall k :: 0 <= k < |db| ==> r[k] == CardHtml(db[k])
  {
    seq(|db|, k requires 0 <= k < |db| => CardHtml(db[k]))
  }

  lemma CardsTake(db: seq<Listing>, i: nat)
    requires i <= |db|
    ensures Cards(db)[..i] == Cards(db[..i])
  {
    var a, b := Cards(db)[..i], Cards(db[..i]);
    forall k | 0 <= k < i ensures a[k] == b[k] {
      assert db[..i][k] == db[k];
    }
  }

  lemma CardsDrop(db: seq<Listing>, i: nat)
    requires i <= |db|
    ensures Cards(db)[i..] == Cards(db[i..])
  {
    var a, b := Cards(db)[i..], Cards(db[i..]);
    forall k | 0 <= k < |db| - i ensures a[k] == b[k] {
      assert db[i..][k] == db[i + k];
    }
  }

  /** The card markup of a whole list: the cards of its entries, in list order. */
  function CardsHtml(db: seq<Listing>): (r: string) {
    Join(Cards(db))
  }

  /** The card text is empty exactly for an empty list, and otherwise starts with a card's newline. */
  lemma CardsHtmlStart(db: seq<Listing>)
    ensures |CardsHtml(db)| == 0 <==> |db| == 0
    ensures |db| > 0 ==> CardsHtml(db)[0] == '\n'
  {
    if |db| > 0 {
      var p := Cards(db);
      assert p[0] == CardHtml(db[0]);
      assert CardHtml(db[0])[0] == CardOpen[0] == '\n';
    }
  }

  /**
    One card per entry, in list order: the text is the cards of the entries
    before position `i`, then the card of entry `i`, then the cards after it.
   */
  lemma CardsHtmlAt(db: seq<Listing>, i: nat)
    requires i < |db|
    ensures CardsHtml(db) == CardsHtml(db[..i]) + CardHtml(db[i]) + CardsHtml(db[i + 1..])
  {
    var p := Cards(db);
    JoinAt(p, i);
    CardsTake(db, i);
    CardsDrop(db, i + 1);
    var front, card, back := Join(p[..i]), p[i], Join(p[i + 1..]);
    assert front == CardsHtml(db[..i]);
    assert back == CardsHtml(db[i + 1..]);
    assert card == CardHtml(db[i]);
  }

  /** The loop that appends the card of each database entry to the card text. */
  method BuildCards(db: seq<Listing>) returns (cards: string)
    ensures |cards| == 0 <==> |db| == 0
    ensures forall i :: 0 <= i < |db| ==>
      cards == CardsHtml(db[..i]) + CardHtml(db[i]) + CardsHtml(db[i + 1..])
  {
    cards := "";
    var i := 0;
    while i < |db|
      invariant 0 <= i <= |db|
      invariant cards == CardsHtml(db[..i])
    {
      CardsHtmlAt(db[..i + 1], i);
      assert db[..i + 1][..i] == db[..i] && db[..i + 1][i + 1..] == [];
      cards := cards + CardHtml(db[i]);
      i := i + 1;
    }
    assert db[..i] == db;
    CardsHtmlStart(db);
    forall i | 0 <= i < |db|
      ensures cards == CardsHtml(db[..i]) + CardHtml(db[i]) + CardsHtml(db[i + 1..])
    {
      CardsHtmlAt(db, i);
    }
  }

  /**
    What goes inside the grid: the card text when it is non-empty, else the
    placeholder; the placeholder appears exactly when the list is empty.
   */
  function GridBody(db: seq<Listing>): (r: string)
    ensures r == Placeholder <==> |db| == 0
    ensures |db| > 0 ==> r == CardsHtml(db)
  {
    var cards := CardsHtml(db);
    CardsHtmlStart(db);
    if cards == "" then Placeholder else cards
  }
}
