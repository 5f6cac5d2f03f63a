/**
  The database update: each scraped listing whose id the loaded database did
  not know is put at the front of the list, and the list is then cut to its
  first fifty entries.
 */
module Store {
  import opened Listings

  /** Number of entries the database keeps. */
  const Capacity: nat := 50

  /** Result of one merge: the list to save and the number of inserted items. */
  datatype MergeOutcome = MergeOutcome(store: seq<Listing>, added: nat)

  /** The batch items whose id is not in `known`, in batch order. */
  function Unseen(batch: seq<Listing>, known: set<string>): (r: seq<Listing>)
    ensures |r| <= |batch|
  {
    if batch == [] then []
    else (if batch[0].id !in known then [batch[0]] else []) + Unseen(batch[1..], known)
  }

  function Reverse<T>(s: seq<T>): (r: seq<T>)
    ensures |r| == |s|
    ensures forall i :: 0 <= i < |s| ==> r[i] == s[|s| - 1 - i]
  {
    if s == [] then [] else Reverse(s[1..]) + [s[0]]
  }

  /**
    The insertion loop: walks `items` front to back and puts every item whose
    id is not in `known` at index 0 of `database`, counting the insertions.
    `known` is fixed for the whole walk.
   */
  function InsertUnknown(database: seq<Listing>, items: seq<Listing>, known: set<string>): (r: (seq<Listing>, nat))
    ensures r.0 == Reverse(Unseen(items, known)) + database
    ensures r.1 == |Unseen(items, known)|
    decreases |items|
  {
    if items == [] then
      (database, 0)
    else if items[0].id !in known then
      var rest := InsertUnknown([items[0]] + database, items[1..], known);
      var tail := Unseen(items[1..], known);
      assert Unseen(items, known) == [items[0]] + tail;
      assert ([items[0]] + tail)[1..] == tail;
      assert Reverse(Unseen(items, known)) == Reverse(tail) + [items[0]];
      assert rest.0 == Reverse(tail) + ([items[0]] + database);
      (rest.0, rest.1 + 1)
    else
      InsertUnknown(database, items[1..], known)
  }

  /**
    One run's update of the loaded database `db` with the scraped `batch`:
    the ids are read from `db` once, before any insertion.
   */
  function Merge(db: seq<Listing>, batch: seq<Listing>): (r: MergeOutcome)
    ensures var news := Unseen(batch, Ids(db));
      && r.added == |news|
      && r.store == Prefix(Reverse(news) + db, Capacity)
    ensures |r.store| <= Capacity
  {
    var inserted := InsertUnknown(db, batch, Ids(db));
    MergeOutcome(Prefix(inserted.0, Capacity), inserted.1)
  }

  /** `Unseen` keeps exactly the batch items whose id is not known. */
  lemma {:induction false} UnseenMembers(batch: seq<Listing>, known: set<string>)
    ensures forall x :: x in Unseen(batch, known) <==> x in batch && x.id !in known
  {
    if batch != [] {
      UnseenMembers(batch[1..], known);
      assert batch == [batch[0]] + batch[1..];
    }
  }

  lemma IdsConcat(a: seq<Listing>, b: seq<Listing>)
    ensures Ids(a + b) == Ids(a) + Ids(b)
  {
    assert forall x :: x in a + b <==> x in a || x in b;
  }

  lemma UniqueReverse(s: seq<Listing>)
    requires UniqueIds(s)
    ensures UniqueIds(Reverse(s))
  {
    var r := Reverse(s);
    forall i, j | 0 <= i < j < |r| ensures r[i].id != r[j].id {
      assert r[i] == s[|s| - 1 - i] && r[j] == s[|s| - 1 - j];
    }
  }

  lemma UniqueConcat(a: seq<Listing>, b: seq<Listing>)
    requires UniqueIds(a) && UniqueIds(b) && Ids(a) !! Ids(b)
    ensures UniqueIds(a + b)
  {
    var c := a + b;
    forall i, j | 0 <= i < j < |c| ensures c[i].id != c[j].id {
      if j < |a| {
        assert c[i] == a[i] && c[j] == a[j];
      } else if i >= |a| {
        assert c[i] == b[i - |a|] && c[j] == b[j - |a|];
      } else {
        assert c[i] == a[i] && c[j] == b[j - |a|];
        assert c[i].id in Ids(a) && c[j].id in Ids(b);
      }
    }
  }

  lemma IdsReverse(s: seq<Listing>)
    ensures Ids(Reverse(s)) == Ids(s)
  {
    var r := Reverse(s);
    forall x | x in r ensures x in s {
      var i :| 0 <= i < |r| && r[i] == x;
      assert s[|s| - 1 - i] == x;
    }
    forall x | x in s ensures x in r {
      var i :| 0 <= i < |s| && s[i] == x;
      assert r[|s| - 1 - i] == x;
    }
  }

  /**
    Shape of the saved list: the first `m` entries (`m` = inserted items
    that fit) are scraped items unknown to the old database, in reverse
    scraping order; after them comes an unchanged prefix of the old database.
   */
  lemma MergeLayout(db: seq<Listing>, batch: seq<Listing>)
    ensures var r := Merge(db, batch);
      var news := Unseen(batch, Ids(db));
      var m := if r.added <= Capacity then r.added else Capacity;
      && m <= |r.store|
      && r.store[..m] == Reverse(news)[..m]
      && (forall i :: 0 <= i < m ==> r.store[i] in batch && r.store[i].id !in Ids(db))
      && r.store[m..] == db[..|r.store| - m]
  {
    var news := Unseen(batch, Ids(db));
    var rev := Reverse(news);
    PrefixOfConcat(rev, db, Capacity);
    UnseenMembers(batch, Ids(db));
    forall j | 0 <= j < |rev| ensures rev[j] in batch && rev[j].id !in Ids(db) {
      assert rev[j] in news;
    }
  }

  lemma PrefixOfConcat(a: seq<Listing>, b: seq<Listing>, n: nat)
    ensures var p := Prefix(a + b, n);
      var m := if |a| <= n then |a| else n;
      && m <= |p|
      && p[..m] == a[..m]
      && p[m..] == b[..|p| - m]
  {
    var m := if |a| <= n then |a| else n;
    if |a + b| <= n {
      assert Prefix(a + b, n)[m..] == b;
    } else if |a| <= n {
      assert Prefix(a + b, n)[m..] == b[..n - m];
    }
  }

  /**
    Nothing else enters the list: every saved entry is an old entry or a
    scraped item whose id the old database did not contain.
   */
  lemma MergeProvenance(db: seq<Listing>, batch: seq<Listing>)
    ensures forall x :: x in Merge(db, batch).store ==>
      x in db || (x in batch && x.id !in Ids(db))
  {
    var news := Unseen(batch, Ids(db));
    UnseenMembers(batch, Ids(db));
    IdsReverse(news);
    var full := Reverse(news) + db;
    forall x | x in Merge(db, batch).store ensures x in db || (x in batch && x.id !in Ids(db)) {
      assert x in full;
      if x !in db {
        assert x in Reverse(news);
        assert x.id in Ids(news);
        var y :| y in news && y.id == x.id;
      }
    }
  }

  /** With nothing scraped, the count is zero and the list is only cut to fifty. */
  lemma MergeEmptyBatch(db: seq<Listing>)
    ensures Merge(db, []) == MergeOutcome(Prefix(db, Capacity), 0)
    ensures |db| <= Capacity ==> Merge(db, []).store == db
  {
  }

  /**
    A saved list (at most fifty entries) is left as it is, with a zero
    count, exactly when every scraped id already occurs in it.
   */
  lemma MergeFixpoint(s: seq<Listing>, batch: seq<Listing>)
    requires |s| <= Capacity
    ensures Merge(s, batch) == MergeOutcome(s, 0) <==>
      forall i :: 0 <= i < |batch| ==> batch[i].id in Ids(s)
  {
    UnseenMembers(batch, Ids(s));
    var news := Unseen(batch, Ids(s));
    if forall i :: 0 <= i < |batch| ==> batch[i].id in Ids(s) {
      if news != [] {
        assert news[0] in news;
      }
    } else {
      var i :| 0 <= i < |batch| && batch[i].id !in Ids(s);
      assert batch[i] in news;
    }
  }

  /**
    Running the same scrape twice adds nothing the second time, provided
    the first run did not have to cut anything off.
   */
  lemma MergeTwice(db: seq<Listing>, batch: seq<Listing>)
    requires |Unseen(batch, Ids(db))| + |db| <= Capacity
    ensures var s := Merge(db, batch).store;
      Merge(s, batch) == MergeOutcome(s, 0)
  {
    var news := Unseen(batch, Ids(db));
    var s := Merge(db, batch).store;
    assert s == Reverse(news) + db;
    UnseenMembers(batch, Ids(db));
    IdsReverse(news);
    IdsConcat(Reverse(news), db);
    forall i | 0 <= i < |batch| ensures batch[i].id in Ids(s) {
      if batch[i].id !in Ids(db) {
        assert batch[i] in news;
      }
    }
    MergeFixpoint(s, batch);
  }

  /**
    Without that proviso the second run is not idempotent: a scraped listing
    that was already known, but sits last in a full database, is pushed out
    by one new listing and then inserted again by the next identical run.
   */
  lemma MergeReadmitsEvicted(db: seq<Listing>, c: Listing)
    requires |db| == Capacity && UniqueIds(db) && c.id !in Ids(db)
    ensures var batch := [db[Capacity - 1], c];
      var first := Merge(db, batch);
      && first.added == 1
      && Merge(first.store, batch).added == 1
  {
    var x := db[Capacity - 1];
    var batch := [x, c];
    assert x in db;
    assert Unseen(batch, Ids(db)) == [c];
    var s := Merge(db, batch).store;
    assert s == [c] + db[..Capacity - 1];
    assert x.id !in Ids(s) by {
      forall y | y in s ensures y.id != x.id {
        if y != c {
          var k :| 0 <= k < Capacity - 1 && db[k] == y;
        }
      }
    }
    assert c.id in Ids(s) by { assert c in s; }
    assert Unseen(batch, Ids(s)) == [x];
  }

  /**
    The saved list has unique ids when the old one did and the scrape's
    unknown items have pairwise distinct ids.
   */
  lemma MergeUnique(db: seq<Listing>, batch: seq<Listing>)
    requires UniqueIds(db) && UniqueIds(Unseen(batch, Ids(db)))
    ensures UniqueIds(Merge(db, batch).store)
  {
    var news := Unseen(batch, Ids(db));
    UnseenMembers(batch, Ids(db));
    UniqueReverse(news);
    IdsReverse(news);
    assert Ids(news) !! Ids(db) by {
      forall x | x in news ensures x.id !in Ids(db) { }
    }
    UniqueConcat(Reverse(news), db);
  }

  /**
    The ids are read only once, so one scrape carrying the same unknown
    listing twice puts both copies into the list.
   */
  lemma MergeKeepsBatchDuplicates(db: seq<Listing>, x: Listing)
    requires x.id !in Ids(db)
    ensures var r := Merge(db, [x, x]);
      && r.added == 2
      && r.store[..2] == [x, x]
      && !UniqueIds(r.store)
  {
    assert Unseen([x, x], Ids(db)) == [x, x];
    var r := Merge(db, [x, x]);
    assert r.store[0] == x && r.store[1] == x;
  }

  /**
    The same holds for any scrape in which an unknown id occurs twice, as
    long as the unknown items fit in fifty: both copies survive the cut.
   */
  lemma MergeRepeatsUnknownId(db: seq<Listing>, batch: seq<Listing>, p: nat, q: nat)
    requires p < q < |batch| && batch[p].id == batch[q].id && batch[p].id !in Ids(db)
    requires |Unseen(batch, Ids(db))| <= Capacity
    ensures !UniqueIds(Merge(db, batch).store)
  {
    var news := Unseen(batch, Ids(db));
    var i, j := UnseenRepeat(batch, Ids(db), p, q);
    var rev := Reverse(news);
    var store := Merge(db, batch).store;
    var a, b := |news| - 1 - j, |news| - 1 - i;
    PrefixFront(rev, db, Capacity, a);
    PrefixFront(rev, db, Capacity, b);
    assert rev[a] == news[j] && rev[b] == news[i];
    assert store[a].id == store[b].id;
  }

  lemma PrefixFront(a: seq<Listing>, b: seq<Listing>, n: nat, k: nat)
    requires |a| <= n && k < |a|
    ensures k < |Prefix(a + b, n)| && Prefix(a + b, n)[k] == a[k]
  {
  }

  /** Two batch items with the same unknown id both pass the `not in known` test. */
  lemma {:induction false} UnseenRepeat(batch: seq<Listing>, known: set<string>, p: nat, q: nat)
    returns (i: nat, j: nat)
    requires p < q < |batch| && batch[p].id == batch[q].id && batch[p].id !in known
    ensures i < j < |Unseen(batch, known)| && Unseen(batch, known)[i].id == Unseen(batch, known)[j].id
  {
    var tail := Unseen(batch[1..], known);
    var head := if batch[0].id !in known then [batch[0]] else [];
    assert Unseen(batch, known) == head + tail;
    if p == 0 {
      var k := UnseenIndex(batch[1..], known, q - 1);
      assert (head + tail)[0] == batch[0];
      assert (head + tail)[k + 1] == batch[q];
      i, j := 0, k + 1;
    } else {
      var i', j' := UnseenRepeat(batch[1..], known, p - 1, q - 1);
      assert (head + tail)[|head| + i'] == tail[i'];
      assert (head + tail)[|head| + j'] == tail[j'];
      i, j := |head| + i', |head| + j';
    }
  }

  /** An item with an unknown id keeps a place in `Unseen`. */
  lemma {:induction false} UnseenIndex(batch: seq<Listing>, known: set<string>, q: nat)
    returns (k: nat)
    requires q < |batch| && batch[q].id !in known
    ensures k < |Unseen(batch, known)| && Unseen(batch, known)[k] == batch[q]
  {
    var tail := Unseen(batch[1..], known);
    var head := if batch[0].id !in known then [batch[0]] else [];
    assert Unseen(batch, known) == head + tail;
    if q == 0 {
      k := 0;
    } else {
      var k' := UnseenIndex(batch[1..], known, q - 1);
      assert (head + tail)[|head| + k'] == tail[k'];
      k := |head| + k';
    }
  }

  /**
    Corrected insertion loop: an item is inserted only when its id is not
    yet in the list being built, so ids inserted earlier in the same
    scrape count as known.
   */
  function InsertDistinct(database: seq<Listing>, items: seq<Listing>): (r: (seq<Listing>, nat))
    ensures Ids(r.0) == Ids(database) + Ids(items)
    ensures |r.0| == |database| + r.1
    ensures UniqueIds(database) ==> UniqueIds(r.0)
    decreases |items|
  {
    if items == [] then
      (database, 0)
    else
      var x := items[0];
      assert items == [x] + items[1..];
      IdsConcat([x], items[1..]);
      if x.id !in Ids(database) then
        IdsConcat([x], database);
        assert UniqueIds(database) ==> UniqueIds([x] + database) by {
          if UniqueIds(database) {
            UniqueConcat([x], database);
          }
        }
        var rest := InsertDistinct([x] + database, items[1..]);
        (rest.0, rest.1 + 1)
      else
        InsertDistinct(database, items[1..])
  }

  /** Corrected merge: the saved list keeps unique ids whatever the scrape holds. */
  function MergeDistinct(db: seq<Listing>, batch: seq<Listing>): (r: MergeOutcome)
    ensures |r.store| <= Capacity
    ensures UniqueIds(db) ==> UniqueIds(r.store)
  {
    var inserted := InsertDistinct(db, batch);
    MergeOutcome(Prefix(inserted.0, Capacity), inserted.1)
  }

  lemma {:induction false} InsertAgrees(database: seq<Listing>, items: seq<Listing>, known: set<string>)
    requires known <= Ids(database)
    requires Ids(Unseen(items, known)) !! Ids(database)
    requires UniqueIds(Unseen(items, known))
    ensures InsertDistinct(database, items) == InsertUnknown(database, items, known)
    decreases |items|
  {
    if items != [] {
      var x := items[0];
      var tail := Unseen(items[1..], known);
      if x.id in known {
        assert Unseen(items, known) == tail;
        InsertAgrees(database, items[1..], known);
      } else {
        assert Unseen(items, known) == [x] + tail;
        AgreesStep(x, tail, database, known);
        InsertAgrees([x] + database, items[1..], known);
      }
    }
  }

  /** After inserting an unknown item, the remaining items still satisfy the conditions of `InsertAgrees`. */
  lemma AgreesStep(x: Listing, tail: seq<Listing>, database: seq<Listing>, known: set<string>)
    requires x.id !in known && known <= Ids(database)
    requires Ids([x] + tail) !! Ids(database)
    requires UniqueIds([x] + tail)
    ensures x.id !in Ids(database)
    ensures known <= Ids([x] + database)
    ensures Ids(tail) !! Ids([x] + database)
    ensures UniqueIds(tail)
  {
    IdsConcat([x], tail);
    IdsConcat([x], database);
    UniqueCons(x, tail);
  }

  lemma UniqueCons(x: Listing, tail: seq<Listing>)
    requires UniqueIds([x] + tail)
    ensures UniqueIds(tail) && x.id !in Ids(tail)
  {
    var s := [x] + tail;
    forall y | y in tail ensures y.id != x.id {
      var k :| 0 <= k < |tail| && tail[k] == y;
      assert s[0] == x && s[k + 1] == y;
    }
    forall i, j | 0 <= i < j < |tail| ensures tail[i].id != tail[j].id {
      assert s[i + 1] == tail[i] && s[j + 1] == tail[j];
    }
  }

  /**
    When the scrape's unknown items already have distinct ids, the corrected
    merge and the merge as written give the same list and count.
   */
  lemma MergeDistinctAgrees(db: seq<Listing>, batch: seq<Listing>)
    requires UniqueIds(Unseen(batch, Ids(db)))
    ensures MergeDistinct(db, batch) == Merge(db, batch)
  {
    UnseenMembers(batch, Ids(db));
    assert Ids(Unseen(batch, Ids(db))) !! Ids(db) by {
      forall x | x in Unseen(batch, Ids(db)) ensures x.id !in Ids(db) { }
    }
    InsertAgrees(db, batch, Ids(db));
  }
}
