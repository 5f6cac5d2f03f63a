/** The stored listing record and the id-level views of a list of them. */
module Listings {

  /** One entry of the database list: the dictionary built for each kept card. */
  datatype Listing = Listing(id: string, title: string, price: string, link: string)

  /** The set of ids occurring in a list of listings. */
  function Ids(db: seq<Listing>): (r: set<string>) {
    set l | l in db :: l.id
  }

  /** No two entries share an id. */
  predicate UniqueIds(db: seq<Listing>) {
    forall i, j :: 0 <= i < j < |db| ==> db[i].id != db[j].id
  }

  /** Python's `s[:n]` on a list: the first `n` entries, or all of them when there are fewer. */
  function Prefix<T>(s: seq<T>, n: nat): (r: seq<T>) {
    if |s| <= n then s else s[..n]
  }
}
