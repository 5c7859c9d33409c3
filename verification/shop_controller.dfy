/**
 * The shop endpoints: name search, the explore sample and the per-user
 * "my list" of saved shops. The shops table is a sequence in row order;
 * the list is the set of (email, shop id) pairs its UNIQUE constraint keeps.
 */
module ShopController {
  import opened Wrappers
  import opened Text
  import opened Http
  import opened Arrays

  /** A shop row: its id, the three names the search looks at, and the rest. */
  datatype Shop<X> = Shop(id: int, nameEn: string, nameKo: string, nameJp: string, rest: X)

  /** Both queries stop after this many rows. */
  const PageLimit := 20

  /** `s LIKE '%q%'`: `q` occurs somewhere in `s`. */
  predicate Contains(s: string, q: string)
    decreases |s|
  {
    StartsWith(s, q) || (s != [] && Contains(s[1..], q))
  }

  predicate NameMatches<X>(shop: Shop<X>, q: string) {
    Contains(shop.nameEn, q) || Contains(shop.nameKo, q) || Contains(shop.nameJp, q)
  }

  /** The first `n` elements, or all of them when there are fewer. */
  function Take<T>(s: seq<T>, n: nat): (r: seq<T>)
    ensures |r| == if |s| < n then |s| else n
    ensures r == s[..|r|]
  {
    if |s| < n then s else s[..n]
  }

  /**
   * `searchShops`: a missing or empty query answers `[]` without a query
   * (the second component says whether the table was read); otherwise the
   * first 20 rows, in table order, with the query in one of the names.
   */
  function SearchShops<X>(shops: seq<Shop<X>>, query: Option<string>): (r: (seq<Shop<X>>, bool))
    ensures r.1 <==> query.Some? && query.value != ""
    ensures !r.1 ==> r.0 == []
    ensures |r.0| <= PageLimit
    ensures forall i :: 0 <= i < |r.0| ==> NameMatches(r.0[i], query.value)
  {
    if query.None? || query.value == "" then ([], false)
    else (Take(Filter(shops, (s: Shop<X>) => NameMatches(s, query.value)), PageLimit), true)
  }

  /**
   * Every shop found is in the table, and when fewer than 20 are found every
   * shop whose name holds the query is among them.
   */
  lemma SearchFindsEveryMatch<X>(shops: seq<Shop<X>>, q: string, i: nat)
    requires q != "" && i < |shops| && NameMatches(shops[i], q)
    requires |SearchShops(shops, Some(q)).0| < PageLimit
    ensures shops[i] in SearchShops(shops, Some(q)).0
  {
    FilterKeeps(shops, (s: Shop<X>) => NameMatches(s, q), i);
  }

  lemma SearchFindsOnlyTableRows<X>(shops: seq<Shop<X>>, q: string, x: Shop<X>)
    requires x in SearchShops(shops, Some(q)).0
    ensures x in shops && NameMatches(x, q)
  {
    FilterMember(shops, (s: Shop<X>) => NameMatches(s, q), x);
  }

  /**
   * `getExploreShops`: `ORDER BY RANDOM() LIMIT 20`. The random order is a
   * parameter: `shuffled` is the table in some order.
   */
  function ExploreShops<X>(shops: seq<Shop<X>>, shuffled: seq<Shop<X>>): (r: seq<Shop<X>>)
    requires multiset(shuffled) == multiset(shops)
    ensures |r| == if |shops| < PageLimit then |shops| else PageLimit
    ensures multiset(r) <= multiset(shops)
  {
    assert |shuffled| == |multiset(shuffled)| == |shops|;
    var r := Take(shuffled, PageLimit);
    assert shuffled == r + shuffled[|r|..];
    r
  }

  /** The saved (email, shop id) pairs. */
  type MyList = set<(string, int)>

  const AlreadySavedMessage := "Shop already in MyList"

  /**
   * `addToMyList`: a pair already saved is refused with 409 and the list
   * unchanged; any other pair is saved.
   */
  function AddToMyList(list: MyList, email: string, shopId: int): (r: (MyList, Status, Option<string>))
    ensures (email, shopId) in list <==> r.1 == Conflict
    ensures r.1 == Conflict ==> r.0 == list && r.2 == Some(AlreadySavedMessage)
    ensures r.1 != Conflict ==> r.1 == Ok && r.0 == list + {(email, shopId)} && r.2.None?
  {
    if (email, shopId) in list then (list, Conflict, Some(AlreadySavedMessage))
    else (list + {(email, shopId)}, Ok, None)
  }

  /** `removeFromMyList`: the pair is gone afterwards, and the answer is success either way. */
  function RemoveFromMyList(list: MyList, email: string, shopId: int): (r: (MyList, Status))
    ensures r.1 == Ok
    ensures r.0 == list - {(email, shopId)}
  {
    (list - {(email, shopId)}, Ok)
  }

  /**
   * Saving a pair twice answers 409 the second time; removing a newly saved
   * pair restores the list; removing twice is the same as once; and saving
   * or removing one pair never touches another.
   */
  lemma MyListIsASet(list: MyList, email: string, shopId: int, other: (string, int))
    requires other != (email, shopId)
    ensures var added := AddToMyList(list, email, shopId).0;
      && AddToMyList(added, email, shopId).1 == Conflict
      && (other in added <==> other in list)
      && (other in RemoveFromMyList(list, email, shopId).0 <==> other in list)
    ensures (email, shopId) !in list ==> RemoveFromMyList(AddToMyList(list, email, shopId).0, email, shopId).0 == list
    ensures var once := RemoveFromMyList(list, email, shopId).0;
      RemoveFromMyList(once, email, shopId).0 == once
  {
  }
}
