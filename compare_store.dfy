/** The compare store: the one or two products the user has picked for a
    side-by-side comparison, with its replacement policy. */
module Compare {
  import opened ProductList

  /** The list that `addToCompareList(product)` leaves behind. */
  function Added(list: seq<Product>, product: Product): seq<Product>
  {
    if product in list then list
    else if |list| == 1 && list[0].category != product.category then list
    else if |list| >= 2 then list[1..] + [product]
    else list + [product]
  }

  /** What a store that starts empty can reach: lists of at most two
      products, no two of them deep-equal. */
  ghost predicate Reachable(list: seq<Product>)
  {
    |list| <= 2 && NoDuplicates(list)
  }

  class CompareStore {
    var compareList: seq<Product>

    ghost predicate Valid()
      reads this
    {
      Reachable(compareList)
    }

    constructor ()
      ensures Valid() && compareList == []
    {
      compareList := [];
    }

    /** Adds `product` unless it is already there or, when exactly one
        product is held, unless its category differs from that one's. With
        two products held, the older (index 0) is evicted and no category
        check is made. */
    method AddToCompareList(product: Product)
      requires Valid()
      modifies this
      ensures Valid()
      ensures compareList == Added(old(compareList), product)
      // an identical product already present: ignored
      ensures product in old(compareList) ==> compareList == old(compareList)
      // one product of another category held: rejected
      ensures product !in old(compareList) && |old(compareList)| == 1
              && old(compareList)[0].category != product.category
              ==> compareList == old(compareList)
      // two products held: index 0 dropped, product appended
      ensures product !in old(compareList) && |old(compareList)| >= 2
              ==> compareList == old(compareList)[1..] + [product]
      // empty, or one product of the same category: appended
      ensures product !in old(compareList)
              && (|old(compareList)| == 0
                  || (|old(compareList)| == 1 && old(compareList)[0].category == product.category))
              ==> compareList == old(compareList) + [product]
    {
      var items := compareList;
      if product in items {
        return;
      }
      if |items| == 1 && items[0].category != product.category {
        return;
      } else if |items| >= 2 {
        compareList := items[1..] + [product];
        return;
      } else {
        compareList := items + [product];
      }
      AddedKeepsReachable(items, product);
    }

    /** Drops every product with the given id; the rest keep their order. */
    method RemoveFromCompareList(productId: int)
      requires Valid()
      modifies this
      ensures Valid()
      ensures compareList == WithoutId(old(compareList), productId)
      ensures !HasId(compareList, productId)
      ensures !HasId(old(compareList), productId) ==> compareList == old(compareList)
    {
      var before := compareList;
      compareList := WithoutId(compareList, productId);
      WithoutIdKeepsNoDuplicates(before, productId);
      if !HasId(before, productId) {
        WithoutAbsentId(before, productId);
      }
    }

    /** Whether some held product has the given id. */
    method IsInCompareList(productId: int) returns (b: bool)
      ensures b <==> exists i :: 0 <= i < |compareList| && compareList[i].id == productId
    {
      b := HasId(compareList, productId);
    }
  }

  /** Adding keeps a reachable list reachable: at most two products, and no
      deep-equal pair. */
  lemma AddedKeepsReachable(list: seq<Product>, product: Product)
    requires Reachable(list)
    ensures Reachable(Added(list, product))
  {
  }

  /** Adding the same product twice leaves what adding it once leaves. */
  lemma AddedIdempotent(list: seq<Product>, product: Product)
    ensures Added(Added(list, product), product) == Added(list, product)
  {
  }

  /** After an add the product is held, except exactly when the list held
      one product of another category (and not this one). */
  lemma AddedHolds(list: seq<Product>, product: Product)
    ensures product in Added(list, product)
            <==> !(product !in list && |list| == 1 && list[0].category != product.category)
  {
  }

  /** With two products held, a new one evicts the older and keeps the more
      recent: the list becomes the second old product followed by the new. */
  lemma AddedEvictsOldest(list: seq<Product>, product: Product)
    requires |list| == 2 && product !in list
    ensures Added(list, product) == [list[1], product]
  {
  }

  /** The category check covers only the one-product case: three adds of
      which the last has another category leave two products whose
      categories differ. */
  lemma MixedCategoriesReachable(a: Product, b: Product, c: Product)
    requires a != b && b != c && a != c
    requires a.category == b.category && b.category != c.category
    ensures Added(Added(Added([], a), b), c) == [b, c]
    ensures Added(Added([], a), c) == [a]
  {
  }

  /** A call on the store, for replaying a session. */
  datatype Call = Add(product: Product) | Remove(productId: int)

  /** The list after a session of calls on a store that starts empty. */
  function Replay(calls: seq<Call>): seq<Product>
  {
    if calls == [] then []
    else
      var before := Replay(calls[..|calls| - 1]);
      match calls[|calls| - 1]
      case Add(p) => Added(before, p)
      case Remove(id) => WithoutId(before, id)
  }

  /** Any session of adds and removes from the empty store holds at most two
      products, no two deep-equal. */
  lemma {:induction false} ReplayReachable(calls: seq<Call>)
    ensures |Replay(calls)| <= 2
    ensures NoDuplicates(Replay(calls))
  {
    if calls != [] {
      var before := Replay(calls[..|calls| - 1]);
      ReplayReachable(calls[..|calls| - 1]);
      match calls[|calls| - 1]
      case Add(p) => AddedKeepsReachable(before, p);
      case Remove(id) => WithoutIdKeepsNoDuplicates(before, id);
    }
  }
}
