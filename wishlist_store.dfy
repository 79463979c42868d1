/** The wishlist store: products the user keeps for later, keyed by id, the
    first product stored under an id winning over later ones. */
module Wishlist {
  import opened Optional
  import opened ProductList

  /** The items that `addToWishlist(product)` leaves behind. */
  function Added(items: seq<Product>, product: Product): seq<Product>
  {
    if HasId(items, product.id) then items else items + [product]
  }

  class WishlistStore {
    var items: seq<Product>

    ghost predicate Valid()
      reads this
    {
      UniqueIds(items)
    }

    constructor ()
      ensures Valid() && items == []
    {
      items := [];
    }

    /** Appends `product` when no item has its id; otherwise changes nothing. */
    method AddToWishlist(product: Product)
      requires Valid()
      modifies this
      ensures Valid()
      ensures items == Added(old(items), product)
      ensures !HasId(old(items), product.id) ==> items == old(items) + [product]
      ensures HasId(old(items), product.id) ==> items == old(items)
      ensures HasId(items, product.id)
    {
      var existing := FindById(items, product.id);
      if existing.None? {
        AddedKeepsUniqueIds(items, product);
        items := items + [product];
      }
    }

    /** Drops the item with the given id; the rest keep their order. */
    method RemoveFromWishlist(productId: int)
      requires Valid()
      modifies this
      ensures Valid()
      ensures items == WithoutId(old(items), productId)
      ensures !HasId(items, productId)
      ensures !HasId(old(items), productId) ==> items == old(items)
    {
      var before := items;
      items := WithoutId(items, productId);
      WithoutIdKeepsUniqueIds(before, productId);
      if !HasId(before, productId) {
        WithoutAbsentId(before, productId);
      }
    }

    /** Whether some item has the given id. */
    method IsInWishlist(productId: int) returns (b: bool)
      ensures b <==> exists i :: 0 <= i < |items| && items[i].id == productId
    {
      b := HasId(items, productId);
    }
  }

  /** Adding keeps the ids distinct. */
  lemma AddedKeepsUniqueIds(items: seq<Product>, product: Product)
    requires UniqueIds(items)
    ensures UniqueIds(Added(items, product))
  {
  }

  /** Adding twice leaves what adding once leaves. */
  lemma AddedIdempotent(items: seq<Product>, product: Product)
    ensures Added(Added(items, product), product) == Added(items, product)
  {
  }

  /** First write wins: after an add, the item stored under the id is the
      one already there, or the new product when there was none. */
  lemma AddedFirstWriteWins(items: seq<Product>, product: Product)
    ensures FindById(Added(items, product), product.id)
            == if HasId(items, product.id) then FindById(items, product.id) else Some(product)
  {
  }

  /** An add touches nothing but the entry keyed by the product's id:
      filtering that id out gives the same list before and after. */
  lemma AddedTouchesOnlyItsId(items: seq<Product>, product: Product)
    ensures WithoutId(Added(items, product), product.id) == WithoutId(items, product.id)
  {
    if !HasId(items, product.id) {
      WithoutIdAppend(items, [product], product.id);
      assert WithoutId([product], product.id) == [];
    }
  }

  /** After an add, an id is present exactly when it was present before or
      is the product's id. */
  lemma AddedMembership(items: seq<Product>, product: Product, id: int)
    ensures HasId(Added(items, product), id) <==> HasId(items, id) || id == product.id
  {
  }
}
