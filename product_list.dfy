/** Products as the remote catalog service hands them to the client, and the
    id-keyed list operations that both client stores are built from
    (`Array.prototype.some`, `find` and `filter` over the `id` field). */
module ProductList {
  import opened Optional

  /** A catalog record. The client never changes one; two records are
      "deep-equal" exactly when they are equal as Dafny values, and they
      "match in category" exactly when their `category` fields are equal. */
  datatype Product = Product(
    id: int,
    title: string,
    category: string,
    price: real,
    rating: real,
    stock: int,
    thumbnail: string,
    description: string)

  /** `list.some((i) => i.id === id)` */
  predicate HasId(list: seq<Product>, id: int)
  {
    exists p :: p in list && p.id == id
  }

  /** No two entries share an id. */
  ghost predicate UniqueIds(list: seq<Product>)
  {
    forall i, j :: 0 <= i < j < |list| ==> list[i].id != list[j].id
  }

  /** No two entries are deep-equal. */
  ghost predicate NoDuplicates(list: seq<Product>)
  {
    forall i, j :: 0 <= i < j < |list| ==> list[i] != list[j]
  }

  /** `list.filter((i) => i.id !== id)`: keeps, in order, every entry whose id
      differs from `id`. */
  function WithoutId(list: seq<Product>, id: int): (r: seq<Product>)
    ensures |r| <= |list|
    ensures forall p :: p in r <==> p in list && p.id != id
    ensures !HasId(r, id)
  {
    if list == [] then []
    else if list[0].id == id then WithoutId(list[1..], id)
    else [list[0]] + WithoutId(list[1..], id)
  }

  /** `list.find((p) => p.id === id)`: the first entry with that id. */
  function FindById(list: seq<Product>, id: int): (r: Option<Product>)
    ensures r.Some? <==> HasId(list, id)
    ensures r.Some? ==> r.value in list && r.value.id == id
  {
    if list == [] then None
    else if list[0].id == id then Some(list[0])
    else FindById(list[1..], id)
  }

  /** Filtering out an id that no entry carries returns the list unchanged. */
  lemma {:induction false} WithoutAbsentId(list: seq<Product>, id: int)
    requires !HasId(list, id)
    ensures WithoutId(list, id) == list
  {
    if list != [] {
      assert list[0] in list;
      assert forall p :: p in list[1..] ==> p in list;
      WithoutAbsentId(list[1..], id);
    }
  }

  /** Filtering distributes over concatenation, so the survivors keep the
      order they had. */
  lemma {:induction false} WithoutIdAppend(a: seq<Product>, b: seq<Product>, id: int)
    ensures WithoutId(a + b, id) == WithoutId(a, id) + WithoutId(b, id)
  {
    if a == [] {
      assert a + b == b;
    } else {
      assert (a + b)[1..] == a[1..] + b;
      WithoutIdAppend(a[1..], b, id);
    }
  }

  /** Filtering keeps distinct ids distinct. */
  lemma {:induction false} WithoutIdKeepsUniqueIds(list: seq<Product>, id: int)
    requires UniqueIds(list)
    ensures UniqueIds(WithoutId(list, id))
  {
    if list != [] {
      WithoutIdKeepsUniqueIds(list[1..], id);
      var rest := WithoutId(list[1..], id);
      if list[0].id != id {
        forall p | p in rest ensures p.id != list[0].id {
          assert p in list[1..];
          var k :| 0 <= k < |list[1..]| && list[1..][k] == p;
          assert list[k + 1] == p;
        }
        var r := [list[0]] + rest;
        forall i, j | 0 <= i < j < |r| ensures r[i].id != r[j].id {
          if i > 0 {
            assert r[i] == rest[i - 1] && r[j] == rest[j - 1];
          } else {
            assert r[j] == rest[j - 1] && r[j] in rest;
          }
        }
      }
    }
  }

  /** Filtering keeps distinct entries distinct. */
  lemma {:induction false} WithoutIdKeepsNoDuplicates(list: seq<Product>, id: int)
    requires NoDuplicates(list)
    ensures NoDuplicates(WithoutId(list, id))
  {
    if list != [] {
      WithoutIdKeepsNoDuplicates(list[1..], id);
      var rest := WithoutId(list[1..], id);
      if list[0].id != id {
        assert list[0] !in rest;
        var r := [list[0]] + rest;
        forall i, j | 0 <= i < j < |r| ensures r[i] != r[j] {
          if i > 0 {
            assert r[i] == rest[i - 1] && r[j] == rest[j - 1];
          } else {
            assert r[j] == rest[j - 1] && r[j] in rest;
          }
        }
      }
    }
  }

  /** `find` returns the FIRST entry carrying the id. */
  lemma {:induction false} FindByIdIsFirst(list: seq<Product>, id: int, i: nat)
    requires i < |list| && list[i].id == id
    requires forall j :: 0 <= j < i ==> list[j].id != id
    ensures FindById(list, id) == Some(list[i])
  {
    if i > 0 {
      FindByIdIsFirst(list[1..], id, i - 1);
    }
  }

  /** With distinct ids, `find` returns the one entry carrying the id. */
  lemma FindByIdUnique(list: seq<Product>, i: nat)
    requires UniqueIds(list) && i < |list|
    ensures FindById(list, list[i].id) == Some(list[i])
  {
  }
}
