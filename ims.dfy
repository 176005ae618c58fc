/** InventoryManagementSystem/ims.py: the in-memory catalogue, a dict from
    product ID to product. Python dicts keep insertion order, so the model
    keeps the order of the keys beside the map: adding an existing ID
    replaces its product in place, adding a new one appends it, and sorting
    rebuilds the dict in ascending ID order. */
module InventorySystem {
  import opened Wrappers
  import opened Products
  import opened Text

  /** Python's `a < b` on str: code-point order, a proper prefix first. */
  predicate StrLt(a: string, b: string)
    decreases |a|
  {
    if |a| == 0 then |b| > 0
    else |b| > 0 && (a[0] < b[0] || (a[0] == b[0] && StrLt(a[1..], b[1..])))
  }

  predicate StrLe(a: string, b: string) { a == b || StrLt(a, b) }

  lemma {:induction false} StrLtIrreflexive(a: string)
    ensures !StrLt(a, a)
  {
    if |a| > 0 {
      StrLtIrreflexive(a[1..]);
    }
  }

  lemma {:induction false} StrLtTransitive(a: string, b: string, c: string)
    requires StrLt(a, b) && StrLt(b, c)
    ensures StrLt(a, c)
    decreases |a|
  {
    if |a| > 0 && a[0] == b[0] && b[0] == c[0] {
      StrLtTransitive(a[1..], b[1..], c[1..]);
    }
  }

  /** Any two different strings are ordered one way or the other. */
  lemma {:induction false} StrLtTotal(a: string, b: string)
    ensures a == b || StrLt(a, b) || StrLt(b, a)
    decreases |a|
  {
    if |a| > 0 && |b| > 0 && a[0] == b[0] {
      StrLtTotal(a[1..], b[1..]);
      if a[1..] == b[1..] {
        assert a == [a[0]] + a[1..] && b == [b[0]] + b[1..];
      }
    }
  }

  lemma StrLtAsymmetric(a: string, b: string)
    requires StrLt(a, b)
    ensures !StrLt(b, a) && a != b
  {
    if StrLt(b, a) {
      StrLtTransitive(a, b, a);
      StrLtIrreflexive(a);
    }
    if a == b {
      StrLtIrreflexive(a);
    }
  }

  /** Ascending with respect to Python's string order. */
  predicate Ascending(s: seq<string>)
  {
    forall i, j :: 0 <= i < j < |s| ==> StrLe(s[i], s[j])
  }

  /** x placed before the first item it does not exceed. */
  function Insert(x: string, s: seq<string>): (r: seq<string>)
    ensures multiset(r) == multiset(s) + multiset{x}
  {
    if |s| == 0 then [x]
    else if StrLe(x, s[0]) then [x] + s
    else
      assert s == [s[0]] + s[1..];
      [s[0]] + Insert(x, s[1..])
  }

  /** `sorted` on a list of strings. */
  function SortStrings(s: seq<string>): (r: seq<string>)
    ensures multiset(r) == multiset(s)
  {
    if |s| == 0 then []
    else
      assert s == [s[0]] + s[1..];
      Insert(s[0], SortStrings(s[1..]))
  }

  lemma {:induction false} InsertAscending(x: string, s: seq<string>)
    requires Ascending(s)
    ensures Ascending(Insert(x, s))
  {
    if |s| > 0 {
      if StrLe(x, s[0]) {
        var r := [x] + s;
        forall i, j | 0 <= i < j < |r| ensures StrLe(r[i], r[j]) {
          if i == 0 && j > 1 && x != s[0] && s[0] != s[j - 1] {
            StrLtTransitive(x, s[0], s[j - 1]);
          }
        }
      } else {
        var t := Insert(x, s[1..]);
        InsertAscending(x, s[1..]);
        StrLtTotal(x, s[0]);
        var r := [s[0]] + t;
        forall k | 0 <= k < |t| ensures StrLe(s[0], t[k]) {
          assert t[k] in multiset(t);
          if t[k] != x {
            assert t[k] in multiset(s[1..]);
            var m :| 0 <= m < |s[1..]| && s[1..][m] == t[k];
            assert s[m + 1] == t[k];
          }
        }
        forall i, j | 0 <= i < j < |r| ensures StrLe(r[i], r[j]) {
          if i == 0 {
            assert r[j] == t[j - 1];
          } else {
            assert r[i] == t[i - 1] && r[j] == t[j - 1];
          }
        }
      }
    }
  }

  /** Sorting yields the same strings in ascending order. */
  lemma {:induction false} SortAscending(s: seq<string>)
    ensures Ascending(SortStrings(s)) && multiset(SortStrings(s)) == multiset(s)
  {
    if |s| > 0 {
      SortAscending(s[1..]);
      InsertAscending(s[0], SortStrings(s[1..]));
    }
  }

  /** No item of s occurs twice. */
  predicate NoDup(s: seq<string>)
  {
    |s| == 0 || (NoDup(s[..|s| - 1]) && s[|s| - 1] !in s[..|s| - 1])
  }

  lemma NoDupSnoc(s: seq<string>, x: string)
    ensures NoDup(s) && x !in s ==> NoDup(s + [x])
  {
    assert (s + [x])[..|s|] == s;
  }

  /** Without repeats, items at two positions differ. */
  lemma {:induction false} NoDupPair(s: seq<string>, i: nat, j: nat)
    requires NoDup(s) && i < j < |s|
    ensures s[i] != s[j]
  {
    var p := s[..|s| - 1];
    if j < |s| - 1 {
      NoDupPair(p, i, j);
    } else {
      assert s[i] == p[i] && p[i] in p;
    }
  }

  /** Without repeats is every item occurring at most once. */
  lemma {:induction false} NoDupMultiset(s: seq<string>)
    ensures NoDup(s) <==> forall k :: multiset(s)[k] <= 1
  {
    if |s| > 0 {
      var p := s[..|s| - 1];
      var x := s[|s| - 1];
      NoDupMultiset(p);
      assert s == p + [x];
      assert s[..|s| - 1] == p;
      var m := multiset(s);
      assert m == multiset(p) + multiset{x};
      if forall k :: m[k] <= 1 {
        forall k ensures multiset(p)[k] <= 1 {
          assert m[k] >= multiset(p)[k];
        }
        assert m[x] == multiset(p)[x] + 1;
      }
      if NoDup(s) {
        forall k ensures m[k] <= 1 {
          if k == x {
            assert multiset(p)[x] == 0;
          }
        }
      }
    }
  }

  /** The dict: its keys in insertion order and the key-to-product map. */
  datatype Catalogue = Catalogue(order: seq<string>, items: map<string, Product>)

  /** The order lists each key of the map exactly once. */
  ghost predicate Inv(c: Catalogue)
  {
    NoDup(c.order) && forall k :: k in c.items <==> k in c.order
  }

  /** `products.update({id: product})` */
  function Added(c: Catalogue, id: string, p: Product): (r: Catalogue)
    ensures Inv(c) ==> Inv(r)
    ensures r.items == c.items[id := p]
  {
    if id in c.items then Catalogue(c.order, c.items[id := p])
    else
      NoDupSnoc(c.order, id);
      Catalogue(c.order + [id], c.items[id := p])
  }

  /** The keys of s other than id, in order. */
  function Without(s: seq<string>, id: string): (r: seq<string>)
    ensures forall k :: k in r <==> k in s && k != id
    ensures NoDup(s) ==> NoDup(r)
  {
    if |s| == 0 then []
    else
      var w := Without(s[..|s| - 1], id);
      if s[|s| - 1] == id then w
      else
        assert (w + [s[|s| - 1]])[..|w|] == w;
        w + [s[|s| - 1]]
  }

  lemma {:induction false} WithoutAbsent(s: seq<string>, id: string)
    requires id !in s
    ensures Without(s, id) == s
  {
    if |s| > 0 {
      WithoutAbsent(s[..|s| - 1], id);
      assert s[..|s| - 1] + [s[|s| - 1]] == s;
    }
  }

  /** Removing keeps the other keys in their order. */
  lemma {:induction false} WithoutSubseq(s: seq<string>, id: string)
    ensures IsSubseq(Without(s, id), s)
  {
    if |s| > 0 {
      var p := s[..|s| - 1];
      var x := s[|s| - 1];
      WithoutSubseq(p, id);
      SubseqRefl([x]);
      assert p + [x] == s;
      if x != id {
        SubseqConcat(Without(p, id), p, [x], [x]);
      } else {
        SubseqConcat(Without(p, id), p, [], [x]);
        assert Without(p, id) + [] == Without(p, id);
      }
    }
  }

  /** The errors the catalogue raises. */
  datatype ImsError = NotAProduct | ProductNotFound

  function ImsMessage(e: ImsError): string
  {
    match e
    case NotAProduct => "Error: Product is not valid."
    case ProductNotFound => "Error: Product ID not found in inventory."
  }

  /** `del products[id]`, or the error when id is absent. */
  function Removed(c: Catalogue, id: string): (r: Result<Catalogue, ImsError>)
    ensures r.Err? <==> id !in c.items
    ensures r.Err? ==> r.error == ProductNotFound
    ensures r.Ok? ==> r.value.items == c.items - {id}
    ensures Inv(c) && r.Ok? ==> Inv(r.value)
  {
    if id !in c.items then Err(ProductNotFound)
    else Ok(Catalogue(Without(c.order, id), c.items - {id}))
  }

  function Search(c: Catalogue, id: string): (r: Option<Product>)
    ensures r.Some? <==> id in c.items
    ensures r.Some? ==> r.value == c.items[id]
  {
    if id in c.items then Some(c.items[id]) else None
  }

  /** `dict(sorted(products.items()))`: keys are unique, so this orders the
      entries by ID alone. */
  function SortedById(c: Catalogue): Catalogue
  {
    Catalogue(SortStrings(c.order), c.items)
  }

  /** After adding p under id, a search for id finds p, every other ID finds
      what it found before, and the entry's position is its old one if the
      ID was present, else the end. */
  lemma AddThenSearch(c: Catalogue, id: string, p: Product, other: string)
    requires other != id
    ensures Search(Added(c, id, p), id) == Some(p)
    ensures Search(Added(c, id, p), other) == Search(c, other)
    ensures id in c.items ==> Added(c, id, p).order == c.order
    ensures id !in c.items ==> Added(c, id, p).order == c.order + [id]
  {
  }

  /** Adding a new ID and then removing it gives back the catalogue. */
  lemma AddThenRemove(c: Catalogue, id: string, p: Product)
    requires Inv(c) && id !in c.items
    ensures Removed(Added(c, id, p), id) == Ok(c)
  {
    var o := c.order + [id];
    var m := c.items[id := p];
    assert Added(c, id, p) == Catalogue(o, m);
    WithoutAbsent(c.order, id);
    assert o[..|o| - 1] == c.order;
    assert Without(o, id) == c.order;
    assert m - {id} == c.items by {
      assert forall k :: k in m - {id} <==> k in c.items;
    }
    assert Removed(Catalogue(o, m), id) == Ok(Catalogue(c.order, c.items));
  }

  /** Removing deletes that key only, keeping the others in their order. */
  lemma RemoveOnlyKey(c: Catalogue, id: string, other: string)
    requires Inv(c) && id in c.items && other != id
    ensures Search(Removed(c, id).value, id) == None
    ensures Search(Removed(c, id).value, other) == Search(c, other)
    ensures IsSubseq(Removed(c, id).value.order, c.order)
  {
    WithoutSubseq(c.order, id);
  }

  /** Sorting keeps the same ID-to-product mapping and the same keys,
      now strictly ascending. */
  lemma SortKeepsMapping(c: Catalogue)
    requires Inv(c)
    ensures var r := SortedById(c);
      && Inv(r) && r.items == c.items && multiset(r.order) == multiset(c.order)
      && forall i, j :: 0 <= i < j < |r.order| ==> StrLt(r.order[i], r.order[j])
  {
    var r := SortedById(c);
    SortAscending(c.order);
    forall k ensures k in r.order <==> k in c.order {
      assert k in r.order <==> k in multiset(r.order);
      assert k in c.order <==> k in multiset(c.order);
    }
    NoDupMultiset(c.order);
    NoDupMultiset(r.order);
    forall i, j | 0 <= i < j < |r.order| ensures StrLt(r.order[i], r.order[j]) {
      NoDupPair(r.order, i, j);
    }
  }

  /** An IMS object. */
  class Ims {
    var order: seq<string>
    var products: map<string, Product>

    function State(): Catalogue
      reads this
    {
      Catalogue(order, products)
    }

    ghost predicate Valid()
      reads this
    {
      Inv(State())
    }

    /** A new IMS is empty. */
    constructor ()
      ensures Valid() && State() == Catalogue([], map[])
    {
      order := [];
      products := map[];
    }

    /** addProduct: a product is stored under its ID, replacing any entry
        with that ID; anything else (None here) raises and changes nothing. */
    method AddProduct(item: Option<Product>) returns (err: Option<ImsError>)
      requires Valid()
      modifies this
      ensures Valid()
      ensures item.None? ==> err == Some(NotAProduct) && State() == old(State())
      ensures item.Some? ==> err == None && State() == Added(old(State()), item.value.attrs.productId, item.value)
    {
      if item.None? {
        return Some(NotAProduct);
      }
      var p := item.value;
      var id := p.GetProductId();
      if id !in products {
        order := order + [id];
      }
      products := products[id := p];
      return None;
    }

    /** removeProduct */
    method RemoveProduct(id: string) returns (err: Option<ImsError>)
      requires Valid()
      modifies this
      ensures Valid()
      ensures Removed(old(State()), id).Err? ==> err == Some(ProductNotFound) && State() == old(State())
      ensures Removed(old(State()), id).Ok? ==> err == None && State() == Removed(old(State()), id).value
    {
      if id in products {
        order := Without(order, id);
        products := products - {id};
        return None;
      }
      return Some(ProductNotFound);
    }

    /** isEmpty: no entries, which under the invariant means no keys. */
    method IsEmpty() returns (b: bool)
      requires Valid()
      ensures b <==> products == map[]
      ensures b <==> order == []
    {
      b := |products| == 0;
      if |order| > 0 {
        assert order[0] in products;
      }
    }

    /** searchProductByID */
    method SearchProductById(id: string) returns (r: Option<Product>)
      ensures r.Some? <==> id in products
      ensures r.Some? ==> r.value == products[id]
    {
      if id in products {
        return Some(products[id]);
      }
      return None;
    }

    /** sortByProductID: on an empty catalogue the error text and no change;
        otherwise the entries reordered by ascending ID and the success text. */
    method SortByProductId() returns (msg: string)
      requires Valid()
      modifies this
      ensures Valid()
      ensures old(products) == map[] ==> msg == "Error: inventory is empty." && State() == old(State())
      ensures old(products) != map[] ==>
        msg == "Inventory successfully sorted by product ID." && State() == SortedById(old(State()))
    {
      var empty := IsEmpty();
      if empty {
        return "Error: inventory is empty.";
      }
      SortKeepsMapping(State());
      order := SortStrings(order);
      return "Inventory successfully sorted by product ID.";
    }
  }
}
