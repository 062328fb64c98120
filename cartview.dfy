/** `cart_state` (app.py:26-43) as a specification: the line items obtained by
    joining the cart against the catalog index, their total and their count,
    and how each cart change moves them. */
module CartView {
  import opened Seqs
  import opened Catalog
  import opened Carts

  /** One entry of `items`; `price` is in cents. */
  datatype LineItem = LineItem(id: int, title: string, price: int, image: string, qty: int)

  /** The JSON the cart endpoints answer with; `total` is in cents. */
  datatype Aggregate = Aggregate(items: seq<LineItem>, total: int, count: int)

  /** The line item for product `p` held `n` times (`p.get("image", "")`). */
  function MakeItem(p: Product, n: int): LineItem
  {
    LineItem(p.id, p.title, p.price, if p.image.Some? then p.image.value else "", n)
  }

  /** Every listed key has a quantity. */
  ghost predicate Covers(order: seq<string>, qty: map<string, int>)
  {
    forall k :: k in order ==> k in qty
  }

  /** The loop of `cart_state`: walk the keys in order, skip the ones the index
      lacks, and emit a line item for each of the others. */
  function Items(order: seq<string>, qty: map<string, int>, idx: map<string, Product>): seq<LineItem>
    requires Covers(order, qty)
    decreases |order|
  {
    if order == [] then []
    else
      var k := order[|order| - 1];
      Items(order[..|order| - 1], qty, idx) + (if k in idx then [MakeItem(idx[k], qty[k])] else [])
  }

  /** The keys of `order` that the index has, in cart order. */
  function Kept(order: seq<string>, idx: map<string, Product>): (r: seq<string>)
    ensures forall k :: k in r <==> k in order && k in idx
    ensures IsSubseq(r, order)
    decreases |order|
  {
    if order == [] then []
    else
      var k := order[|order| - 1];
      var init := Kept(order[..|order| - 1], idx);
      assert order == order[..|order| - 1] + [k];
      if k in idx then init + [k] else init
  }

  /** `sum(i["qty"] for i in items)`. */
  function Count(items: seq<LineItem>): int
  {
    if items == [] then 0 else Count(items[..|items| - 1]) + items[|items| - 1].qty
  }

  /** `sum(i["price"] * i["qty"] for i in items)`, in cents. */
  function Total(items: seq<LineItem>): int
  {
    if items == [] then 0
    else Total(items[..|items| - 1]) + items[|items| - 1].price * items[|items| - 1].qty
  }

  /** What `cart_state` returns for cart `c` and the product list `catalog`. */
  function View(c: Cart, catalog: seq<Product>): Aggregate
    requires c.Valid()
  {
    var items := Items(c.order, c.qty, Index(catalog));
    Aggregate(items, Total(items), Count(items))
  }

  lemma {:induction false} SumsAppend(a: seq<LineItem>, b: seq<LineItem>)
    ensures Count(a + b) == Count(a) + Count(b)
    ensures Total(a + b) == Total(a) + Total(b)
    decreases |b|
  {
    if b != [] {
      assert (a + b)[..|a + b| - 1] == a + b[..|b| - 1];
      SumsAppend(a, b[..|b| - 1]);
    } else {
      assert a + b == a;
    }
  }

  /** The sums of one line item. */
  lemma SingleSums(item: LineItem)
    ensures Count([item]) == item.qty && Total([item]) == item.price * item.qty
  {
    assert [item][..0] == [];
  }

  /** The items depend only on the quantities of the listed keys. */
  lemma {:induction false} ItemsFrame(order: seq<string>, q1: map<string, int>, q2: map<string, int>,
                                      idx: map<string, Product>)
    requires Covers(order, q1) && Covers(order, q2)
    requires forall k :: k in order ==> q1[k] == q2[k]
    ensures Items(order, q1, idx) == Items(order, q2, idx)
    decreases |order|
  {
    if order != [] {
      ItemsFrame(order[..|order| - 1], q1, q2, idx);
    }
  }

  /** Items follow the cart's iteration order: the i-th item belongs to the
      i-th cart key that the catalog has, with that key's quantity. */
  lemma {:induction false} ItemsFollowCart(order: seq<string>, qty: map<string, int>, idx: map<string, Product>)
    requires Covers(order, qty)
    ensures |Items(order, qty, idx)| == |Kept(order, idx)|
    ensures forall j :: 0 <= j < |Kept(order, idx)| ==>
              Kept(order, idx)[j] in idx && Kept(order, idx)[j] in qty
              && Items(order, qty, idx)[j] == MakeItem(idx[Kept(order, idx)[j]], qty[Kept(order, idx)[j]])
    decreases |order|
  {
    if order != [] {
      ItemsFollowCart(order[..|order| - 1], qty, idx);
    }
  }

  /** Every item is a product of the catalog held at the quantity its key has
      in the cart, and every cart key the catalog has yields an item. */
  lemma ItemsFromCatalog(c: Cart, catalog: seq<Product>)
    requires c.Valid()
    ensures forall j :: 0 <= j < |View(c, catalog).items| ==>
              exists p :: p in catalog && IdKey(p.id) in c.qty
                          && View(c, catalog).items[j] == MakeItem(p, c.qty[IdKey(p.id)])
    ensures forall k :: k in c.qty && k in Index(catalog) ==>
              MakeItem(Index(catalog)[k], c.qty[k]) in View(c, catalog).items
  {
    var idx := Index(catalog);
    var items := View(c, catalog).items;
    var kept := Kept(c.order, idx);
    ItemsFollowCart(c.order, c.qty, idx);
    forall j | 0 <= j < |items|
      ensures exists p :: p in catalog && IdKey(p.id) in c.qty && items[j] == MakeItem(p, c.qty[IdKey(p.id)])
    {
      IndexKeysMatchIds(catalog, kept[j]);
      assert IdKey(idx[kept[j]].id) == kept[j];
    }
    forall k | k in c.qty && k in idx
      ensures MakeItem(idx[k], c.qty[k]) in items
    {
      assert k in kept;
      var j :| 0 <= j < |kept| && kept[j] == k;
      assert items[j] == MakeItem(idx[k], c.qty[k]);
    }
  }

  /** A cart none of whose keys the catalog has (in particular the empty cart
      that clear leaves) shows no items, total 0 and count 0. */
  lemma {:induction false} StaleCartIsEmpty(order: seq<string>, qty: map<string, int>, idx: map<string, Product>)
    requires Covers(order, qty)
    requires forall k :: k in order ==> k !in idx
    ensures Items(order, qty, idx) == []
    decreases |order|
  {
    if order != [] {
      StaleCartIsEmpty(order[..|order| - 1], qty, idx);
    }
  }

  /** A cart with no key the catalog has, the empty one that clear leaves
      among them, shows no items, total 0 and count 0. */
  lemma ClearedView(c: Cart, catalog: seq<Product>)
    requires c.Valid()
    requires forall k :: k in c.qty ==> k !in Index(catalog)
    ensures View(c, catalog) == Aggregate([], 0, 0)
  {
    StaleCartIsEmpty(c.order, c.qty, Index(catalog));
  }

  /** Appending a key that was not listed adds its item (if the catalog has
      it) at the end. */
  lemma AppendKey(order: seq<string>, qty: map<string, int>, idx: map<string, Product>, pid: string, v: int)
    requires Covers(order, qty) && pid !in order
    ensures Covers(order + [pid], qty[pid := v])
    ensures Items(order + [pid], qty[pid := v], idx)
            == Items(order, qty, idx) + (if pid in idx then [MakeItem(idx[pid], v)] else [])
  {
    assert (order + [pid])[..|order|] == order;
    ItemsFrame(order, qty, qty[pid := v], idx);
  }

  /** Splits the last key off: the items of `order` are those of its prefix
      followed by the last key's item, whatever the quantities. */
  lemma ItemsSnoc(init: seq<string>, x: string, qty: map<string, int>, idx: map<string, Product>)
    requires Covers(init + [x], qty)
    ensures Covers(init, qty)
    ensures Items(init + [x], qty, idx) == Items(init, qty, idx) + (if x in idx then [MakeItem(idx[x], qty[x])] else [])
  {
    assert (init + [x])[..|init|] == init;
  }

  /** What `UpdateKey` promises about `order`: setting `pid` to `v` changes
      only the item of `pid`. */
  ghost predicate UpdatesOnlyOwnItem(order: seq<string>, qty: map<string, int>, idx: map<string, Product>,
                                     pid: string, v: int)
    requires Covers(order, qty) && pid in qty
  {
    && |Items(order, qty[pid := v], idx)| == |Items(order, qty, idx)|
    && (pid !in idx ==> Items(order, qty[pid := v], idx) == Items(order, qty, idx))
    && (pid in idx ==>
          Count(Items(order, qty[pid := v], idx)) == Count(Items(order, qty, idx)) - qty[pid] + v
          && Total(Items(order, qty[pid := v], idx))
             == Total(Items(order, qty, idx)) - idx[pid].price * qty[pid] + idx[pid].price * v)
  }

  /** The changed key is the last one listed. */
  lemma UpdateLastKey(init: seq<string>, qty: map<string, int>, idx: map<string, Product>, pid: string, v: int)
    requires Covers(init + [pid], qty) && pid !in init
    ensures UpdatesOnlyOwnItem(init + [pid], qty, idx, pid, v)
  {
    var q' := qty[pid := v];
    ItemsSnoc(init, pid, qty, idx);
    ItemsSnoc(init, pid, q', idx);
    ItemsFrame(init, qty, q', idx);
    if pid in idx {
      SingleSums(MakeItem(idx[pid], qty[pid]));
      SingleSums(MakeItem(idx[pid], v));
      SumsAppend(Items(init, qty, idx), [MakeItem(idx[pid], qty[pid])]);
      SumsAppend(Items(init, q', idx), [MakeItem(idx[pid], v)]);
    }
  }

  /** The changed key comes before the last one listed. */
  lemma UpdateEarlierKey(init: seq<string>, x: string, qty: map<string, int>, idx: map<string, Product>,
                         pid: string, v: int)
    requires Covers(init + [x], qty) && x != pid && pid in qty
    requires Covers(init, qty) && UpdatesOnlyOwnItem(init, qty, idx, pid, v)
    ensures UpdatesOnlyOwnItem(init + [x], qty, idx, pid, v)
  {
    var q' := qty[pid := v];
    var tail := if x in idx then [MakeItem(idx[x], qty[x])] else [];
    assert q'[x] == qty[x];
    ItemsSnoc(init, x, qty, idx);
    ItemsSnoc(init, x, q', idx);
    SumsAppend(Items(init, qty, idx), tail);
    SumsAppend(Items(init, q', idx), tail);
  }

  /** The sums part of `UpdateKey`, by induction on the key list. */
  lemma {:induction false} UpdateKeySums(order: seq<string>, qty: map<string, int>, idx: map<string, Product>,
                                     pid: string, v: int)
    requires Covers(order, qty) && Distinct(order) && pid in order
    ensures |Items(order, qty[pid := v], idx)| == |Items(order, qty, idx)|
    ensures pid !in idx ==> Items(order, qty[pid := v], idx) == Items(order, qty, idx)
    ensures pid in idx ==>
              Count(Items(order, qty[pid := v], idx)) == Count(Items(order, qty, idx)) - qty[pid] + v
              && Total(Items(order, qty[pid := v], idx))
                 == Total(Items(order, qty, idx)) - idx[pid].price * qty[pid] + idx[pid].price * v
    decreases |order|
  {
    var init := order[..|order| - 1];
    var x := order[|order| - 1];
    assert order == init + [x];
    if x == pid {
      assert pid !in init by {
        forall i | 0 <= i < |init| ensures init[i] != pid {
          assert init[i] == order[i];
        }
      }
      UpdateLastKey(init, qty, idx, pid, v);
    } else {
      assert Distinct(init);
      UpdateKeySums(init, qty, idx, pid, v);
      UpdateEarlierKey(init, x, qty, idx, pid, v);
    }
  }

  /** Changing the quantity of a listed key changes only its own item: the
      item of `pid` (if the catalog has it) takes the new quantity in its old
      position, every other item stays as it was, and the count and the total
      move by the difference. */
  lemma UpdateKey(order: seq<string>, qty: map<string, int>, idx: map<string, Product>, pid: string, v: int)
    requires Covers(order, qty) && Distinct(order) && pid in order
    ensures |Items(order, qty[pid := v], idx)| == |Items(order, qty, idx)| == |Kept(order, idx)|
    ensures forall j :: 0 <= j < |Kept(order, idx)| ==>
              Items(order, qty[pid := v], idx)[j]
              == if Kept(order, idx)[j] == pid then MakeItem(idx[pid], v) else Items(order, qty, idx)[j]
    ensures pid !in idx ==> Items(order, qty[pid := v], idx) == Items(order, qty, idx)
    ensures pid in idx ==>
              Count(Items(order, qty[pid := v], idx)) == Count(Items(order, qty, idx)) - qty[pid] + v
              && Total(Items(order, qty[pid := v], idx))
                 == Total(Items(order, qty, idx)) - idx[pid].price * qty[pid] + idx[pid].price * v
  {
    UpdateKeySums(order, qty, idx, pid, v);
    ItemsFollowCart(order, qty, idx);
    ItemsFollowCart(order, qty[pid := v], idx);
  }

  /** `Without` keeps every remaining key covered. */
  lemma WithoutCovers(order: seq<string>, qty: map<string, int>, pid: string)
    requires Covers(order, qty)
    ensures Covers(Without(order, pid), qty - {pid})
  {
    forall k | k in Without(order, pid)
      ensures k in qty - {pid}
    {
      assert k in order && k != pid;
    }
  }

  /** Dropping a key the catalog lacks leaves the items as they were. */
  lemma {:induction false} DropUnknownKey(order: seq<string>, qty: map<string, int>, idx: map<string, Product>,
                                          pid: string)
    requires Covers(order, qty) && pid !in idx
    ensures Covers(Without(order, pid), qty - {pid})
    ensures Items(Without(order, pid), qty - {pid}, idx) == Items(order, qty, idx)
    decreases |order|
  {
    WithoutCovers(order, qty, pid);
    if order != [] {
      var init := order[..|order| - 1];
      var x := order[|order| - 1];
      assert order == init + [x];
      DropUnknownKey(init, qty, idx, pid);
      var rest := Without(init, pid);
      ItemsSnoc(init, x, qty, idx);
      WithoutSnoc(init, x, pid);
      if x != pid {
        ItemsSnoc(rest, x, qty - {pid}, idx);
      }
    }
  }

  /** What `DropKnownKey` promises about `order`: dropping `pid` removes one
      item, with its quantity and its share of the total. */
  ghost predicate DropsOwnItem(order: seq<string>, qty: map<string, int>, idx: map<string, Product>, pid: string)
    requires Covers(order, qty) && pid in qty && pid in idx
  {
    Covers(Without(order, pid), qty - {pid})
    && |Items(Without(order, pid), qty - {pid}, idx)| == |Items(order, qty, idx)| - 1
    && Count(Items(Without(order, pid), qty - {pid}, idx)) == Count(Items(order, qty, idx)) - qty[pid]
    && Total(Items(Without(order, pid), qty - {pid}, idx))
       == Total(Items(order, qty, idx)) - idx[pid].price * qty[pid]
  }

  /** The dropped key is the last one listed. */
  lemma DropLastKey(init: seq<string>, qty: map<string, int>, idx: map<string, Product>, pid: string)
    requires Covers(init + [pid], qty) && pid !in init && pid in idx
    ensures DropsOwnItem(init + [pid], qty, idx, pid)
  {
    var item := MakeItem(idx[pid], qty[pid]);
    WithoutCovers(init + [pid], qty, pid);
    WithoutSnoc(init, pid, pid);
    ItemsSnoc(init, pid, qty, idx);
    ItemsFrame(init, qty, qty - {pid}, idx);
    SingleSums(item);
    SumsAppend(Items(init, qty, idx), [item]);
  }

  /** The dropped key comes before the last one listed. */
  lemma DropEarlierKey(init: seq<string>, x: string, qty: map<string, int>, idx: map<string, Product>,
                       pid: string)
    requires Covers(init + [x], qty) && x != pid && pid in qty && pid in idx
    requires Covers(init, qty) && DropsOwnItem(init, qty, idx, pid)
    ensures DropsOwnItem(init + [x], qty, idx, pid)
  {
    var rest := Without(init, pid);
    var tail := if x in idx then [MakeItem(idx[x], qty[x])] else [];
    WithoutCovers(init + [x], qty, pid);
    WithoutSnoc(init, x, pid);
    ItemsSnoc(init, x, qty, idx);
    ItemsSnoc(rest, x, qty - {pid}, idx);
    SumsAppend(Items(init, qty, idx), tail);
    SumsAppend(Items(rest, qty - {pid}, idx), tail);
  }

  /** The sums part of `DropKnownKey`, by induction on the key list. */
  lemma {:induction false} DropKnownKeySums(order: seq<string>, qty: map<string, int>, idx: map<string, Product>,
                                        pid: string)
    requires Covers(order, qty) && Distinct(order) && pid in order && pid in idx
    ensures Covers(Without(order, pid), qty - {pid})
    ensures |Items(Without(order, pid), qty - {pid}, idx)| == |Items(order, qty, idx)| - 1
    ensures Count(Items(Without(order, pid), qty - {pid}, idx)) == Count(Items(order, qty, idx)) - qty[pid]
    ensures Total(Items(Without(order, pid), qty - {pid}, idx))
            == Total(Items(order, qty, idx)) - idx[pid].price * qty[pid]
    decreases |order|
  {
    var init := order[..|order| - 1];
    var x := order[|order| - 1];
    assert order == init + [x];
    if x == pid {
      assert pid !in init by {
        forall i | 0 <= i < |init| ensures init[i] != pid {
          assert init[i] == order[i];
        }
      }
      DropLastKey(init, qty, idx, pid);
    } else {
      assert Distinct(init);
      DropKnownKeySums(init, qty, idx, pid);
      DropEarlierKey(init, x, qty, idx, pid);
    }
  }

  /** A duplicate-free cart keeps a duplicate-free list of known keys. */
  lemma {:induction false} KeptDistinct(order: seq<string>, idx: map<string, Product>)
    requires Distinct(order)
    ensures Distinct(Kept(order, idx))
    decreases |order|
  {
    if order != [] {
      var init := order[..|order| - 1];
      var x := order[|order| - 1];
      assert order == init + [x];
      DistinctPrefix(order);
      KeptDistinct(init, idx);
      assert Kept(order, idx) == if x in idx then Kept(init, idx) + [x] else Kept(init, idx);
      if x in idx {
        DistinctSnoc(Kept(init, idx), x);
      }
    }
  }

  /** Dropping a key from the cart drops it from the known keys and leaves
      the others in order. */
  lemma {:induction false} KeptWithout(order: seq<string>, idx: map<string, Product>, pid: string)
    ensures Kept(Without(order, pid), idx) == Without(Kept(order, idx), pid)
    decreases |order|
  {
    if order != [] {
      var init := order[..|order| - 1];
      var x := order[|order| - 1];
      var rest := Without(init, pid);
      assert order == init + [x];
      KeptWithout(init, idx, pid);
      WithoutSnoc(init, x, pid);
      assert Kept(order, idx) == if x in idx then Kept(init, idx) + [x] else Kept(init, idx);
      if x in idx {
        WithoutSnoc(Kept(init, idx), x, pid);
      }
      if x != pid {
        assert (rest + [x])[..|rest|] == rest;
        assert Kept(rest + [x], idx) == if x in idx then Kept(rest, idx) + [x] else Kept(rest, idx);
      }
    }
  }

  /** A sequence that agrees with `s` before `j` and with `s` shifted by one
      from `j` on is `s` with position `j` deleted. */
  lemma DeletedAt(s: seq<LineItem>, t: seq<LineItem>, j: nat)
    requires j < |s| && |t| == |s| - 1
    requires forall i :: 0 <= i < j ==> t[i] == s[i]
    requires forall i :: j <= i < |t| ==> t[i] == s[i + 1]
    ensures t == s[..j] + s[j + 1..]
  {
  }

  /** Dropping a known key deletes the item at its position among the known
      keys. */
  lemma ItemsWithout(order: seq<string>, qty: map<string, int>, idx: map<string, Product>, pid: string, j: nat)
    requires Covers(order, qty) && Distinct(order)
    requires j < |Kept(order, idx)| && Kept(order, idx)[j] == pid
    ensures Covers(Without(order, pid), qty - {pid})
    ensures |Items(order, qty, idx)| == |Kept(order, idx)|
    ensures Items(Without(order, pid), qty - {pid}, idx)
            == Items(order, qty, idx)[..j] + Items(order, qty, idx)[j + 1..]
  {
    var w := Without(order, pid);
    var q' := qty - {pid};
    WithoutCovers(order, qty, pid);
    var keys := Kept(order, idx);
    ItemsFollowCart(order, qty, idx);
    ItemsFollowCart(w, q', idx);
    KeptWithout(order, idx, pid);
    KeptDistinct(order, idx);
    WithoutAt(keys, pid, j);
    var keys' := Kept(w, idx);
    assert keys' == keys[..j] + keys[j + 1..];
    var old_ := Items(order, qty, idx);
    var new_ := Items(w, q', idx);
    forall i | 0 <= i < j ensures new_[i] == old_[i] {
      assert keys'[i] == keys[i] && keys[i] != pid;
    }
    forall i | j <= i < |new_| ensures new_[i] == old_[i + 1] {
      assert keys'[i] == keys[i + 1] && keys[i + 1] != pid;
    }
    DeletedAt(old_, new_, j);
  }

  /** Dropping a listed key the catalog has deletes exactly its own item, at
      its position among the known keys; the other items stay as they were,
      and the count and the total lose its quantity and its share. */
  lemma DropKnownKey(order: seq<string>, qty: map<string, int>, idx: map<string, Product>, pid: string)
    requires Covers(order, qty) && Distinct(order) && pid in order && pid in idx
    ensures Covers(Without(order, pid), qty - {pid})
    ensures |Items(order, qty, idx)| == |Kept(order, idx)|
    ensures |Items(Without(order, pid), qty - {pid}, idx)| == |Items(order, qty, idx)| - 1
    ensures exists j :: 0 <= j < |Kept(order, idx)| && Kept(order, idx)[j] == pid
                        && Items(Without(order, pid), qty - {pid}, idx)
                           == Items(order, qty, idx)[..j] + Items(order, qty, idx)[j + 1..]
    ensures Count(Items(Without(order, pid), qty - {pid}, idx)) == Count(Items(order, qty, idx)) - qty[pid]
    ensures Total(Items(Without(order, pid), qty - {pid}, idx))
            == Total(Items(order, qty, idx)) - idx[pid].price * qty[pid]
  {
    DropKnownKeySums(order, qty, idx, pid);
    ItemsFollowCart(order, qty, idx);
    var keys := Kept(order, idx);
    assert pid in keys;
    var j :| 0 <= j < |keys| && keys[j] == pid;
    ItemsWithout(order, qty, idx, pid, j);
  }

  lemma Distribute(a: int, b: int, c: int)
    ensures a * (b + c) == a * b + a * c
  {
  }

  /** Raising the quantity of a listed key by `n`. */
  lemma BumpKey(order: seq<string>, qty: map<string, int>, idx: map<string, Product>, pid: string, n: int)
    requires Covers(order, qty) && Distinct(order) && pid in order
    ensures |Items(order, qty[pid := qty[pid] + n], idx)| == |Items(order, qty, idx)|
    ensures pid !in idx ==> Items(order, qty[pid := qty[pid] + n], idx) == Items(order, qty, idx)
    ensures pid in idx ==>
              Count(Items(order, qty[pid := qty[pid] + n], idx)) == Count(Items(order, qty, idx)) + n
              && Total(Items(order, qty[pid := qty[pid] + n], idx))
                 == Total(Items(order, qty, idx)) + idx[pid].price * n
  {
    UpdateKeySums(order, qty, idx, pid, qty[pid] + n);
    if pid in idx {
      Distribute(idx[pid].price, qty[pid], n);
    }
  }

  /** Inserting a new key with quantity `n` at the end. */
  lemma InsertKey(order: seq<string>, qty: map<string, int>, idx: map<string, Product>, pid: string, n: int)
    requires Covers(order, qty) && pid !in order
    ensures pid !in idx ==> Items(order + [pid], qty[pid := n], idx) == Items(order, qty, idx)
    ensures pid in idx ==>
              |Items(order + [pid], qty[pid := n], idx)| == |Items(order, qty, idx)| + 1
              && Count(Items(order + [pid], qty[pid := n], idx)) == Count(Items(order, qty, idx)) + n
              && Total(Items(order + [pid], qty[pid := n], idx))
                 == Total(Items(order, qty, idx)) + idx[pid].price * n
  {
    AppendKey(order, qty, idx, pid, n);
    if pid in idx {
      var item := MakeItem(idx[pid], n);
      SingleSums(item);
      SumsAppend(Items(order, qty, idx), [item]);
    }
  }

  /** An add of a key the index lacks leaves the items as they were. */
  lemma UnknownAddItems(c: Cart, idx: map<string, Product>, pid: string, n: int)
    requires c.Valid() && pid !in idx
    ensures Items(Add(c, pid, n).order, Add(c, pid, n).qty, idx) == Items(c.order, c.qty, idx)
  {
    var a := Add(c, pid, n);
    if pid in c.qty {
      assert a.order == c.order && a.qty == c.qty[pid := c.qty[pid] + n];
      BumpKey(c.order, c.qty, idx, pid, n);
    } else {
      assert a.order == c.order + [pid] && a.qty == c.qty[pid := n];
      InsertKey(c.order, c.qty, idx, pid, n);
    }
  }

  /** An add of an id the catalog lacks leaves the view as it was. */
  lemma ViewAfterUnknownAdd(c: Cart, catalog: seq<Product>, pid: string, n: int)
    requires c.Valid() && pid !in Index(catalog)
    ensures View(Add(c, pid, n), catalog) == View(c, catalog)
  {
    UnknownAddItems(c, Index(catalog), pid, n);
  }

  /** An add of an id the catalog has grows the count by `n` and the total by
      the unit price times `n`; a new line item appears exactly when `pid` was
      not yet in the cart. */
  lemma ViewAfterAdd(c: Cart, catalog: seq<Product>, pid: string, n: int)
    requires c.Valid() && pid in Index(catalog)
    ensures View(Add(c, pid, n), catalog).count == View(c, catalog).count + n
    ensures View(Add(c, pid, n), catalog).total == View(c, catalog).total + Index(catalog)[pid].price * n
    ensures |View(Add(c, pid, n), catalog).items| == |View(c, catalog).items| + (if pid in c.qty then 0 else 1)
  {
    var idx := Index(catalog);
    if pid in c.qty {
      BumpKey(c.order, c.qty, idx, pid, n);
    } else {
      InsertKey(c.order, c.qty, idx, pid, n);
    }
  }

  /** A remove changes the view only when `pid` was in the cart and the
      catalog has it: then its line item, at its position among the known
      keys, is deleted with its quantity and its share of the total, and the
      other lines stay as they were. */
  lemma ViewAfterRemove(c: Cart, catalog: seq<Product>, pid: string)
    requires c.Valid()
    ensures pid !in c.qty || pid !in Index(catalog) ==> View(Remove(c, pid), catalog) == View(c, catalog)
    ensures pid in c.qty && pid in Index(catalog) ==>
              var before, after := View(c, catalog), View(Remove(c, pid), catalog);
              && after.count == before.count - c.qty[pid]
              && after.total == before.total - Index(catalog)[pid].price * c.qty[pid]
              && |after.items| == |before.items| - 1
              && exists j :: 0 <= j < |before.items| && j < |Kept(c.order, Index(catalog))|
                             && Kept(c.order, Index(catalog))[j] == pid
                             && after.items == before.items[..j] + before.items[j + 1..]
  {
    if pid in c.qty {
      if pid in Index(catalog) {
        DropKnownKey(c.order, c.qty, Index(catalog), pid);
      } else {
        DropUnknownKey(c.order, c.qty, Index(catalog), pid);
      }
    }
  }

  /** Adding then removing the same key leaves the view as it was exactly
      when `pid` was not in the cart before or the catalog lacks it; a
      product already in the cart loses its whole line. */
  lemma AddThenRemoveView(c: Cart, catalog: seq<Product>, pid: string, n: int)
    requires c.Valid()
    ensures View(Remove(Add(c, pid, n), pid), catalog) == View(c, catalog)
            <==> pid !in c.qty || pid !in Index(catalog)
  {
    var a := Add(c, pid, n);
    AddThenRemove(c, pid, n);
    if pid in Index(catalog) {
      ViewAfterAdd(c, catalog, pid, n);
    } else {
      ViewAfterUnknownAdd(c, catalog, pid, n);
    }
    ViewAfterRemove(a, catalog, pid);
  }

  /** With no negative quantity (and no negative price) the count (and the
      total) cannot be negative. */
  lemma {:induction false} SumsNonNegative(items: seq<LineItem>)
    requires forall j :: 0 <= j < |items| ==> items[j].qty >= 0
    ensures Count(items) >= 0
    ensures (forall j :: 0 <= j < |items| ==> items[j].price >= 0) ==> Total(items) >= 0
    decreases |items|
  {
    if items != [] {
      SumsNonNegative(items[..|items| - 1]);
    }
  }

  lemma CountNonNegative(c: Cart, catalog: seq<Product>)
    requires c.Valid() && NonNegative(c)
    ensures View(c, catalog).count >= 0
    ensures (forall p :: p in catalog ==> p.price >= 0) ==> View(c, catalog).total >= 0
  {
    var idx := Index(catalog);
    var items := View(c, catalog).items;
    var kept := Kept(c.order, idx);
    ItemsFollowCart(c.order, c.qty, idx);
    forall j | 0 <= j < |kept| ensures idx[kept[j]] in catalog {
      IndexKeysMatchIds(catalog, kept[j]);
    }
    SumsNonNegative(items);
  }
}
