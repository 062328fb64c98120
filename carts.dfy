/** The session cart: a Python dict from product-id string to quantity, with
    the dict's insertion order, and the three changes the cart API makes to it
    (app.py:162-188). */
module Carts {
  import opened Wrappers
  import opened Seqs
  import Catalog

  /** A cart as a dict: `order` lists the keys in iteration order, `qty` holds
      the quantities. */
  datatype Cart = Cart(order: seq<string>, qty: map<string, int>)
  {
    /** Each key is listed once, and the listed keys are the keys of `qty`. */
    ghost predicate Valid()
    {
      Distinct(order) && forall k :: k in qty <==> k in order
    }
  }

  /** The cart of a session that has none yet, and the cart after a clear. */
  function Empty(): (c: Cart)
    ensures c.Valid() && c.qty == map[]
  {
    Cart([], map[])
  }

  /** `cart.get(pid, 0)`. */
  function Quantity(c: Cart, pid: string): int
  {
    if pid in c.qty then c.qty[pid] else 0
  }

  /** `cart[pid] = int(cart.get(pid, 0)) + n`: the entry for `pid` grows by `n`
      (starting from 0 when absent); an existing key keeps its place in the
      iteration order and a new key goes last; nothing else changes. */
  function Add(c: Cart, pid: string, n: int): (r: Cart)
    requires c.Valid()
    ensures r.Valid()
    ensures pid in r.qty && Quantity(r, pid) == Quantity(c, pid) + n
    ensures forall k :: k != pid ==> (k in r.qty <==> k in c.qty) && Quantity(r, k) == Quantity(c, k)
    ensures r.order == if pid in c.qty then c.order else c.order + [pid]
  {
    Cart(if pid in c.qty then c.order else c.order + [pid], c.qty[pid := Quantity(c, pid) + n])
  }

  /** `keys` with `pid` left out. */
  function Without(keys: seq<string>, pid: string): (r: seq<string>)
    ensures forall k :: k in r <==> k in keys && k != pid
    ensures IsSubseq(r, keys)
    ensures Distinct(keys) ==> Distinct(r)
    ensures pid !in keys ==> r == keys
    ensures Distinct(keys) && pid in keys ==> |r| == |keys| - 1
  {
    if keys == [] then []
    else
      var init := Without(keys[..|keys| - 1], pid);
      var last := keys[|keys| - 1];
      assert Distinct(keys) ==> Distinct(keys[..|keys| - 1]) && last !in keys[..|keys| - 1] by {
        if Distinct(keys) {
          DistinctPrefix(keys);
        }
      }
      if last == pid then init else init + [last]
  }

  /** `Without` on a key list with one more key at the end. */
  lemma WithoutSnoc(init: seq<string>, x: string, pid: string)
    ensures Without(init + [x], pid) == if x == pid then Without(init, pid) else Without(init, pid) + [x]
  {
    assert (init + [x])[..|init + [x]| - 1] == init;
  }

  /** `Without` of a list that ends in its only `pid`. */
  lemma WithoutLast(init: seq<string>, pid: string)
    requires pid !in init
    ensures Without(init + [pid], pid) == init
  {
    WithoutSnoc(init, pid, pid);
  }

  /** One more key, other than `pid`, at the end of the list. */
  lemma WithoutAtSnoc(init: seq<string>, x: string, pid: string, j: nat)
    requires j < |init| && x != pid
    requires Without(init, pid) == init[..j] + init[j + 1..]
    ensures Without(init + [x], pid) == (init + [x])[..j] + (init + [x])[j + 1..]
  {
    WithoutSnoc(init, x, pid);
    assert (init + [x])[..j] == init[..j];
    assert (init + [x])[j + 1..] == init[j + 1..] + [x];
  }

  /** In a duplicate-free key list, `Without` deletes the one position that
      holds `pid`. */
  lemma {:induction false} WithoutAt(keys: seq<string>, pid: string, j: nat)
    requires Distinct(keys) && j < |keys| && keys[j] == pid
    ensures Without(keys, pid) == keys[..j] + keys[j + 1..]
    decreases |keys|
  {
    var init := keys[..|keys| - 1];
    var x := keys[|keys| - 1];
    assert keys == init + [x];
    DistinctPrefix(keys);
    if j == |keys| - 1 {
      WithoutLast(init, pid);
      assert keys[..j] + keys[j + 1..] == init;
    } else {
      assert init[j] == pid;
      WithoutAt(init, pid, j);
      WithoutAtSnoc(init, x, pid, j);
    }
  }

  /** `if pid in cart: cart.pop(pid)`: `pid` is gone, the other entries keep
      their quantities and their order, and a cart without `pid` is unchanged. */
  function Remove(c: Cart, pid: string): (r: Cart)
    requires c.Valid()
    ensures r.Valid()
    ensures pid !in r.qty
    ensures pid !in c.qty ==> r == c
    ensures forall k :: k != pid ==> (k in r.qty <==> k in c.qty) && Quantity(r, k) == Quantity(c, k)
    ensures IsSubseq(r.order, c.order)
  {
    if pid in c.qty then Cart(Without(c.order, pid), c.qty - {pid})
    else SubseqRefl(c.order); c
  }

  /** The JSON values a request body may carry for `id`; `JNull` stands for an
      explicit null and for a missing field alike. */
  datatype JsonValue = JInt(i: int) | JStr(s: string) | JBool(b: bool) | JNull

  /** `str(data.get("id"))`. */
  function KeyOf(v: JsonValue): string
  {
    match v
    case JInt(i) => Catalog.IdKey(i)
    case JStr(s) => s
    case JBool(b) => if b then "True" else "False"
    case JNull => "None"
  }

  /** A body without `id` files its quantity under "None", a key no product of
      the catalog can have. */
  lemma MissingIdMatchesNoProduct(id: int)
    ensures KeyOf(JNull) != Catalog.IdKey(id)
  {
    Catalog.IdKeyShape(id);
  }

  /** `int(data.get("qty") or 1)`: a missing, null or zero quantity means 1;
      any other integer, negative ones included, is taken as it is. */
  function RequestedQty(raw: Option<int>): (n: int)
    ensures n != 0
    ensures raw.Some? && raw.value != 0 ==> n == raw.value
    ensures raw.None? || raw.value == 0 ==> n == 1
  {
    if raw.None? || raw.value == 0 then 1 else raw.value
  }

  /** Removing right after adding restores the cart exactly when `pid` was not
      in it before; a `pid` that was already there is gone for good. */
  lemma AddThenRemove(c: Cart, pid: string, n: int)
    requires c.Valid()
    ensures Remove(Add(c, pid, n), pid) == c <==> pid !in c.qty
  {
    if pid !in c.qty {
      var added := Add(c, pid, n);
      assert added.order == c.order + [pid];
      assert (c.order + [pid])[..|c.order|] == c.order;
      assert Without(added.order, pid) == Without(c.order, pid) == c.order;
      assert added.qty - {pid} == c.qty;
    }
  }

  /** Two adds of the same key are one add of the sum. */
  lemma AddTwice(c: Cart, pid: string, m: int, n: int)
    requires c.Valid()
    ensures Add(Add(c, pid, m), pid, n) == Add(c, pid, m + n)
  {
  }

  /** Removing twice is removing once. */
  lemma RemoveTwice(c: Cart, pid: string)
    requires c.Valid()
    ensures Remove(Remove(c, pid), pid) == Remove(c, pid)
  {
  }

  /** Every quantity is zero or more (what the cart is meant to hold). */
  ghost predicate NonNegative(c: Cart)
  {
    forall k :: k in c.qty ==> c.qty[k] >= 0
  }

  /** The source does not guard the quantity: an add keeps the cart free of
      negative quantities exactly when the new entry for `pid` is not negative.
      Removing and clearing always keep it. */
  lemma NonNegativeKept(c: Cart, pid: string, n: int)
    requires c.Valid() && NonNegative(c)
    ensures NonNegative(Add(c, pid, n)) <==> Quantity(c, pid) + n >= 0
    ensures NonNegative(Remove(c, pid))
    ensures NonNegative(Empty())
  {
    assert Add(c, pid, n).qty[pid] == Quantity(c, pid) + n;
  }
}
