/** The product catalog as the handlers see it once it is loaded: the products,
    their string keys `str(p["id"])`, the index `cart_state` builds from them
    (app.py:29) and the lookup of `product_page` (app.py:125-135). */
module Catalog {
  import opened Wrappers

  /** One entry of the product list. `price` is in cents; an absent optional
      field (or a JSON null) is `None`. */
  datatype Product = Product(
    id: int,
    title: string,
    price: int,
    image: Option<string>,
    category: Option<string>,
    branch: Option<string>,
    description: Option<string>)

  predicate IsDigit(c: char)
  {
    '0' <= c <= '9'
  }

  function Digit(d: nat): (c: char)
    requires d < 10
    ensures IsDigit(c)
  {
    ('0' as int + d) as char
  }

  /** The decimal numeral of `n` without leading zeros. */
  function Decimal(n: nat): string
  {
    if n < 10 then [Digit(n)] else Decimal(n / 10) + [Digit(n % 10)]
  }

  /** Python's `str(n)` for an integer: the key under which a product is filed
      in the cart and in the catalog index. */
  function IdKey(n: int): string
  {
    if n < 0 then "-" + Decimal(-n) else Decimal(n)
  }

  lemma {:induction false} DecimalShape(n: nat)
    ensures |Decimal(n)| >= 1
    ensures n >= 10 ==> |Decimal(n)| >= 2
    ensures forall i :: 0 <= i < |Decimal(n)| ==> IsDigit(Decimal(n)[i])
    ensures Decimal(n)[|Decimal(n)| - 1] == Digit(n % 10)
    decreases n
  {
    if n >= 10 {
      DecimalShape(n / 10);
    }
  }

  /** `str(n)` is a non-empty run of digits, preceded by '-' exactly when `n`
      is negative. */
  lemma IdKeyShape(n: int)
    ensures |IdKey(n)| >= 1
    ensures (IdKey(n)[0] == '-') <==> n < 0
    ensures forall i :: (if n < 0 then 1 else 0) <= i < |IdKey(n)| ==> IsDigit(IdKey(n)[i])
  {
    DecimalShape(if n < 0 then -n else n);
  }

  lemma {:induction false} DecimalInjective(a: nat, b: nat)
    requires Decimal(a) == Decimal(b)
    ensures a == b
    decreases a
  {
    DecimalShape(a);
    DecimalShape(b);
    var s := Decimal(a);
    assert Digit(a % 10) == Digit(b % 10);
    if a >= 10 && b >= 10 {
      assert Decimal(a / 10) == s[..|s| - 1] == Decimal(b / 10);
      DecimalInjective(a / 10, b / 10);
    }
  }

  /** Distinct ids have distinct keys: keying the catalog by `str(id)` loses
      nothing. */
  lemma IdKeyInjective(a: int, b: int)
    requires IdKey(a) == IdKey(b)
    ensures a == b
  {
    IdKeyShape(a);
    IdKeyShape(b);
    if a < 0 && b < 0 {
      assert Decimal(-a) == IdKey(a)[1..] == Decimal(-b);
      DecimalInjective(-a, -b);
    } else if a >= 0 && b >= 0 {
      DecimalInjective(a, b);
    }
  }

  /** Position `i` holds the last product whose key is `k`. */
  ghost predicate LastWithKey(catalog: seq<Product>, k: string, i: int)
  {
    0 <= i < |catalog| && IdKey(catalog[i].id) == k
    && forall j :: i < j < |catalog| ==> IdKey(catalog[j].id) != k
  }

  /** `{str(p["id"]): p for p in products}`: the catalog keyed by the string
      form of each id, later products overwriting earlier ones. */
  function Index(catalog: seq<Product>): map<string, Product>
  {
    if catalog == [] then map[]
    else
      var p := catalog[|catalog| - 1];
      Index(catalog[..|catalog| - 1])[IdKey(p.id) := p]
  }

  /** Some listed product has key `k`. */
  ghost predicate HasKey(catalog: seq<Product>, k: string)
  {
    exists i :: 0 <= i < |catalog| && IdKey(catalog[i].id) == k
  }

  /** A key is in the index exactly when some product has it. */
  lemma {:induction false} IndexKeys(catalog: seq<Product>, k: string)
    ensures k in Index(catalog) <==> HasKey(catalog, k)
    decreases |catalog|
  {
    if catalog != [] {
      var n := |catalog| - 1;
      var init := catalog[..n];
      IndexKeys(init, k);
      if HasKey(init, k) {
        var i :| 0 <= i < |init| && IdKey(init[i].id) == k;
        assert catalog[i] == init[i];
      }
      if HasKey(catalog, k) && IdKey(catalog[n].id) != k {
        var i :| 0 <= i < |catalog| && IdKey(catalog[i].id) == k;
        assert init[i] == catalog[i];
      }
    }
  }

  /** When several products share an id, the one listed last is the one filed. */
  lemma {:induction false} IndexLastWins(catalog: seq<Product>, k: string)
    requires k in Index(catalog)
    ensures exists i :: LastWithKey(catalog, k, i) && catalog[i] == Index(catalog)[k]
    decreases |catalog|
  {
    var n := |catalog| - 1;
    var init := catalog[..n];
    if IdKey(catalog[n].id) == k {
      assert LastWithKey(catalog, k, n);
    } else {
      assert Index(catalog) == Index(init)[IdKey(catalog[n].id) := catalog[n]];
      assert k in Index(init) && Index(catalog)[k] == Index(init)[k];
      IndexLastWins(init, k);
      var i :| LastWithKey(init, k, i) && init[i] == Index(init)[k];
      forall j | i < j < |catalog|
        ensures IdKey(catalog[j].id) != k
      {
        if j < n {
          assert catalog[j] == init[j];
        }
      }
      assert catalog[i] == init[i];
      assert LastWithKey(catalog, k, i);
    }
  }

  /** Every indexed product is in the catalog, filed under the key of its own id. */
  lemma IndexKeysMatchIds(catalog: seq<Product>, k: string)
    requires k in Index(catalog)
    ensures IdKey(Index(catalog)[k].id) == k && Index(catalog)[k] in catalog
  {
    IndexLastWins(catalog, k);
  }

  /** The key of every listed product is in the index. */
  lemma IndexHasEveryProduct(catalog: seq<Product>, i: int)
    requires 0 <= i < |catalog|
    ensures IdKey(catalog[i].id) in Index(catalog)
  {
    IndexKeys(catalog, IdKey(catalog[i].id));
  }

  /** `next((p for p in products if int(p["id"]) == pid), None)`: the first
      product with id `pid`, or nothing when no product has it. */
  function FindProduct(catalog: seq<Product>, pid: int): (r: Option<Product>)
    ensures r.None? <==> forall i :: 0 <= i < |catalog| ==> catalog[i].id != pid
    ensures r.Some? ==> r.value.id == pid
                        && exists i :: 0 <= i < |catalog| && catalog[i] == r.value
                                       && forall j :: 0 <= j < i ==> catalog[j].id != pid
  {
    if catalog == [] then None
    else if catalog[0].id == pid then Some(catalog[0])
    else
      var r := FindProduct(catalog[1..], pid);
      assert forall i :: 1 <= i < |catalog| ==> catalog[i] == catalog[1..][i - 1];
      r
  }

  /** The outcome of GET /product/<pid>. */
  datatype ProductResponse =
    | ProductPage(product: Product)
    | NotFound(status: int, body: string)

  /** `product_page`: the page of the first product with id `pid`, or status
      404 with the fixed "not found" fragment. */
  function ShowProduct(catalog: seq<Product>, pid: int): (resp: ProductResponse)
    ensures resp.NotFound? <==> forall i :: 0 <= i < |catalog| ==> catalog[i].id != pid
    ensures resp.NotFound? ==> resp.status == 404 && resp.body == "<h2>Producto no encontrado</h2>"
    ensures resp.ProductPage? ==> resp.product.id == pid
    ensures resp.ProductPage? ==>
              exists i :: 0 <= i < |catalog| && catalog[i] == resp.product
                          && forall j :: 0 <= j < i ==> catalog[j].id != pid
  {
    match FindProduct(catalog, pid)
    case None => NotFound(404, "<h2>Producto no encontrado</h2>")
    case Some(p) => ProductPage(p)
  }
}
