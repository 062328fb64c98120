/** The filtering done by `shop` (app.py:76-115): an optional fuzzy stage on
    the query `q`, then exact filters on `cat` and on `sub`. */
module Shop {
  import opened Wrappers
  import opened Seqs
  import opened Text
  import opened Catalog

  /** `difflib.get_close_matches(word, candidates, n=1, cutoff=0.7)`, taken as
      given: at most one answer. */
  type CloseMatch = (string, seq<string>) -> Option<string>

  /** The matcher only ever answers with one of the candidates. */
  ghost predicate FromCandidates(close: CloseMatch)
  {
    forall w, ws :: close(w, ws).Some? ==> close(w, ws).value in ws
  }

  /** A word shorter than 200 characters that is itself a candidate is its
      own closest match: its similarity ratio is 1, which no other string
      reaches. From 200 characters on, difflib's automatic junk heuristic
      applies to the word and can push even the exact candidate below the
      cutoff, so nothing is claimed there. */
  ghost predicate ExactFirst(close: CloseMatch)
  {
    forall w, ws :: |w| < 200 && w in ws ==> close(w, ws) == Some(w)
  }

  /** The tests the list comprehensions of `shop` apply to a product. */
  datatype Criterion =
    | CategoryLike(m: string)  // normalised category equals the fuzzy match
    | BranchLike(m: string)    // normalised branch equals the fuzzy match
    | Mentions(nq: string)     // query inside the normalised title or description
    | CategoryIs(cat: string)  // `p.get("category") == cat`
    | BranchIs(sub: string)    // `p.get("branch") == sub`

  predicate Keeps(fold: string -> string, crit: Criterion, p: Product)
  {
    match crit
    case CategoryLike(m) => Normalize(fold, p.category) == m
    case BranchLike(m) => Normalize(fold, p.branch) == m
    case Mentions(nq) =>
      Contains(nq, Normalize(fold, Some(p.title))) || Contains(nq, Normalize(fold, p.description))
    case CategoryIs(cat) => p.category == Some(cat)
    case BranchIs(sub) => p.branch == Some(sub)
  }

  /** `[p for p in products if <crit holds of p>]`. */
  function Select(products: seq<Product>, fold: string -> string, crit: Criterion): (r: seq<Product>)
    ensures IsSubseq(r, products)
    ensures forall p :: multiset(r)[p] == if Keeps(fold, crit, p) then multiset(products)[p] else 0
  {
    Filter(products, p => Keeps(fold, crit, p))
  }

  /** `[normalize_text(p.get("category", "")) for p in products]`. */
  function Categories(products: seq<Product>, fold: string -> string): seq<string>
  {
    seq(|products|, i requires 0 <= i < |products| => Normalize(fold, products[i].category))
  }

  /** `[normalize_text(p.get("branch", "")) for p in products]`. */
  function Branches(products: seq<Product>, fold: string -> string): seq<string>
  {
    seq(|products|, i requires 0 <= i < |products| => Normalize(fold, products[i].branch))
  }

  /** The fuzzy stage's choice: a category match wins; a branch match is used
      only when no category matched; the substring search only when neither
      did. A matcher that answers from its candidates picks a value some
      product really has. */
  function FuzzyCriterion(products: seq<Product>, nq: string, fold: string -> string, close: CloseMatch)
    : (crit: Criterion)
    ensures crit.CategoryLike? <==> close(nq, Categories(products, fold)).Some?
    ensures crit.BranchLike? <==>
              close(nq, Categories(products, fold)).None? && close(nq, Branches(products, fold)).Some?
    ensures crit.Mentions? ==> crit.nq == nq
    ensures crit.CategoryIs? == crit.BranchIs? == false
    ensures crit.CategoryLike? ==> close(nq, Categories(products, fold)) == Some(crit.m)
    ensures crit.BranchLike? ==> close(nq, Branches(products, fold)) == Some(crit.m)
    ensures FromCandidates(close) && crit.CategoryLike? ==> crit.m in Categories(products, fold)
    ensures FromCandidates(close) && crit.BranchLike? ==> crit.m in Branches(products, fold)
  {
    match close(nq, Categories(products, fold))
    case Some(m) => CategoryLike(m)
    case None =>
      match close(nq, Branches(products, fold))
      case Some(m) => BranchLike(m)
      case None => Mentions(nq)
  }

  /** The query string arguments of `shop` as it uses them:
      `q = request.args.get("q", "").lower().strip()`, and `cat`, `sub`
      stripped the same way without lower-casing. A missing argument is "". */
  datatype ShopArgs = ShopArgs(q: string, cat: string, sub: string)

  function ParseArgs(rawQ: string, rawCat: string, rawSub: string): (args: ShopArgs)
    ensures args.q == Strip(Lower(rawQ)) && args.cat == Strip(rawCat) && args.sub == Strip(rawSub)
    ensures args.q == "" <==> forall k :: 0 <= k < |rawQ| ==> IsSpace(LowerChar(rawQ[k]))
    ensures args.cat == "" <==> forall k :: 0 <= k < |rawCat| ==> IsSpace(rawCat[k])
    ensures args.sub == "" <==> forall k :: 0 <= k < |rawSub| ==> IsSpace(rawSub[k])
  {
    ShopArgs(Strip(Lower(rawQ)), Strip(rawCat), Strip(rawSub))
  }

  /** A product passes a stage when the stage is off or its test holds. */
  predicate Passes(fold: string -> string, on: bool, crit: Criterion, p: Product)
  {
    !on || Keeps(fold, crit, p)
  }

  /** One `if x: products = [...]` step of `shop`. */
  function Stage(s: seq<Product>, fold: string -> string, on: bool, crit: Criterion): (r: seq<Product>)
    ensures IsSubseq(r, s)
    ensures forall p :: multiset(r)[p] == if Passes(fold, on, crit, p) then multiset(s)[p] else 0
  {
    if on then Select(s, fold, crit) else SubseqRefl(s); s
  }

  /** Whether product `p` survives every stage of the pipeline. */
  predicate Wanted(products: seq<Product>, args: ShopArgs, fold: string -> string, close: CloseMatch, p: Product)
  {
    && Passes(fold, args.q != "", FuzzyCriterion(products, Normalize(fold, Some(args.q)), fold, close), p)
    && Passes(fold, args.cat != "", CategoryIs(args.cat), p)
    && Passes(fold, args.sub != "", BranchIs(args.sub), p)
  }

  /** The filtering part of `shop`. The result is the subsequence of the
      catalog made of exactly the products that pass each stage that is
      switched on; with no query and no filters it is the whole catalog. */
  function ShopFilter(products: seq<Product>, args: ShopArgs, fold: string -> string, close: CloseMatch)
    : (r: seq<Product>)
    ensures IsSubseq(r, products)
    ensures forall p :: multiset(r)[p] == if Wanted(products, args, fold, close, p) then multiset(products)[p] else 0
    ensures args == ShopArgs("", "", "") ==> r == products
  {
    var fuzzy :=
      Stage(products, fold, args.q != "", FuzzyCriterion(products, Normalize(fold, Some(args.q)), fold, close));
    var byCat := Stage(fuzzy, fold, args.cat != "", CategoryIs(args.cat));
    var r := Stage(byCat, fold, args.sub != "", BranchIs(args.sub));
    SubseqTrans(byCat, fuzzy, products);
    SubseqTrans(r, byCat, products);
    r
  }

  /** A listed product passes every stage. */
  lemma ListedIsWanted(products: seq<Product>, args: ShopArgs, fold: string -> string, close: CloseMatch,
                       p: Product)
    requires p in ShopFilter(products, args, fold, close)
    ensures Wanted(products, args, fold, close, p)
  {
    var r := ShopFilter(products, args, fold, close);
    assert multiset(r)[p] > 0;
    WantedFromCount(products, args, fold, close, p);
  }

  lemma WantedFromCount(products: seq<Product>, args: ShopArgs, fold: string -> string, close: CloseMatch,
                        p: Product)
    requires multiset(ShopFilter(products, args, fold, close))[p] > 0
    ensures Wanted(products, args, fold, close, p)
  {
  }

  /** A non-empty `cat` or `sub` pins the category or branch of every listed
      product to exactly that value. */
  lemma ExactFiltersPin(products: seq<Product>, args: ShopArgs, fold: string -> string, close: CloseMatch,
                        p: Product)
    requires p in ShopFilter(products, args, fold, close)
    ensures args.cat != "" ==> p.category == Some(args.cat)
    ensures args.sub != "" ==> p.branch == Some(args.sub)
  {
    ListedIsWanted(products, args, fold, close, p);
    WantedPins(products, args, fold, close, p);
  }

  lemma WantedPins(products: seq<Product>, args: ShopArgs, fold: string -> string, close: CloseMatch,
                   p: Product)
    requires Wanted(products, args, fold, close, p)
    ensures args.cat != "" ==> p.category == Some(args.cat)
    ensures args.sub != "" ==> p.branch == Some(args.sub)
  {
  }

  /** A query that normalises to some product's category, in fewer than 200
      characters, lists exactly the products of that category, provided the
      matcher puts an exact match first. */
  lemma ExactCategoryQuery(products: seq<Product>, q: string, fold: string -> string, close: CloseMatch)
    requires ExactFirst(close)
    requires q != "" && |Normalize(fold, Some(q))| < 200
    requires Normalize(fold, Some(q)) in Categories(products, fold)
    ensures forall p :: multiset(ShopFilter(products, ShopArgs(q, "", ""), fold, close))[p] ==
              if Normalize(fold, p.category) == Normalize(fold, Some(q)) then multiset(products)[p] else 0
  {
    var nq := Normalize(fold, Some(q));
    assert close(nq, Categories(products, fold)) == Some(nq);
  }

  /** When the fuzzy stage matches a category and no exact filter is set,
      the listing is never empty: the match comes from some product. */
  lemma CategoryMatchNonEmpty(products: seq<Product>, q: string, fold: string -> string, close: CloseMatch)
    requires FromCandidates(close)
    requires q != ""
    requires close(Normalize(fold, Some(q)), Categories(products, fold)).Some?
    ensures ShopFilter(products, ShopArgs(q, "", ""), fold, close) != []
  {
    var nq := Normalize(fold, Some(q));
    var crit := FuzzyCriterion(products, nq, fold, close);
    var cats := Categories(products, fold);
    var i :| 0 <= i < |cats| && cats[i] == crit.m;
    var p := products[i];
    assert Keeps(fold, crit, p);
    assert Wanted(products, ShopArgs(q, "", ""), fold, close, p);
    assert multiset(products)[p] > 0;
  }
}
