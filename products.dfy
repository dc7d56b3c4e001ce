/**
 * The product catalogue: creating a product together with its empty stock
 * record, updating and archiving active products, the logical delete, the
 * exact SKU lookup used by scanners, and the filtered product list.
 *
 * A product is created active and only ever becomes archived; updates apply
 * to active products only and never touch the SKU or the status.
 */
module Products {
  import opened Common
  import opened Store
  import opened Order
  import opened Text

  // ---------------------------------------------------------------------------
  // SKU lookups
  // ---------------------------------------------------------------------------

  /** `SELECT product_id FROM products WHERE sku = $1`, whatever the status; None when no row matches. */
  function SkuOwner(products: map<int, Product>, sku: string): (r: Option<int>)
    ensures r.None? <==> !SkuTaken(products, sku)
    ensures r.Some? ==> r.value in products && products[r.value].sku == sku
  {
    if !SkuTaken(products, sku) then None
    else
      var ids := set p | p in products && products[p].sku == sku;
      assert ids != {} by {
        var p :| p in products && products[p].sku == sku;
        assert p in ids;
      }
      Some(Least(ids))
  }

  /** With unique SKUs the lookup finds the one product that has the SKU. */
  lemma SkuOwnerUnique(products: map<int, Product>, sku: string, p: int)
    requires UniqueSkus(products) && p in products && products[p].sku == sku
    ensures SkuOwner(products, sku) == Some(p)
  {}

  // ---------------------------------------------------------------------------
  // createProduct
  // ---------------------------------------------------------------------------

  /** The body of POST /api/products; absent fields are None. */
  datatype NewProduct = NewProduct(
    sku: string,
    name: Option<string>,
    category: Option<string>,
    description: Option<string>,
    tags: Option<seq<string>>,
    lowStockThreshold: Option<int>)

  /** The row the INSERT writes: `tags || []`, status active. */
  function ProductOf(req: NewProduct): Product {
    Product(req.sku, req.name, req.category, req.description, req.tags.GetOr([]), req.lowStockThreshold, Active)
  }

  /**
   * The product insert and the stock insert in one transaction. The SKU column
   * is unique, so a SKU any product already has, archived or not, makes the
   * first insert fail and nothing is kept. On success the reply is the new id.
   */
  function CreateProductSpec(db: Db, req: NewProduct): (t: Txn<int>)
    ensures t.reply.Ok? <==> !SkuTaken(db.products, req.sku)
    ensures t.reply.Err? ==> t == Txn(Err(DuplicateSkuKey), db)
    ensures t.reply.Ok? ==> t.reply.value == db.nextProductId
  {
    if SkuTaken(db.products, req.sku) then Txn(Err(DuplicateSkuKey), db)
    else
      var productId := db.nextProductId;
      Txn(Ok(productId), AddStock(AddProduct(db, ProductOf(req)), productId))
  }

  /** createProduct on the live tables: both rows or neither. */
  method CreateProduct(w: Warehouse, req: NewProduct) returns (r: Result<int>)
    modifies w
    ensures Txn(r, w.State()) == CreateProductSpec(old(w.State()), req)
  {
    if SkuTaken(w.products, req.sku) {
      // the INSERT is refused by the unique index; ROLLBACK leaves nothing to undo
      return Err(DuplicateSkuKey);
    }
    var productId := w.InsertProduct(ProductOf(req));
    w.InsertStock(productId);
    return Ok(productId);
  }

  /**
   * A created product is active, carries the request's fields and has a stock
   * record of zero units at zero cost; no other product and no other stock
   * record changes, and nothing else is written.
   */
  lemma CreateProductCommit(db: Db, req: NewProduct)
    requires Consistent(db) && CreateProductSpec(db, req).reply.Ok?
    ensures var d, id := CreateProductSpec(db, req).after, db.nextProductId;
      && id !in db.products && id !in db.inventory
      && d.products == db.products[id := ProductOf(req)]
      && d.products[id].status == Active && d.products[id].sku == req.sku
      && d.products[id].tags == (if req.tags.Some? then req.tags.value else [])
      && d.inventory == db.inventory[id := StockRecord(0, 0.0)]
      && d == db.(products := d.products, inventory := d.inventory, nextProductId := id + 1)
  {}

  /** A new product is added without breaking the invariant, and a refused one changes nothing. */
  lemma CreateProductConsistent(db: Db, req: NewProduct)
    requires Consistent(db)
    ensures Consistent(CreateProductSpec(db, req).after)
  {
    var t := CreateProductSpec(db, req);
    if t.reply.Ok? {
      var d, id := t.after, db.nextProductId;
      forall p, q | p in d.products && q in d.products && p != q ensures d.products[p].sku != d.products[q].sku {
        if p == id { assert d.products[q] == db.products[q]; }
        else if q == id { assert d.products[p] == db.products[p]; }
      }
    }
  }

  // ---------------------------------------------------------------------------
  // updateProduct
  // ---------------------------------------------------------------------------

  /** The body of PUT /api/products/:id; `tags` is None unless it is an array. */
  datatype ProductChanges = ProductChanges(
    name: Option<string>,
    category: Option<string>,
    description: Option<string>,
    tags: Option<seq<string>>,
    lowStockThreshold: Option<int>)

  /** The five descriptive columns overwritten; SKU and status kept. */
  function Updated(p: Product, c: ProductChanges): Product {
    p.(name := c.name, category := c.category, description := c.description,
       tags := c.tags.GetOr([]), lowStockThreshold := c.lowStockThreshold)
  }

  /**
   * `UPDATE ... WHERE product_id = $6 AND status = 'active' RETURNING *`: the
   * updated row, or 404 when no active product has the id.
   */
  function UpdateProductSpec(db: Db, productId: int, c: ProductChanges): (t: Txn<Product>)
    ensures t.reply.Ok? <==> productId in db.products && db.products[productId].status == Active
    ensures t.reply.Err? ==> t == Txn(Err(ProductNotFoundOrArchived), db)
    ensures t.reply.Ok? ==> t.after.products == db.products[productId := t.reply.value]
  {
    if productId in db.products && db.products[productId].status == Active then
      var p := Updated(db.products[productId], c);
      Txn(Ok(p), SetProduct(db, productId, p))
    else Txn(Err(ProductNotFoundOrArchived), db)
  }

  method UpdateProduct(w: Warehouse, productId: int, c: ProductChanges) returns (r: Result<Product>)
    modifies w
    ensures Txn(r, w.State()) == UpdateProductSpec(old(w.State()), productId, c)
  {
    if productId !in w.products || w.products[productId].status != Active {
      return Err(ProductNotFoundOrArchived);
    }
    var p := Updated(w.products[productId], c);
    w.UpdateProduct(productId, p);
    return Ok(p);
  }

  /**
   * An update rewrites exactly the descriptive fields of an active product:
   * its SKU and status stay, other products and all stock stay.
   */
  lemma UpdateProductEffect(db: Db, productId: int, c: ProductChanges)
    requires UpdateProductSpec(db, productId, c).reply.Ok?
    ensures var t := UpdateProductSpec(db, productId, c);
      var old_, new_ := db.products[productId], t.reply.value;
      && new_.sku == old_.sku && new_.status == Active
      && new_.name == c.name && new_.category == c.category && new_.description == c.description
      && new_.tags == (if c.tags.Some? then c.tags.value else []) && new_.lowStockThreshold == c.lowStockThreshold
      && t.after == db.(products := t.after.products)
      && forall p | p in db.products && p != productId :: t.after.products[p] == db.products[p]
  {}

  // ---------------------------------------------------------------------------
  // archiveProduct and deleteProduct
  // ---------------------------------------------------------------------------

  function AsArchived(p: Product): Product {
    p.(status := Archived)
  }

  /** Active to archived; an archived or missing product is a 404 with no change. */
  function ArchiveProductSpec(db: Db, productId: int): (t: Txn<()>)
    ensures t.reply.Ok? <==> productId in db.products && db.products[productId].status == Active
    ensures t.reply.Err? ==> t == Txn(Err(ProductNotFoundOrAlreadyArchived), db)
  {
    if productId in db.products && db.products[productId].status == Active then
      Txn(Ok(()), SetProduct(db, productId, AsArchived(db.products[productId])))
    else Txn(Err(ProductNotFoundOrAlreadyArchived), db)
  }

  method ArchiveProduct(w: Warehouse, productId: int) returns (r: Result<()>)
    modifies w
    ensures Txn(r, w.State()) == ArchiveProductSpec(old(w.State()), productId)
  {
    if productId !in w.products || w.products[productId].status != Active {
      return Err(ProductNotFoundOrAlreadyArchived);
    }
    w.UpdateProduct(productId, AsArchived(w.products[productId]));
    return Ok(());
  }

  /**
   * The logical delete: the row, if there is one, is archived whatever its
   * status, and is never removed; the reply is the same either way.
   */
  function DeleteProductSpec(db: Db, productId: int): (t: Txn<()>)
    ensures t.reply == Ok(())
    ensures t.after.products.Keys == db.products.Keys
  {
    if productId in db.products then Txn(Ok(()), SetProduct(db, productId, AsArchived(db.products[productId])))
    else Txn(Ok(()), db)
  }

  method DeleteProduct(w: Warehouse, productId: int) returns (r: Result<()>)
    modifies w
    ensures Txn(r, w.State()) == DeleteProductSpec(old(w.State()), productId)
  {
    if productId in w.products {
      w.UpdateProduct(productId, AsArchived(w.products[productId]));
    }
    return Ok(());
  }

  /**
   * Archiving or deleting changes only the status of the one product: its
   * other fields, every other product and all stock records stay, and
   * archiving again is refused.
   */
  lemma ArchiveEffect(db: Db, productId: int)
    requires ArchiveProductSpec(db, productId).reply.Ok?
    ensures var d := ArchiveProductSpec(db, productId).after;
      && d == DeleteProductSpec(db, productId).after
      && d == db.(products := d.products)
      && d.products == db.products[productId := db.products[productId].(status := Archived)]
      && ArchiveProductSpec(d, productId) == Txn(Err(ProductNotFoundOrAlreadyArchived), d)
      && UpdateProductSpec(d, productId, ProductChanges(None, None, None, None, None)).reply == Err(ProductNotFoundOrArchived)
  {}

  /** Deleting twice is deleting once. */
  lemma DeleteIdempotent(db: Db, productId: int)
    ensures var d := DeleteProductSpec(db, productId).after;
      DeleteProductSpec(d, productId).after == d
  {}

  /** An update keeps the invariant: it never changes a SKU, an id or stock. */
  lemma UpdateConsistent(db: Db, productId: int, c: ProductChanges)
    requires Consistent(db)
    ensures Consistent(UpdateProductSpec(db, productId, c).after)
  {
    if UpdateProductSpec(db, productId, c).reply.Ok? {
      SameSkusConsistent(db, productId, Updated(db.products[productId], c));
    }
  }

  /** Archiving and deleting keep the invariant. */
  lemma ArchiveConsistent(db: Db, productId: int)
    requires Consistent(db)
    ensures Consistent(ArchiveProductSpec(db, productId).after)
    ensures Consistent(DeleteProductSpec(db, productId).after)
  {
    if productId in db.products {
      SameSkusConsistent(db, productId, AsArchived(db.products[productId]));
    }
  }

  /** Rewriting an existing product without changing its SKU keeps the invariant. */
  lemma SameSkusConsistent(db: Db, productId: int, p: Product)
    requires Consistent(db) && productId in db.products && p.sku == db.products[productId].sku
    ensures Consistent(SetProduct(db, productId, p))
  {
    var d := SetProduct(db, productId, p);
    assert d.products.Keys == db.products.Keys;
    forall a, b | a in d.products && b in d.products && a != b ensures d.products[a].sku != d.products[b].sku {
      assert d.products[a].sku == db.products[a].sku && d.products[b].sku == db.products[b].sku;
    }
  }

  // ---------------------------------------------------------------------------
  // lookupBySku
  // ---------------------------------------------------------------------------

  /** The active products whose SKU is exactly s. */
  function ActiveWithSku(products: map<int, Product>, s: string): set<int> {
    set p | p in products && products[p].status == Active && products[p].sku == s
  }

  /**
   * GET /api/products/lookup?sku=: a missing or blank SKU is a 400; otherwise
   * the active product whose SKU equals the trimmed text (`LIMIT 1`), or a 404.
   */
  function LookupBySku(db: Db, sku: Option<string>): (r: Result<int>)
    ensures (sku.None? || Trim(sku.value) == "") ==> r == Err(SkuRequired)
    ensures r.Ok? ==> sku.Some? && r.value in ActiveWithSku(db.products, Trim(sku.value))
    ensures sku.Some? && Trim(sku.value) != "" ==>
      (r == Err(ProductNotFoundForSku) <==> ActiveWithSku(db.products, Trim(sku.value)) == {})
  {
    if sku.None? || Trim(sku.value) == "" then Err(SkuRequired)
    else
      var ids := ActiveWithSku(db.products, Trim(sku.value));
      if ids == {} then Err(ProductNotFoundForSku) else Ok(Least(ids))
  }

  /** Spaces around the scanned text do not change the answer. */
  lemma LookupIgnoresSurroundingSpaces(db: Db, s: string)
    ensures LookupBySku(db, Some(Trim(s))) == LookupBySku(db, Some(s))
  {
    TrimIdempotent(s);
  }

  /** An active product is found by its own SKU, and by no other active product's. */
  lemma LookupFindsActive(db: Db, productId: int)
    requires Consistent(db) && productId in db.products && db.products[productId].status == Active
    requires Trim(db.products[productId].sku) == db.products[productId].sku != ""
    ensures LookupBySku(db, Some(db.products[productId].sku)) == Ok(productId)
  {
    var s := db.products[productId].sku;
    forall p | p in ActiveWithSku(db.products, s) ensures p == productId {}
    assert productId in ActiveWithSku(db.products, s);
  }

  /** An archived product is not found by its SKU. */
  lemma LookupSkipsArchived(db: Db, productId: int)
    requires Consistent(db) && productId in db.products && db.products[productId].status == Archived
    requires Trim(db.products[productId].sku) == db.products[productId].sku != ""
    ensures LookupBySku(db, Some(db.products[productId].sku)) == Err(ProductNotFoundForSku)
  {
    var s := db.products[productId].sku;
    forall p | p in ActiveWithSku(db.products, s) ensures false {}
  }

  // ---------------------------------------------------------------------------
  // getAllProducts
  // ---------------------------------------------------------------------------

  /** The query string of GET /api/products; a filter is used when its text is non-empty. */
  datatype Filters = Filters(q: Option<string>, sku: Option<string>, category: Option<string>, tag: Option<string>)

  /** One condition of the WHERE clause; `param` is the k of the placeholder $k it uses. */
  datatype Condition =
    | StatusActive
    | NameOrDescriptionLike(param: int)
    | SkuLike(param: int)
    | CategoryLike(param: int)
    | TagLike(param: int)

  /** The first condition is the status test and the k-th filter condition uses $k. */
  predicate Numbered(conditions: seq<Condition>, values: seq<string>) {
    && |conditions| == |values| + 1
    && conditions[0] == StatusActive
    && forall i | 1 <= i < |conditions| :: !conditions[i].StatusActive? && conditions[i].param == i
  }

  /** A nullable column ILIKE a pattern: NULL matches nothing. */
  predicate ColumnLike(x: Option<string>, pattern: string) {
    x.Some? && ILike(x.value, pattern)
  }

  predicate SomeTagLike(tags: seq<string>, pattern: string) {
    exists i | 0 <= i < |tags| :: ILike(tags[i], pattern)
  }

  /** What one condition demands of a row, with its placeholder bound to its value. */
  predicate Satisfies(p: Product, c: Condition, values: seq<string>)
    requires !c.StatusActive? ==> 1 <= c.param <= |values|
  {
    match c
    case StatusActive => p.status == Active
    case NameOrDescriptionLike(k) => ColumnLike(p.name, values[k - 1]) || ColumnLike(p.description, values[k - 1])
    case SkuLike(k) => ILike(p.sku, values[k - 1])
    case CategoryLike(k) => ColumnLike(p.category, values[k - 1])
    case TagLike(k) => SomeTagLike(p.tags, values[k - 1])
  }

  /** `conditions.join(" AND ")` with the values bound. */
  predicate WhereHolds(p: Product, conditions: seq<Condition>, values: seq<string>)
    requires Numbered(conditions, values)
  {
    forall i | 0 <= i < |conditions| :: Satisfies(p, conditions[i], values)
  }

  /** The search the endpoint offers: active, and matching every filter given as a `%text%` pattern. */
  predicate Matches(f: Filters, p: Product) {
    && p.status == Active
    && (TextGiven(f.q) ==> ColumnLike(p.name, SubstringPattern(f.q.value)) || ColumnLike(p.description, SubstringPattern(f.q.value)))
    && (TextGiven(f.sku) ==> ILike(p.sku, SubstringPattern(f.sku.value)))
    && (TextGiven(f.category) ==> ColumnLike(p.category, SubstringPattern(f.category.value)))
    && (TextGiven(f.tag) ==> SomeTagLike(p.tags, SubstringPattern(f.tag.value)))
  }

  /** The status test and the first n filters of `Matches`, in the order the handler adds them. */
  predicate UpTo(f: Filters, p: Product, n: nat) {
    && p.status == Active
    && (n >= 1 && TextGiven(f.q) ==> ColumnLike(p.name, SubstringPattern(f.q.value)) || ColumnLike(p.description, SubstringPattern(f.q.value)))
    && (n >= 2 && TextGiven(f.sku) ==> ILike(p.sku, SubstringPattern(f.sku.value)))
    && (n >= 3 && TextGiven(f.category) ==> ColumnLike(p.category, SubstringPattern(f.category.value)))
    && (n >= 4 && TextGiven(f.tag) ==> SomeTagLike(p.tags, SubstringPattern(f.tag.value)))
  }

  /**
   * Builds the `conditions` and `values` arrays, numbering each placeholder
   * with `idx` as it goes. The WHERE clause they make holds exactly for the
   * products the filters describe.
   */
  method BuildConditions(f: Filters) returns (conditions: seq<Condition>, values: seq<string>)
    ensures Numbered(conditions, values)
    ensures forall p :: WhereHolds(p, conditions, values) <==> Matches(f, p)
  {
    conditions, values := [StatusActive], [];
    var idx := 1;
    assert forall p :: WhereHolds(p, conditions, values) <==> UpTo(f, p, 0);
    if TextGiven(f.q) {
      WhereHoldsAppend(conditions, values, NameOrDescriptionLike(idx), SubstringPattern(f.q.value));
      conditions := conditions + [NameOrDescriptionLike(idx)];
      values := values + [SubstringPattern(f.q.value)];
      idx := idx + 1;
    }
    assert forall p :: WhereHolds(p, conditions, values) <==> UpTo(f, p, 1);
    if TextGiven(f.sku) {
      WhereHoldsAppend(conditions, values, SkuLike(idx), SubstringPattern(f.sku.value));
      conditions := conditions + [SkuLike(idx)];
      values := values + [SubstringPattern(f.sku.value)];
      idx := idx + 1;
    }
    assert forall p :: WhereHolds(p, conditions, values) <==> UpTo(f, p, 2);
    if TextGiven(f.category) {
      WhereHoldsAppend(conditions, values, CategoryLike(idx), SubstringPattern(f.category.value));
      conditions := conditions + [CategoryLike(idx)];
      values := values + [SubstringPattern(f.category.value)];
      idx := idx + 1;
    }
    assert forall p :: WhereHolds(p, conditions, values) <==> UpTo(f, p, 3);
    if TextGiven(f.tag) {
      WhereHoldsAppend(conditions, values, TagLike(idx), SubstringPattern(f.tag.value));
      conditions := conditions + [TagLike(idx)];
      values := values + [SubstringPattern(f.tag.value)];
      idx := idx + 1;
    }
  }

  /** Pushing one condition and its value adds that condition to the clause and leaves the others as they were. */
  lemma WhereHoldsAppend(conditions: seq<Condition>, values: seq<string>, c: Condition, v: string)
    requires Numbered(conditions, values) && !c.StatusActive? && c.param == |conditions|
    ensures Numbered(conditions + [c], values + [v])
    ensures forall p :: WhereHolds(p, conditions + [c], values + [v])
                    <==> WhereHolds(p, conditions, values) && Satisfies(p, c, values + [v])
  {
    var cs, vs := conditions + [c], values + [v];
    forall i | 0 <= i < |conditions| ensures cs[i] == conditions[i] {}
    forall i | 0 <= i < |values| ensures vs[i] == values[i] {}
    forall p ensures WhereHolds(p, cs, vs) <==> WhereHolds(p, conditions, values) && Satisfies(p, c, vs) {
      forall i | 0 <= i < |conditions| ensures Satisfies(p, cs[i], vs) == Satisfies(p, conditions[i], values) {}
      assert cs[|conditions|] == c;
    }
  }

  /** A row of the product list. */
  datatype ProductRow = ProductRow(productId: int, product: Product)

  /** `ORDER BY name`: ascending, NULL names last. */
  predicate NameOrder(a: ProductRow, b: ProductRow) {
    match (a.product.name, b.product.name)
    case (Some(x), Some(y)) => LexLe(x, y)
    case (Some(_), None) => true
    case (None, Some(_)) => false
    case (None, None) => true
  }

  lemma NameOrderIsTotalPreorder()
    ensures TotalPreorder(NameOrder)
  {
    LexLeIsTotalPreorder();
  }

  /** The rows of the products in ks, in that order, for which the WHERE clause holds. */
  function RowsWhere(ks: seq<int>, products: map<int, Product>, conditions: seq<Condition>, values: seq<string>): (rows: seq<ProductRow>)
    requires Numbered(conditions, values)
    requires forall i | 0 <= i < |ks| :: ks[i] in products
    ensures forall r :: r in rows <==> r.productId in ks && r.product == products[r.productId] && WhereHolds(r.product, conditions, values)
    ensures Increasing(ks) ==> NoDuplicates(rows)
  {
    if ks == [] then []
    else
      var rest := RowsWhere(ks[1..], products, conditions, values);
      assert forall k | k in ks && k != ks[0] :: k in ks[1..];
      IncreasingTail(ks);
      var head := ProductRow(ks[0], products[ks[0]]);
      if WhereHolds(head.product, conditions, values) then [head] + rest else rest
  }

  /** The SELECT: the products the WHERE clause keeps, ordered by name. */
  function Select(db: Db, conditions: seq<Condition>, values: seq<string>): (rows: seq<ProductRow>)
    requires Numbered(conditions, values)
    ensures SortedBy(rows, NameOrder)
    ensures forall r :: r in rows <==> r.productId in db.products && r.product == db.products[r.productId] && WhereHolds(r.product, conditions, values)
    ensures NoDuplicates(rows)
  {
    var ks := SortedKeys(db.products.Keys);
    assert forall i | 0 <= i < |ks| :: ks[i] in db.products by {
      forall i | 0 <= i < |ks| ensures ks[i] in db.products { assert ks[i] in ks; }
    }
    var found := RowsWhere(ks, db.products, conditions, values);
    var rows := SortBy(found, NameOrder);
    NameOrderIsTotalPreorder();
    SortBySorted(found, NameOrder);
    SameElements(rows, found);
    PermutationNoDuplicates(found, rows);
    rows
  }

  /**
   * getAllProducts: exactly the products that match every filter given, each
   * with its own row, ordered by name.
   */
  method GetAllProducts(db: Db, f: Filters) returns (rows: seq<ProductRow>)
    ensures SortedBy(rows, NameOrder)
    ensures forall r :: r in rows <==> r.productId in db.products && r.product == db.products[r.productId] && Matches(f, r.product)
    ensures forall i, j | 0 <= i < j < |rows| :: rows[i].productId != rows[j].productId
  {
    var conditions, values := BuildConditions(f);
    rows := Select(db, conditions, values);
    forall i, j | 0 <= i < j < |rows| ensures rows[i].productId != rows[j].productId {
      assert rows[i] != rows[j] && rows[i] in rows && rows[j] in rows;
    }
  }

  /**
   * With filter texts free of the wildcard characters `%`, `_` and `\`, a
   * filter means "contains this text, ignoring case".
   */
  lemma MatchesMeansContains(f: Filters, p: Product)
    requires TextGiven(f.q) ==> NoWildcards(f.q.value)
    requires TextGiven(f.sku) ==> NoWildcards(f.sku.value)
    requires TextGiven(f.category) ==> NoWildcards(f.category.value)
    requires TextGiven(f.tag) ==> NoWildcards(f.tag.value)
    ensures Matches(f, p) <==>
      && p.status == Active
      && (TextGiven(f.q) ==>
            (p.name.Some? && ContainsIgnoringCase(p.name.value, f.q.value))
            || (p.description.Some? && ContainsIgnoringCase(p.description.value, f.q.value)))
      && (TextGiven(f.sku) ==> ContainsIgnoringCase(p.sku, f.sku.value))
      && (TextGiven(f.category) ==> p.category.Some? && ContainsIgnoringCase(p.category.value, f.category.value))
      && (TextGiven(f.tag) ==> exists i | 0 <= i < |p.tags| :: ContainsIgnoringCase(p.tags[i], f.tag.value))
  {
    if TextGiven(f.q) {
      if p.name.Some? { ILikeSubstring(p.name.value, f.q.value); }
      if p.description.Some? { ILikeSubstring(p.description.value, f.q.value); }
    }
    if TextGiven(f.sku) { ILikeSubstring(p.sku, f.sku.value); }
    if TextGiven(f.category) && p.category.Some? { ILikeSubstring(p.category.value, f.category.value); }
    if TextGiven(f.tag) {
      forall i | 0 <= i < |p.tags| ensures ILike(p.tags[i], SubstringPattern(f.tag.value)) <==> ContainsIgnoringCase(p.tags[i], f.tag.value) {
        ILikeSubstring(p.tags[i], f.tag.value);
      }
    }
  }
}
