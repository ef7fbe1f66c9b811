/**
 * The product handlers: create, list with filters, order and offset, read
 * one, update the supplied fields, delete. Bodies go through the product
 * schema first, as written (under Joi's default conversion), and its first
 * detail is the 400 message. The stored values are the body's own, not the
 * converted ones.
 */
module Products {
  import opened Wrappers
  import opened Joi
  import opened Catalog
  import opened Params
  import Tables
  import Ordering
  import Text
  import ProductValidation

  // ------------------------------------------------------------------ create

  /** A body member that JavaScript reads as truthy; a missing one is `undefined`, which is not. */
  predicate TruthyMember(body: Body, key: string) {
    Lookup(body, key).Some? && Truthy(Lookup(body, key).value)
  }

  /** The row a valid create body describes: exactly the submitted name, price and category id. */
  function Submitted(id: string, body: Body): (p: Product)
    requires ProductValidation.ProductCheckAsWritten(body) == []
    ensures p.id == id
    ensures Lookup(body, "name") == Some(JString(p.name))
    ensures Lookup(body, "price") == Some(JNumber(p.price))
    ensures Lookup(body, "categoryId") == Some(JString(p.categoryId))
  {
    ProductValidation.CreateValidAsWrittenIff(body);
    Product(id, Lookup(body, "name").value.s, Lookup(body, "price").value.n, Lookup(body, "categoryId").value.s)
  }

  /**
   * An invalid body answers 400 with the first detail; a falsy name, price
   * or category id answers 400; otherwise one row is appended and returned
   * with 201. The category is not looked up.
   */
  method CreateProduct(db: CatalogTables, body: Body, newId: string) returns (r: Reply)
    requires db.Valid()
    requires ProductById(db.products, newId).None?
    modifies db`products
    ensures db.Valid()
    ensures ProductValidation.ProductCheckAsWritten(body) != [] ==>
      r == Reply(400, Error(ProductValidation.ProductCheckAsWritten(body)[0].message)) && db.products == old(db.products)
    ensures ProductValidation.ProductCheckAsWritten(body) == [] &&
            !(TruthyMember(body, "name") && TruthyMember(body, "price") && TruthyMember(body, "categoryId")) ==>
      r == Reply(400, Error("Name, price and categoryId are required!")) && db.products == old(db.products)
    ensures ProductValidation.ProductCheckAsWritten(body) == [] &&
            TruthyMember(body, "name") && TruthyMember(body, "price") && TruthyMember(body, "categoryId") ==>
      r == Reply(201, ProductRow(Submitted(newId, body))) && db.products == old(db.products) + [Submitted(newId, body)]
  {
    var errors := ProductValidation.ProductCheckAsWritten(body);
    if errors != [] {
      r := Reply(400, Error(errors[0].message));
      return;
    }
    if !TruthyMember(body, "name") || !TruthyMember(body, "price") || !TruthyMember(body, "categoryId") {
      r := Reply(400, Error("Name, price and categoryId are required!"));
      return;
    }
    var row := Submitted(newId, body);
    db.InsertProduct(row);
    r := Reply(201, ProductRow(row));
  }

  /** The handler's falsy test never fires on a body the schema accepts. */
  lemma FalsyTestUnreachable(body: Body)
    requires ProductValidation.ProductCheckAsWritten(body) == []
    ensures TruthyMember(body, "name") && TruthyMember(body, "price") && TruthyMember(body, "categoryId")
  {
    ProductValidation.ValidCreateIsTruthy(body);
  }

  // ----------------------------------------------------------------- getAll

  /**
   * The query of the listing. The price bounds are the values of non-empty
   * `minPrice` and `maxPrice` parameters, already read as decimals.
   */
  datatype ProductQuery = ProductQuery(
    categoryId: Option<string>, minPrice: Option<real>, maxPrice: Option<real>, search: Option<string>,
    sortBy: Option<string>, sortOrder: Option<string>, page: NumParam, limit: NumParam)

  datatype ProductWhere = ProductWhere(
    categoryId: Option<string>, minPrice: Option<real>, maxPrice: Option<real>, search: Option<string>)

  /** The `where` built from the query: only truthy parameters filter. */
  function WhereOf(q: ProductQuery): ProductWhere {
    ProductWhere(if Given(q.categoryId) then q.categoryId else None, q.minPrice, q.maxPrice,
                 if Given(q.search) then q.search else None)
  }

  /** Category equality, price within the bounds, and case-insensitive search in the name, each only when given. */
  predicate MatchesProduct(w: ProductWhere, p: Product) {
    && (w.categoryId.Some? ==> p.categoryId == w.categoryId.value)
    && (w.minPrice.Some? ==> p.price >= w.minPrice.value)
    && (w.maxPrice.Some? ==> p.price <= w.maxPrice.value)
    && (w.search.Some? ==> Text.ContainsInsensitive(p.name, w.search.value))
  }

  datatype ProductColumn = ById | ByName | ByPrice | ByCategoryId

  function ProductColumnOf(name: string): Option<ProductColumn> {
    if name == "id" then Some(ById)
    else if name == "name" then Some(ByName)
    else if name == "price" then Some(ByPrice)
    else if name == "categoryId" then Some(ByCategoryId)
    else None
  }

  function ProductKey(c: ProductColumn, p: Product): Ordering.Key {
    match c
    case ById => Ordering.Text(p.id)
    case ByName => Ordering.Text(p.name)
    case ByPrice => Ordering.Number(p.price)
    case ByCategoryId => Ordering.Text(p.categoryId)
  }

  /** `orderBy[sortBy] = sortOrder`, defaults name and asc; None when the store rejects it. */
  function OrderOf(q: ProductQuery): Option<(ProductColumn, bool)> {
    var column := ProductColumnOf(q.sortBy.GetOr("name"));
    var order := q.sortOrder.GetOr("asc");
    if column.None? || (order != "asc" && order != "desc") then None
    else Some((column.value, order == "desc"))
  }

  /** The matching products in the requested order. */
  function ListedProducts(products: seq<Product>, w: ProductWhere, order: (ProductColumn, bool)): seq<Product> {
    Ordering.Sort(Tables.Filter(products, p => MatchesProduct(w, p)), p => ProductKey(order.0, p), order.1)
  }

  /**
   * A query the store rejects (unknown column or direction, NaN, negative
   * offset) answers 500; otherwise the window of the matching products,
   * each with its category.
   */
  function GetAllProducts(products: seq<Product>, categories: seq<Category>, q: ProductQuery): (r: Reply)
    ensures r.code == 200 <==> OrderOf(q).Some? && Offsets(q.page, q.limit).Some? && Offsets(q.page, q.limit).value.0 >= 0
    ensures r.code != 200 ==> r.code == 500
    ensures r.code == 200 ==> r.payload == Products(Views(categories, ProductPage(products, q)))
  {
    if OrderOf(q).None? || Offsets(q.page, q.limit).None? || Offsets(q.page, q.limit).value.0 < 0 then Reply(500, Error("invalid query"))
    else Reply(200, Products(Views(categories, ProductPage(products, q))))
  }

  /** The window `skip`/`take` cuts from the ordered matching products. */
  function ProductPage(products: seq<Product>, q: ProductQuery): seq<Product>
    requires OrderOf(q).Some? && Offsets(q.page, q.limit).Some? && Offsets(q.page, q.limit).value.0 >= 0
  {
    Tables.Slice(ListedProducts(products, WhereOf(q), OrderOf(q).value), Offsets(q.page, q.limit).value.0, Offsets(q.page, q.limit).value.1).value
  }

  /** Every product of a listed page is stored, matches the filter and is shown with its own category. */
  lemma {:induction false} ListedPageMatches(products: seq<Product>, categories: seq<Category>, q: ProductQuery)
    requires GetAllProducts(products, categories, q).code == 200
    ensures forall v :: v in GetAllProducts(products, categories, q).payload.views ==>
      v.product in products && MatchesProduct(WhereOf(q), v.product) && v.category == CategoryOf(categories, v.product)
  {
    var listed := ListedProducts(products, WhereOf(q), OrderOf(q).value);
    var page := ProductPage(products, q);
    ListedProductsSpec(products, WhereOf(q), OrderOf(q).value);
    SliceWithin(listed, Offsets(q.page, q.limit).value.0, Offsets(q.page, q.limit).value.1);
  }

  lemma SliceWithin(xs: seq<Product>, skip: int, take: int)
    requires skip >= 0
    ensures forall p :: p in Tables.Slice(xs, skip, take).value ==> p in xs
  {
    forall p | p in Tables.Slice(xs, skip, take).value ensures p in xs {
      var w := Tables.Slice(xs, skip, take).value;
      var i :| 0 <= i < |w| && w[i] == p;
      if take >= 0 {
        assert w == Tables.Window(xs, skip, take);
      } else {
        assert w == Tables.EndWindow(xs, skip, -take);
      }
    }
  }

  /** Every listed product matches the filter, every matching product is listed once per row, and the list is ordered. */
  lemma ListedProductsSpec(products: seq<Product>, w: ProductWhere, order: (ProductColumn, bool))
    ensures var listed := ListedProducts(products, w, order);
      && multiset(listed) == multiset(Tables.Filter(products, p => MatchesProduct(w, p)))
      && (forall p :: p in listed <==> p in products && MatchesProduct(w, p))
      && Ordering.SortedBy(listed, p => ProductKey(order.0, p), order.1)
  {
    var matching := Tables.Filter(products, p => MatchesProduct(w, p));
    var listed := ListedProducts(products, w, order);
    Ordering.SortSorted(matching, p => ProductKey(order.0, p), order.1);
    forall p ensures p in listed <==> p in products && MatchesProduct(w, p) {
      assert p in listed <==> p in multiset(listed);
      assert p in matching <==> p in multiset(matching);
    }
  }

  // ---------------------------------------------------------------- getById

  /** A missing id answers 404; otherwise the product with its category. */
  function GetProductById(products: seq<Product>, categories: seq<Category>, id: string): (r: Reply)
    ensures r.code == 404 <==> forall i :: 0 <= i < |products| ==> products[i].id != id
    ensures r.code != 404 ==>
      exists i :: 0 <= i < |products| && products[i].id == id && r == Reply(200, ProductDetail(View(categories, products[i])))
  {
    match ProductById(products, id)
    case None => Reply(404, Error("Product not found"))
    case Some(i) => Reply(200, ProductDetail(View(categories, products[i])))
  }

  // ----------------------------------------------------------------- update

  /** The row after an update: each supplied field replaces the stored one; `undefined` fields are left alone. */
  function Patched(p: Product, body: Body): (v: Product)
    requires ProductValidation.ProductUpdateCheckAsWritten(body) == []
    ensures v.id == p.id
    ensures Lookup(body, "name").None? ==> v.name == p.name
    ensures Lookup(body, "name").Some? ==> Lookup(body, "name") == Some(JString(v.name))
    ensures Lookup(body, "price").None? ==> v.price == p.price
    ensures Lookup(body, "price").Some? ==> Lookup(body, "price") == Some(JNumber(v.price))
    ensures Lookup(body, "categoryId").None? ==> v.categoryId == p.categoryId
    ensures Lookup(body, "categoryId").Some? ==> Lookup(body, "categoryId") == Some(JString(v.categoryId))
  {
    ProductValidation.UpdateValidAsWrittenIff(body);
    Product(
      p.id,
      if Lookup(body, "name").Some? then Lookup(body, "name").value.s else p.name,
      if Lookup(body, "price").Some? then Lookup(body, "price").value.n else p.price,
      if Lookup(body, "categoryId").Some? then Lookup(body, "categoryId").value.s else p.categoryId)
  }

  /** `if (categoryId)` followed by a failed lookup of that category. */
  predicate CategoryMissing(categories: seq<Category>, body: Body) {
    match Lookup(body, "categoryId")
    case Some(JString(c)) => c != "" && CategoryById(categories, c).None?
    case _ => false
  }

  /**
   * The checks in order: an invalid body answers 400, a missing product 404,
   * a supplied but unknown category 400; otherwise only the supplied fields
   * of that one product change, and it is returned with its category.
   */
  method UpdateProduct(db: CatalogTables, id: string, body: Body) returns (r: Reply)
    requires db.Valid()
    modifies db`products
    ensures db.Valid()
    ensures ProductValidation.ProductUpdateCheckAsWritten(body) != [] ==>
      r == Reply(400, Error(ProductValidation.ProductUpdateCheckAsWritten(body)[0].message)) && db.products == old(db.products)
    ensures ProductValidation.ProductUpdateCheckAsWritten(body) == [] && ProductById(old(db.products), id).None? ==>
      r == Reply(404, Error("Product not found!")) && db.products == old(db.products)
    ensures ProductValidation.ProductUpdateCheckAsWritten(body) == [] && ProductById(old(db.products), id).Some? &&
            CategoryMissing(db.categories, body) ==>
      r == Reply(400, Error("Category does not exist!")) && db.products == old(db.products)
    ensures ProductValidation.ProductUpdateCheckAsWritten(body) == [] && ProductById(old(db.products), id).Some? &&
            !CategoryMissing(db.categories, body) ==>
      var i := ProductById(old(db.products), id).value;
      && db.products == old(db.products)[i := Patched(old(db.products)[i], body)]
      && r == Reply(200, ProductDetail(View(db.categories, db.products[i])))
  {
    var errors := ProductValidation.ProductUpdateCheckAsWritten(body);
    var found := ProductById(db.products, id);
    if errors != [] {
      r := Reply(400, Error(errors[0].message));
      return;
    }
    if found.None? {
      r := Reply(404, Error("Product not found!"));
      return;
    }
    if CategoryMissing(db.categories, body) {
      r := Reply(400, Error("Category does not exist!"));
      return;
    }
    var i := found.value;
    var row := Patched(db.products[i], body);
    db.ReplaceProduct(i, row);
    r := Reply(200, ProductDetail(View(db.categories, row)));
  }

  /** `{}` is a valid update and changes nothing. */
  lemma EmptyUpdateKeepsRow(p: Product)
    ensures ProductValidation.ProductUpdateCheckAsWritten([]) == []
    ensures Patched(p, []) == p
  {
    ProductValidation.EmptyUpdateValid();
  }

  // ----------------------------------------------------------------- delete

  /** A missing id answers 404 with no change; otherwise exactly that product is removed. */
  method DeleteProduct(db: CatalogTables, id: string) returns (r: Reply)
    requires db.Valid()
    modifies db`products
    ensures db.Valid()
    ensures ProductById(old(db.products), id).None? ==>
      r == Reply(404, Error("Product not found!")) && db.products == old(db.products)
    ensures ProductById(old(db.products), id).Some? ==>
      r == Reply(200, Done("Product deleted successfully!"))
      && db.products == Tables.RemoveAt(old(db.products), ProductById(old(db.products), id).value)
  {
    var found := ProductById(db.products, id);
    if found.None? {
      r := Reply(404, Error("Product not found!"));
      return;
    }
    db.RemoveProduct(found.value);
    r := Reply(200, Done("Product deleted successfully!"));
  }

  /** Deleting removes every row with that id and no other row. */
  lemma DeleteRemovesOnlyTarget(products: seq<Product>, id: string)
    requires Tables.DistinctKeys(products, ProductIdOf)
    requires ProductById(products, id).Some?
    ensures var rest := Tables.RemoveAt(products, ProductById(products, id).value);
      && (forall p :: p in rest ==> p.id != id)
      && (forall p :: p in products && p.id != id ==> p in rest)
  {
    var i := ProductById(products, id).value;
    var rest := Tables.RemoveAt(products, i);
    forall p | p in rest ensures p.id != id {
      var j :| 0 <= j < |rest| && rest[j] == p;
      if j < i { assert products[j] == p; } else { assert products[j + 1] == p; }
    }
    forall p | p in products && p.id != id ensures p in rest {
      var j :| 0 <= j < |products| && products[j] == p;
      assert j != i;
      if j < i { assert rest[j] == p; } else { assert rest[j - 1] == p; }
    }
  }
}
