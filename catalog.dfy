/**
 * The catalog store: the product and category tables, the rows' keys, and
 * the replies the catalog handlers send.
 */
module Catalog {
  import opened Wrappers
  import Tables

  datatype Product = Product(id: string, name: string, price: real, categoryId: string)
  datatype Category = Category(id: string, name: string)

  /** A product with its category joined in (`include: { category: true }`). */
  datatype ProductView = ProductView(product: Product, category: Option<Category>)

  datatype Payload =
    | Error(text: string)
    | Done(text: string)
    | ProductRow(product: Product)
    | ProductDetail(view: ProductView)
    | Products(views: seq<ProductView>)
    | CategoryRow(category: Category)
    | Categories(rows: seq<Category>)

  datatype Reply = Reply(code: nat, payload: Payload)

  function ProductIdOf(p: Product): string { p.id }
  function CategoryIdOf(c: Category): string { c.id }

  /** The product and category tables. */
  class CatalogTables {
    var products: seq<Product>
    var categories: seq<Category>

    /** Primary keys are distinct. */
    ghost predicate Valid()
      reads this
    {
      Tables.DistinctKeys(products, ProductIdOf) && Tables.DistinctKeys(categories, CategoryIdOf)
    }

    constructor ()
      ensures Valid() && products == [] && categories == []
    {
      products := [];
      categories := [];
    }

    /** `prisma.product.create`: the new row goes to the end of the table. */
    method InsertProduct(row: Product)
      requires Valid() && ProductById(products, row.id).None?
      modifies this`products
      ensures Valid() && products == old(products) + [row]
    {
      Tables.AppendDistinct(products, ProductIdOf, row);
      products := products + [row];
    }

    /** `prisma.product.update` of the row at `i`; the key is kept. */
    method ReplaceProduct(i: nat, row: Product)
      requires Valid() && i < |products| && row.id == products[i].id
      modifies this`products
      ensures Valid() && products == old(products)[i := row]
    {
      Tables.UpdateDistinct(products, ProductIdOf, i, row);
      products := products[i := row];
    }

    /** `prisma.product.delete` of the row at `i`. */
    method RemoveProduct(i: nat)
      requires Valid() && i < |products|
      modifies this`products
      ensures Valid() && products == Tables.RemoveAt(old(products), i)
    {
      Tables.RemoveAtDistinct(products, ProductIdOf, i);
      products := Tables.RemoveAt(products, i);
    }

    /** `prisma.category.create`: the new row goes to the end of the table. */
    method InsertCategory(row: Category)
      requires Valid() && CategoryById(categories, row.id).None?
      modifies this`categories
      ensures Valid() && categories == old(categories) + [row]
    {
      Tables.AppendDistinct(categories, CategoryIdOf, row);
      categories := categories + [row];
    }

    /** `prisma.category.update` of the row at `i`; the key is kept. */
    method ReplaceCategory(i: nat, row: Category)
      requires Valid() && i < |categories| && row.id == categories[i].id
      modifies this`categories
      ensures Valid() && categories == old(categories)[i := row]
    {
      Tables.UpdateDistinct(categories, CategoryIdOf, i, row);
      categories := categories[i := row];
    }

    /** `prisma.category.delete` of the row at `i`. */
    method RemoveCategory(i: nat)
      requires Valid() && i < |categories|
      modifies this`categories
      ensures Valid() && categories == Tables.RemoveAt(old(categories), i)
    {
      Tables.RemoveAtDistinct(categories, CategoryIdOf, i);
      categories := Tables.RemoveAt(categories, i);
    }
  }

  function ProductById(products: seq<Product>, id: string): Option<nat> {
    Tables.IndexOfKey(products, ProductIdOf, id)
  }

  function CategoryById(categories: seq<Category>, id: string): Option<nat> {
    Tables.IndexOfKey(categories, CategoryIdOf, id)
  }

  /** The category a product refers to, when the table has it. */
  function CategoryOf(categories: seq<Category>, p: Product): (c: Option<Category>)
    ensures c.None? <==> forall i :: 0 <= i < |categories| ==> categories[i].id != p.categoryId
    ensures c.Some? ==> c.value in categories && c.value.id == p.categoryId
  {
    match CategoryById(categories, p.categoryId)
    case None => None
    case Some(i) => Some(categories[i])
  }

  function View(categories: seq<Category>, p: Product): ProductView {
    ProductView(p, CategoryOf(categories, p))
  }

  function Views(categories: seq<Category>, ps: seq<Product>): (vs: seq<ProductView>)
    ensures |vs| == |ps| && forall i :: 0 <= i < |ps| ==> vs[i] == View(categories, ps[i])
  {
    seq(|ps|, i requires 0 <= i < |ps| => View(categories, ps[i]))
  }
}
