/**
 * The category handlers: create, list with search, name order and offset,
 * read one, rename, delete. Bodies go through the category schema first and
 * its first detail is the 400 message.
 */
module Categories {
  import opened Wrappers
  import opened Joi
  import opened Catalog
  import opened Params
  import Tables
  import Ordering
  import Text
  import CategoryValidation

  /** The name a body supplies, when it supplies a string. */
  predicate HasName(body: Body) {
    Lookup(body, "name").Some? && Lookup(body, "name").value.JString?
  }

  // ------------------------------------------------------------------ create

  /**
   * An invalid body answers 400 with the first detail; a falsy name answers
   * 400; otherwise one category with exactly the submitted name is appended
   * and returned with 201.
   */
  method CreateCategory(db: CatalogTables, body: Body, newId: string) returns (r: Reply)
    requires db.Valid()
    requires CategoryById(db.categories, newId).None?
    modifies db`categories
    ensures db.Valid()
    ensures CategoryValidation.CategoryCheck(body) != [] ==>
      r == Reply(400, Error(CategoryValidation.CategoryCheck(body)[0].message)) && db.categories == old(db.categories)
    ensures CategoryValidation.CategoryCheck(body) == [] && !(Lookup(body, "name").Some? && Truthy(Lookup(body, "name").value)) ==>
      r == Reply(400, Error("Name is required!")) && db.categories == old(db.categories)
    ensures CategoryValidation.CategoryCheck(body) == [] && Lookup(body, "name").Some? && Truthy(Lookup(body, "name").value) ==>
      && HasName(body)
      && var c := Category(newId, Lookup(body, "name").value.s);
      && r == Reply(201, CategoryRow(c)) && db.categories == old(db.categories) + [c]
  {
    var errors := CategoryValidation.CategoryCheck(body);
    if errors != [] {
      r := Reply(400, Error(errors[0].message));
      return;
    }
    var name := Lookup(body, "name");
    if !(name.Some? && Truthy(name.value)) {
      r := Reply(400, Error("Name is required!"));
      return;
    }
    CategoryValidation.CreateValidIff(body);
    var c := Category(newId, name.value.s);
    db.InsertCategory(c);
    r := Reply(201, CategoryRow(c));
  }

  // ----------------------------------------------------------------- getAll

  datatype CategoryQuery = CategoryQuery(search: Option<string>, sortOrder: Option<string>, page: NumParam, limit: NumParam)

  /** Case-insensitive search in the name, when a non-empty search is given. */
  predicate MatchesCategory(q: CategoryQuery, c: Category) {
    Given(q.search) ==> Text.ContainsInsensitive(c.name, q.search.value)
  }

  function NameKey(c: Category): Ordering.Key {
    Ordering.Text(c.name)
  }

  /** `orderBy: { name: sortOrder }`, default asc; None when the store rejects the direction. */
  function Descending(q: CategoryQuery): Option<bool> {
    var order := q.sortOrder.GetOr("asc");
    if order == "asc" then Some(false) else if order == "desc" then Some(true) else None
  }

  /** The matching categories ordered by name. */
  function ListedCategories(categories: seq<Category>, q: CategoryQuery, descending: bool): seq<Category> {
    Ordering.Sort(Tables.Filter(categories, c => MatchesCategory(q, c)), NameKey, descending)
  }

  /** `take = parseInt(limit)` and `skip = (parseInt(page) - 1) * take`; None when either is NaN. */
  function CategoryPage(categories: seq<Category>, q: CategoryQuery): seq<Category>
    requires Descending(q).Some? && Offsets(q.page, q.limit).Some? && Offsets(q.page, q.limit).value.0 >= 0
  {
    Tables.Slice(ListedCategories(categories, q, Descending(q).value), Offsets(q.page, q.limit).value.0, Offsets(q.page, q.limit).value.1).value
  }

  /** A query the store rejects (unknown direction, NaN, negative offset) answers 500; otherwise the window. */
  function GetAllCategories(categories: seq<Category>, q: CategoryQuery): (r: Reply)
    ensures r.code == 200 <==> Descending(q).Some? && Offsets(q.page, q.limit).Some? && Offsets(q.page, q.limit).value.0 >= 0
    ensures r.code != 200 ==> r.code == 500
    ensures r.code == 200 ==> r.payload == Categories(CategoryPage(categories, q))
  {
    if Descending(q).None? || Offsets(q.page, q.limit).None? || Offsets(q.page, q.limit).value.0 < 0 then Reply(500, Error("invalid query"))
    else Reply(200, Categories(CategoryPage(categories, q)))
  }

  /** Listed categories are exactly the matching ones, each as often as stored, in name order. */
  lemma ListedCategoriesSpec(categories: seq<Category>, q: CategoryQuery, descending: bool)
    ensures var listed := ListedCategories(categories, q, descending);
      && multiset(listed) == multiset(Tables.Filter(categories, c => MatchesCategory(q, c)))
      && (forall c :: c in listed <==> c in categories && MatchesCategory(q, c))
      && Ordering.SortedBy(listed, NameKey, descending)
  {
    var matching := Tables.Filter(categories, c => MatchesCategory(q, c));
    var listed := ListedCategories(categories, q, descending);
    Ordering.SortSorted(matching, NameKey, descending);
    forall c ensures c in listed <==> c in categories && MatchesCategory(q, c) {
      assert c in listed <==> c in multiset(listed);
      assert c in matching <==> c in multiset(matching);
    }
  }

  /** A positive limit and page give the rows from position `(page - 1) * limit` of the ordered matches, at most `limit` of them. */
  lemma {:induction false} PageIsWindow(categories: seq<Category>, q: CategoryQuery)
    requires GetAllCategories(categories, q).code == 200 && Offsets(q.page, q.limit).value.1 > 0
    ensures var listed := ListedCategories(categories, q, Descending(q).value);
      var page := GetAllCategories(categories, q).payload.rows;
      var skip := Offsets(q.page, q.limit).value.0;
      && |page| <= Offsets(q.page, q.limit).value.1
      && forall i :: 0 <= i < |page| ==> skip + i < |listed| && page[i] == listed[skip + i]
  {
    var listed := ListedCategories(categories, q, Descending(q).value);
    assert CategoryPage(categories, q) == Tables.Window(listed, Offsets(q.page, q.limit).value.0, Offsets(q.page, q.limit).value.1);
  }

  // ---------------------------------------------------------------- getById

  /** A missing id answers 404; otherwise the category. */
  function GetCategoryById(categories: seq<Category>, id: string): (r: Reply)
    ensures r.code == 404 <==> forall i :: 0 <= i < |categories| ==> categories[i].id != id
    ensures r.code != 404 ==> exists i :: 0 <= i < |categories| && categories[i].id == id && r == Reply(200, CategoryRow(categories[i]))
  {
    match CategoryById(categories, id)
    case None => Reply(404, Error("Category not found!"))
    case Some(i) => Reply(200, CategoryRow(categories[i]))
  }

  // ----------------------------------------------------------------- update

  /**
   * An invalid body answers 400; a body without a truthy name (the update
   * schema allows `{}`) answers 400; a missing category makes the store
   * throw, 500; otherwise only that category's name changes.
   */
  method UpdateCategory(db: CatalogTables, id: string, body: Body) returns (r: Reply)
    requires db.Valid()
    modifies db`categories
    ensures db.Valid()
    ensures CategoryValidation.CategoryUpdateCheck(body) != [] ==>
      r == Reply(400, Error(CategoryValidation.CategoryUpdateCheck(body)[0].message)) && db.categories == old(db.categories)
    ensures CategoryValidation.CategoryUpdateCheck(body) == [] && !(Lookup(body, "name").Some? && Truthy(Lookup(body, "name").value)) ==>
      r == Reply(400, Error("Name is required!")) && db.categories == old(db.categories)
    ensures CategoryValidation.CategoryUpdateCheck(body) == [] && Lookup(body, "name").Some? && Truthy(Lookup(body, "name").value) &&
            CategoryById(old(db.categories), id).None? ==>
      r == Reply(500, Error("Error!")) && db.categories == old(db.categories)
    ensures CategoryValidation.CategoryUpdateCheck(body) == [] && Lookup(body, "name").Some? && Truthy(Lookup(body, "name").value) &&
            CategoryById(old(db.categories), id).Some? ==>
      && HasName(body)
      && var i := CategoryById(old(db.categories), id).value;
      && db.categories == old(db.categories)[i := Category(id, Lookup(body, "name").value.s)]
      && r == Reply(200, CategoryRow(db.categories[i]))
  {
    var errors := CategoryValidation.CategoryUpdateCheck(body);
    if errors != [] {
      r := Reply(400, Error(errors[0].message));
      return;
    }
    var name := Lookup(body, "name");
    if !(name.Some? && Truthy(name.value)) {
      r := Reply(400, Error("Name is required!"));
      return;
    }
    var found := CategoryById(db.categories, id);
    if found.None? {
      r := Reply(500, Error("Error!"));
      return;
    }
    CategoryValidation.UpdateValidIff(body);
    var i := found.value;
    var c := Category(id, name.value.s);
    db.ReplaceCategory(i, c);
    r := Reply(200, CategoryRow(c));
  }

  /** `{}` passes the update schema, and is then refused by the handler's own test. */
  lemma EmptyRenameRefused()
    ensures CategoryValidation.CategoryUpdateCheck([]) == []
    ensures Lookup([], "name").None?
  {
    CategoryValidation.EmptyUpdateValid();
  }

  // ----------------------------------------------------------------- delete

  /** A missing id makes the store throw, 500; otherwise exactly that category is removed. */
  method DeleteCategory(db: CatalogTables, id: string) returns (r: Reply)
    requires db.Valid()
    modifies db`categories
    ensures db.Valid()
    ensures CategoryById(old(db.categories), id).None? ==>
      r.code == 500 && db.categories == old(db.categories)
    ensures CategoryById(old(db.categories), id).Some? ==>
      r == Reply(200, Done("Category deleted successfully"))
      && db.categories == Tables.RemoveAt(old(db.categories), CategoryById(old(db.categories), id).value)
  {
    var found := CategoryById(db.categories, id);
    if found.None? {
      r := Reply(500, Error("Record to delete does not exist."));
      return;
    }
    db.RemoveCategory(found.value);
    r := Reply(200, Done("Category deleted successfully"));
  }
}
