/**
 * The product body schema: `name` (2 to 100 characters of letters, digits,
 * whitespace, apostrophes and hyphens), `price` (a number of at least 0.01
 * with at most two decimal places) and `categoryId` (2 to 50 characters),
 * all required on create and all optional on update.
 */
module ProductValidation {
  import opened Wrappers
  import opened Joi
  import Text

  /** `[a-zA-Z0-9\s'-]` */
  const NameClass := CharClass([('a', 'z'), ('A', 'Z'), ('0', '9'), ('\'', '\''), ('-', '-')], true)

  const NameMessages: map<string, string> := map[
    "string.base" := "Name must be a string",
    "string.empty" := "Name is required",
    "string.min" := "Name must be at least 2 characters",
    "string.max" := "Name must be at most 100 characters",
    "string.pattern.base" := "Name can only contain letters, numbers, spaces, apostrophes (') and hyphens (-)"
  ]

  const PriceMessages: map<string, string> := map[
    "number.base" := "Price must be a number",
    "number.empty" := "Price is required",
    "number.min" := "Price must be greater than 0",
    "number.precision" := "Price can have up to two decimal places"
  ]

  const CategoryIdMessages: map<string, string> := map[
    "string.base" := "Category ID must be a string",
    "string.empty" := "Category ID is required",
    "string.min" := "Category ID must be at least 2 characters",
    "string.max" := "Category ID must be at most 50 characters"
  ]

  const NameField := Field("name", Str(2, 100, Some(NameClass)), true, NameMessages)
  const PriceField := Field("price", Num(0.01, Some(2)), true, PriceMessages)
  const CategoryIdField := Field("categoryId", Str(2, 50, None), true, CategoryIdMessages)

  const ProductSchema := [NameField, PriceField, CategoryIdField]

  /**
   * `productValidation` with the precision rule enforced: the reading the
   * schema's own "up to two decimal places" message asks for.
   */
  function ProductCheck(body: Body): seq<Detail> {
    Validate(ProductSchema, body, false)
  }

  /** `productValidationUpdate` with the precision rule enforced. */
  function ProductUpdateCheck(body: Body): seq<Detail> {
    Validate(Optional(ProductSchema), body, false)
  }

  /** `productValidation` as written: Joi's default conversion rounds the price to two places instead. */
  function ProductCheckAsWritten(body: Body): seq<Detail> {
    Validate(ProductSchema, body, true)
  }

  /** `productValidationUpdate` as written, under Joi's default conversion. */
  function ProductUpdateCheckAsWritten(body: Body): seq<Detail> {
    Validate(Optional(ProductSchema), body, true)
  }

  // ------------------------------------------------------------- key rules

  /** The characters the name pattern admits. */
  predicate NameChar(c: char) {
    Text.IsAsciiLetter(c) || Text.IsDigit(c) || Text.IsJsSpace(c) || c == '\'' || c == '-'
  }

  lemma NameClassIff(c: char)
    ensures InClass(NameClass, c) <==> NameChar(c)
  {
    if InClass(NameClass, c) && !Text.IsJsSpace(c) {
      var i :| 0 <= i < |NameClass.ranges| && NameClass.ranges[i].0 <= c <= NameClass.ranges[i].1;
      assert i < 5;
    }
    if NameChar(c) && !Text.IsJsSpace(c) {
      if 'a' <= c <= 'z' {
        assert NameClass.ranges[0].0 <= c <= NameClass.ranges[0].1;
      } else if 'A' <= c <= 'Z' {
        assert NameClass.ranges[1].0 <= c <= NameClass.ranges[1].1;
      } else if '0' <= c <= '9' {
        assert NameClass.ranges[2].0 <= c <= NameClass.ranges[2].1;
      } else if c == '\'' {
        assert NameClass.ranges[3].0 <= c <= NameClass.ranges[3].1;
      } else {
        assert NameClass.ranges[4].0 <= c <= NameClass.ranges[4].1;
      }
    }
  }

  /** A name is a string of 2 to 100 UTF-16 units, each a letter, digit, `\s`, apostrophe or hyphen. */
  predicate GoodName(v: Json) {
    v.JString? && 2 <= Text.Utf16Length(v.s) <= 100 && forall i :: 0 <= i < |v.s| ==> NameChar(v.s[i])
  }

  /** A price is a number of at least 0.01 with at most two decimal places. */
  predicate GoodPrice(v: Json) {
    v.JNumber? && v.n >= 0.01 && HasPlaces(v.n, 2)
  }

  /** A category id is any string of 2 to 50 UTF-16 units. */
  predicate GoodCategoryId(v: Json) {
    v.JString? && 2 <= Text.Utf16Length(v.s) <= 50
  }

  lemma NameRule(v: Json)
    ensures Accepts(NameField.kind, v) <==> GoodName(v)
  {
    if v.JString? {
      forall i | 0 <= i < |v.s| {
        NameClassIff(v.s[i]);
      }
      if GoodName(v) {
        assert v.s != "";
      }
    }
  }

  lemma PriceRule(v: Json)
    ensures Accepts(PriceField.kind, v) <==> GoodPrice(v)
  {
  }

  lemma CategoryIdRule(v: Json)
    ensures Accepts(CategoryIdField.kind, v) <==> GoodCategoryId(v)
  {
    if GoodCategoryId(v) {
      assert v.s != "";
    }
  }

  predicate OnlySchemaKeys(body: Body) {
    forall j :: 0 <= j < |body| ==> body[j].0 in {"name", "price", "categoryId"}
  }

  lemma NamedIff(fields: seq<Field>, key: string)
    requires fields == ProductSchema || fields == Optional(ProductSchema)
    ensures Named(fields, key) <==> key in {"name", "price", "categoryId"}
  {
    if key == "name" {
      assert fields[0].key == key;
    } else if key == "price" {
      assert fields[1].key == key;
    } else if key == "categoryId" {
      assert fields[2].key == key;
    }
  }

  // ---------------------------------------------------------- the schemas

  lemma NameHolds(body: Body, required: bool)
    ensures FieldHolds(NameField.(required := required), body) <==>
      if Lookup(body, "name").Some? then GoodName(Lookup(body, "name").value) else !required
  {
    if Lookup(body, "name").Some? { NameRule(Lookup(body, "name").value); }
  }

  lemma PriceHolds(body: Body, required: bool)
    ensures FieldHolds(PriceField.(required := required), body) <==>
      if Lookup(body, "price").Some? then GoodPrice(Lookup(body, "price").value) else !required
  {
    if Lookup(body, "price").Some? { PriceRule(Lookup(body, "price").value); }
  }

  lemma CategoryIdHolds(body: Body, required: bool)
    ensures FieldHolds(CategoryIdField.(required := required), body) <==>
      if Lookup(body, "categoryId").Some? then GoodCategoryId(Lookup(body, "categoryId").value) else !required
  {
    if Lookup(body, "categoryId").Some? { CategoryIdRule(Lookup(body, "categoryId").value); }
  }

  /** The schema with every key's presence set to `required`. */
  function Schema(required: bool): (fields: seq<Field>)
    ensures fields == if required then ProductSchema else Optional(ProductSchema)
  {
    [NameField.(required := required), PriceField.(required := required), CategoryIdField.(required := required)]
  }

  lemma {:induction false} SchemaHolds(required: bool, body: Body)
    ensures (forall i :: 0 <= i < |Schema(required)| ==> FieldHolds(Schema(required)[i], body)) <==>
      && (if Lookup(body, "name").Some? then GoodName(Lookup(body, "name").value) else !required)
      && (if Lookup(body, "price").Some? then GoodPrice(Lookup(body, "price").value) else !required)
      && (if Lookup(body, "categoryId").Some? then GoodCategoryId(Lookup(body, "categoryId").value) else !required)
  {
    var fields := Schema(required);
    NameHolds(body, required);
    PriceHolds(body, required);
    CategoryIdHolds(body, required);
    assert (forall i :: 0 <= i < |fields| ==> FieldHolds(fields[i], body)) <==>
      FieldHolds(fields[0], body) && FieldHolds(fields[1], body) && FieldHolds(fields[2], body);
  }

  /** A create body is valid exactly when it has the three keys, each meeting its rule, and no other. */
  lemma {:induction false} CreateValidIff(body: Body)
    ensures ProductCheck(body) == [] <==>
      && Lookup(body, "name").Some? && GoodName(Lookup(body, "name").value)
      && Lookup(body, "price").Some? && GoodPrice(Lookup(body, "price").value)
      && Lookup(body, "categoryId").Some? && GoodCategoryId(Lookup(body, "categoryId").value)
      && OnlySchemaKeys(body)
  {
    ValidIff(Schema(true), body);
    SchemaKeysIff(Schema(true), body);
    SchemaHolds(true, body);
  }

  lemma {:induction false} SchemaKeysIff(fields: seq<Field>, body: Body)
    requires fields == ProductSchema || fields == Optional(ProductSchema)
    ensures (forall j :: 0 <= j < |body| ==> Named(fields, body[j].0)) <==> OnlySchemaKeys(body)
  {
    forall j | 0 <= j < |body| {
      NamedIff(fields, body[j].0);
    }
  }

  /** An update body is valid exactly when each key it has meets its rule and it has no other key. */
  lemma {:induction false} UpdateValidIff(body: Body)
    ensures ProductUpdateCheck(body) == [] <==>
      && (Lookup(body, "name").Some? ==> GoodName(Lookup(body, "name").value))
      && (Lookup(body, "price").Some? ==> GoodPrice(Lookup(body, "price").value))
      && (Lookup(body, "categoryId").Some? ==> GoodCategoryId(Lookup(body, "categoryId").value))
      && OnlySchemaKeys(body)
  {
    ValidIff(Schema(false), body);
    SchemaKeysIff(Schema(false), body);
    SchemaHolds(false, body);
  }

  /** `{}` passes the update schema, with and without conversion. */
  lemma EmptyUpdateValid()
    ensures ProductUpdateCheck([]) == []
    ensures ProductUpdateCheckAsWritten([]) == []
  {
    EmptyBodyValidWhenOptional(ProductSchema, false);
    EmptyBodyValidWhenOptional(ProductSchema, true);
  }

  /** After a create body valid as written, the handler's `!name || !price || !categoryId` test cannot fire. */
  lemma ValidCreateIsTruthy(body: Body)
    requires ProductCheckAsWritten(body) == []
    ensures Lookup(body, "name").Some? && Truthy(Lookup(body, "name").value)
    ensures Lookup(body, "price").Some? && Truthy(Lookup(body, "price").value)
    ensures Lookup(body, "categoryId").Some? && Truthy(Lookup(body, "categoryId").value)
  {
    CreateValidAsWrittenIff(body);
  }

  // ------------------------------------------------- precision as written

  /** As written, a number price is accepted exactly when it rounds to at least 0.01, that is when it is at least 0.005. */
  lemma PriceAsWritten(n: real)
    ensures Codes(PriceField.kind, JNumber(n), true) == [] <==> n >= 0.005
  {
    var y := n * 100.0 + 0.5;
    if n >= 0.005 {
      assert y >= 1.0;
      assert y.Floor >= 1;
    } else {
      assert y < 1.0;
      assert y.Floor <= 0;
    }
  }

  /** A price as the schema as written admits it: a number that rounds to at least 0.01, whatever its places. */
  predicate RoundsToPrice(v: Json) {
    v.JNumber? && v.n >= 0.005
  }

  /** As written, the price key reports nothing exactly when a present price rounds to a price, or it is absent and optional. */
  lemma PriceHoldsAsWritten(body: Body, required: bool)
    ensures FieldDetails(PriceField.(required := required), body, true) == [] <==>
      if Lookup(body, "price").Some? then RoundsToPrice(Lookup(body, "price").value) else !required
  {
    if Lookup(body, "price").Some? && Lookup(body, "price").value.JNumber? {
      PriceAsWritten(Lookup(body, "price").value.n);
    }
  }

  /** A string key is checked alike with and without conversion. */
  lemma StringKeyIgnoresConvert(f: Field, body: Body)
    requires f.kind.Str?
    ensures FieldDetails(f, body, true) == FieldDetails(f, body, false)
  {
  }

  /** The key's entry holds exactly when it reports nothing. */
  lemma HoldsIffNoDetails(f: Field, body: Body)
    ensures FieldDetails(f, body, false) == [] <==> FieldHolds(f, body)
  {
    if Lookup(body, f.key).Some? {
      CodesEmptyIff(f.kind, Lookup(body, f.key).value);
    }
  }

  /**
   * `productValidation` as written accepts a create body exactly when name
   * and categoryId meet their rules, price is a number of at least 0.005 with
   * any number of places, and no other key is present.
   */
  lemma {:induction false} CreateValidAsWrittenIff(body: Body)
    ensures ProductCheckAsWritten(body) == [] <==>
      && Lookup(body, "name").Some? && GoodName(Lookup(body, "name").value)
      && Lookup(body, "price").Some? && RoundsToPrice(Lookup(body, "price").value)
      && Lookup(body, "categoryId").Some? && GoodCategoryId(Lookup(body, "categoryId").value)
      && OnlySchemaKeys(body)
  {
    SchemaKeysIff(Schema(true), body);
    ChildrenAsWritten(body, true);
    StringKeyAsWritten(body, true);
    PriceHoldsAsWritten(body, true);
  }

  /**
   * `productValidationUpdate` as written accepts a body exactly when each of
   * the three keys it has meets its rule, the price only rounding to at
   * least 0.01, and it has no other key.
   */
  lemma {:induction false} UpdateValidAsWrittenIff(body: Body)
    ensures ProductUpdateCheckAsWritten(body) == [] <==>
      && (Lookup(body, "name").Some? ==> GoodName(Lookup(body, "name").value))
      && (Lookup(body, "price").Some? ==> RoundsToPrice(Lookup(body, "price").value))
      && (Lookup(body, "categoryId").Some? ==> GoodCategoryId(Lookup(body, "categoryId").value))
      && OnlySchemaKeys(body)
  {
    SchemaKeysIff(Schema(false), body);
    ChildrenAsWritten(body, false);
    StringKeyAsWritten(body, false);
    PriceHoldsAsWritten(body, false);
  }

  /** Under conversion the schema's keys report nothing exactly when each of the three reports nothing. */
  lemma ChildrenAsWritten(body: Body, required: bool)
    ensures ChildDetails(Schema(required), body, true) == [] <==>
      && FieldDetails(NameField.(required := required), body, true) == []
      && FieldDetails(PriceField.(required := required), body, true) == []
      && FieldDetails(CategoryIdField.(required := required), body, true) == []
  {
    var fields := Schema(required);
    ChildEmptyIff(fields, body, true);
    assert fields[0] == NameField.(required := required);
    assert fields[1] == PriceField.(required := required);
    assert fields[2] == CategoryIdField.(required := required);
  }

  /** Under conversion the two string keys report nothing exactly when they meet their rules, or are absent and optional. */
  lemma StringKeyAsWritten(body: Body, required: bool)
    ensures FieldDetails(NameField.(required := required), body, true) == [] <==>
      if Lookup(body, "name").Some? then GoodName(Lookup(body, "name").value) else !required
    ensures FieldDetails(CategoryIdField.(required := required), body, true) == [] <==>
      if Lookup(body, "categoryId").Some? then GoodCategoryId(Lookup(body, "categoryId").value) else !required
  {
    StringKeyIgnoresConvert(NameField.(required := required), body);
    StringKeyIgnoresConvert(CategoryIdField.(required := required), body);
    HoldsIffNoDetails(NameField.(required := required), body);
    HoldsIffNoDetails(CategoryIdField.(required := required), body);
    NameHolds(body, required);
    CategoryIdHolds(body, required);
  }

  /** A body the schema as written lets through with a three-place price, which the strict rule rejects. */
  lemma ThreePlacePriceAccepted()
    ensures var body := [("name", JString("Tea")), ("price", JNumber(12.345)), ("categoryId", JString("c1"))];
      && ProductCheckAsWritten(body) == []
      && ProductCheck(body) != []
  {
    var body := [("name", JString("Tea")), ("price", JNumber(12.345)), ("categoryId", JString("c1"))];
    ThreePlaceBodyMembers(body);
    ThreePlaceBodyKeys(body);
    ThreePlaceAcceptedAsWritten(body);
    ThreePlaceRejectedStrictly(body);
  }

  /** A body with valid strings, only the schema's keys and a price of 12.345 passes the schema as written. */
  lemma ThreePlaceAcceptedAsWritten(body: Body)
    requires Lookup(body, "name").Some? && GoodName(Lookup(body, "name").value)
    requires Lookup(body, "price") == Some(JNumber(12.345))
    requires Lookup(body, "categoryId").Some? && GoodCategoryId(Lookup(body, "categoryId").value)
    requires OnlySchemaKeys(body)
    ensures ProductCheckAsWritten(body) == []
  {
    assert RoundsToPrice(JNumber(12.345));
    CreateValidAsWrittenIff(body);
  }

  /** 12.345 has more than two decimal places. */
  lemma ThreePlaces()
    ensures !HasPlaces(12.345, 2)
  {
    assert Pow10(1) == 10.0;
    assert Pow10(2) == 100.0;
    var y := 12.345 * Pow10(2);
    assert y == 1234.5;
    assert 1234.0 <= y < 1235.0;
    assert y.Floor == 1234;
  }

  /** A price of 12.345 fails the two-place rule, whatever else the body holds. */
  lemma ThreePlaceRejectedStrictly(body: Body)
    requires Lookup(body, "price") == Some(JNumber(12.345))
    ensures ProductCheck(body) != []
  {
    ThreePlaces();
    assert "number.precision" in Codes(PriceField.kind, JNumber(12.345), false);
    var price := FieldDetails(PriceField, body, false);
    assert price != [];
    assert ProductSchema[1] == PriceField;
    AllViolationsReported(ProductSchema, body, false, 1, price[0]);
  }

  /** The update body `{price: 12.345}` passes the update schema as written but fails the two-place rule. */
  lemma ThreePlaceUpdateAccepted()
    ensures var body := [("price", JNumber(12.345))];
      && ProductUpdateCheckAsWritten(body) == []
      && ProductUpdateCheck(body) != []
  {
    var body := [("price", JNumber(12.345))];
    assert Lookup(body, "name").None? && Lookup(body, "categoryId").None?;
    assert Lookup(body, "price") == Some(JNumber(12.345));
    assert OnlySchemaKeys(body);
    assert RoundsToPrice(JNumber(12.345));
    UpdateValidAsWrittenIff(body);
    ThreePlaceUpdateRejectedStrictly(body);
  }

  /** A price of 12.345 fails the two-place rule of the update schema, whatever else the body holds. */
  lemma ThreePlaceUpdateRejectedStrictly(body: Body)
    requires Lookup(body, "price") == Some(JNumber(12.345))
    ensures ProductUpdateCheck(body) != []
  {
    ThreePlaces();
    var f := PriceField.(required := false);
    assert "number.precision" in Codes(f.kind, JNumber(12.345), false);
    var price := FieldDetails(f, body, false);
    assert price != [];
    assert Optional(ProductSchema)[1] == f;
    AllViolationsReported(Optional(ProductSchema), body, false, 1, price[0]);
  }

  lemma ThreePlaceBodyMembers(body: Body)
    requires body == [("name", JString("Tea")), ("price", JNumber(12.345)), ("categoryId", JString("c1"))]
    ensures Lookup(body, "name") == Some(JString("Tea")) && GoodName(JString("Tea"))
    ensures Lookup(body, "price") == Some(JNumber(12.345))
    ensures Lookup(body, "categoryId") == Some(JString("c1")) && GoodCategoryId(JString("c1"))
  {
    assert body[..2][..1] == body[..1];
    assert Lookup(body[..1], "name") == Some(JString("Tea"));
    assert Lookup(body[..2], "name") == Some(JString("Tea"));
    assert Lookup(body[..2], "price") == Some(JNumber(12.345));
    ThreePlaceBodyStrings();
  }

  lemma ThreePlaceBodyKeys(body: Body)
    requires body == [("name", JString("Tea")), ("price", JNumber(12.345)), ("categoryId", JString("c1"))]
    ensures OnlySchemaKeys(body)
  {
  }

  lemma ThreePlaceBodyStrings()
    ensures GoodName(JString("Tea")) && GoodCategoryId(JString("c1"))
  {
    assert Text.Utf16Length("Tea") == 3;
    assert Text.Utf16Length("c1") == 2;
  }

  /** A create body with valid keys followed by the unknown keys "x" and "0", in that order. */
  const IndexKeyBody: Body := [("name", JString("Tea")), ("price", JNumber(1.0)), ("categoryId", JString("c1")),
                               ("x", JNumber(1.0)), ("0", JNumber(2.0))]

  /**
   * With the schema's keys valid, the first detail is the unknown array
   * index "0", not the earlier unknown "x": `Object.keys` lists array
   * indices first.
   */
  lemma IndexKeyReportedFirst(body: Body)
    requires body == IndexKeyBody
    ensures ProductCheckAsWritten(body) == [NotAllowed("0"), NotAllowed("x")]
  {
    IndexKeyBodyUnknown(body);
    IndexKeyBodyChildren(body);
  }

  lemma IndexKeyBodyUnknown(body: Body)
    requires body == IndexKeyBody
    ensures UnknownDetails(ProductSchema, body) == [NotAllowed("0"), NotAllowed("x")]
  {
    IndexKeyBodyKeys(body);
    var ds := UnknownDetails(ProductSchema, body);
    assert |ds| == 2;
    assert ds[0] == NotAllowed("0") && ds[1] == NotAllowed("x");
  }

  lemma IndexKeyBodyKeys(body: Body)
    requires body == IndexKeyBody
    ensures UnknownKeys(ProductSchema, body) == ["0", "x"]
  {
    var known := body[..3];
    var withX := body[..4];
    assert known == [("name", JString("Tea")), ("price", JNumber(1.0)), ("categoryId", JString("c1"))];
    assert withX[..|withX| - 1] == known && body[..|body| - 1] == withX;
    assert ProductSchema[0].key == "name" && ProductSchema[1].key == "price" && ProductSchema[2].key == "categoryId";
    assert forall j :: 0 <= j < |known| ==> Named(ProductSchema, known[j].0);
    UnknownKeysEmptyIff(ProductSchema, known);
    assert !Named(ProductSchema, "x") && !HasKey(known, "x") && !IsIndexKey("x");
    assert UnknownKeys(ProductSchema, withX) == ["x"];
    assert DigitsValue("0") == 0;
    assert !Named(ProductSchema, "0") && !HasKey(withX, "0") && IsIndexKey("0");
  }

  lemma IndexKeyBodyChildren(body: Body)
    requires body == IndexKeyBody
    ensures ProductCheckAsWritten(body) == UnknownDetails(ProductSchema, body)
  {
    var known := body[..3];
    assert body[..|body| - 1][..|body| - 2] == known;
    assert known[..2][..1] == known[..1];
    assert Lookup(known[..1], "name") == Some(JString("Tea"));
    assert Lookup(known[..2], "price") == Some(JNumber(1.0));
    assert Lookup(body, "name") == Some(JString("Tea"));
    assert Lookup(body, "price") == Some(JNumber(1.0));
    assert Lookup(body, "categoryId") == Some(JString("c1"));
    ThreePlaceBodyStrings();
    ChildrenAsWritten(body, true);
    StringKeyAsWritten(body, true);
    PriceHoldsAsWritten(body, true);
    assert ChildDetails(ProductSchema, body, true) == [];
  }
}
