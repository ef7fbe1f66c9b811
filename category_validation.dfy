/**
 * The category body schema: a required `name` of 2 to 100 characters of
 * letters, digits, whitespace, apostrophes and hyphens; optional on update.
 */
module CategoryValidation {
  import opened Wrappers
  import opened Joi
  import ProductValidation

  /**
   * The category file repeats the product name rule word for word: the same
   * bounds, pattern and messages, so the key is that one.
   */
  const NameField := ProductValidation.NameField

  const CategorySchema := [NameField]

  /** `categoryValidation` */
  function CategoryCheck(body: Body): seq<Detail> {
    Validate(CategorySchema, body, true)
  }

  /** `categoryValidationUpdate` */
  function CategoryUpdateCheck(body: Body): seq<Detail> {
    Validate(Optional(CategorySchema), body, true)
  }

  lemma {:induction false} NameOnlyKeys(fields: seq<Field>, body: Body)
    requires fields == CategorySchema || fields == Optional(CategorySchema)
    ensures (forall j :: 0 <= j < |body| ==> Named(fields, body[j].0)) <==>
      forall j :: 0 <= j < |body| ==> body[j].0 == "name"
  {
    forall j | 0 <= j < |body|
      ensures Named(fields, body[j].0) <==> body[j].0 == "name"
    {
      assert fields[0].key == "name";
    }
  }

  /** A create body is valid exactly when it has a good name and no other key. */
  lemma {:induction false} CreateValidIff(body: Body)
    ensures CategoryCheck(body) == [] <==>
      && Lookup(body, "name").Some? && ProductValidation.GoodName(Lookup(body, "name").value)
      && forall j :: 0 <= j < |body| ==> body[j].0 == "name"
  {
    ProductValidation.StringKeyIgnoresConvert(NameField, body);
    ChildEmptyIff(CategorySchema, body, true);
    ChildEmptyIff(CategorySchema, body, false);
    ValidIff(CategorySchema, body);
    NameOnlyKeys(CategorySchema, body);
    ProductValidation.NameHolds(body, true);
    assert NameField.(required := true) == NameField;
  }

  /** An update body is valid exactly when any name it has is good and it has no other key. */
  lemma {:induction false} UpdateValidIff(body: Body)
    ensures CategoryUpdateCheck(body) == [] <==>
      && (Lookup(body, "name").Some? ==> ProductValidation.GoodName(Lookup(body, "name").value))
      && forall j :: 0 <= j < |body| ==> body[j].0 == "name"
  {
    var opt := Optional(CategorySchema);
    assert opt == [NameField.(required := false)];
    ProductValidation.StringKeyIgnoresConvert(opt[0], body);
    ChildDetailsOne(opt, body);
    ProductValidation.HoldsIffNoDetails(opt[0], body);
    NameOnlyKeys(opt, body);
    ProductValidation.NameHolds(body, false);
  }

  lemma ChildDetailsOne(fields: seq<Field>, body: Body)
    requires |fields| == 1
    ensures ChildDetails(fields, body, true) == FieldDetails(fields[0], body, true)
  {
    var parts := KeyDetails(fields, body, true);
    assert parts[1..] == [] && Concat(parts[1..]) == [];
    assert Concat(parts) == parts[0] + [];
  }

  /** `{}` passes the update schema. */
  lemma EmptyUpdateValid()
    ensures CategoryUpdateCheck([]) == []
  {
    EmptyBodyValidWhenOptional(CategorySchema, true);
  }

  /** After a valid create body the handler's `!name` test cannot fire. */
  lemma ValidCreateIsTruthy(body: Body)
    requires CategoryCheck(body) == []
    ensures Lookup(body, "name").Some? && Truthy(Lookup(body, "name").value)
  {
    CreateValidIff(body);
  }
}
