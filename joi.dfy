/**
 * The part of the Joi object-schema validator the request bodies go through:
 * an object schema of string and number keys, validated with
 * `abortEarly: false` so that every violated rule is reported.
 *
 * Per key the validator first checks the type and stops there on a mismatch
 * (an empty string counts as its own failure, `string.empty`); otherwise it
 * runs the key's rules in the order the schema adds them and reports each
 * one that fails. A missing required key is `any.required`. Keys the schema
 * does not name are `object.unknown`, reported after the schema's keys and
 * in the order `Object.keys` lists them.
 *
 * `convert` is Joi's preference of that name (on by default). With it on, a
 * number schema with `precision(p)` rounds the value to `p` places before
 * its rules run and skips the precision rule itself.
 */
module Joi {
  import opened Wrappers
  import Text

  /** A JSON value as the body parser produces it; the contents of arrays and objects play no part here. */
  datatype Json = JString(s: string) | JNumber(n: real) | JBool(b: bool) | JNull | JArray | JObject

  /** JavaScript truthiness of a parsed value (JSON has no NaN). */
  predicate Truthy(v: Json) {
    match v
    case JString(s) => s != ""
    case JNumber(n) => n != 0.0
    case JBool(b) => b
    case JNull => false
    case JArray | JObject => true
  }

  /** A request body: the members of a JSON object, in order. */
  type Body = seq<(string, Json)>

  /** Some member of the body is named `key`. */
  predicate HasKey(body: Body, key: string) {
    exists i :: 0 <= i < |body| && body[i].0 == key
  }

  /**
   * `body[key]` on the object `JSON.parse` builds: the value of the LAST
   * member named `key`, since a later duplicate overwrites an earlier one;
   * None stands for JavaScript's `undefined`.
   */
  function Lookup(body: Body, key: string): (v: Option<Json>)
    ensures v.None? <==> !HasKey(body, key)
    ensures v.Some? ==> exists i :: 0 <= i < |body| && body[i] == (key, v.value) && forall j :: i < j < |body| ==> body[j].0 != key
  {
    if body == [] then None
    else if body[|body| - 1].0 == key then Some(body[|body| - 1].1)
    else
      var v := Lookup(body[..|body| - 1], key);
      assert forall i :: 0 <= i < |body| - 1 ==> body[..|body| - 1][i] == body[i];
      v
  }

  /** A regular-expression bracket class: character ranges, and `\s` when `spaces` is set. */
  datatype CharClass = CharClass(ranges: seq<(char, char)>, spaces: bool)

  predicate InClass(cls: CharClass, c: char) {
    (cls.spaces && Text.IsJsSpace(c)) || exists i :: 0 <= i < |cls.ranges| && cls.ranges[i].0 <= c <= cls.ranges[i].1
  }

  /** `/^[class]+$/.test(s)` */
  predicate FullMatch(cls: CharClass, s: string) {
    |s| > 0 && forall i :: 0 <= i < |s| ==> InClass(cls, s[i])
  }

  /** `Joi.string().min(min).max(max)` with an optional `.pattern(...)`, or `Joi.number().min(min)` with an optional `.precision(p)`. */
  datatype Kind =
    | Str(minLength: nat, maxLength: nat, pattern: Option<CharClass>)
    | Num(least: real, places: Option<nat>)

  /** One key of an object schema, with `.required()` or `.optional()` and the `.messages(...)` overrides. */
  datatype Field = Field(key: string, kind: Kind, required: bool, messages: map<string, string>)

  /** One reported violation. */
  datatype Detail = Detail(key: string, code: string, message: string)

  function Pow10(p: nat): (r: real)
    ensures r >= 1.0
  {
    if p == 0 then 1.0 else 10.0 * Pow10(p - 1)
  }

  /** `Math.round(x * 10^p) / 10^p`, where `Math.round(y)` is the floor of `y + 0.5`. */
  function Round(x: real, p: nat): real {
    ((x * Pow10(p) + 0.5).Floor as real) / Pow10(p)
  }

  /** `x` has at most `p` decimal places. */
  predicate HasPlaces(x: real, p: nat) {
    (x * Pow10(p)).Floor as real == x * Pow10(p)
  }

  /** The failure codes of a string value, in rule order. */
  function StringCodes(minLength: nat, maxLength: nat, pattern: Option<CharClass>, v: Json): (codes: seq<string>)
    ensures !v.JString? ==> codes == ["string.base"]
    ensures v == JString("") ==> codes == ["string.empty"]
    ensures v.JString? && v.s != "" ==>
      && ("string.min" in codes <==> Text.Utf16Length(v.s) < minLength)
      && ("string.max" in codes <==> Text.Utf16Length(v.s) > maxLength)
      && ("string.pattern.base" in codes <==> pattern.Some? && !FullMatch(pattern.value, v.s))
      && (forall c :: c in codes ==> c in {"string.min", "string.max", "string.pattern.base"})
  {
    if !v.JString? then ["string.base"]
    else if v.s == "" then ["string.empty"]
    else
      (if Text.Utf16Length(v.s) < minLength then ["string.min"] else [])
      + (if Text.Utf16Length(v.s) > maxLength then ["string.max"] else [])
      + (if pattern.Some? && !FullMatch(pattern.value, v.s) then ["string.pattern.base"] else [])
  }

  /** The failure codes of a number value, in rule order. */
  function NumberCodes(least: real, places: Option<nat>, v: Json, convert: bool): (codes: seq<string>)
    ensures !v.JNumber? ==> codes == ["number.base"]
    ensures v.JNumber? && !convert ==>
      && ("number.min" in codes <==> v.n < least)
      && ("number.precision" in codes <==> places.Some? && !HasPlaces(v.n, places.value))
    ensures v.JNumber? && convert ==>
      codes == if (if places.Some? then Round(v.n, places.value) else v.n) < least then ["number.min"] else []
  {
    if !v.JNumber? then ["number.base"]
    else if convert then
      var x := if places.Some? then Round(v.n, places.value) else v.n;
      if x < least then ["number.min"] else []
    else
      (if v.n < least then ["number.min"] else [])
      + (if places.Some? && !HasPlaces(v.n, places.value) then ["number.precision"] else [])
  }

  function Codes(kind: Kind, v: Json, convert: bool): seq<string> {
    match kind
    case Str(lo, hi, pattern) => StringCodes(lo, hi, pattern, v)
    case Num(least, places) => NumberCodes(least, places, v, convert)
  }

  /** A value meets a key's rules, stated rule by rule (the strict reading of `precision`). */
  predicate Accepts(kind: Kind, v: Json) {
    match kind
    case Str(lo, hi, pattern) =>
      && v.JString? && v.s != ""
      && lo <= Text.Utf16Length(v.s) <= hi
      && (pattern.Some? ==> FullMatch(pattern.value, v.s))
    case Num(least, places) =>
      && v.JNumber? && v.n >= least
      && (places.Some? ==> HasPlaces(v.n, places.value))
  }

  /** Without conversion a value fails no rule exactly when it meets them all. */
  lemma CodesEmptyIff(kind: Kind, v: Json)
    ensures Codes(kind, v, false) == [] <==> Accepts(kind, v)
  {
    match kind
    case Str(lo, hi, pattern) =>
      if v.JString? && v.s != "" && Codes(kind, v, false) == [] {
        assert "string.min" !in Codes(kind, v, false);
      }
    case Num(least, places) =>
  }

  function Quoted(key: string): string {
    "\"" + key + "\""
  }

  /** The text of a detail: the schema's override, or Joi's default for the two codes without one here. */
  function Message(f: Field, code: string): string {
    if code in f.messages then f.messages[code]
    else if code == "any.required" then Quoted(f.key) + " is required"
    else code
  }

  function Details(f: Field, codes: seq<string>): (ds: seq<Detail>)
    ensures |ds| == |codes|
  {
    if codes == [] then [] else [Detail(f.key, codes[0], Message(f, codes[0]))] + Details(f, codes[1..])
  }

  /** One detail per failure code, in the codes' order, with the key and the code's message. */
  lemma {:induction false} DetailsAt(f: Field, codes: seq<string>, i: nat)
    requires i < |codes|
    ensures Details(f, codes)[i] == Detail(f.key, codes[i], Message(f, codes[i]))
  {
    if i > 0 {
      DetailsAt(f, codes[1..], i - 1);
    }
  }

  /** The violations of one key. */
  function FieldDetails(f: Field, body: Body, convert: bool): seq<Detail> {
    match Lookup(body, f.key)
    case None => if f.required then [Detail(f.key, "any.required", Message(f, "any.required"))] else []
    case Some(v) => Details(f, Codes(f.kind, v, convert))
  }

  /** The parts one after another. */
  function Concat<T>(parts: seq<seq<T>>): seq<T> {
    if parts == [] then [] else parts[0] + Concat(parts[1..])
  }

  lemma {:induction false} ConcatContains<T>(parts: seq<seq<T>>, i: nat, x: T)
    requires i < |parts| && x in parts[i]
    ensures x in Concat(parts)
  {
    if i > 0 {
      ConcatContains(parts[1..], i - 1, x);
    }
  }

  lemma {:induction false} ConcatEmptyIff<T>(parts: seq<seq<T>>)
    ensures Concat(parts) == [] <==> forall i :: 0 <= i < |parts| ==> parts[i] == []
  {
    if parts != [] {
      ConcatEmptyIff(parts[1..]);
      assert forall i :: 1 <= i < |parts| ==> parts[1..][i - 1] == parts[i];
    }
  }

  /** The violations of each schema key, key by key. */
  function KeyDetails(fields: seq<Field>, body: Body, convert: bool): (parts: seq<seq<Detail>>)
    ensures |parts| == |fields|
    ensures forall i :: 0 <= i < |fields| ==> parts[i] == FieldDetails(fields[i], body, convert)
  {
    seq(|fields|, i requires 0 <= i < |fields| => FieldDetails(fields[i], body, convert))
  }

  /** The violations of the schema's keys, in schema order. */
  function ChildDetails(fields: seq<Field>, body: Body, convert: bool): seq<Detail> {
    Concat(KeyDetails(fields, body, convert))
  }

  /** The keys report nothing exactly when no key has a violation. */
  lemma ChildEmptyIff(fields: seq<Field>, body: Body, convert: bool)
    ensures ChildDetails(fields, body, convert) == [] <==>
      forall i :: 0 <= i < |fields| ==> FieldDetails(fields[i], body, convert) == []
  {
    ConcatEmptyIff(KeyDetails(fields, body, convert));
  }

  predicate Named(fields: seq<Field>, key: string) {
    exists i :: 0 <= i < |fields| && fields[i].key == key
  }

  /** The value of a string of decimal digits. */
  function DigitsValue(k: string): nat {
    if k == [] then 0
    else
      var c := k[|k| - 1];
      10 * DigitsValue(k[..|k| - 1]) + (if Text.IsDigit(c) then c as int - '0' as int else 0)
  }

  /**
   * A key JavaScript treats as an array index: the canonical decimal form
   * (no sign, no leading zero) of an integer below 2^32 - 1.
   */
  predicate IsIndexKey(k: string) {
    && k != []
    && (forall i :: 0 <= i < |k| ==> Text.IsDigit(k[i]))
    && (k[0] == '0' ==> |k| == 1)
    && DigitsValue(k) < 0xFFFF_FFFF
  }

  /** Some member named `x` comes before every member named `y`. */
  ghost predicate OccursBefore(body: Body, x: string, y: string) {
    exists i :: 0 <= i < |body| && body[i].0 == x && forall j :: 0 <= j <= i ==> body[j].0 != y
  }

  /**
   * `x` may come before `y` in `Object.keys` of the object parsed from the
   * body: array indices first, in ascending numeric order, then the other
   * keys in the order their first member creates them.
   */
  ghost predicate KeyPrecedes(body: Body, x: string, y: string) {
    if IsIndexKey(y) then IsIndexKey(x) && DigitsValue(x) <= DigitsValue(y)
    else IsIndexKey(x) || OccursBefore(body, x, y)
  }

  ghost predicate InKeyOrder(body: Body, ks: seq<string>) {
    forall a, b :: 0 <= a < b < |ks| ==> KeyPrecedes(body, ks[a], ks[b])
  }

  predicate Distinct(ks: seq<string>) {
    forall a, b :: 0 <= a < b < |ks| ==> ks[a] != ks[b]
  }

  /** An array index placed behind the indices not above it and before every other key. */
  function InsertIndex(k: string, ks: seq<string>): (r: seq<string>)
    ensures |r| == |ks| + 1
    ensures forall x :: x in r <==> x == k || x in ks
  {
    if ks == [] || !IsIndexKey(ks[0]) || DigitsValue(k) < DigitsValue(ks[0]) then [k] + ks
    else
      assert ks == [ks[0]] + ks[1..];
      [ks[0]] + InsertIndex(k, ks[1..])
  }

  /** Inserting an array index keeps a key list in `Object.keys` order. */
  lemma {:induction false} InsertIndexInOrder(body: Body, k: string, ks: seq<string>)
    requires IsIndexKey(k) && InKeyOrder(body, ks)
    ensures InKeyOrder(body, InsertIndex(k, ks))
    decreases |ks|
  {
    var r := InsertIndex(k, ks);
    if ks == [] || !IsIndexKey(ks[0]) || DigitsValue(k) < DigitsValue(ks[0]) {
      assert r == [k] + ks;
      forall a, b | 0 <= a < b < |r|
        ensures KeyPrecedes(body, r[a], r[b])
      {
        if a == 0 {
          if b > 1 {
            assert KeyPrecedes(body, ks[0], ks[b - 1]);
          }
        } else {
          assert KeyPrecedes(body, ks[a - 1], ks[b - 1]);
        }
      }
    } else {
      var t := ks[1..];
      forall a, b | 0 <= a < b < |t|
        ensures KeyPrecedes(body, t[a], t[b])
      {
        assert t[a] == ks[a + 1] && t[b] == ks[b + 1];
      }
      InsertIndexInOrder(body, k, t);
      var rt := InsertIndex(k, t);
      assert r == [ks[0]] + rt;
      forall a, b | 0 <= a < b < |r|
        ensures KeyPrecedes(body, r[a], r[b])
      {
        if a == 0 {
          var y := rt[b - 1];
          assert y in rt;
          if y != k {
            var m :| 0 <= m < |t| && t[m] == y;
            assert KeyPrecedes(body, ks[0], ks[m + 1]);
          }
        } else {
          assert r[a] == rt[a - 1] && r[b] == rt[b - 1];
        }
      }
    }
  }

  lemma {:induction false} InsertIndexDistinct(k: string, ks: seq<string>)
    requires Distinct(ks) && k !in ks
    ensures Distinct(InsertIndex(k, ks))
    decreases |ks|
  {
    var r := InsertIndex(k, ks);
    if ks == [] || !IsIndexKey(ks[0]) || DigitsValue(k) < DigitsValue(ks[0]) {
      assert r == [k] + ks;
      forall a, b | 0 <= a < b < |r|
        ensures r[a] != r[b]
      {
        if a == 0 {
          assert r[b] in ks;
        } else {
          assert r[a] == ks[a - 1] && r[b] == ks[b - 1];
        }
      }
    } else {
      var t := ks[1..];
      assert ks == [ks[0]] + t;
      InsertIndexDistinct(k, t);
      var rt := InsertIndex(k, t);
      assert r == [ks[0]] + rt;
      forall m | 0 <= m < |t|
        ensures t[m] != ks[0]
      {
        assert t[m] == ks[m + 1];
      }
      forall a, b | 0 <= a < b < |r|
        ensures r[a] != r[b]
      {
        if a == 0 {
          assert r[b] in rt;
        } else {
          assert r[a] == rt[a - 1] && r[b] == rt[b - 1];
        }
      }
    }
  }

  /**
   * The keys of the parsed object that the schema does not name, as Joi
   * visits them: each once, in `Object.keys` order.
   */
  function UnknownKeys(fields: seq<Field>, body: Body): (ks: seq<string>)
    ensures forall k :: k in ks <==> HasKey(body, k) && !Named(fields, k)
  {
    if body == [] then []
    else
      var init := body[..|body| - 1];
      var last := body[|body| - 1].0;
      var earlier := UnknownKeys(fields, init);
      assert forall i :: 0 <= i < |init| ==> init[i] == body[i];
      assert forall k :: HasKey(body, k) <==> HasKey(init, k) || k == last;
      if Named(fields, last) || HasKey(init, last) then earlier
      else if IsIndexKey(last) then InsertIndex(last, earlier)
      else earlier + [last]
  }

  /** A key order that holds for a prefix of the body holds for the body. */
  lemma PrefixKeepsOrder(init: Body, body: Body, ks: seq<string>)
    requires init <= body && InKeyOrder(init, ks)
    ensures InKeyOrder(body, ks)
  {
    forall a, b | 0 <= a < b < |ks|
      ensures KeyPrecedes(body, ks[a], ks[b])
    {
      assert KeyPrecedes(init, ks[a], ks[b]);
      if !IsIndexKey(ks[a]) && !IsIndexKey(ks[b]) {
        var i :| 0 <= i < |init| && init[i].0 == ks[a] && forall j :: 0 <= j <= i ==> init[j].0 != ks[b];
        forall j | 0 <= j <= i
          ensures body[j].0 != ks[b]
        {
          assert body[j] == init[j];
        }
        assert body[i] == init[i];
      }
    }
  }

  lemma {:induction false} UnknownKeysInOrder(fields: seq<Field>, body: Body)
    ensures InKeyOrder(body, UnknownKeys(fields, body))
  {
    if body != [] {
      var init := body[..|body| - 1];
      var last := body[|body| - 1].0;
      var earlier := UnknownKeys(fields, init);
      UnknownKeysInOrder(fields, init);
      PrefixKeepsOrder(init, body, earlier);
      if Named(fields, last) || HasKey(init, last) {
      } else if IsIndexKey(last) {
        InsertIndexInOrder(body, last, earlier);
      } else {
        var ks := earlier + [last];
        assert UnknownKeys(fields, body) == ks;
        forall a, b | 0 <= a < b < |ks|
          ensures KeyPrecedes(body, ks[a], ks[b])
        {
          if b == |earlier| {
            var x := earlier[a];
            assert x in earlier;
            if !IsIndexKey(x) {
              var i :| 0 <= i < |init| && init[i].0 == x;
              forall j | 0 <= j <= i
                ensures body[j].0 != last
              {
                assert body[j] == init[j];
              }
              assert body[i] == init[i];
            }
          } else {
            assert ks[a] == earlier[a] && ks[b] == earlier[b];
          }
        }
      }
    }
  }

  lemma {:induction false} UnknownKeysDistinct(fields: seq<Field>, body: Body)
    ensures Distinct(UnknownKeys(fields, body))
  {
    if body != [] {
      var init := body[..|body| - 1];
      var last := body[|body| - 1].0;
      var earlier := UnknownKeys(fields, init);
      UnknownKeysDistinct(fields, init);
      if Named(fields, last) || HasKey(init, last) {
      } else if IsIndexKey(last) {
        InsertIndexDistinct(last, earlier);
      } else {
        var ks := earlier + [last];
        assert UnknownKeys(fields, body) == ks;
        forall a, b | 0 <= a < b < |ks|
          ensures ks[a] != ks[b]
        {
          if b == |earlier| {
            assert earlier[a] in earlier;
          } else {
            assert ks[a] == earlier[a] && ks[b] == earlier[b];
          }
        }
      }
    }
  }

  lemma UnknownKeysEmptyIff(fields: seq<Field>, body: Body)
    ensures UnknownKeys(fields, body) == [] <==> forall j :: 0 <= j < |body| ==> Named(fields, body[j].0)
  {
    var ks := UnknownKeys(fields, body);
    if ks != [] {
      assert ks[0] in ks;
      var i :| 0 <= i < |body| && body[i].0 == ks[0];
      assert !Named(fields, body[i].0);
    }
    forall j | 0 <= j < |body| && !Named(fields, body[j].0)
      ensures body[j].0 in ks
    {
      assert HasKey(body, body[j].0);
    }
  }

  function NotAllowed(key: string): Detail {
    Detail(key, "object.unknown", Quoted(key) + " is not allowed")
  }

  /** `"key" is not allowed` for every key of the parsed object the schema does not name. */
  function UnknownDetails(fields: seq<Field>, body: Body): (ds: seq<Detail>)
    ensures ds == [] <==> forall j :: 0 <= j < |body| ==> Named(fields, body[j].0)
    ensures forall d :: d in ds ==> d.code == "object.unknown" && !Named(fields, d.key) && HasKey(body, d.key)
    ensures |ds| == |UnknownKeys(fields, body)|
    ensures forall i :: 0 <= i < |ds| ==> ds[i] == NotAllowed(UnknownKeys(fields, body)[i])
  {
    var ks := UnknownKeys(fields, body);
    assert forall i :: 0 <= i < |ks| ==> ks[i] in ks;
    UnknownKeysEmptyIff(fields, body);
    seq(|ks|, i requires 0 <= i < |ks| => NotAllowed(ks[i]))
  }

  /** No two details name the same key. */
  predicate KeysDistinct(ds: seq<Detail>) {
    forall a, b :: 0 <= a < b < |ds| ==> ds[a].key != ds[b].key
  }

  /** Each unknown key is reported once, however often the body repeats it. */
  lemma UnknownReportedOnce(fields: seq<Field>, body: Body)
    ensures KeysDistinct(UnknownDetails(fields, body))
  {
    UnknownKeysDistinct(fields, body);
  }

  /**
   * The unknown keys are reported in `Object.keys` order: array indices
   * first and ascending, then the other keys as the body first names them.
   */
  lemma UnknownInKeyOrder(fields: seq<Field>, body: Body)
    ensures var ds := UnknownDetails(fields, body);
      forall a, b :: 0 <= a < b < |ds| ==> KeyPrecedes(body, ds[a].key, ds[b].key)
  {
    UnknownKeysInOrder(fields, body);
  }
  /** `Joi.object(schema).validate(body, { abortEarly: false })`: the details of the error, empty when valid. */
  function Validate(fields: seq<Field>, body: Body, convert: bool): seq<Detail> {
    ChildDetails(fields, body, convert) + UnknownDetails(fields, body)
  }

  /** A key meets its schema entry: present and accepted, or absent and optional. */
  predicate FieldHolds(f: Field, body: Body) {
    match Lookup(body, f.key)
    case None => !f.required
    case Some(v) => Accepts(f.kind, v)
  }

  /**
   * Without conversion a body is valid exactly when every schema key holds
   * and every member is named by the schema.
   */
  lemma {:induction false} ValidIff(fields: seq<Field>, body: Body)
    ensures Validate(fields, body, false) == [] <==>
      && (forall i :: 0 <= i < |fields| ==> FieldHolds(fields[i], body))
      && (forall j :: 0 <= j < |body| ==> Named(fields, body[j].0))
  {
    ChildEmptyIff(fields, body, false);
    forall i | 0 <= i < |fields|
      ensures FieldDetails(fields[i], body, false) == [] <==> FieldHolds(fields[i], body)
    {
      match Lookup(body, fields[i].key)
      case None =>
      case Some(v) => CodesEmptyIff(fields[i].kind, v);
    }
  }

  /** Every key's violations are all reported, whatever the other keys do. */
  lemma {:induction false} AllViolationsReported(fields: seq<Field>, body: Body, convert: bool, i: nat, d: Detail)
    requires i < |fields| && d in FieldDetails(fields[i], body, convert)
    ensures d in Validate(fields, body, convert)
  {
    ChildContains(fields, body, convert, i, d);
  }

  lemma ChildContains(fields: seq<Field>, body: Body, convert: bool, i: nat, d: Detail)
    requires i < |fields| && d in FieldDetails(fields[i], body, convert)
    ensures d in ChildDetails(fields, body, convert)
  {
    ConcatContains(KeyDetails(fields, body, convert), i, d);
  }

  /** `.optional()` on every key, as the update schemas are built. */
  function Optional(fields: seq<Field>): (r: seq<Field>)
    ensures |r| == |fields|
    ensures forall i :: 0 <= i < |fields| ==> r[i] == fields[i].(required := false)
  {
    seq(|fields|, i requires 0 <= i < |fields| => fields[i].(required := false))
  }

  /** Under an all-optional schema the empty body is valid. */
  lemma {:induction false} EmptyBodyValidWhenOptional(fields: seq<Field>, convert: bool)
    ensures Validate(Optional(fields), [], convert) == []
  {
    var opt := Optional(fields);
    ChildEmptyIff(opt, [], convert);
    forall i | 0 <= i < |opt|
      ensures FieldDetails(opt[i], [], convert) == []
    {
      assert Lookup([], opt[i].key).None?;
    }
  }
}
