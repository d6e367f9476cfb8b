/**
 * Conversion of a Zod object schema into the JSON Schema (draft-04) document that
 * API Gateway takes as a request or response model.
 *
 * The spec functions (ScalarDoc, ElementDoc, FieldDoc, OptionDocs, ShapeDocs, ObjectDoc)
 * give the meaning of the conversion; the methods with the source's names
 * (ConvertScalarValueToSchema, ConvertObjectToSchema, ConvertScalarOrObjectTypeToSchema,
 * ConvertZodSchemaToApiGatewayModel) do it step by step, as the source does, and are
 * proved equal to them.
 */
module Validation {
  import opened Wrappers

  /** The value held by a `z.literal(...)`. */
  datatype Primitive = PString(str: string) | PNumber(num: int) | PBoolean(flag: bool) | PNull

  /**
   * A Zod schema node, reduced to the classes the converter tests with `instanceof`.
   * `acceptsUndefined` stands for the node's `isOptional()` answer. Every other Zod
   * class (ZodOptional, ZodNullable, ZodEffects, ZodEnum, ZodTuple, ZodDate, ...) is `Other`.
   */
  datatype Schema =
    | Literal(value: Primitive, acceptsUndefined: bool)
    | Str(acceptsUndefined: bool)
    | Num(acceptsUndefined: bool)
    | Bool(acceptsUndefined: bool)
    | Union(options: seq<Schema>, acceptsUndefined: bool)
    | Array(element: Schema, acceptsUndefined: bool)
    | Object(shape: seq<(string, Schema)>, acceptsUndefined: bool)
    | Other(kind: string, acceptsUndefined: bool)

  /** API Gateway's `JsonSchemaType`. */
  datatype JsonSchemaType = NullType | BooleanType | ObjectType | ArrayType | NumberType | IntegerType | StringType

  /** API Gateway's `JsonSchemaVersion.DRAFT4`. */
  const Draft4: string := "http://json-schema.org/draft-04/schema#"

  /** A JSON Schema document; a keyword the converter did not emit is `None`. */
  datatype Doc = Doc(
    schemaVersion: Option<string>,
    ty: Option<JsonSchemaType>,
    enumValues: Option<seq<Primitive>>,
    oneOf: Option<seq<Doc>>,
    items: Option<Doc>,
    properties: Option<map<string, Doc>>,
    required: Option<seq<string>>)

  datatype ConvertError =
    | UnsupportedFieldType(field: Schema)   // "Unsupported field type" thrown by the scalar converter
    | MissingShape(schema: Schema)          // `Object.entries(schema.shape)` on a non-object schema

  function TypeDoc(t: JsonSchemaType, enumValues: Option<seq<Primitive>>): Doc
  {
    Doc(None, Some(t), enumValues, None, None, None, None)
  }

  predicate IsScalar(f: Schema)
  {
    f.Literal? || f.Str? || f.Num? || f.Bool?
  }

  /** The `type` a scalar node maps to; a literal maps to string whatever its value. */
  function ScalarType(f: Schema): JsonSchemaType
    requires IsScalar(f)
  {
    match f
    case Literal(_, _) => StringType
    case Str(_) => StringType
    case Num(_) => NumberType
    case Bool(_) => BooleanType
  }

  /** The scalar table: only a literal carries an `enum`, holding its one value. */
  function ScalarDoc(f: Schema): (r: Result<Doc, ConvertError>)
  {
    if IsScalar(f) then Success(TypeDoc(ScalarType(f), if f.Literal? then Some([f.value]) else None))
    else Failure(UnsupportedFieldType(f))
  }

  /**
   * The scalar converter class by class: a literal becomes a string type whose `enum`
   * holds its one value, a string, number or boolean node becomes its type without an
   * `enum`, and every other node is reported as unsupported.
   */
  lemma ScalarDocTable(f: Schema)
    ensures f.Literal? ==> ScalarDoc(f) == Success(Doc(None, Some(StringType), Some([f.value]), None, None, None, None))
    ensures f.Str? ==> ScalarDoc(f) == Success(Doc(None, Some(StringType), None, None, None, None, None))
    ensures f.Num? ==> ScalarDoc(f) == Success(Doc(None, Some(NumberType), None, None, None, None, None))
    ensures f.Bool? ==> ScalarDoc(f) == Success(Doc(None, Some(BooleanType), None, None, None, None, None))
    ensures ScalarDoc(f).Failure? <==> f.Union? || f.Array? || f.Object? || f.Other?
    ensures ScalarDoc(f).Failure? ==> ScalarDoc(f).error == UnsupportedFieldType(f)
  {
  }

  /** The keys of a shape, in declaration order. */
  function Keys(shape: seq<(string, Schema)>): (r: seq<string>)
    ensures |r| == |shape|
    ensures forall i | 0 <= i < |shape| :: r[i] == shape[i].0
  {
    if |shape| == 0 then [] else Keys(shape[..|shape| - 1]) + [shape[|shape| - 1].0]
  }

  /** The keys whose schema does not accept `undefined`, in declaration order. */
  function RequiredKeys(shape: seq<(string, Schema)>): seq<string>
  {
    if |shape| == 0 then []
    else
      var last := shape[|shape| - 1];
      RequiredKeys(shape[..|shape| - 1]) + (if last.1.acceptsUndefined then [] else [last.0])
  }

  predicate DistinctKeys(shape: seq<(string, Schema)>)
  {
    forall i, j | 0 <= i < j < |shape| :: shape[i].0 != shape[j].0
  }

  /** An error the converter reports names a node that is neither a scalar nor an object. */
  predicate ReportsUnsupported<T>(r: Result<T, ConvertError>)
  {
    r.Failure? ==> r.error.UnsupportedFieldType? && !IsScalar(r.error.field) && !r.error.field.Object?
  }

  /** `convertScalarOrObjectTypeToSchema`: the conversion of a union option or an array element. */
  function ElementDoc(f: Schema): (r: Result<Doc, ConvertError>)
    decreases f, 2
    ensures ReportsUnsupported(r)
    ensures r.Success? ==> (f.Object? && r.value.ty == Some(ObjectType)) || (IsScalar(f) && r == ScalarDoc(f))
  {
    if f.Object? then ObjectDoc(f) else ScalarDoc(f)
  }

  /** The `oneOf` entries of the first `n` options of a union, in order. */
  function OptionDocs(u: Schema, n: nat): (r: Result<seq<Doc>, ConvertError>)
    requires u.Union? && n <= |u.options|
    decreases u, 0, n
    ensures ReportsUnsupported(r)
    ensures r.Success? ==> |r.value| == n
    ensures r.Success? ==> forall i | 0 <= i < n :: ElementDoc(u.options[i]) == Success(r.value[i])
    ensures r.Success? <==> forall i | 0 <= i < n :: ElementDoc(u.options[i]).Success?
  {
    if n == 0 then Success([])
    else
      var front := OptionDocs(u, n - 1);
      if front.Failure? then Failure(front.error)
      else
        var d := ElementDoc(u.options[n - 1]);
        if d.Failure? then Failure(d.error) else Success(front.value + [d.value])
  }

  /** The document of one property of an object (the branches of lines 42-55). */
  function FieldDoc(v: Schema): (r: Result<Doc, ConvertError>)
    decreases v, 3
    ensures ReportsUnsupported(r)
    ensures v.Union? ==> (r.Success? <==> forall i | 0 <= i < |v.options| :: ElementDoc(v.options[i]).Success?)
    ensures v.Union? && r.Success? ==>
      && r.value.ty.None? && r.value.enumValues.None? && r.value.items.None? && r.value.properties.None?
      && r.value.oneOf.Some? && |r.value.oneOf.value| == |v.options|
      && forall i | 0 <= i < |v.options| :: ElementDoc(v.options[i]) == Success(r.value.oneOf.value[i])
    ensures v.Array? ==> (r.Success? <==> ElementDoc(v.element).Success?)
    ensures v.Array? && r.Success? ==>
      r.value == Doc(None, Some(ArrayType), None, None, Some(ElementDoc(v.element).value), None, None)
    ensures v.Object? ==> r == ObjectDoc(v)
    ensures !v.Union? && !v.Array? && !v.Object? ==> r == ScalarDoc(v)
  {
    match v
    case Union(options, _) =>
      var docs := OptionDocs(v, |options|);
      if docs.Failure? then Failure(docs.error)
      else Success(Doc(None, None, None, Some(docs.value), None, None, None))
    case Array(element, _) =>
      var item := ElementDoc(element);
      if item.Failure? then Failure(item.error)
      else Success(Doc(None, Some(ArrayType), None, None, Some(item.value), None, None))
    case Object(_, _) => ObjectDoc(v)
    case _ => ScalarDoc(v)
  }

  /** The `properties` and `required` accumulated over the first `n` entries of an object's shape. */
  function ShapeDocs(o: Schema, n: nat): (r: Result<(map<string, Doc>, seq<string>), ConvertError>)
    requires o.Object? && n <= |o.shape|
    decreases o, 0, n
    ensures ReportsUnsupported(r)
    ensures r.Success? ==> r.value.0.Keys == set i | 0 <= i < n :: o.shape[i].0
    ensures r.Success? ==> r.value.1 == RequiredKeys(o.shape[..n])
    ensures r.Success? <==> forall i | 0 <= i < n :: FieldDoc(o.shape[i].1).Success?
  {
    if n == 0 then Success((map[], []))
    else
      var front := ShapeDocs(o, n - 1);
      if front.Failure? then Failure(front.error)
      else
        var entry := o.shape[n - 1];
        var d := FieldDoc(entry.1);
        if d.Failure? then Failure(d.error)
        else
          assert o.shape[..n][..n - 1] == o.shape[..n - 1];
          var required := front.value.1 + (if entry.1.acceptsUndefined then [] else [entry.0]);
          Success((front.value.0[entry.0 := d.value], required))
  }

  /** `convertObjectToSchema`: a draft-04 object document over the converted properties. */
  function ObjectDoc(o: Schema): (r: Result<Doc, ConvertError>)
    requires o.Object?
    decreases o, 1
    ensures ReportsUnsupported(r)
    ensures r.Success? <==> forall i | 0 <= i < |o.shape| :: FieldDoc(o.shape[i].1).Success?
    ensures r.Success? ==>
      && r.value.schemaVersion == Some(Draft4)
      && r.value.ty == Some(ObjectType)
      && r.value.enumValues.None? && r.value.oneOf.None? && r.value.items.None?
      && r.value.properties.Some?
      && r.value.properties.value.Keys == (set i | 0 <= i < |o.shape| :: o.shape[i].0)
      && r.value.required == Some(RequiredKeys(o.shape))
  {
    var fields := ShapeDocs(o, |o.shape|);
    assert o.shape[..|o.shape|] == o.shape;
    if fields.Failure? then Failure(fields.error)
    else Success(Doc(Some(Draft4), Some(ObjectType), None, None, None, Some(fields.value.0), Some(fields.value.1)))
  }

  /** `convertZodSchemaToApiGatewayModel`: the entry point takes an object schema. */
  function ApiGatewayModel(schema: Schema): (r: Result<Doc, ConvertError>)
  {
    if schema.Object? then ObjectDoc(schema) else Failure(MissingShape(schema))
  }

  // ---------------------------------------------------------------------------
  // The conversion as the source performs it.
  // ---------------------------------------------------------------------------

  /** `convertScalarValueToSchema`: an if-chain sets `type` and `enumValues`, then either builds the document or throws. */
  method ConvertScalarValueToSchema(field: Schema) returns (r: Result<Doc, ConvertError>)
    ensures r == ScalarDoc(field)
  {
    var ty: Option<JsonSchemaType> := None;
    var enumValues: Option<seq<Primitive>> := None;
    if field.Literal? {
      ty := Some(StringType);
      enumValues := Some([field.value]);
    } else if field.Str? {
      ty := Some(StringType);
    } else if field.Num? {
      ty := Some(NumberType);
    } else if field.Bool? {
      ty := Some(BooleanType);
    }
    if ty.Some? {
      return Success(Doc(None, ty, enumValues, None, None, None, None));
    }
    return Failure(UnsupportedFieldType(field));
  }

  /** `convertScalarOrObjectTypeToSchema`. */
  method ConvertScalarOrObjectTypeToSchema(field: Schema) returns (r: Result<Doc, ConvertError>)
    decreases field, 2
    ensures r == ElementDoc(field)
  {
    if field.Object? {
      r := ConvertObjectToSchema(field);
      return;
    }
    r := ConvertScalarValueToSchema(field);
  }

  /** `options.map(convertScalarOrObjectTypeToSchema)`, stopping at the first throw. */
  method ConvertOptions(value: Schema) returns (docs: Result<seq<Doc>, ConvertError>)
    requires value.Union?
    decreases value, 0
    ensures docs == OptionDocs(value, |value.options|)
  {
    ghost var all := OptionDocs(value, |value.options|);  // the result the loop builds towards
    var converted: seq<Doc> := [];
    var j := 0;
    while j < |value.options|
      invariant 0 <= j <= |value.options|
      invariant OptionDocs(value, j) == Success(converted)
    {
      var d := ConvertScalarOrObjectTypeToSchema(value.options[j]);
      if d.Failure? {
        OptionDocsFailureStays(value, j + 1, |value.options|);
        return Failure(d.error);
      }
      OptionDocsStep(value, j + 1);
      converted := converted + [d.value];
      j := j + 1;
    }
    return Success(converted);
  }

  /** The body of the loop of `convertObjectToSchema` (lines 42-55): the document of one property. */
  method ConvertField(value: Schema) returns (field: Result<Doc, ConvertError>)
    decreases value, 3
    ensures field == FieldDoc(value)
  {
    if value.Union? {
      var docs := ConvertOptions(value);
      if docs.Failure? {
        return Failure(docs.error);
      }
      field := Success(Doc(None, None, None, Some(docs.value), None, None, None));
    } else if value.Array? {
      var item := ConvertScalarOrObjectTypeToSchema(value.element);
      if item.Failure? {
        return Failure(item.error);
      }
      field := Success(Doc(None, Some(ArrayType), None, None, Some(item.value), None, None));
    } else if value.Object? {
      field := ConvertObjectToSchema(value);
    } else {
      field := ConvertScalarValueToSchema(value);
    }
  }

  /** `convertObjectToSchema`: one pass over the shape, pushing onto `required` and assigning `properties[key]`. */
  method ConvertObjectToSchema(schema: Schema) returns (r: Result<Doc, ConvertError>)
    requires schema.Object?
    decreases schema, 1
    ensures r == ObjectDoc(schema)
  {
    var properties: map<string, Doc> := map[];
    var required: seq<string> := [];
    var i := 0;
    while i < |schema.shape|
      invariant 0 <= i <= |schema.shape|
      invariant ShapeDocs(schema, i) == Success((properties, required))
    {
      var (key, value) := schema.shape[i];
      ghost var before := required;
      if !value.acceptsUndefined {
        required := required + [key];
      }
      var field := ConvertField(value);
      if field.Failure? {
        ShapeDocsFailureStays(schema, i + 1, |schema.shape|);
        return Failure(field.error);
      }
      properties := properties[key := field.value];
      assert required == before + (if value.acceptsUndefined then [] else [key]);
      assert ShapeDocs(schema, i + 1) == Success((properties, required));
      i := i + 1;
    }
    assert schema.shape[..|schema.shape|] == schema.shape;
    return Success(Doc(Some(Draft4), Some(ObjectType), None, None, None, Some(properties), Some(required)));
  }

  /** `convertZodSchemaToApiGatewayModel`. */
  method ConvertZodSchemaToApiGatewayModel(schema: Schema) returns (r: Result<Doc, ConvertError>)
    ensures r == ApiGatewayModel(schema)
  {
    if !schema.Object? {
      return Failure(MissingShape(schema));
    }
    r := ConvertObjectToSchema(schema);
  }

  /** Once a prefix of the shape fails to convert, every longer prefix fails with the same error. */
  lemma {:induction false} ShapeDocsFailureStays(o: Schema, i: nat, n: nat)
    requires o.Object? && i <= n <= |o.shape|
    requires ShapeDocs(o, i).Failure?
    ensures ShapeDocs(o, n) == ShapeDocs(o, i)
    decreases n - i
  {
    if i < n {
      ShapeDocsFailureStays(o, i, n - 1);
      ShapeDocsFailureStep(o, n);
    }
  }

  lemma ShapeDocsFailureStep(o: Schema, n: nat)
    requires o.Object? && 0 < n <= |o.shape|
    requires ShapeDocs(o, n - 1).Failure?
    ensures ShapeDocs(o, n) == ShapeDocs(o, n - 1)
  {
  }

  lemma {:induction false} OptionDocsFailureStays(u: Schema, i: nat, n: nat)
    requires u.Union? && i <= n <= |u.options|
    requires OptionDocs(u, i).Failure?
    ensures OptionDocs(u, n) == OptionDocs(u, i)
    decreases n - i
  {
    if i < n {
      OptionDocsFailureStays(u, i, n - 1);
      OptionDocsFailureStep(u, n);
    }
  }

  lemma OptionDocsStep(u: Schema, n: nat)
    requires u.Union? && 0 < n <= |u.options|
    requires OptionDocs(u, n - 1).Success? && ElementDoc(u.options[n - 1]).Success?
    ensures OptionDocs(u, n) == Success(OptionDocs(u, n - 1).value + [ElementDoc(u.options[n - 1]).value])
  {
  }

  lemma OptionDocsFailureStep(u: Schema, n: nat)
    requires u.Union? && 0 < n <= |u.options|
    requires OptionDocs(u, n - 1).Failure?
    ensures OptionDocs(u, n) == OptionDocs(u, n - 1)
  {
  }

  // ---------------------------------------------------------------------------
  // Properties of the conversion.
  // ---------------------------------------------------------------------------

  lemma ShapeDocsStep(o: Schema, n: nat)
    requires o.Object? && 0 < n <= |o.shape|
    requires ShapeDocs(o, n).Success?
    ensures ShapeDocs(o, n - 1).Success? && FieldDoc(o.shape[n - 1].1).Success?
    ensures ShapeDocs(o, n).value.0 == ShapeDocs(o, n - 1).value.0[o.shape[n - 1].0 := FieldDoc(o.shape[n - 1].1).value]
  {
  }

  lemma {:induction false} ShapeDocsFields(o: Schema, n: nat)
    requires o.Object? && n <= |o.shape| && DistinctKeys(o.shape)
    requires ShapeDocs(o, n).Success?
    ensures forall i | 0 <= i < n :: ShapeDocs(o, n).value.0[o.shape[i].0] == FieldDoc(o.shape[i].1).value
  {
    if n > 0 {
      ShapeDocsStep(o, n);
      ShapeDocsFields(o, n - 1);
      var front := ShapeDocs(o, n - 1).value.0;
      var m := ShapeDocs(o, n).value.0;
      var last := o.shape[n - 1];
      forall i | 0 <= i < n ensures m[o.shape[i].0] == FieldDoc(o.shape[i].1).value {
        if i < n - 1 {
          assert o.shape[i].0 != last.0;
          assert m[o.shape[i].0] == front[o.shape[i].0];
        }
      }
    }
  }

  /** With distinct keys (as a JavaScript object has), each property holds its own field's document. */
  lemma ObjectDocFields(o: Schema)
    requires o.Object? && DistinctKeys(o.shape)
    requires ObjectDoc(o).Success?
    ensures forall i | 0 <= i < |o.shape| ::
      o.shape[i].0 in ObjectDoc(o).value.properties.value
      && ObjectDoc(o).value.properties.value[o.shape[i].0] == FieldDoc(o.shape[i].1).value
  {
    ShapeDocsFields(o, |o.shape|);
  }

  /** `required` names exactly the keys whose field does not accept `undefined`. */
  lemma {:induction false} RequiredKeysExactly(shape: seq<(string, Schema)>)
    ensures forall k :: k in RequiredKeys(shape) <==>
      exists i | 0 <= i < |shape| :: shape[i].0 == k && !shape[i].1.acceptsUndefined
  {
    if |shape| > 0 {
      var front := shape[..|shape| - 1];
      RequiredKeysExactly(front);
      forall k ensures k in RequiredKeys(shape) <==>
        exists i | 0 <= i < |shape| :: shape[i].0 == k && !shape[i].1.acceptsUndefined
      {
        if k in RequiredKeys(front) {
          var i :| 0 <= i < |front| && front[i].0 == k && !front[i].1.acceptsUndefined;
          assert shape[i] == front[i];
        }
        if exists i | 0 <= i < |shape| :: shape[i].0 == k && !shape[i].1.acceptsUndefined {
          var i :| 0 <= i < |shape| && shape[i].0 == k && !shape[i].1.acceptsUndefined;
          if i < |shape| - 1 {
            assert front[i] == shape[i];
          }
        }
      }
    }
  }

  /** With no field accepting `undefined`, every key is required, in declaration order. */
  lemma {:induction false} RequiredKeysAllMandatory(shape: seq<(string, Schema)>)
    requires forall i | 0 <= i < |shape| :: !shape[i].1.acceptsUndefined
    ensures RequiredKeys(shape) == Keys(shape)
  {
    if |shape| > 0 {
      RequiredKeysAllMandatory(shape[..|shape| - 1]);
    }
  }

  /** `required` has no duplicates when the shape's keys are distinct. */
  lemma {:induction false} RequiredKeysDistinct(shape: seq<(string, Schema)>)
    requires DistinctKeys(shape)
    ensures forall i, j | 0 <= i < j < |RequiredKeys(shape)| :: RequiredKeys(shape)[i] != RequiredKeys(shape)[j]
  {
    if |shape| > 0 {
      var front := shape[..|shape| - 1];
      assert DistinctKeys(front);
      RequiredKeysDistinct(front);
      RequiredKeysExactly(front);
      var last := shape[|shape| - 1];
      forall i | 0 <= i < |front| ensures front[i].0 != last.0 {
        assert front[i] == shape[i];
      }
      assert last.0 !in RequiredKeys(front);
    }
  }

  /** `required` is a subset of the keys of `properties`. */
  lemma RequiredWithinProperties(o: Schema)
    requires o.Object? && ObjectDoc(o).Success?
    ensures forall k | k in ObjectDoc(o).value.required.value :: k in ObjectDoc(o).value.properties.value
  {
    RequiredKeysExactly(o.shape);
  }

  // What the converter accepts, stated on its own: objects whose fields are
  // scalars, objects, or unions/arrays of scalars and objects, all the way down.

  predicate ConvertibleObject(o: Schema)
    decreases o, 1
  {
    o.Object? && forall i | 0 <= i < |o.shape| :: ConvertibleField(o.shape[i].1)
  }

  predicate ConvertibleElement(f: Schema)
    decreases f, 2
  {
    if f.Object? then ConvertibleObject(f) else IsScalar(f)
  }

  predicate ConvertibleField(v: Schema)
    decreases v, 3
  {
    match v
    case Union(options, _) => forall i | 0 <= i < |options| :: ConvertibleElement(options[i])
    case Array(element, _) => ConvertibleElement(element)
    case Object(_, _) => ConvertibleObject(v)
    case _ => IsScalar(v)
  }

  lemma {:induction false} ObjectConvertsIff(o: Schema)
    requires o.Object?
    decreases o, 1
    ensures ObjectDoc(o).Success? <==> ConvertibleObject(o)
  {
    forall i | 0 <= i < |o.shape| ensures FieldDoc(o.shape[i].1).Success? <==> ConvertibleField(o.shape[i].1) {
      FieldConvertsIff(o.shape[i].1);
    }
  }

  lemma {:induction false} ElementConvertsIff(f: Schema)
    decreases f, 2
    ensures ElementDoc(f).Success? <==> ConvertibleElement(f)
  {
    if f.Object? {
      ObjectConvertsIff(f);
    }
  }

  lemma {:induction false} FieldConvertsIff(v: Schema)
    decreases v, 3
    ensures FieldDoc(v).Success? <==> ConvertibleField(v)
  {
    match v
    case Union(options, _) =>
      forall i | 0 <= i < |options| ensures ElementDoc(options[i]).Success? <==> ConvertibleElement(options[i]) {
        ElementConvertsIff(options[i]);
      }
    case Array(element, _) => ElementConvertsIff(element);
    case Object(_, _) => ObjectConvertsIff(v);
    case _ =>
  }

  /**
   * The whole conversion succeeds exactly when every node the dispatch reaches is
   * supported; an `.optional()` wrapper, a nested array or a union inside a union
   * makes it fail with "Unsupported field type".
   */
  lemma ConversionSucceedsIff(schema: Schema)
    ensures ApiGatewayModel(schema).Success? <==> ConvertibleObject(schema)
    ensures ApiGatewayModel(schema).Failure? && schema.Object? ==>
      ApiGatewayModel(schema).error.UnsupportedFieldType?
  {
    if schema.Object? {
      ObjectConvertsIff(schema);
    }
  }

  /** One property of an object with distinct keys holds its own field's document. */
  lemma ObjectDocField(o: Schema, i: nat)
    requires o.Object? && DistinctKeys(o.shape) && i < |o.shape|
    requires ObjectDoc(o).Success?
    ensures o.shape[i].0 in ObjectDoc(o).value.properties.value
    ensures ObjectDoc(o).value.properties.value[o.shape[i].0] == FieldDoc(o.shape[i].1).value
  {
    ObjectDocFields(o);
  }
}
