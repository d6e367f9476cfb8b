/** The schemas that appear in the repository, converted as worked examples. */
module ValidationExamples {
  import opened Wrappers
  import opened Validation

  /** The element of `users` in the request schema converted at the foot of validation.ts. */
  const ExampleUser: Schema :=
    Object([
      ("name", Str(false)),
      ("email", Str(false)),
      ("type", Union([Literal(PString("admin"), false), Literal(PString("user"), false)], false))],
      false)

  const ExamplePayload: Schema :=
    Union([
      Object([("type", Literal(PString("payload_type_A"), false)), ("value", Str(false))], false),
      Object([("type", Literal(PString("payload_type_B"), false)), ("value", Num(false))], false)],
      false)

  const ExampleUsers: Schema := Array(ExampleUser, false)

  /** The request schema converted at the foot of validation.ts (and used for `/lambda/params/{paramId}`). */
  const ExampleRequest: Schema :=
    Object([("name", Str(false)), ("users", ExampleUsers), ("payload", ExamplePayload)], false)

  lemma ExampleUserConvertible()
    ensures ConvertibleObject(ExampleUser)
  {
    var u := ExampleUser;
    assert ConvertibleField(u.shape[2].1) by {
      assert ConvertibleElement(u.shape[2].1.options[0]);
      assert ConvertibleElement(u.shape[2].1.options[1]);
    }
    assert ConvertibleField(u.shape[0].1) && ConvertibleField(u.shape[1].1);
  }

  /** The user object converts and requires all three of its keys. */
  lemma ExampleUserConverts()
    ensures ObjectDoc(ExampleUser).Success?
    ensures ObjectDoc(ExampleUser).value.required == Some(["name", "email", "type"])
  {
    ExampleUserConvertible();
    ObjectConvertsIff(ExampleUser);
    RequiredKeysAllMandatory(ExampleUser.shape);
    assert Keys(ExampleUser.shape) == ["name", "email", "type"];
  }

  /** `users` becomes an array whose items are the converted user object. */
  lemma ExampleUsersConverts()
    ensures FieldDoc(ExampleUsers) == Success(Doc(None, Some(ArrayType), None, None, Some(ObjectDoc(ExampleUser).value), None, None))
  {
    ExampleUserConverts();
    assert ElementDoc(ExampleUser) == ObjectDoc(ExampleUser);
  }

  lemma ExamplePayloadConvertible()
    ensures ConvertibleField(ExamplePayload)
  {
    var p := ExamplePayload;
    assert ConvertibleObject(p.options[0]) by {
      assert ConvertibleField(p.options[0].shape[0].1) && ConvertibleField(p.options[0].shape[1].1);
    }
    assert ConvertibleObject(p.options[1]) by {
      assert ConvertibleField(p.options[1].shape[0].1) && ConvertibleField(p.options[1].shape[1].1);
    }
    assert ConvertibleElement(p.options[0]) && ConvertibleElement(p.options[1]);
  }

  /** `payload` becomes a two-entry `oneOf`. */
  lemma ExamplePayloadConverts()
    ensures FieldDoc(ExamplePayload).Success?
    ensures FieldDoc(ExamplePayload).value.oneOf.Some? && |FieldDoc(ExamplePayload).value.oneOf.value| == 2
  {
    ExamplePayloadConvertible();
    FieldConvertsIff(ExamplePayload);
  }

  lemma ExampleRequestConvertible()
    ensures ConvertibleObject(ExampleRequest)
  {
    ExampleUserConvertible();
    ExamplePayloadConvertible();
    var shape := ExampleRequest.shape;
    assert shape[0].1 == Str(false) && shape[1].1 == ExampleUsers && shape[2].1 == ExamplePayload;
    assert ConvertibleField(shape[0].1) && ConvertibleField(shape[1].1) && ConvertibleField(shape[2].1);
  }

  lemma ExampleRequestRequiredKeys()
    ensures RequiredKeys(ExampleRequest.shape) == ["name", "users", "payload"]
  {
    RequiredKeysAllMandatory(ExampleRequest.shape);
    assert Keys(ExampleRequest.shape) == ["name", "users", "payload"];
  }

  lemma ExampleRequestKeys()
    ensures (set i | 0 <= i < |ExampleRequest.shape| :: ExampleRequest.shape[i].0) == {"name", "users", "payload"}
  {
    var o := ExampleRequest;
    var keys := set i | 0 <= i < |o.shape| :: o.shape[i].0;
    assert o.shape[0].0 in keys && o.shape[1].0 in keys && o.shape[2].0 in keys;
  }

  /** The example converts; its top-level `required` and `properties` keys are `name`, `users`, `payload`. */
  lemma ExampleRequestConverts()
    ensures ApiGatewayModel(ExampleRequest).Success?
    ensures ApiGatewayModel(ExampleRequest).value.required == Some(["name", "users", "payload"])
    ensures ApiGatewayModel(ExampleRequest).value.properties.value.Keys == {"name", "users", "payload"}
  {
    ExampleRequestConvertible();
    ObjectConvertsIff(ExampleRequest);
    ExampleRequestRequiredKeys();
    ExampleRequestKeys();
  }

  /**
   * Each property of an object shaped like the example holds its own field's document,
   * whatever the three fields are, as long as each converts.
   */
  lemma ExampleShapeProperties(name: Schema, users: Schema, payload: Schema)
    requires FieldDoc(name).Success? && FieldDoc(users).Success? && FieldDoc(payload).Success?
    ensures var o := Object([("name", name), ("users", users), ("payload", payload)], false);
      && ObjectDoc(o).Success?
      && var properties := ObjectDoc(o).value.properties.value;
      && "name" in properties && "users" in properties && "payload" in properties
      && properties["name"] == FieldDoc(name).value
      && properties["users"] == FieldDoc(users).value
      && properties["payload"] == FieldDoc(payload).value
  {
    var o := Object([("name", name), ("users", users), ("payload", payload)], false);
    assert DistinctKeys(o.shape);
    ObjectDocField(o, 0);
    ObjectDocField(o, 1);
    ObjectDocField(o, 2);
  }

  /** In the example, `name` is `{type: string}` and `users` and `payload` are as above. */
  lemma ExampleRequestProperties()
    ensures ExampleRequest == Object([("name", Str(false)), ("users", ExampleUsers), ("payload", ExamplePayload)], false)
    ensures FieldDoc(Str(false)) == Success(TypeDoc(StringType, None))
    ensures FieldDoc(ExampleUsers).Success? && FieldDoc(ExamplePayload).Success?
  {
    ExampleUsersConverts();
    ExamplePayloadConverts();
  }

  /** The request schema of lambdas/template-lambda/infra.ts: its `.optional()` union is not converted. */
  const TemplateLambdaRequest: Schema :=
    Object([
      ("value", Str(false)),
      ("someOf", Other("ZodOptional", true))],
      false)

  lemma TemplateLambdaRequestFails()
    ensures ApiGatewayModel(TemplateLambdaRequest) == Failure(UnsupportedFieldType(Other("ZodOptional", true)))
  {
    assert ShapeDocs(TemplateLambdaRequest, 1).Success?;
  }
}
