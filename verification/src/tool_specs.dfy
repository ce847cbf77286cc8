/** The assistant's tool specifications for OpenAI function calling: each tool's Zod
    argument schema is translated into a JSON Schema. A Zod schema is modelled by its
    `_def.typeName` and the parts the translation reads. */
module ToolSpecs {
  import opened Common
  import opened Seqs

  datatype Zod =
    | ZObject(shape: seq<Field>)
    | ZString
    | ZNumber
    | ZBoolean
    | ZEnum(values: seq<string>)
    | ZOptional(inner: Zod)
    | ZDefault(inner: Zod)
    | ZRecord
    | ZOther(typeName: string)

  /** One entry of an object schema's shape. */
  datatype Field = Field(key: string, schema: Zod)

  /** The JSON Schema produced: `{type: 'object', properties, required}`, `{type: 'object'}`
      for a record, `{type: 'string', enum}`, or a bare type. */
  datatype JsonSchema =
    | SObject(properties: seq<Property>, required: Option<seq<string>>)
    | SPlainObject
    | SEnum(enumValues: seq<string>)
    | SString
    | SNumber
    | SBoolean

  datatype Property = Property(key: string, schema: JsonSchema)

  /** The value of the schema's `type` property. */
  function TypeOf(s: JsonSchema): string
  {
    match s
    case SObject(_, _) => "object"
    case SPlainObject => "object"
    case SEnum(_) => "string"
    case SString => "string"
    case SNumber => "number"
    case SBoolean => "boolean"
  }

  /** A field the caller may leave out: its schema is `ZodOptional` or `ZodDefault`. */
  predicate Optional(z: Zod)
  {
    z.ZOptional? || z.ZDefault?
  }

  /** The keys the loop adds to `required`, in shape order. */
  function RequiredKeys(shape: seq<Field>): (r: seq<string>)
    ensures |r| <= |shape|
    ensures forall k :: k in r <==> exists f :: f in shape && f.key == k && !Optional(f.schema)
  {
    if shape == [] then []
    else
      var init := shape[..|shape| - 1];
      var last := shape[|shape| - 1];
      assert forall f :: f in shape <==> f in init || f == last;
      RequiredKeys(init) + (if Optional(last.schema) then [] else [last.key])
  }

  /** The translation `convertZodToJsonSchema` computes. */
  function ToJsonSchema(z: Zod): (r: JsonSchema)
    decreases z
  {
    match z
    case ZObject(shape) =>
      var required := RequiredKeys(shape);
      SObject(seq(|shape|, i requires 0 <= i < |shape| => Property(shape[i].key, ToJsonSchema(shape[i].schema))),
              if |required| > 0 then Some(required) else None)
    case ZString => SString
    case ZNumber => SNumber
    case ZBoolean => SBoolean
    case ZEnum(values) => SEnum(values)
    case ZOptional(inner) => ToJsonSchema(inner)
    case ZDefault(inner) => ToJsonSchema(inner)
    case ZRecord => SPlainObject
    case ZOther(_) => SString
  }

  /** An object schema has one property per field, in shape order, each the translation of
      its field; `required` lists exactly the fields that are neither optional nor defaulted
      and is left out when there are none. */
  lemma ObjectTranslation(shape: seq<Field>)
    ensures var r := ToJsonSchema(ZObject(shape));
      r.SObject? && |r.properties| == |shape| &&
      (forall i | 0 <= i < |shape| :: r.properties[i].key == shape[i].key &&
                                       r.properties[i].schema == ToJsonSchema(shape[i].schema)) &&
      (r.required.None? <==> forall f | f in shape :: Optional(f.schema)) &&
      (r.required.Some? ==> forall k :: k in r.required.value <==> exists f :: f in shape && f.key == k && !Optional(f.schema))
  {
    var required := RequiredKeys(shape);
    if |required| > 0 {
      assert required[0] in required;
    } else {
      forall f | f in shape ensures Optional(f.schema) {
        assert f.key !in required;
      }
    }
  }

  /** Strips the `ZodOptional` and `ZodDefault` wrappers. */
  function Unwrap(z: Zod): (r: Zod)
    ensures !Optional(r)
  {
    match z
    case ZOptional(inner) => Unwrap(inner)
    case ZDefault(inner) => Unwrap(inner)
    case _ => z
  }

  /** Optional and defaulted schemas translate as what they wrap, however deeply nested. */
  lemma {:induction false} WrappersTransparent(z: Zod)
    ensures ToJsonSchema(z) == ToJsonSchema(Unwrap(z))
  {
    match z
    case ZOptional(inner) => WrappersTransparent(inner);
    case ZDefault(inner) => WrappersTransparent(inner);
    case _ =>
  }

  /** Every translation has one of four JSON types; strings, numbers, booleans, enums and
      records keep their kind, and any other kind of schema falls back to a string. */
  lemma {:induction false} TranslationTypes(z: Zod)
    ensures TypeOf(ToJsonSchema(z)) in {"object", "string", "number", "boolean"}
    ensures Unwrap(z).ZObject? || Unwrap(z).ZRecord? <==> TypeOf(ToJsonSchema(z)) == "object"
    ensures Unwrap(z).ZNumber? <==> ToJsonSchema(z) == SNumber
    ensures Unwrap(z).ZBoolean? <==> ToJsonSchema(z) == SBoolean
    ensures Unwrap(z).ZEnum? ==> ToJsonSchema(z) == SEnum(Unwrap(z).values)
    ensures Unwrap(z).ZString? || Unwrap(z).ZOther? <==> ToJsonSchema(z) == SString
  {
    WrappersTransparent(z);
  }

  /** One more field adds its key to the required keys exactly when it is not optional. */
  lemma RequiredKeysStep(shape: seq<Field>, i: nat)
    requires i < |shape|
    ensures RequiredKeys(shape[..i + 1]) == RequiredKeys(shape[..i]) + (if Optional(shape[i].schema) then [] else [shape[i].key])
  {
    assert shape[..i + 1][..i] == shape[..i];
  }

  /** `convertZodToJsonSchema`: recursive, with a loop filling `properties` and `required`
      for an object schema. */
  method ConvertZodToJsonSchema(schema: Zod) returns (r: JsonSchema)
    ensures r == ToJsonSchema(schema)
    decreases schema, 1
  {
    match schema {
      case ZObject(shape) =>
        var properties, required := ConvertShape(shape);
        r := SObject(properties, if |required| > 0 then Some(required) else None);
      case ZString => r := SString;
      case ZNumber => r := SNumber;
      case ZBoolean => r := SBoolean;
      case ZEnum(values) => r := SEnum(values);
      case ZOptional(inner) => r := ConvertZodToJsonSchema(inner);
      case ZDefault(inner) => r := ConvertZodToJsonSchema(inner);
      case ZRecord => r := SPlainObject;
      case ZOther(_) => r := SString;
    }
  }

  /** The loop over an object's shape: each field's translated schema under its key, and
      the keys of the fields that are not optional. */
  method ConvertShape(shape: seq<Field>) returns (properties: seq<Property>, required: seq<string>)
    ensures properties == seq(|shape|, i requires 0 <= i < |shape| => Property(shape[i].key, ToJsonSchema(shape[i].schema)))
    ensures required == RequiredKeys(shape)
    decreases ZObject(shape), 0
  {
    properties, required := [], [];
    for i := 0 to |shape|
      invariant |properties| == i
      invariant forall j | 0 <= j < i :: properties[j] == Property(shape[j].key, ToJsonSchema(shape[j].schema))
      invariant required == RequiredKeys(shape[..i])
    {
      var field := shape[i];
      assert field in shape;
      var converted := ConvertZodToJsonSchema(field.schema);
      properties := properties + [Property(field.key, converted)];
      RequiredKeysStep(shape, i);
      if !Optional(field.schema) {
        required := required + [field.key];
      }
    }
    PrefixWhole(shape);
  }

  datatype Tool = Tool(name: string, description: string, schema: Zod)

  /** `{type: "function", function: {name, description, parameters}}`. */
  datatype ToolSpec = ToolSpec(name: string, description: string, parameters: JsonSchema)

  /** `openaiToolSpecs`: one function specification per tool, in the same order, with the
      tool's name and description and its translated schema. */
  method OpenAiToolSpecs(tools: seq<Tool>) returns (specs: seq<ToolSpec>)
    ensures |specs| == |tools|
    ensures forall i | 0 <= i < |tools| :: specs[i] == ToolSpec(tools[i].name, tools[i].description, ToJsonSchema(tools[i].schema))
  {
    specs := [];
    for i := 0 to |tools|
      invariant |specs| == i
      invariant forall j | 0 <= j < i :: specs[j] == ToolSpec(tools[j].name, tools[j].description, ToJsonSchema(tools[j].schema))
    {
      var parameters := ConvertZodToJsonSchema(tools[i].schema);
      specs := specs + [ToolSpec(tools[i].name, tools[i].description, parameters)];
    }
  }

  /** The shape of `get_node_info`: a required node id and two defaulted optional flags. */
  function NodeInfoShape(): seq<Field>
  {
    [Field("node_id", ZNumber), Field("with_parents", ZDefault(ZOptional(ZBoolean))),
     Field("with_children", ZDefault(ZOptional(ZBoolean)))]
  }

  /** For `get_node_info` only the node id is required, and every flag is a boolean. */
  lemma NodeInfoRequiresOnlyTheId()
    ensures ToJsonSchema(ZObject(NodeInfoShape())).required == Some(["node_id"])
    ensures ToJsonSchema(ZObject(NodeInfoShape())).properties[1].schema == SBoolean
  {
    var shape := NodeInfoShape();
    var one, two := shape[..1], shape[..2];
    assert one[..0] == [];
    assert RequiredKeys(one) == ["node_id"];
    assert two[..1] == one;
    assert RequiredKeys(two) == ["node_id"];
    assert shape[..2] == two;
    assert RequiredKeys(shape) == ["node_id"];
  }
}
