/** A JSON-Schema node as the mappers and normalisers read it: every keyword
    is optional, and `properties` keeps its entries in enumeration order. */
module JsonSchema {
  import opened Wrappers
  import opened Json

  datatype Schema = Schema(
    schemaType: Option<string>,
    enumValues: Option<seq<JsonValue>>,
    items: Option<Schema>,
    properties: Properties,
    required: Option<seq<string>>)

  /** The `properties` keyword: absent, or an object whose entries are listed
      in enumeration order. */
  datatype Properties = NoProperties | Properties(entries: seq<(string, Schema)>)

  /** A node with only `type` set, as `{ type: t }`. */
  function TypeOnly(t: string): (s: Schema)
    ensures s.schemaType == Some(t) && s.enumValues.None? && s.items.None?
    ensures s.properties.NoProperties? && s.required.None?
  {
    Schema(Some(t), None, None, NoProperties, None)
  }
}
