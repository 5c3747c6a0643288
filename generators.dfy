/** The two text generators for a JSON-Schema node: the TypeScript type text
    of `simpleSchemaToTS` (and its archived twin `schemaToTS`) and the Zod
    validator text of `schemaToZodCode`, with the type-name helpers. */
module Generators {
  import opened Wrappers
  import opened Text
  import opened Json
  import opened JsonSchema

  // ---------------------------------------------------------------------
  // Type names
  // ---------------------------------------------------------------------

  /** The characters of the class `[a-zA-Z0-9_]`. */
  predicate IsWordChar(c: char) {
    IsUpperAscii(c) || IsLowerAscii(c) || IsDigit(c) || c == '_'
  }

  /** `base.replace(/[^a-zA-Z0-9_]/g, "_")`. */
  function SanitizeBase(base: string): (r: string)
    ensures |r| == |base|
    ensures forall i :: 0 <= i < |r| ==> IsWordChar(r[i])
    ensures forall i :: 0 <= i < |r| ==> (IsWordChar(base[i]) <==> r[i] == base[i])
  {
    seq(|base|, i requires 0 <= i < |base| => if IsWordChar(base[i]) then base[i] else '_')
  }

  /** A name already made of word characters is left as it is. */
  lemma SanitizeBaseFixes(base: string)
    requires forall i :: 0 <= i < |base| ==> IsWordChar(base[i])
    ensures SanitizeBase(base) == base
  {
  }

  /** `capitalize(sanitizeBase(base)) + suffix`. */
  function MakeTypeName(base: string, suffix: string): (r: string)
    ensures |r| == |base| + |suffix|
    ensures r[|base|..] == suffix
    ensures forall i :: 0 <= i < |base| ==> IsWordChar(r[i])
    ensures base != [] ==> r[0] == UpperChar(if IsWordChar(base[0]) then base[0] else '_')
    ensures forall i :: 0 < i < |base| ==> r[i] == (if IsWordChar(base[i]) then base[i] else '_')
  {
    var clean := SanitizeBase(base);
    var cap := Capitalize(clean);
    assert forall i :: 0 <= i < |base| ==> cap[i] == if i == 0 then UpperChar(clean[0]) else clean[i];
    cap + suffix
  }

  /** A base of word characters keeps its text, with its first letter
      capitalised; so does a base that is sanitised first. */
  lemma MakeTypeNameOfWord(base: string, suffix: string)
    ensures MakeTypeName(SanitizeBase(base), suffix) == MakeTypeName(base, suffix)
    ensures (forall i :: 0 <= i < |base| ==> IsWordChar(base[i])) ==>
      MakeTypeName(base, suffix) == Capitalize(base) + suffix
  {
    var a := MakeTypeName(SanitizeBase(base), suffix);
    var b := MakeTypeName(base, suffix);
    assert forall i :: 0 <= i < |a| ==> a[i] == b[i] by {
      forall i | 0 <= i < |a| ensures a[i] == b[i] {
        if i >= |base| {
          assert a[i] == a[|base|..][i - |base|] && b[i] == b[|base|..][i - |base|];
        }
      }
    }
    if forall i :: 0 <= i < |base| ==> IsWordChar(base[i]) {
      var c := Capitalize(base) + suffix;
      forall i | 0 <= i < |b| ensures b[i] == c[i] {
        if i >= |base| {
          assert b[i] == b[|base|..][i - |base|];
        } else if i > 0 {
          assert c[i] == Capitalize(base)[1..][i - 1];
        }
      }
    }
  }

  // ---------------------------------------------------------------------
  // simpleSchemaToTS
  // ---------------------------------------------------------------------

  /** `schema.type === t`. */
  predicate HasType(s: Schema, t: string) {
    s.schemaType == Some(t)
  }

  /** The node is read as an object: `type` is `"object"` or `properties` is set. */
  predicate IsObjectNode(s: Schema) {
    HasType(s, "object") || s.properties.Properties?
  }

  /** `schema.properties || {}` as its entries. */
  function PropsOf(s: Schema): seq<(string, Schema)> {
    match s.properties
    case NoProperties => []
    case Properties(entries) => entries
  }

  /** `schema.required || []`. */
  function RequiredOf(s: Schema): seq<string> {
    s.required.GetOr([])
  }

  /** `schema.enum.map(v => JSON.stringify(v)).join(" | ")`. */
  function EnumUnion(values: seq<JsonValue>): string {
    Join(seq(|values|, i requires 0 <= i < |values| => Stringify(values[i])), " | ")
  }

  /** One property line of an object type: `  ${k}${optional}: ${tsType};`. */
  function TsLine(k: string, required: seq<string>, tsType: string): string {
    "  " + k + (if k in required then "" else "?") + ": " + tsType + ";"
  }

  /** The text of an object type around its property lines. */
  function TsObject(lines: seq<string>): string {
    "{\n" + Join(lines, "\n") + "\n}"
  }

  /** `simpleSchemaToTS(schema, typeName)` for a present node. */
  function NodeToTS(s: Schema, typeName: string): string
    decreases s, 1
  {
    if s.enumValues.Some? then EnumUnion(s.enumValues.value)
    else if HasType(s, "string") then "string"
    else if HasType(s, "number") || HasType(s, "integer") then "number"
    else if HasType(s, "boolean") then "boolean"
    else if HasType(s, "array") then
      (match s.items
       case None => "any"
       case Some(item) => NodeToTS(item, typeName + "Item")) + "[]"
    else if IsObjectNode(s) then TsObject(TsPropertyLines(s, typeName))
    else "any"
  }

  /** The lines of an object type, one per entry of `properties`. */
  function TsPropertyLines(s: Schema, typeName: string): (lines: seq<string>)
    ensures |lines| == |PropsOf(s)|
    decreases s, 0
  {
    match s.properties
    case NoProperties => []
    case Properties(props) =>
      seq(|props|, i requires 0 <= i < |props| =>
        TsLine(props[i].0, RequiredOf(s), NodeToTS(props[i].1, typeName + Capitalize(props[i].0))))
  }

  /** `simpleSchemaToTS(schema, typeName)`; a missing schema gives `any`. */
  function SimpleSchemaToTS(schema: Option<Schema>, typeName: string): string {
    match schema
    case None => "any"
    case Some(s) => NodeToTS(s, typeName)
  }

  /** The archived `schemaToTS`: reads `type` before testing `enum`, and
      tests that `properties` is an object before treating the node as one. */
  function ArchivedNodeToTS(s: Schema, typeName: string): string
    decreases s
  {
    var t := s.schemaType;
    if s.enumValues.Some? then EnumUnion(s.enumValues.value)
    else if t == Some("string") then "string"
    else if t == Some("number") || t == Some("integer") then "number"
    else if t == Some("boolean") then "boolean"
    else if t == Some("array") then
      (match s.items
       case None => "any"
       case Some(item) => ArchivedNodeToTS(item, typeName + "Item")) + "[]"
    else if t == Some("object") || s.properties.Properties? then
      var required := s.required.GetOr([]);
      match s.properties
      case NoProperties => TsObject([])
      case Properties(props) =>
        TsObject(seq(|props|, i requires 0 <= i < |props| =>
          TsLine(props[i].0, required, ArchivedNodeToTS(props[i].1, typeName + Capitalize(props[i].0)))))
    else "any"
  }

  function SchemaToTS(schema: Option<Schema>, typeName: string): string {
    match schema
    case None => "any"
    case Some(s) => ArchivedNodeToTS(s, typeName)
  }

  // ---------------------------------------------------------------------
  // schemaToZodCode
  // ---------------------------------------------------------------------

  /** `z.union([z.literal(v1), z.literal(v2), ...])`. */
  function ZodUnion(values: seq<JsonValue>): string {
    "z.union([" + Join(seq(|values|, i requires 0 <= i < |values| => "z.literal(" + Stringify(values[i]) + ")"), ", ") + "])"
  }

  /** One property line of a Zod object: the key as a JSON string, its
      validator, and `.optional()` when the key is not required. */
  function ZodLine(k: string, required: seq<string>, code: string): string {
    "  " + Stringify(JString(k)) + ": " + code + (if k in required then "" else ".optional()")
  }

  function ZodObject(lines: seq<string>): string {
    "z.object({\n" + Join(lines, ",\n") + "\n})"
  }

  /** `schemaToZodCode(schema, varName)` for a present node. */
  function NodeToZod(s: Schema, varName: string): string
    decreases s, 1
  {
    if s.enumValues.Some? then ZodUnion(s.enumValues.value)
    else if HasType(s, "string") then "z.string()"
    else if HasType(s, "number") || HasType(s, "integer") then "z.number()"
    else if HasType(s, "boolean") then "z.boolean()"
    else if HasType(s, "array") then
      (match s.items
       case None => "z.any()"
       case Some(item) => NodeToZod(item, varName + "Item")) + ".array()"
    else if IsObjectNode(s) then ZodObject(ZodPropertyLines(s, varName))
    else "z.any()"
  }

  /** The lines of a Zod object, one per entry of `properties`. */
  function ZodPropertyLines(s: Schema, varName: string): (lines: seq<string>)
    ensures |lines| == |PropsOf(s)|
    decreases s, 0
  {
    match s.properties
    case NoProperties => []
    case Properties(props) =>
      seq(|props|, i requires 0 <= i < |props| =>
        ZodLine(props[i].0, RequiredOf(s), NodeToZod(props[i].1, varName + "_" + props[i].0)))
  }

  /** `schemaToZodCode(schema, varName)`; a missing schema gives `z.any()`. */
  function SchemaToZodCode(schema: Option<Schema>, varName: string): string {
    match schema
    case None => "z.any()"
    case Some(s) => NodeToZod(s, varName)
  }

  // ---------------------------------------------------------------------
  // Properties of the mappers
  // ---------------------------------------------------------------------

  /** A node that neither mapper recognises: no `enum`, no known `type` and
      no `properties`. */
  predicate Unrecognised(s: Schema) {
    && s.enumValues.None?
    && !HasType(s, "string") && !HasType(s, "number") && !HasType(s, "integer")
    && !HasType(s, "boolean") && !HasType(s, "array") && !IsObjectNode(s)
  }

  /** The first character of a JSON literal is never `a`. */
  lemma StringifyStart(v: JsonValue)
    ensures Stringify(v)[0] != 'a'
  {
    match v
    case JNumber(n) =>
      if n >= 0 {
        assert Stringify(v)[0] == Decimal(n)[0];
      }
    case _ =>
  }

  /** `parts.join(sep)` of two or more parts holds the first part, the
      separator and the join of the rest. */
  lemma JoinLength(parts: seq<string>, sep: string)
    requires |parts| >= 2
    ensures |Join(parts, sep)| == |parts[0]| + |sep| + |Join(parts[1..], sep)|
  {
  }

  /** The last character of a join is the last character of the last part. */
  lemma {:induction false} JoinLast(parts: seq<string>, sep: string)
    requires parts != [] && parts[|parts| - 1] != []
    ensures Join(parts, sep) != []
    ensures Join(parts, sep)[|Join(parts, sep)| - 1] == parts[|parts| - 1][|parts[|parts| - 1]| - 1]
  {
    if |parts| >= 2 {
      JoinLast(parts[1..], sep);
      var rest := Join(parts[1..], sep);
      assert Join(parts, sep) == parts[0] + sep + rest;
    }
  }

  /** An enum is never rendered as the bare word `any`. */
  lemma EnumUnionNotAny(values: seq<JsonValue>)
    ensures EnumUnion(values) != "any"
  {
    var parts := seq(|values|, i requires 0 <= i < |values| => Stringify(values[i]));
    if |values| == 1 {
      assert EnumUnion(values) == Stringify(values[0]);
      StringifyStart(values[0]);
    } else if |values| >= 2 {
      JoinLength(parts, " | ");
    }
  }

  /** `simpleSchemaToTS` gives `any` exactly for a missing schema and for an
      unrecognised node. */
  lemma TsAnyExactly(s: Schema, typeName: string)
    ensures SimpleSchemaToTS(None, typeName) == "any"
    ensures NodeToTS(s, typeName) == "any" <==> Unrecognised(s)
  {
    var r := NodeToTS(s, typeName);
    if s.enumValues.Some? {
      EnumUnionNotAny(s.enumValues.value);
    } else if !HasType(s, "string") && !HasType(s, "number") && !HasType(s, "integer") && !HasType(s, "boolean") {
      if HasType(s, "array") {
        assert r[|r| - 1] == ']';
      } else if IsObjectNode(s) {
        assert r[0] == '{';
      }
    }
  }

  /** The third character from the end of any Zod code is not `l`, so no code
      ends in `.optional()` unless that suffix was added. */
  lemma ZodTail(s: Schema, varName: string)
    ensures |NodeToZod(s, varName)| >= 3
    ensures NodeToZod(s, varName)[|NodeToZod(s, varName)| - 3] != 'l'
  {
    var r := NodeToZod(s, varName);
    if s.enumValues.Some? {
      ZodUnionTail(s.enumValues.value);
    } else if !HasType(s, "string") && !HasType(s, "number") && !HasType(s, "integer") && !HasType(s, "boolean") {
      if HasType(s, "array") {
        var inner := match s.items case None => "z.any()" case Some(item) => NodeToZod(item, varName + "Item");
        assert r == inner + ".array()";
        assert r[|r| - 3] == 'y';
      } else if IsObjectNode(s) {
        var body := Join(ZodPropertyLines(s, varName), ",\n");
        assert r == "z.object({\n" + body + "\n})";
        assert r[|r| - 3] == '\n';
      }
    }
  }

  /** A literal union ends in `)])` or, with no values, in `([])`. */
  lemma ZodUnionTail(values: seq<JsonValue>)
    ensures |ZodUnion(values)| >= 3
    ensures ZodUnion(values)[|ZodUnion(values)| - 3] != 'l'
  {
    var r := ZodUnion(values);
    var literals := seq(|values|, i requires 0 <= i < |values| => "z.literal(" + Stringify(values[i]) + ")");
    var body := Join(literals, ", ");
    assert r == "z.union([" + body + "])";
    if literals != [] {
      JoinLast(literals, ", ");
      assert r[|r| - 3] == body[|body| - 1] == ')';
    } else {
      assert r[|r| - 3] == '[';
    }
  }

  /** `schemaToZodCode` gives `z.any()` exactly for a missing schema and for an
      unrecognised node. */
  lemma ZodAnyExactly(s: Schema, varName: string)
    ensures SchemaToZodCode(None, varName) == "z.any()"
    ensures NodeToZod(s, varName) == "z.any()" <==> Unrecognised(s)
  {
    var r := NodeToZod(s, varName);
    if s.enumValues.Some? {
      assert r[2] == 'u';
    } else if !HasType(s, "string") && !HasType(s, "number") && !HasType(s, "integer") && !HasType(s, "boolean") {
      if HasType(s, "array") {
        match s.items
        case None =>
        case Some(item) => ZodTail(item, varName + "Item");
      } else if IsObjectNode(s) {
        assert r[2] == 'o';
      }
    }
  }

  /** The two mappers fall back to "anything" on the same nodes. */
  lemma AnyAgrees(s: Schema, typeName: string, varName: string)
    ensures NodeToTS(s, typeName) == "any" <==> NodeToZod(s, varName) == "z.any()"
  {
    TsAnyExactly(s, typeName);
    ZodAnyExactly(s, varName);
  }

  /** With `enum` present the `type` is not consulted: the values are rendered
      as JSON literals joined by ` | `, or as a union of Zod literals. */
  lemma EnumFirst(s: Schema, t: Option<string>, typeName: string, varName: string)
    requires s.enumValues.Some?
    ensures NodeToTS(s.(schemaType := t), typeName) == NodeToTS(s, typeName) == EnumUnion(s.enumValues.value)
    ensures NodeToZod(s.(schemaType := t), varName) == NodeToZod(s, varName) == ZodUnion(s.enumValues.value)
  {
  }

  /** A one-value enum renders as a literal that reads back as that value. */
  lemma SingleEnumReadsBack(s: Schema, v: JsonValue, typeName: string)
    requires s.enumValues == Some([v])
    ensures Parse(NodeToTS(s, typeName)) == Some(v)
  {
    assert NodeToTS(s, typeName) == Stringify(v);
    ParseStringify(v);
  }

  /** `string`, `number`, `integer` and `boolean` map to their TypeScript and
      Zod scalars; `number` and `integer` both give `number`. */
  lemma Scalars(s: Schema, typeName: string, varName: string)
    requires s.enumValues.None?
    ensures HasType(s, "string") ==> NodeToTS(s, typeName) == "string" && NodeToZod(s, varName) == "z.string()"
    ensures HasType(s, "number") || HasType(s, "integer") ==>
      NodeToTS(s, typeName) == "number" && NodeToZod(s, varName) == "z.number()"
    ensures HasType(s, "boolean") ==> NodeToTS(s, typeName) == "boolean" && NodeToZod(s, varName) == "z.boolean()"
  {
  }

  /** The hint names flow only into the recursive calls: the text does not
      depend on them. */
  lemma {:induction false} TsHintFree(s: Schema, h1: string, h2: string)
    ensures NodeToTS(s, h1) == NodeToTS(s, h2)
    ensures TsPropertyLines(s, h1) == TsPropertyLines(s, h2)
    decreases s
  {
    if s.items.Some? {
      TsHintFree(s.items.value, h1 + "Item", h2 + "Item");
    }
    match s.properties
    case NoProperties =>
    case Properties(props) =>
      forall i | 0 <= i < |props|
        ensures TsPropertyLines(s, h1)[i] == TsPropertyLines(s, h2)[i]
      {
        TsHintFree(props[i].1, h1 + Capitalize(props[i].0), h2 + Capitalize(props[i].0));
      }
      assert TsPropertyLines(s, h1) == TsPropertyLines(s, h2);
  }

  lemma {:induction false} ZodHintFree(s: Schema, h1: string, h2: string)
    ensures NodeToZod(s, h1) == NodeToZod(s, h2)
    ensures ZodPropertyLines(s, h1) == ZodPropertyLines(s, h2)
    decreases s
  {
    if s.items.Some? {
      ZodHintFree(s.items.value, h1 + "Item", h2 + "Item");
    }
    match s.properties
    case NoProperties =>
    case Properties(props) =>
      forall i | 0 <= i < |props|
        ensures ZodPropertyLines(s, h1)[i] == ZodPropertyLines(s, h2)[i]
      {
        ZodHintFree(props[i].1, h1 + "_" + props[i].0, h2 + "_" + props[i].0);
      }
      assert ZodPropertyLines(s, h1) == ZodPropertyLines(s, h2);
  }

  /** An array is its item's text followed by `[]` in TypeScript and by
      `.array()` in Zod; a missing `items` stands for anything. */
  lemma ArraySuffix(s: Schema, typeName: string, varName: string)
    requires s.enumValues.None? && HasType(s, "array")
    ensures NodeToTS(s, typeName) == SimpleSchemaToTS(s.items, typeName) + "[]"
    ensures NodeToZod(s, varName) == SchemaToZodCode(s.items, varName) + ".array()"
    ensures s.items.None? ==> NodeToTS(s, typeName) == "any[]" && NodeToZod(s, varName) == "z.any().array()"
  {
    if s.items.Some? {
      TsHintFree(s.items.value, typeName + "Item", typeName);
      ZodHintFree(s.items.value, varName + "Item", varName);
    }
  }

  /** The marker after the key in a TypeScript property line is `?` exactly
      when the key is not required. */
  lemma TsLineMarker(k: string, required: seq<string>, tsType: string)
    ensures |TsLine(k, required, tsType)| > 2 + |k|
    ensures TsLine(k, required, tsType)[2 + |k|] == '?' <==> k !in required
  {
    var line := TsLine(k, required, tsType);
    var opt := if k in required then "" else "?";
    assert line == ("  " + k) + (opt + ": " + tsType + ";");
  }

  /** A Zod property line ends in `.optional()` exactly when the key is not
      required, given a code that does not end that way itself. */
  lemma ZodLineMarker(k: string, required: seq<string>, code: string)
    requires |code| >= 3 && code[|code| - 3] != 'l'
    ensures EndsWith(ZodLine(k, required, code), ".optional()") <==> k !in required
  {
    var line := ZodLine(k, required, code);
    if k in required {
      assert line[|line| - 3] == code[|code| - 3];
      assert ".optional()"[8] == 'l';
    }
  }

  /** The key of each property line, in `properties` order: the bare key in
      TypeScript, the key as a JSON string in Zod. */
  lemma PropertyLineKeys(s: Schema, typeName: string, varName: string, i: nat)
    requires i < |PropsOf(s)|
    ensures StartsWith(TsPropertyLines(s, typeName)[i], "  " + PropsOf(s)[i].0)
    ensures StartsWith(ZodPropertyLines(s, varName)[i], "  " + Stringify(JString(PropsOf(s)[i].0)))
  {
    var k := PropsOf(s)[i].0;
    var ts := TsPropertyLines(s, typeName)[i];
    var zod := ZodPropertyLines(s, varName)[i];
    assert ts[..|"  " + k|] == "  " + k;
    assert zod[..|"  " + Stringify(JString(k))|] == "  " + Stringify(JString(k));
  }

  /** A property is marked optional in TypeScript (`?`) exactly when it is
      marked optional in Zod (`.optional()`), and exactly when its key is not
      listed in `required`. */
  lemma OptionalMarkersAgree(s: Schema, typeName: string, varName: string, i: nat)
    requires i < |PropsOf(s)|
    ensures |TsPropertyLines(s, typeName)[i]| > 2 + |PropsOf(s)[i].0|
    ensures TsPropertyLines(s, typeName)[i][2 + |PropsOf(s)[i].0|] == '?' <==> PropsOf(s)[i].0 !in RequiredOf(s)
    ensures EndsWith(ZodPropertyLines(s, varName)[i], ".optional()") <==> PropsOf(s)[i].0 !in RequiredOf(s)
  {
    var (k, sub) := PropsOf(s)[i];
    TsLineMarker(k, RequiredOf(s), NodeToTS(sub, typeName + Capitalize(k)));
    ZodTail(sub, varName + "_" + k);
    ZodLineMarker(k, RequiredOf(s), NodeToZod(sub, varName + "_" + k));
  }

  /** An object node is its property lines inside braces, one line per entry
      of `properties` (none when it has none). */
  lemma ObjectShape(s: Schema, typeName: string, varName: string)
    requires s.enumValues.None? && IsObjectNode(s)
    requires !HasType(s, "string") && !HasType(s, "number") && !HasType(s, "integer")
    requires !HasType(s, "boolean") && !HasType(s, "array")
    ensures NodeToTS(s, typeName) == TsObject(TsPropertyLines(s, typeName))
    ensures NodeToZod(s, varName) == ZodObject(ZodPropertyLines(s, varName))
    ensures |TsPropertyLines(s, typeName)| == |ZodPropertyLines(s, varName)| == |PropsOf(s)|
  {
  }

  /** The archived `schemaToTS` and `simpleSchemaToTS` produce the same text. */
  lemma {:induction false} ArchivedAgrees(s: Schema, typeName: string)
    ensures ArchivedNodeToTS(s, typeName) == NodeToTS(s, typeName)
    decreases s
  {
    if s.items.Some? {
      ArchivedAgrees(s.items.value, typeName + "Item");
    }
    match s.properties
    case NoProperties =>
    case Properties(props) =>
      forall i | 0 <= i < |props|
        ensures ArchivedNodeToTS(props[i].1, typeName + Capitalize(props[i].0))
             == NodeToTS(props[i].1, typeName + Capitalize(props[i].0))
      {
        ArchivedAgrees(props[i].1, typeName + Capitalize(props[i].0));
      }
      var required := s.required.GetOr([]);
      assert seq(|props|, i requires 0 <= i < |props| =>
          TsLine(props[i].0, required, ArchivedNodeToTS(props[i].1, typeName + Capitalize(props[i].0))))
        == TsPropertyLines(s, typeName);
  }

  lemma ArchivedAgreesOnOptions(schema: Option<Schema>, typeName: string)
    ensures SchemaToTS(schema, typeName) == SimpleSchemaToTS(schema, typeName)
  {
    if schema.Some? {
      ArchivedAgrees(schema.value, typeName);
    }
  }

  /** Sanitizing is idempotent. */
  lemma SanitizeBaseIdempotent(base: string)
    ensures SanitizeBase(SanitizeBase(base)) == SanitizeBase(base)
  {
    SanitizeBaseFixes(SanitizeBase(base));
  }

  /** The item schema of the test's `getPets` response: an object with a
      required integer `id`. */
  function PetSchema(): Schema {
    Schema(Some("object"), None, None, Properties([("id", TypeOnly("integer"))]), Some(["id"]))
  }

  /** The TypeScript line of the required `id` property. */
  lemma PetTsLines(typeName: string)
    ensures TsPropertyLines(PetSchema(), typeName) == ["  id: number;"]
  {
    var pet := PetSchema();
    assert "id" in RequiredOf(pet);
    assert TsLine("id", RequiredOf(pet), "number") == "  id: number;";
    assert TsPropertyLines(pet, typeName)[0]
        == TsLine("id", RequiredOf(pet), NodeToTS(TypeOnly("integer"), typeName + "Id"));
  }

  /** `JSON.stringify("id")`. */
  lemma IdLiteral()
    ensures Stringify(JString("id")) == "\"id\""
  {
    assert Escape("d") == "d";
    assert Escape("id") == "id";
  }

  /** The Zod line of the required `id` property. */
  lemma PetZodLines(varName: string)
    ensures ZodPropertyLines(PetSchema(), varName) == ["  \"id\": z.number()"]
  {
    var pet := PetSchema();
    assert "id" in RequiredOf(pet);
    IdLiteral();
    assert ZodLine("id", RequiredOf(pet), "z.number()") == "  \"id\": z.number()";
    assert ZodPropertyLines(pet, varName)[0]
        == ZodLine("id", RequiredOf(pet), NodeToZod(TypeOnly("integer"), varName + "_id"));
  }

  /** The test's `getPets` response schema: an array of `PetSchema`. */
  function PetsSchema(): Schema {
    Schema(Some("array"), None, Some(PetSchema()), NoProperties, None)
  }

  lemma PetTsObject(typeName: string)
    ensures NodeToTS(PetSchema(), typeName) == TsObject(["  id: number;"])
  {
    PetTsLines(typeName);
  }

  lemma TsObjectOne(line: string)
    ensures TsObject([line]) == "{\n" + line + "\n}"
  {
  }

  lemma PetTs(typeName: string)
    ensures NodeToTS(PetSchema(), typeName) == "{\n  id: number;\n}"
  {
    PetTsObject(typeName);
    TsObjectOne("  id: number;");
  }

  /** `simpleSchemaToTS` of the test's `getPets` response schema. */
  lemma PetsResponseTs()
    ensures SimpleSchemaToTS(Some(PetsSchema()), "GetPetsResponse") == "{\n  id: number;\n}[]"
  {
    ArraySuffix(PetsSchema(), "GetPetsResponse", "");
    PetTs("GetPetsResponseItem");
  }

  lemma PetZodObject(varName: string)
    ensures NodeToZod(PetSchema(), varName) == ZodObject(["  \"id\": z.number()"])
  {
    PetZodLines(varName);
  }

  lemma ZodObjectOne(line: string)
    ensures ZodObject([line]) == "z.object({\n" + line + "\n})"
  {
  }

  lemma PetZod(varName: string)
    ensures NodeToZod(PetSchema(), varName) == "z.object({\n  \"id\": z.number()\n})"
  {
    PetZodObject(varName);
    ZodObjectOne("  \"id\": z.number()");
  }

  /** `schemaToZodCode` of the test's `getPets` response schema. */
  lemma PetsResponseZod()
    ensures SchemaToZodCode(Some(PetsSchema()), "GetPetsResponse") == "z.object({\n  \"id\": z.number()\n}).array()"
  {
    ArraySuffix(PetsSchema(), "", "GetPetsResponse");
    PetZod("GetPetsResponse");
  }
}
