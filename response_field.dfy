/**
  `extractFieldFromKeycloakResponse`: read the token endpoint's reply as a
  JSON tree, take one top-level field and return its text. Malformed JSON
  and a missing field both end in "" (the `JsonProcessingException` and the
  `NullPointerException` of `get(field).asText()` are caught).
 */
module ResponseField {
  import opened JavaLang

  /** A JSON tree as the reader builds it; a number carries the text the
      reader prints for it. */
  datatype Json =
    | JNull
    | JBool(b: bool)
    | JNumber(text: string)
    | JText(s: string)
    | JArray(items: seq<Json>)
    | JObject(fields: map<string, Json>)

  /** `objectMapper.readTree(text)`: `None` when the text is malformed (the
      reader throws `JsonProcessingException`) or holds no value at all. */
  type JsonReader = string -> Option<Json>

  /** `node.get(field)`: the member of an object node, null otherwise. */
  function Get(node: Json, field: string): Option<Json>
  {
    match node
    case JObject(fields) => if field in fields then Some(fields[field]) else None
    case _ => None
  }

  /** `node.asText()`: a text node's own text, the printed value of a
      scalar, and "" for arrays and objects. */
  function AsText(node: Json): (t: string)
    ensures node == JNull ==> t == "null"
    ensures node.JBool? ==> (t == "true" <==> node.b) && (t == "false" <==> !node.b)
    ensures node.JNumber? ==> t == node.text
    ensures node.JText? ==> t == node.s
    ensures node.JArray? || node.JObject? ==> t == ""
  {
    match node
    case JNull => "null"
    case JBool(b) => if b then "true" else "false"
    case JNumber(text) => text
    case JText(s) => s
    case JArray(_) => ""
    case JObject(_) => ""
  }

  /** The reply parses to an object that has `field`. */
  predicate HasField(tree: Option<Json>, field: string)
  {
    tree.Some? && tree.value.JObject? && field in tree.value.fields
  }

  function ExtractField(readTree: JsonReader, jsonResponse: string, field: string): (r: string)
    ensures HasField(readTree(jsonResponse), field) ==>
      r == AsText(readTree(jsonResponse).value.fields[field])
    ensures !HasField(readTree(jsonResponse), field) ==> r == ""
  {
    var extracted := "";
    match readTree(jsonResponse)
    case None => extracted
    case Some(node) =>
      match Get(node, field)
      case None => extracted
      case Some(member) => AsText(member)
  }

  /** `extractFieldFromKeycloakResponse` given a possibly null text: the
      reader rejects a null text with `IllegalArgumentException`, which the
      method does not catch; any other text is read as `ExtractField` says. */
  function ExtractNullableField(readTree: JsonReader, jsonResponse: JString, field: string): (r: Outcome<string>)
    ensures r.Threw? <==> jsonResponse.None?
    ensures r.Threw? ==> r.exception == IllegalArgumentException
    ensures r.Returned? ==> r.value == ExtractField(readTree, jsonResponse.value, field)
  {
    match jsonResponse
    case None => Threw(IllegalArgumentException)
    case Some(text) => Returned(ExtractField(readTree, text, field))
  }

  /** A reply `{…, "field": "text", …}` yields `text`. */
  lemma ExtractTextField(readTree: JsonReader, jsonResponse: string, field: string, fields: map<string, Json>, text: string)
    requires readTree(jsonResponse) == Some(JObject(fields))
    requires field in fields && fields[field] == JText(text)
    ensures ExtractField(readTree, jsonResponse, field) == text
  {
  }

  /** A non-empty extraction always comes from a field that is present. */
  lemma NonEmptyMeansPresent(readTree: JsonReader, jsonResponse: string, field: string)
    requires ExtractField(readTree, jsonResponse, field) != ""
    ensures HasField(readTree(jsonResponse), field)
    ensures AsText(readTree(jsonResponse).value.fields[field]) == ExtractField(readTree, jsonResponse, field)
  {
  }
}
