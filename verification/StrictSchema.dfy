/** The OpenAI strict-mode rewrite of a JSON schema, and the subtree moves it records.

    `Strict` is the rewritten tree and `Moves` the paths, relative to the schema, at which a
    subtree moved below a nullable wrapper; `RewriteStrict` rewrites step by step.  Trees are
    owned, so updating one in place is modelled as replacing its value. */
module StrictSchema {
  import opened Options
  import opened JsonValues
  import opened JsonPointers

  /** Keywords whose value maps names to schemas, in visiting order. */
  const MAP_KEYS: seq<string> :=
    ["properties", "patternProperties", "definitions", "$defs", "dependentSchemas", "dependencies"]

  /** Keywords whose value is a schema or an array of schemas, in visiting order. */
  const CHILD_KEYS: seq<string> :=
    ["items", "additionalItems", "additionalProperties", "anyOf", "allOf", "oneOf", "prefixItems", "not", "if",
     "then", "else", "contains", "propertyNames", "unevaluatedItems", "unevaluatedProperties"]

  // ----- Reading a schema

  predicate IsObjectSchema(ms: Members) {
    match Lookup(ms, "type")
    case Some(String(kind)) => kind == "object"
    case Some(Array(kinds)) => exists i :: 0 <= i < |kinds| && kinds[i] == String("object")
    case _ => Has(ms, "properties")
  }

  function StringsOf(items: seq<Value>): seq<string> {
    if items == [] then []
    else (if items[0].String? then [items[0].s] else []) + StringsOf(items[1..])
  }

  function Required(ms: Members): seq<string> {
    match Lookup(ms, "required")
    case Some(Array(items)) => StringsOf(items)
    case _ => []
  }

  /** The declared properties of an object schema. */
  function Properties(ms: Members): Members {
    match Lookup(ms, "properties")
    case Some(Object(properties)) => properties
    case _ => []
  }

  predicate IsOptional(ms: Members, name: string) {
    IsObjectSchema(ms) && name !in Required(ms)
  }

  function Names(ms: Members): seq<Value> {
    seq(|ms|, i requires 0 <= i < |ms| => String(ms[i].0))
  }

  const NULL_SCHEMA: Value := Object([("type", String("null"))])

  function Nullable(v: Value): Value {
    Object([("anyOf", Array([v, NULL_SCHEMA]))])
  }

  // ----- The rewritten tree

  function Strict(v: Value): Value
    decreases v, 0
  {
    match v
    case Object(ms) =>
      var visited := seq(|ms|, i requires 0 <= i < |ms| => (ms[i].0, StrictMember(ms, ms[i].0, ms[i].1)));
      Object(Declare(ms, SwapRemove(visited, "propertyNames")))
    case _ => v
  }

  /** Adds what an object schema must declare. */
  function Declare(ms: Members, kept: Members): Members {
    if !IsObjectSchema(ms) then kept
    else
      var listed := match Lookup(ms, "properties")
                    case Some(Object(properties)) => Insert(kept, "required", Array(Names(properties)))
                    case _ => kept;
      Insert(listed, "additionalProperties", Bool(false))
  }

  function StrictMember(ms: Members, key: string, x: Value): Value
    decreases x, 1
  {
    if key in MAP_KEYS then
      match x
      case Object(children) =>
        Object(seq(|children|, i requires 0 <= i < |children| =>
          (children[i].0, StrictChild(ms, key, children[i].0, children[i].1))))
      case _ => x
    else if key in CHILD_KEYS then
      match x
      case Array(items) => Array(seq(|items|, i requires 0 <= i < |items| => Strict(items[i])))
      case _ => Strict(x)
    else x
  }

  function StrictChild(ms: Members, key: string, name: string, c: Value): Value
    decreases c, 1
  {
    if key == "properties" && IsOptional(ms, name) then Nullable(Strict(c)) else Strict(c)
  }

  // ----- The recorded moves, relative to the schema

  function Under(prefix: Path, moves: seq<Path>): seq<Path> {
    seq(|moves|, i requires 0 <= i < |moves| => prefix + moves[i])
  }

  function OwnMoves(names: seq<string>): seq<Path> {
    seq(|names|, i requires 0 <= i < |names| => ["properties", names[i]])
  }

  function OptionalNames(ms: Members, properties: Members): seq<string> {
    if properties == [] then []
    else (if IsOptional(ms, properties[0].0) then [properties[0].0] else []) + OptionalNames(ms, properties[1..])
  }

  /** The value of a visited keyword after the schema's own rewriting. */
  function Visited(ms: Members, key: string): Option<Value> {
    if key == "propertyNames" then None
    else if key == "additionalProperties" && IsObjectSchema(ms) then Some(Bool(false))
    else Lookup(ms, key)
  }

  function Moves(v: Value): seq<Path>
    decreases v, 3
  {
    match v
    case Object(ms) =>
      OwnMoves(OptionalNames(ms, Properties(ms))) + KeysMoves(v, MAP_KEYS) + KeysMoves(v, CHILD_KEYS)
    case _ => []
  }

  function KeysMoves(v: Value, keys: seq<string>): seq<Path>
    requires v.Object?
    decreases v, 2, keys
  {
    if keys == [] then [] else KeyMoves(v, keys[0]) + KeysMoves(v, keys[1..])
  }

  function KeyMoves(v: Value, key: string): seq<Path>
    requires v.Object?
    decreases v, 1
  {
    var ms := v.members;
    if Visited(ms, key).None? || Visited(ms, key) != Lookup(ms, key) then []
    else
      var i := Find(ms, key);
      var x := ms[i].1;
      if key in MAP_KEYS then
        match x
        case Object(_) => NamedMoves(ms, key, x, 0)
        case _ => []
      else
        match x
        case Array(_) => IndexedMoves(key, x, 0)
        case _ => Under([key], Moves(x))
  }

  function ChildPrefix(ms: Members, key: string, name: string): Path {
    [key, name] + if key == "properties" && IsOptional(ms, name) then WRAPPED else []
  }

  function NamedMoves(ms: Members, key: string, x: Value, i: nat): seq<Path>
    requires x.Object? && i <= |x.members|
    decreases x, |x.members| - i
  {
    if i == |x.members| then []
    else Under(ChildPrefix(ms, key, x.members[i].0), Moves(x.members[i].1)) + NamedMoves(ms, key, x, i + 1)
  }

  function IndexedMoves(key: string, x: Value, i: nat): seq<Path>
    requires x.Array? && i <= |x.items|
    decreases x, |x.items| - i
  {
    if i == |x.items| then []
    else Under([key, Decimal(i)], Moves(x.items[i])) + IndexedMoves(key, x, i + 1)
  }
}
