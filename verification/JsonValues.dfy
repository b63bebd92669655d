/** JSON values as json.loads gives them: a dict is its items in order, a number its text. */
module JsonValues {
  import opened Wrappers

  datatype Json =
    | Null
    | Bool(b: bool)
    | Number(text: string)
    | Str(s: string)
    | List(items: seq<Json>)
    | Dict(fields: seq<Field>)

  datatype Field = Field(key: string, value: Json)

  /** dict.get */
  function Get(fields: seq<Field>, key: string): Option<Json> {
    if fields == [] then None
    else if fields[0].key == key then Some(fields[0].value)
    else Get(fields[1..], key)
  }

  /** fields[key] = value: in the key's place, or at the end. */
  function Set(fields: seq<Field>, key: string, value: Json): seq<Field> {
    if fields == [] then [Field(key, value)]
    else if fields[0].key == key then [Field(key, value)] + fields[1..]
    else [fields[0]] + Set(fields[1..], key, value)
  }

  /** fields.pop(key, None) */
  function Without(fields: seq<Field>, key: string): seq<Field> {
    if fields == [] then []
    else (if fields[0].key == key then [] else [fields[0]]) + Without(fields[1..], key)
  }

  lemma {:induction false} GetSet(fields: seq<Field>, key: string, value: Json, other: string)
    ensures Get(Set(fields, key, value), other) == if other == key then Some(value) else Get(fields, other)
  {
    if fields != [] {
      GetSet(fields[1..], key, value, other);
      var rest := Set(fields[1..], key, value);
      assert ([fields[0]] + rest)[1..] == rest;
      assert ([Field(key, value)] + fields[1..])[1..] == fields[1..];
    }
  }

  lemma {:induction false} WithoutForgetsOneKey(fields: seq<Field>, key: string, other: string)
    ensures Get(Without(fields, key), other) == if other == key then None else Get(fields, other)
  {
    if fields != [] {
      WithoutForgetsOneKey(fields[1..], key, other);
      var rest := Without(fields[1..], key);
      assert ([fields[0]] + rest)[1..] == rest;
      assert Without(fields, key) == if fields[0].key == key then rest else [fields[0]] + rest;
      assert Get([fields[0]] + rest, other) == if fields[0].key == other then Some(fields[0].value)
               else Get(rest, other);
    }
  }
}
