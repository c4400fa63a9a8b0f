/**
  The form body of a token-endpoint request, a `LinkedMultiValueMap` that
  the service fills with successive `add` calls: keys keep the order in
  which they were first added, and each key holds the list of values
  added under it.
 */
module FormBody {
  import opened JavaLang

  /** The contents of the multi-value map. */
  datatype Form = Form(keys: seq<string>, values: map<string, seq<JString>>)

  const EmptyForm: Form := Form([], map[])

  /** The map's invariant: each key listed once, and exactly the keys
      that hold values. */
  ghost predicate WellFormed(f: Form)
  {
    && (forall i, j :: 0 <= i < j < |f.keys| ==> f.keys[i] != f.keys[j])
    && (forall k :: k in f.values <==> k in f.keys)
  }

  /** `add(key, value)`: the value joins the key's list; a new key goes
      last in the key order. */
  function Added(f: Form, key: string, value: JString): (g: Form)
  {
    if key in f.values then Form(f.keys, f.values[key := f.values[key] + [value]])
    else Form(f.keys + [key], f.values[key := [value]])
  }

  /** `add` keeps the map's invariant, appends a new key at the end of the
      key order, extends the key's list by the value and leaves every other
      key's list alone. */
  lemma AddedKeepsInvariant(f: Form, key: string, value: JString)
    requires WellFormed(f)
    ensures WellFormed(Added(f, key, value))
    ensures Added(f, key, value).keys == if key in f.values then f.keys else f.keys + [key]
    ensures Added(f, key, value).values[key] == (if key in f.values then f.values[key] else []) + [value]
    ensures forall k :: k in f.values && k != key ==> Added(f, key, value).values[k] == f.values[k]
  {
  }

  /** The map object itself. */
  class MultiValueMap {
    var keys: seq<string>
    var values: map<string, seq<JString>>

    function Contents(): Form
      reads this
    {
      Form(keys, values)
    }

    ghost predicate Valid()
      reads this
    {
      WellFormed(Contents())
    }

    constructor ()
      ensures Valid() && Contents() == EmptyForm
    {
      keys := [];
      values := map[];
    }

    method Add(key: string, value: JString)
      requires Valid()
      modifies this
      ensures Valid()
      ensures Contents() == Added(old(Contents()), key, value)
    {
      if key in values {
        values := values[key := values[key] + [value]];
      } else {
        keys := keys + [key];
        values := values[key := [value]];
      }
    }
  }
}
