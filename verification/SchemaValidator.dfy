/** The recursive payload validator of the event catalog, against a declarative reading of its schemas. */
module SchemaValidator {
  import opened Common
  import opened Wrappers

  /** A JSON value; object fields in insertion order. */
  datatype Data =
    | Null
    | Bool(b: bool)
    | Num(n: real)
    | Str(s: string)
    | Arr(items: seq<Data>)
    | Obj(fields: seq<(string, Data)>)

  /** `Anything` is a sub-schema that is no object; `pattern` is the regular expression's test. */
  datatype Schema =
    | Anything
    | Schema(
        types: Option<seq<string>>,
        choices: Option<seq<Data>>,
        minLength: Option<int>,
        maxLength: Option<int>,
        pattern: Option<string -> bool>,
        minimum: Option<real>,
        maximum: Option<real>,
        required: Option<seq<string>>,
        properties: Properties,
        additionalForbidden: bool,
        items: Option<Schema>,
        minItems: Option<int>,
        maxItems: Option<int>)

  /** The `properties` keyword: its entries in order. */
  datatype Properties = NoProperties | Properties(list: seq<(string, Schema)>)

  datatype Seg = Key(k: string) | Index(i: nat)

  type Loc = seq<Seg>

  datatype Keyword =
    | Type | Enum | MinLength | MaxLength | Pattern | Minimum | Maximum
    | Required(key: string) | Additional(key: string) | MinItems | MaxItems

  /** A violated keyword and the place of the value that violates it. */
  datatype SchemaError = SchemaError(loc: Loc, keyword: Keyword)

  // ---------- local checks ----------

  function JsType(data: Data): string {
    match data
    case Null => "null"
    case Bool(_) => "boolean"
    case Num(_) => "number"
    case Str(_) => "string"
    case Arr(_) => "array"
    case Obj(_) => "object"
  }

  predicate TypeOk(data: Data, schema: Schema) {
    schema.Anything? || schema.types.None? || JsType(data) in schema.types.value
  }

  /** `includes`: primitives by value, arrays and objects never. */
  predicate Includes(choices: seq<Data>, data: Data) {
    !data.Arr? && !data.Obj? && data in choices
  }

  function Find<V>(fields: seq<(string, V)>, key: string): Option<V> {
    if fields == [] then None
    else if fields[0].0 == key then Some(fields[0].1)
    else Find(fields[1..], key)
  }

  predicate Has<V>(fields: seq<(string, V)>, key: string) {
    Find(fields, key).Some?
  }

  // ---------- the specification of the recursion ----------

  function One(condition: bool, loc: Loc, keyword: Keyword): seq<SchemaError> {
    if condition then [SchemaError(loc, keyword)] else []
  }

  function StringErrors(s: string, schema: Schema, loc: Loc, before: seq<SchemaError>): seq<SchemaError>
    requires schema.Schema?
  {
    before
    + One(schema.minLength.Some? && |s| < schema.minLength.value, loc, MinLength)
    + One(schema.maxLength.Some? && |s| > schema.maxLength.value, loc, MaxLength)
    + One(schema.pattern.Some? && !schema.pattern.value(s), loc, Pattern)
  }

  function NumberErrors(n: real, schema: Schema, loc: Loc, before: seq<SchemaError>): seq<SchemaError>
    requires schema.Schema?
  {
    before
    + One(schema.minimum.Some? && n < schema.minimum.value, loc, Minimum)
    + One(schema.maximum.Some? && n > schema.maximum.value, loc, Maximum)
  }

  function RequiredErrors(fields: seq<(string, Data)>, keys: seq<string>, loc: Loc): seq<SchemaError> {
    if keys == [] then []
    else
      var key := keys[|keys| - 1];
      RequiredErrors(fields, keys[..|keys| - 1], loc) + One(!Has(fields, key), loc, Required(key))
  }

  function AdditionalErrors(fields: seq<(string, Data)>, properties: seq<(string, Schema)>, loc: Loc): seq<SchemaError> {
    if fields == [] then []
    else
      var key := fields[|fields| - 1].0;
      AdditionalErrors(fields[..|fields| - 1], properties, loc) + One(!Has(properties, key), loc, Additional(key))
  }

  /** Errors below the first n properties of the schema. */
  function PropertyErrors(fields: seq<(string, Data)>, schema: Schema, n: nat, loc: Loc): seq<SchemaError>
    requires schema.Schema? && schema.properties.Properties? && n <= |schema.properties.list|
    decreases schema, n
  {
    if n == 0 then []
    else
      var (key, sub) := schema.properties.list[n - 1];
      var value := Find(fields, key);
      PropertyErrors(fields, schema, n - 1, loc) + if value.Some? then Validate(value.value, sub, loc + [Key(key)]) else []
  }

  /** Errors below the first n items. */
  function ItemErrors(items: seq<Data>, schema: Schema, n: nat, loc: Loc): seq<SchemaError>
    requires schema.Schema? && schema.items.Some? && n <= |items|
    decreases schema, n
  {
    if n == 0 then []
    else ItemErrors(items, schema, n - 1, loc) + Validate(items[n - 1], schema.items.value, loc + [Index(n - 1)])
  }

  function ObjectErrors(fields: seq<(string, Data)>, schema: Schema, loc: Loc): seq<SchemaError>
    requires schema.Schema?
    decreases schema, if schema.properties.Properties? then |schema.properties.list| + 1 else 0
  {
    (if schema.required.Some? then RequiredErrors(fields, schema.required.value, loc) else [])
    + (if schema.properties.Properties? then PropertyErrors(fields, schema, |schema.properties.list|, loc) else [])
    + (if schema.additionalForbidden && schema.properties.Properties?
       then AdditionalErrors(fields, schema.properties.list, loc) else [])
  }

  function ArrayErrors(items: seq<Data>, schema: Schema, loc: Loc): seq<SchemaError>
    requires schema.Schema? && schema.items.Some?
    decreases schema, |items| + 1
  {
    ItemErrors(items, schema, |items|, loc)
    + One(schema.minItems.Some? && |items| < schema.minItems.value, loc, MinItems)
    + One(schema.maxItems.Some? && |items| > schema.maxItems.value, loc, MaxItems)
  }

  /** All errors of a value against a schema, in the order the code pushes them. */
  function Validate(data: Data, schema: Schema, loc: Loc): seq<SchemaError>
    decreases schema
  {
    if schema.Anything? then []
    else if !TypeOk(data, schema) then [SchemaError(loc, Type)]
    else
      var chosen := One(schema.choices.Some? && !Includes(schema.choices.value, data), loc, Enum);
      match data
      case Str(s) => StringErrors(s, schema, loc, chosen)
      case Num(n) => NumberErrors(n, schema, loc, chosen)
      case Obj(fields) => chosen + ObjectErrors(fields, schema, loc)
      case Arr(items) => chosen + if schema.items.Some? then ArrayErrors(items, schema, loc) else []
      case _ => chosen
  }

  // ---------- the code ----------

  method ValidateSchema(data: Data, schema: Schema, path: Loc) returns (errors: seq<SchemaError>)
    ensures errors == Validate(data, schema, path)
    decreases schema
  {
    errors := [];
    if schema.Anything? {
      return;
    }
    if schema.types.Some? && JsType(data) !in schema.types.value {
      return [SchemaError(path, Type)];
    }
    if schema.choices.Some? && !Includes(schema.choices.value, data) {
      errors := errors + [SchemaError(path, Enum)];
    }
    match data
    case Str(s) =>
      errors := ValidateString(s, schema, path, errors);
    case Num(n) =>
      errors := ValidateNumber(n, schema, path, errors);
    case Obj(fields) =>
      var more := ValidateObject(fields, schema, path);
      errors := errors + more;
    case Arr(items) =>
      if schema.items.Some? {
        var more := ValidateArray(items, schema, path);
        errors := errors + more;
      }
    case _ =>
  }

  method ValidateString(s: string, schema: Schema, path: Loc, before: seq<SchemaError>) returns (errors: seq<SchemaError>)
    requires schema.Schema?
    ensures errors == StringErrors(s, schema, path, before)
  {
    errors := before;
    if schema.minLength.Some? && |s| < schema.minLength.value {
      errors := errors + [SchemaError(path, MinLength)];
    }
    if schema.maxLength.Some? && |s| > schema.maxLength.value {
      errors := errors + [SchemaError(path, MaxLength)];
    }
    if schema.pattern.Some? && !schema.pattern.value(s) {
      errors := errors + [SchemaError(path, Pattern)];
    }
  }

  method ValidateNumber(n: real, schema: Schema, path: Loc, before: seq<SchemaError>) returns (errors: seq<SchemaError>)
    requires schema.Schema?
    ensures errors == NumberErrors(n, schema, path, before)
  {
    errors := before;
    if schema.minimum.Some? && n < schema.minimum.value {
      errors := errors + [SchemaError(path, Minimum)];
    }
    if schema.maximum.Some? && n > schema.maximum.value {
      errors := errors + [SchemaError(path, Maximum)];
    }
  }

  method ValidateObject(fields: seq<(string, Data)>, schema: Schema, path: Loc) returns (errors: seq<SchemaError>)
    requires schema.Schema?
    ensures errors == ObjectErrors(fields, schema, path)
    decreases schema, 0
  {
    errors := [];
    if schema.required.Some? {
      errors := ValidateRequired(fields, schema.required.value, path);
    }
    ghost var first := errors;
    assert first + [] == first;
    if schema.properties.Properties? {
      var properties := schema.properties.list;
      for i := 0 to |properties|
        invariant errors == first + PropertyErrors(fields, schema, i, path)
      {
        var (key, sub) := properties[i];
        var value := Find(fields, key);
        if value.Some? {
          var more := ValidateSchema(value.value, sub, path + [Key(key)]);
          Assoc(first, PropertyErrors(fields, schema, i, path), more);
          errors := errors + more;
        }
      }
    }
    if schema.additionalForbidden && schema.properties.Properties? {
      var more := ValidateAdditional(fields, schema.properties.list, path);
      errors := errors + more;
    }
  }

  method ValidateRequired(fields: seq<(string, Data)>, keys: seq<string>, path: Loc) returns (errors: seq<SchemaError>)
    ensures errors == RequiredErrors(fields, keys, path)
  {
    errors := [];
    for i := 0 to |keys|
      invariant errors == RequiredErrors(fields, keys[..i], path)
    {
      assert keys[..i + 1][..i] == keys[..i];
      if !Has(fields, keys[i]) {
        errors := errors + [SchemaError(path, Required(keys[i]))];
      }
    }
    assert keys[..|keys|] == keys;
  }

  method ValidateAdditional(fields: seq<(string, Data)>, properties: seq<(string, Schema)>, path: Loc)
    returns (errors: seq<SchemaError>)
    ensures errors == AdditionalErrors(fields, properties, path)
  {
    errors := [];
    for i := 0 to |fields|
      invariant errors == AdditionalErrors(fields[..i], properties, path)
    {
      assert fields[..i + 1][..i] == fields[..i];
      if !Has(properties, fields[i].0) {
        errors := errors + [SchemaError(path, Additional(fields[i].0))];
      }
    }
    assert fields[..|fields|] == fields;
  }

  method ValidateArray(items: seq<Data>, schema: Schema, path: Loc) returns (errors: seq<SchemaError>)
    requires schema.Schema? && schema.items.Some?
    ensures errors == ArrayErrors(items, schema, path)
    decreases schema, 0
  {
    errors := [];
    for i := 0 to |items|
      invariant errors == ItemErrors(items, schema, i, path)
    {
      var more := ValidateSchema(items[i], schema.items.value, path + [Index(i)]);
      errors := errors + more;
    }
    if schema.minItems.Some? && |items| < schema.minItems.value {
      errors := errors + [SchemaError(path, MinItems)];
    }
    if schema.maxItems.Some? && |items| > schema.maxItems.value {
      errors := errors + [SchemaError(path, MaxItems)];
    }
  }

  // ---------- the declarative reading ----------

  /** Does a value, by itself, violate a keyword of its schema? A wrong type hides every other keyword. */
  predicate Violates(data: Data, schema: Schema, keyword: Keyword) {
    schema.Schema? &&
    if !TypeOk(data, schema) then keyword == Type
    else
      match keyword
      case Type => false
      case Enum => schema.choices.Some? && !Includes(schema.choices.value, data)
      case MinLength => data.Str? && schema.minLength.Some? && |data.s| < schema.minLength.value
      case MaxLength => data.Str? && schema.maxLength.Some? && |data.s| > schema.maxLength.value
      case Pattern => data.Str? && schema.pattern.Some? && !schema.pattern.value(data.s)
      case Minimum => data.Num? && schema.minimum.Some? && data.n < schema.minimum.value
      case Maximum => data.Num? && schema.maximum.Some? && data.n > schema.maximum.value
      case Required(key) => data.Obj? && schema.required.Some? && key in schema.required.value && !Has(data.fields, key)
      case Additional(key) =>
        data.Obj? && schema.additionalForbidden && schema.properties.Properties?
        && Has(data.fields, key) && !Has(schema.properties.list, key)
      case MinItems => data.Arr? && schema.items.Some? && schema.minItems.Some? && |data.items| < schema.minItems.value
      case MaxItems => data.Arr? && schema.items.Some? && schema.maxItems.Some? && |data.items| > schema.maxItems.value
  }

  /** The value and sub-schema met by following a location, with no type failure above them. */
  function Descend(data: Data, schema: Schema, loc: Loc): Option<(Data, Schema)>
    decreases |loc|
  {
    if loc == [] then Some((data, schema))
    else if schema.Anything? || !TypeOk(data, schema) then None
    else
      match loc[0]
      case Key(k) =>
        if data.Obj? && schema.properties.Properties? && Has(data.fields, k) && Has(schema.properties.list, k)
        then Descend(Find(data.fields, k).value, Find(schema.properties.list, k).value, loc[1..])
        else None
      case Index(i) =>
        if data.Arr? && schema.items.Some? && i < |data.items|
        then Descend(data.items[i], schema.items.value, loc[1..])
        else None
  }

  /** The name a schema uses for the type of a value. */
  ghost predicate Named(data: Data, name: string) {
    || (name == "null" && data == Null)
    || (name == "boolean" && data.Bool?)
    || (name == "number" && data.Num?)
    || (name == "string" && data.Str?)
    || (name == "array" && data.Arr?)
    || (name == "object" && data.Obj?)
  }

  /** A value is among the choices exactly when it is the same null, boolean, number or string; no array or object is. */
  lemma ChoiceMeaning(choices: seq<Data>, data: Data)
    ensures Includes(choices, data) <==>
            exists i | 0 <= i < |choices| ::
              match data
              case Null => choices[i] == Null
              case Bool(b) => choices[i] == Bool(b)
              case Num(n) => choices[i] == Num(n)
              case Str(s) => choices[i] == Str(s)
              case Arr(_) => false
              case Obj(_) => false
  {
  }

  /** Property names are distinct throughout the schema, as keys of an object are. */
  predicate DistinctKeys(schema: Schema)
    decreases schema
  {
    schema.Schema? ==>
      && (schema.properties.Properties? ==>
            && (forall i, j | 0 <= i < j < |schema.properties.list| ::
                  schema.properties.list[i].0 != schema.properties.list[j].0)
            && forall i | 0 <= i < |schema.properties.list| :: DistinctKeys(schema.properties.list[i].1))
      && (schema.items.Some? ==> DistinctKeys(schema.items.value))
  }

  lemma {:induction false} FindAt<V>(fields: seq<(string, V)>, i: nat)
    requires i < |fields| && forall j, k | 0 <= j < k < |fields| :: fields[j].0 != fields[k].0
    ensures Find(fields, fields[i].0) == Some(fields[i].1)
  {
    if i > 0 {
      assert fields[0].0 != fields[i].0;
      FindAt(fields[1..], i - 1);
    }
  }

  lemma {:induction false} FindWitness<V>(fields: seq<(string, V)>, key: string)
    ensures Has(fields, key) <==> exists i | 0 <= i < |fields| :: fields[i].0 == key
    ensures Has(fields, key) ==> exists i | 0 <= i < |fields| :: fields[i] == (key, Find(fields, key).value)
  {
    if fields != [] {
      FindWitness(fields[1..], key);
      if fields[0].0 == key {
        assert fields[0] == (key, fields[0].1);
      } else if Has(fields[1..], key) {
        var i :| 0 <= i < |fields| - 1 && fields[1..][i] == (key, Find(fields[1..], key).value);
        assert fields[i + 1] == (key, Find(fields, key).value);
      }
      if exists i | 0 <= i < |fields| :: fields[i].0 == key {
        var i :| 0 <= i < |fields| && fields[i].0 == key;
        if i > 0 {
          assert fields[1..][i - 1].0 == key;
        }
      }
    }
  }

  lemma {:induction false} RequiredMembers(fields: seq<(string, Data)>, keys: seq<string>, loc: Loc, e: SchemaError)
    ensures e in RequiredErrors(fields, keys, loc) <==>
            e.loc == loc && e.keyword.Required? && e.keyword.key in keys && !Has(fields, e.keyword.key)
  {
    if keys != [] {
      RequiredMembers(fields, keys[..|keys| - 1], loc, e);
      assert keys == keys[..|keys| - 1] + [keys[|keys| - 1]];
    }
  }

  lemma {:induction false} AdditionalMembers(fields: seq<(string, Data)>, properties: seq<(string, Schema)>, loc: Loc, e: SchemaError)
    ensures e in AdditionalErrors(fields, properties, loc) <==>
            && e.loc == loc && e.keyword.Additional? && !Has(properties, e.keyword.key)
            && exists i | 0 <= i < |fields| :: fields[i].0 == e.keyword.key
  {
    if fields != [] {
      var front, last := fields[..|fields| - 1], fields[|fields| - 1];
      AdditionalMembers(front, properties, loc, e);
      if e.keyword.Additional? {
        var key := e.keyword.key;
        if exists i | 0 <= i < |front| :: front[i].0 == key {
          var i :| 0 <= i < |front| && front[i].0 == key;
          assert fields[i].0 == key;
        }
        if last.0 == key {
          assert fields[|fields| - 1].0 == key;
        }
        if exists i | 0 <= i < |fields| :: fields[i].0 == key {
          var i :| 0 <= i < |fields| && fields[i].0 == key;
          if i < |front| {
            assert front[i].0 == key;
          }
        }
      }
    }
  }

  /** An error is reported below `base`: it names a reachable place that violates the keyword. */
  predicate Justified(data: Data, schema: Schema, base: Loc, e: SchemaError) {
    base <= e.loc
    && var site := Descend(data, schema, e.loc[|base|..]);
       site.Some? && Violates(site.value.0, site.value.1, e.keyword)
  }

  lemma BelowChild(base: Loc, seg: Seg, e: SchemaError)
    ensures base + [seg] <= e.loc <==> base <= e.loc && |base| < |e.loc| && e.loc[|base|] == seg
    ensures base + [seg] <= e.loc ==> e.loc[|base|..][1..] == e.loc[|base + [seg]|..] && e.loc[|base|..][0] == seg
  {
    if base + [seg] <= e.loc {
      assert e.loc[..|base| + 1] == base + [seg];
      assert e.loc[..|base|] == base;
    }
  }

  /** The error is reported below one of the first n properties. */
  predicate ReportedAmong(fields: seq<(string, Data)>, properties: seq<(string, Schema)>, n: nat, base: Loc, e: SchemaError)
    requires n <= |properties|
  {
    n > 0 && (ReportedAmong(fields, properties, n - 1, base, e) || ReportedAt(fields, properties[n - 1], base, e))
  }

  lemma {:induction false} ReportedSomewhere(fields: seq<(string, Data)>, properties: seq<(string, Schema)>, n: nat, base: Loc, e: SchemaError)
    requires n <= |properties|
    ensures ReportedAmong(fields, properties, n, base, e) <==> exists i | 0 <= i < n :: ReportedAt(fields, properties[i], base, e)
  {
    if n > 0 {
      ReportedSomewhere(fields, properties, n - 1, base, e);
    }
  }

  lemma {:induction false} PropertyMembers(fields: seq<(string, Data)>, schema: Schema, n: nat, base: Loc, e: SchemaError)
    requires schema.Schema? && schema.properties.Properties? && n <= |schema.properties.list|
    requires forall i | 0 <= i < n :: DistinctKeys(schema.properties.list[i].1)
    ensures e in PropertyErrors(fields, schema, n, base) <==> ReportedAmong(fields, schema.properties.list, n, base, e)
    decreases schema, 0, n
  {
    if n > 0 {
      PropertyMembers(fields, schema, n - 1, base, e);
      LastProperty(fields, schema, n, base, e);
    }
  }

  lemma {:induction false} LastProperty(fields: seq<(string, Data)>, schema: Schema, n: nat, base: Loc, e: SchemaError)
    requires schema.Schema? && schema.properties.Properties? && 0 < n <= |schema.properties.list|
    requires DistinctKeys(schema.properties.list[n - 1].1)
    ensures e in PropertyErrors(fields, schema, n, base) <==>
            e in PropertyErrors(fields, schema, n - 1, base) || ReportedAt(fields, schema.properties.list[n - 1], base, e)
    decreases schema, 0, 0
  {
    var (key, sub) := schema.properties.list[n - 1];
    var value := Find(fields, key);
    if value.Some? {
      ErrorsJustified(value.value, sub, base + [Key(key)], e);
    }
  }

  /** The error lies below one property and is justified there. */
  predicate ReportedAt(fields: seq<(string, Data)>, property: (string, Schema), base: Loc, e: SchemaError) {
    var value := Find(fields, property.0);
    value.Some? && Justified(value.value, property.1, base + [Key(property.0)], e)
  }

  /** The error lies below one item and is justified there. */
  predicate ReportedIn(items: seq<Data>, i: nat, schema: Schema, base: Loc, e: SchemaError)
    requires i < |items|
  {
    Justified(items[i], schema, base + [Index(i)], e)
  }

  /** The error is reported below one of the first n items. */
  predicate ReportedWithin(items: seq<Data>, n: nat, schema: Schema, base: Loc, e: SchemaError)
    requires n <= |items|
  {
    n > 0 && (ReportedWithin(items, n - 1, schema, base, e) || ReportedIn(items, n - 1, schema, base, e))
  }

  lemma {:induction false} ReportedInSome(items: seq<Data>, n: nat, schema: Schema, base: Loc, e: SchemaError)
    requires n <= |items|
    ensures ReportedWithin(items, n, schema, base, e) <==> exists i | 0 <= i < n :: ReportedIn(items, i, schema, base, e)
  {
    if n > 0 {
      ReportedInSome(items, n - 1, schema, base, e);
    }
  }

  lemma {:induction false} ItemMembers(items: seq<Data>, schema: Schema, n: nat, base: Loc, e: SchemaError)
    requires schema.Schema? && schema.items.Some? && n <= |items| && DistinctKeys(schema.items.value)
    ensures e in ItemErrors(items, schema, n, base) <==> ReportedWithin(items, n, schema.items.value, base, e)
    decreases schema, 0, n
  {
    if n > 0 {
      ItemMembers(items, schema, n - 1, base, e);
      LastItem(items, schema, n, base, e);
    }
  }

  lemma {:induction false} LastItem(items: seq<Data>, schema: Schema, n: nat, base: Loc, e: SchemaError)
    requires schema.Schema? && schema.items.Some? && 0 < n <= |items| && DistinctKeys(schema.items.value)
    ensures e in ItemErrors(items, schema, n, base) <==>
            || e in ItemErrors(items, schema, n - 1, base)
            || ReportedIn(items, n - 1, schema.items.value, base, e)
    decreases schema, 0, 0
  {
    ErrorsJustified(items[n - 1], schema.items.value, base + [Index(n - 1)], e);
  }

  /** At the value itself, only local keywords; below it, only through properties or items. */
  lemma LocalOrBelow(data: Data, schema: Schema, base: Loc, e: SchemaError)
    requires DistinctKeys(schema) && schema.Schema? && TypeOk(data, schema)
    ensures Justified(data, schema, base, e) <==>
            || (e.loc == base && Violates(data, schema, e.keyword))
            || (data.Obj? && schema.properties.Properties?
                && exists i | 0 <= i < |schema.properties.list| :: ReportedAt(data.fields, schema.properties.list[i], base, e))
            || (data.Arr? && schema.items.Some?
                && exists i | 0 <= i < |data.items| :: ReportedIn(data.items, i, schema.items.value, base, e))
  {
    if base <= e.loc {
      var rest := e.loc[|base|..];
      if rest == [] {
        assert e.loc == base;
      } else {
        assert e.loc[|base|] == rest[0];
        BelowChild(base, rest[0], e);
        if rest[0].Key? && data.Obj? && schema.properties.Properties? {
          FindWitness(schema.properties.list, rest[0].k);
          forall i | 0 <= i < |schema.properties.list|
            ensures Find(schema.properties.list, schema.properties.list[i].0) == Some(schema.properties.list[i].1)
          {
            FindAt(schema.properties.list, i);
          }
        }
        if rest[0].Index? && data.Arr? && schema.items.Some? && rest[0].i < |data.items| {
          assert Justified(data, schema, base, e) <==> ReportedIn(data.items, rest[0].i, schema.items.value, base, e);
        }
      }
    }
    if data.Obj? && schema.properties.Properties? {
      forall i | 0 <= i < |schema.properties.list|
        ensures base + [Key(schema.properties.list[i].0)] <= e.loc ==>
                  base <= e.loc && |base| < |e.loc| && e.loc[|base|] == Key(schema.properties.list[i].0)
      {
        BelowChild(base, Key(schema.properties.list[i].0), e);
      }
    }
    if data.Arr? && schema.items.Some? {
      forall i | 0 <= i < |data.items|
        ensures base + [Index(i)] <= e.loc ==> base <= e.loc && |base| < |e.loc| && e.loc[|base|] == Index(i)
      {
        BelowChild(base, Index(i), e);
      }
    }
  }

  /**
   An error is reported exactly when its location is reachable through properties and items with no type failure above
   it and its value violates the keyword there.
   */
  lemma {:induction false} ErrorsJustified(data: Data, schema: Schema, base: Loc, e: SchemaError)
    requires DistinctKeys(schema)
    ensures e in Validate(data, schema, base) <==> Justified(data, schema, base, e)
    decreases schema
  {
    if schema.Anything? || !TypeOk(data, schema) {
      WrongTypeMembers(data, schema, base, e);
    } else {
      LocalOrBelow(data, schema, base, e);
      match data
      case Obj(fields) => ObjectMembers(fields, schema, base, e);
      case Arr(items) => ArrayMembers(items, schema, base, e);
      case _ => ScalarMembers(data, schema, base, e);
    }
  }

  lemma WrongTypeMembers(data: Data, schema: Schema, base: Loc, e: SchemaError)
    requires schema.Anything? || !TypeOk(data, schema)
    ensures e in Validate(data, schema, base) <==> Justified(data, schema, base, e)
  {
    if base <= e.loc && e.loc[|base|..] == [] {
      assert e.loc == base;
    }
  }

  lemma ScalarMembers(data: Data, schema: Schema, base: Loc, e: SchemaError)
    requires schema.Schema? && TypeOk(data, schema) && !data.Arr? && !data.Obj?
    ensures e in Validate(data, schema, base) <==> e.loc == base && Violates(data, schema, e.keyword)
  {
    var chosen := One(schema.choices.Some? && !Includes(schema.choices.value, data), base, Enum);
    assert e == SchemaError(e.loc, e.keyword);
    assert e in chosen <==> e.loc == base && e.keyword == Enum && Violates(data, schema, Enum);
    assert !data.Str? && !data.Num? ==> Validate(data, schema, base) == chosen;
    if data.Str? {
      assert Validate(data, schema, base) == StringErrors(data.s, schema, base, chosen);
      StringMembers(data.s, schema, base, chosen, e);
    } else if data.Num? {
      assert Validate(data, schema, base) == NumberErrors(data.n, schema, base, chosen);
      NumberMembers(data.n, schema, base, chosen, e);
    }
  }

  lemma StringMembers(s: string, schema: Schema, base: Loc, before: seq<SchemaError>, e: SchemaError)
    requires schema.Schema?
    ensures e in StringErrors(s, schema, base, before) <==>
            || e in before
            || (e == SchemaError(base, MinLength) && schema.minLength.Some? && |s| < schema.minLength.value)
            || (e == SchemaError(base, MaxLength) && schema.maxLength.Some? && |s| > schema.maxLength.value)
            || (e == SchemaError(base, Pattern) && schema.pattern.Some? && !schema.pattern.value(s))
  {
  }

  lemma NumberMembers(n: real, schema: Schema, base: Loc, before: seq<SchemaError>, e: SchemaError)
    requires schema.Schema?
    ensures e in NumberErrors(n, schema, base, before) <==>
            || e in before
            || (e == SchemaError(base, Minimum) && schema.minimum.Some? && n < schema.minimum.value)
            || (e == SchemaError(base, Maximum) && schema.maximum.Some? && n > schema.maximum.value)
  {
  }

  lemma {:induction false} ObjectMembers(fields: seq<(string, Data)>, schema: Schema, base: Loc, e: SchemaError)
    requires DistinctKeys(schema) && schema.Schema? && TypeOk(Obj(fields), schema)
    ensures e in Validate(Obj(fields), schema, base) <==>
            || (e.loc == base && Violates(Obj(fields), schema, e.keyword))
            || (schema.properties.Properties?
                && exists i | 0 <= i < |schema.properties.list| :: ReportedAt(fields, schema.properties.list[i], base, e))
    decreases schema, 2
  {
    ObjectErrorMembers(fields, schema, base, e);
  }

  predicate IsObjectKeyword(keyword: Keyword) {
    keyword.Required? || keyword.Additional?
  }

  lemma {:induction false} ObjectErrorMembers(fields: seq<(string, Data)>, schema: Schema, base: Loc, e: SchemaError)
    requires DistinctKeys(schema) && schema.Schema? && TypeOk(Obj(fields), schema)
    ensures e in ObjectErrors(fields, schema, base) <==>
            || (e.loc == base && IsObjectKeyword(e.keyword) && Violates(Obj(fields), schema, e.keyword))
            || (schema.properties.Properties?
                && exists i | 0 <= i < |schema.properties.list| :: ReportedAt(fields, schema.properties.list[i], base, e))
    decreases schema, 1
  {
    if schema.required.Some? {
      RequiredMembers(fields, schema.required.value, base, e);
    }
    if schema.properties.Properties? {
      PropertyMembers(fields, schema, |schema.properties.list|, base, e);
      ReportedSomewhere(fields, schema.properties.list, |schema.properties.list|, base, e);
      AdditionalMembers(fields, schema.properties.list, base, e);
      if e.keyword.Additional? {
        FindWitness(fields, e.keyword.key);
      }
    }
  }

  lemma {:induction false} ArrayMembers(items: seq<Data>, schema: Schema, base: Loc, e: SchemaError)
    requires DistinctKeys(schema) && schema.Schema? && TypeOk(Arr(items), schema)
    ensures e in Validate(Arr(items), schema, base) <==>
            || (e.loc == base && Violates(Arr(items), schema, e.keyword))
            || (schema.items.Some?
                && exists i | 0 <= i < |items| :: ReportedIn(items, i, schema.items.value, base, e))
    decreases schema, 1
  {
    var chosen := One(schema.choices.Some?, base, Enum);
    assert e == SchemaError(e.loc, e.keyword);
    if schema.items.Some? {
      ItemMembers(items, schema, |items|, base, e);
      ReportedInSome(items, |items|, schema.items.value, base, e);
      assert Validate(Arr(items), schema, base) == chosen + ArrayErrors(items, schema, base);
    } else {
      assert Validate(Arr(items), schema, base) == chosen + [];
    }
  }

  // ---------- validity ----------

  /** A value's own type error is reported exactly when the schema lists types and none of them names the value's. */
  lemma TypeMeaning(data: Data, schema: Schema, loc: Loc)
    requires DistinctKeys(schema)
    ensures SchemaError(loc, Type) in Validate(data, schema, loc) <==>
            schema.Schema? && schema.types.Some? && forall name <- schema.types.value :: !Named(data, name)
  {
    LocalErrors(data, schema, loc, Type);
    assert Named(data, JsType(data));
  }

  /** An error at the value itself is reported exactly when the value violates the keyword. */
  lemma LocalErrors(data: Data, schema: Schema, loc: Loc, keyword: Keyword)
    requires DistinctKeys(schema)
    ensures SchemaError(loc, keyword) in Validate(data, schema, loc) <==> Violates(data, schema, keyword)
  {
    ErrorsJustified(data, schema, loc, SchemaError(loc, keyword));
  }

  /** A value's own length, pattern and range errors, said of its string or number. */
  lemma ScalarKeywordMeaning(data: Data, schema: Schema, loc: Loc)
    requires DistinctKeys(schema) && schema.Schema? && TypeOk(data, schema)
    ensures var errors := Validate(data, schema, loc);
            && (SchemaError(loc, MinLength) in errors <==> data.Str? && schema.minLength.Some? && |data.s| < schema.minLength.value)
            && (SchemaError(loc, MaxLength) in errors <==> data.Str? && schema.maxLength.Some? && |data.s| > schema.maxLength.value)
            && (SchemaError(loc, Pattern) in errors <==> data.Str? && schema.pattern.Some? && !schema.pattern.value(data.s))
            && (SchemaError(loc, Minimum) in errors <==> data.Num? && schema.minimum.Some? && data.n < schema.minimum.value)
            && (SchemaError(loc, Maximum) in errors <==> data.Num? && schema.maximum.Some? && data.n > schema.maximum.value)
  {
    LocalErrors(data, schema, loc, MinLength);
    LocalErrors(data, schema, loc, MaxLength);
    LocalErrors(data, schema, loc, Pattern);
    LocalErrors(data, schema, loc, Minimum);
    LocalErrors(data, schema, loc, Maximum);
  }

  /** A missing required field, or a field the schema does not name, said of the fields' names. */
  lemma FieldKeywordMeaning(data: Data, schema: Schema, loc: Loc, key: string)
    requires DistinctKeys(schema) && schema.Schema? && TypeOk(data, schema)
    ensures SchemaError(loc, Required(key)) in Validate(data, schema, loc) <==>
            data.Obj? && schema.required.Some? && key in schema.required.value
            && forall i | 0 <= i < |data.fields| :: data.fields[i].0 != key
    ensures SchemaError(loc, Additional(key)) in Validate(data, schema, loc) <==>
            data.Obj? && schema.additionalForbidden && schema.properties.Properties?
            && (exists i | 0 <= i < |data.fields| :: data.fields[i].0 == key)
            && forall i | 0 <= i < |schema.properties.list| :: schema.properties.list[i].0 != key
  {
    LocalErrors(data, schema, loc, Required(key));
    LocalErrors(data, schema, loc, Additional(key));
    if data.Obj? {
      FindWitness(data.fields, key);
    }
    if schema.properties.Properties? {
      FindWitness(schema.properties.list, key);
    }
  }

  /** Counted items: only when the schema has items. */
  lemma ItemKeywordMeaning(data: Data, schema: Schema, loc: Loc)
    requires DistinctKeys(schema) && schema.Schema? && TypeOk(data, schema)
    ensures SchemaError(loc, MinItems) in Validate(data, schema, loc) <==>
            data.Arr? && schema.items.Some? && schema.minItems.Some? && |data.items| < schema.minItems.value
    ensures SchemaError(loc, MaxItems) in Validate(data, schema, loc) <==>
            data.Arr? && schema.items.Some? && schema.maxItems.Some? && |data.items| > schema.maxItems.value
  {
    LocalErrors(data, schema, loc, MinItems);
    LocalErrors(data, schema, loc, MaxItems);
  }

  /** Keywords checked after the errors below a value: additional fields and item counts. */
  predicate CheckedLast(keyword: Keyword) {
    keyword.Additional? || keyword.MinItems? || keyword.MaxItems?
  }

  /**
   The order of a value's errors: its own first, an enum error before all others; then those below it; then additional
   fields and item counts.
   */
  ghost predicate InOrder(errors: seq<SchemaError>, loc: Loc, a: nat, b: nat) {
    && a <= b <= |errors|
    && (forall i | 0 <= i < a :: errors[i].loc == loc && !CheckedLast(errors[i].keyword))
    && (forall i | a <= i < b :: loc < errors[i].loc)
    && (forall i | b <= i < |errors| :: errors[i].loc == loc && CheckedLast(errors[i].keyword))
    && (forall i | 0 < i < |errors| && errors[i].loc == loc :: errors[i].keyword != Enum)
  }

  /** The same of the errors that follow the enum error. */
  ghost predicate InOrderAfter(errors: seq<SchemaError>, loc: Loc, a: nat, b: nat) {
    && a <= b <= |errors|
    && (forall i | 0 <= i < a :: errors[i].loc == loc && errors[i].keyword.Required?)
    && (forall i | a <= i < b :: loc < errors[i].loc)
    && (forall i | b <= i < |errors| :: errors[i].loc == loc && CheckedLast(errors[i].keyword))
  }

  lemma ObjectErrorOrder(fields: seq<(string, Data)>, schema: Schema, loc: Loc) returns (a: nat, b: nat)
    requires schema.Schema? && DistinctKeys(schema)
    ensures InOrderAfter(ObjectErrors(fields, schema, loc), loc, a, b)
  {
    var first := if schema.required.Some? then RequiredErrors(fields, schema.required.value, loc) else [];
    var below := if schema.properties.Properties? then PropertyErrors(fields, schema, |schema.properties.list|, loc) else [];
    var last := if schema.additionalForbidden && schema.properties.Properties?
                then AdditionalErrors(fields, schema.properties.list, loc) else [];
    a, b := |first|, |first| + |below|;
    forall e | e in first
      ensures e.loc == loc && e.keyword.Required?
    {
      RequiredMembers(fields, schema.required.value, loc, e);
    }
    forall e | e in below
      ensures loc < e.loc
    {
      PropertyMembers(fields, schema, |schema.properties.list|, loc, e);
      ReportedSomewhere(fields, schema.properties.list, |schema.properties.list|, loc, e);
    }
    forall e | e in last
      ensures e.loc == loc && CheckedLast(e.keyword)
    {
      AdditionalMembers(fields, schema.properties.list, loc, e);
    }
    ThreeParts(first, below, last, loc);
    assert ObjectErrors(fields, schema, loc) == first + below + last;
  }

  lemma ThreeParts(first: seq<SchemaError>, below: seq<SchemaError>, last: seq<SchemaError>, loc: Loc)
    requires forall e <- first :: e.loc == loc && e.keyword.Required?
    requires forall e <- below :: loc < e.loc
    requires forall e <- last :: e.loc == loc && CheckedLast(e.keyword)
    ensures InOrderAfter(first + below + last, loc, |first|, |first| + |below|)
  {
    var all := first + below + last;
    assert forall i | 0 <= i < |first| :: all[i] == first[i];
    assert forall i | |first| <= i < |first| + |below| :: all[i] == below[i - |first|];
    assert forall i | |first| + |below| <= i < |all| :: all[i] == last[i - |first| - |below|];
  }

  lemma ArrayErrorOrder(items: seq<Data>, schema: Schema, loc: Loc) returns (a: nat, b: nat)
    requires schema.Schema? && schema.items.Some? && DistinctKeys(schema)
    ensures InOrderAfter(ArrayErrors(items, schema, loc), loc, a, b)
  {
    var below := ItemErrors(items, schema, |items|, loc);
    var last := One(schema.minItems.Some? && |items| < schema.minItems.value, loc, MinItems)
                + One(schema.maxItems.Some? && |items| > schema.maxItems.value, loc, MaxItems);
    a, b := 0, |below|;
    forall e | e in below
      ensures loc < e.loc
    {
      ItemMembers(items, schema, |items|, loc, e);
      ReportedInSome(items, |items|, schema.items.value, loc, e);
    }
    ThreeParts([], below, last, loc);
    assert ArrayErrors(items, schema, loc) == [] + below + last;
  }

  /** The enum error, if there is one, before errors in order. */
  lemma EnumFirst(hasEnum: bool, rest: seq<SchemaError>, loc: Loc, a: nat, b: nat)
    requires InOrderAfter(rest, loc, a, b)
    ensures var chosen := One(hasEnum, loc, Enum);
            InOrder(chosen + rest, loc, |chosen| + a, |chosen| + b)
  {
    var chosen := One(hasEnum, loc, Enum);
    assert forall i | |chosen| <= i < |chosen| + |rest| :: (chosen + rest)[i] == rest[i - |chosen|];
  }

  ghost predicate AllOwn(errors: seq<SchemaError>, loc: Loc) {
    InOrder(errors, loc, |errors|, |errors|)
  }

  lemma AppendOwn(errors: seq<SchemaError>, condition: bool, loc: Loc, keyword: Keyword)
    requires AllOwn(errors, loc) && keyword != Enum && !CheckedLast(keyword)
    ensures AllOwn(errors + One(condition, loc, keyword), loc)
  {
    var longer := errors + One(condition, loc, keyword);
    assert forall i | 0 <= i < |errors| :: longer[i] == errors[i];
  }

  lemma ScalarOrder(data: Data, schema: Schema, loc: Loc)
    requires schema.Schema? && TypeOk(data, schema) && !data.Obj? && !data.Arr?
    ensures AllOwn(Validate(data, schema, loc), loc)
  {
    var errors := One(schema.choices.Some? && !Includes(schema.choices.value, data), loc, Enum);
    if data.Str? {
      var short := schema.minLength.Some? && |data.s| < schema.minLength.value;
      var long := schema.maxLength.Some? && |data.s| > schema.maxLength.value;
      AppendOwn(errors, short, loc, MinLength);
      AppendOwn(errors + One(short, loc, MinLength), long, loc, MaxLength);
      AppendOwn(errors + One(short, loc, MinLength) + One(long, loc, MaxLength),
                schema.pattern.Some? && !schema.pattern.value(data.s), loc, Pattern);
    } else if data.Num? {
      var low := schema.minimum.Some? && data.n < schema.minimum.value;
      AppendOwn(errors, low, loc, Minimum);
      AppendOwn(errors + One(low, loc, Minimum), schema.maximum.Some? && data.n > schema.maximum.value, loc, Maximum);
    }
  }

  /** A value's errors are in order, whatever the value and the schema. */
  lemma ErrorOrder(data: Data, schema: Schema, loc: Loc) returns (a: nat, b: nat)
    requires DistinctKeys(schema)
    ensures InOrder(Validate(data, schema, loc), loc, a, b)
  {
    if schema.Anything? || !TypeOk(data, schema) {
      return |Validate(data, schema, loc)|, |Validate(data, schema, loc)|;
    }
    var hasEnum := schema.choices.Some? && !Includes(schema.choices.value, data);
    var chosen := One(hasEnum, loc, Enum);
    if data.Obj? {
      a, b := ObjectErrorOrder(data.fields, schema, loc);
      EnumFirst(hasEnum, ObjectErrors(data.fields, schema, loc), loc, a, b);
      a, b := |chosen| + a, |chosen| + b;
    } else if data.Arr? {
      var rest := if schema.items.Some? then ArrayErrors(data.items, schema, loc) else [];
      if schema.items.Some? {
        a, b := ArrayErrorOrder(data.items, schema, loc);
      } else {
        a, b := 0, 0;
      }
      EnumFirst(hasEnum, rest, loc, a, b);
      assert Validate(data, schema, loc) == chosen + rest;
      a, b := |chosen| + a, |chosen| + b;
    } else {
      ScalarOrder(data, schema, loc);
      a, b := |Validate(data, schema, loc)|, |Validate(data, schema, loc)|;
    }
  }

  /** Declarative validity: no keyword violated here, and every named property and item valid. */
  ghost predicate Valid(data: Data, schema: Schema)
    decreases schema
  {
    && (forall keyword :: !Violates(data, schema, keyword))
    && (schema.Schema? && data.Obj? && schema.properties.Properties? ==>
          forall i | 0 <= i < |schema.properties.list| && Has(data.fields, schema.properties.list[i].0) ::
            Valid(Find(data.fields, schema.properties.list[i].0).value, schema.properties.list[i].1))
    && (schema.Schema? && data.Arr? && schema.items.Some? ==>
          forall i | 0 <= i < |data.items| :: Valid(data.items[i], schema.items.value))
  }

  lemma {:induction false} ValidMeansNothingReachable(data: Data, schema: Schema, loc: Loc, keyword: Keyword)
    requires Valid(data, schema) && DistinctKeys(schema)
    ensures var site := Descend(data, schema, loc);
            site.Some? ==> !Violates(site.value.0, site.value.1, keyword)
    decreases |loc|
  {
    if loc != [] && schema.Schema? && TypeOk(data, schema) {
      match loc[0]
      case Key(k) =>
        if data.Obj? && schema.properties.Properties? && Has(data.fields, k) && Has(schema.properties.list, k) {
          FindWitness(schema.properties.list, k);
          var i :| 0 <= i < |schema.properties.list| && schema.properties.list[i] == (k, Find(schema.properties.list, k).value);
          ValidMeansNothingReachable(Find(data.fields, k).value, schema.properties.list[i].1, loc[1..], keyword);
        }
      case Index(i) =>
        if data.Arr? && schema.items.Some? && i < |data.items| {
          ValidMeansNothingReachable(data.items[i], schema.items.value, loc[1..], keyword);
        }
    }
  }

  /** When no reachable place violates anything, the value is valid. */
  lemma {:induction false} NothingReachableMeansValid(data: Data, schema: Schema)
    requires DistinctKeys(schema)
    requires forall loc, keyword ::
               Descend(data, schema, loc).Some? ==>
                 !Violates(Descend(data, schema, loc).value.0, Descend(data, schema, loc).value.1, keyword)
    ensures Valid(data, schema)
    decreases schema
  {
    forall keyword
      ensures !Violates(data, schema, keyword)
    {
      assert Descend(data, schema, []) == Some((data, schema));
    }
    if schema.Schema? {
      assert TypeOk(data, schema) by {
        assert !Violates(data, schema, Type);
      }
      if data.Obj? && schema.properties.Properties? {
        forall i | 0 <= i < |schema.properties.list| && Has(data.fields, schema.properties.list[i].0)
          ensures Valid(Find(data.fields, schema.properties.list[i].0).value, schema.properties.list[i].1)
        {
          var (key, sub) := schema.properties.list[i];
          var value := Find(data.fields, key).value;
          FindAt(schema.properties.list, i);
          forall loc, keyword | Descend(value, sub, loc).Some?
            ensures !Violates(Descend(value, sub, loc).value.0, Descend(value, sub, loc).value.1, keyword)
          {
            assert ([Key(key)] + loc)[1..] == loc;
            assert Descend(data, schema, [Key(key)] + loc) == Descend(value, sub, loc);
          }
          NothingReachableMeansValid(value, sub);
        }
      }
      if data.Arr? && schema.items.Some? {
        forall i | 0 <= i < |data.items|
          ensures Valid(data.items[i], schema.items.value)
        {
          forall loc, keyword | Descend(data.items[i], schema.items.value, loc).Some?
            ensures !Violates(Descend(data.items[i], schema.items.value, loc).value.0,
                              Descend(data.items[i], schema.items.value, loc).value.1, keyword)
          {
            assert ([Index(i)] + loc)[1..] == loc;
            assert Descend(data, schema, [Index(i)] + loc) == Descend(data.items[i], schema.items.value, loc);
          }
          NothingReachableMeansValid(data.items[i], schema.items.value);
        }
      }
    }
  }

  /** The validator returns no error exactly for valid values. */
  lemma EmptyExactlyWhenValid(data: Data, schema: Schema, base: Loc)
    requires DistinctKeys(schema)
    ensures Validate(data, schema, base) == [] <==> Valid(data, schema)
  {
    var errors := Validate(data, schema, base);
    if Valid(data, schema) {
      if errors != [] {
        ErrorsJustified(data, schema, base, errors[0]);
        ValidMeansNothingReachable(data, schema, errors[0].loc[|base|..], errors[0].keyword);
      }
    } else if errors == [] {
      forall loc, keyword | Descend(data, schema, loc).Some?
        ensures !Violates(Descend(data, schema, loc).value.0, Descend(data, schema, loc).value.1, keyword)
      {
        var e := SchemaError(base + loc, keyword);
        ErrorsJustified(data, schema, base, e);
        assert e.loc[|base|..] == loc;
      }
      NothingReachableMeansValid(data, schema);
    }
  }
}
