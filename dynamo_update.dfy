/**
 * The parameters of a DynamoDB `update_item` call, built from the attributes of a
 * request body (`build_update_parameters` in lib/constructs/dynamo/lambda/update.py).
 *
 * The attributes are the `items()` of a JSON object, in iteration order. Each one that
 * is not the table's partition or sort key contributes clauses to the update expression
 * and entries to the `#name` and `:value` placeholder maps, by the kind of its value:
 * `null` removes the attribute, a list is appended to, an object sets each of its
 * entries one level down, and anything else is set.
 *
 * `UpdateFrom` gives the meaning of the loop as a fold over the attributes; the method
 * `BuildUpdateParameters` runs the source's nested loops and is proved equal to it.
 */
module DynamoUpdate {
  import opened Text

  /** A value decoded from a JSON request body. */
  datatype Value =
    | Null
    | Bool(b: bool)
    | Number(n: int)
    | Str(s: string)
    | List(items: seq<Value>)
    | Dict(entries: seq<(string, Value)>)

  /** The clauses of the update expression, before joining, and the two placeholder maps. */
  datatype UpdateParameters = UpdateParameters(clauses: seq<string>, values: map<string, Value>, names: map<string, string>)

  const NoUpdate := UpdateParameters([], map[], map[])

  predicate DistinctKeys(fields: seq<(string, Value)>)
  {
    forall i, j | 0 <= i < j < |fields| :: fields[i].0 != fields[j].0
  }

  predicate IsTableKey(key: string, partitionKey: string, sortKey: string)
  {
    key in [partitionKey, sortKey]
  }

  function RemoveClause(key: string): string { "REMOVE #" + key }

  function AppendClause(key: string): string { "SET #" + key + " = list_append(#" + key + ", :" + key + ")" }

  function SetClause(attr: string): string { "SET #" + attr + " = :" + attr }

  /** The dotted path of an entry one level inside the attribute `key`. */
  function NestedAttr(key: string, nestedKey: string): string { key + "." + nestedKey }

  /** The entries of an object attribute, each set one level down, in order. */
  function NestedUpdate(u: UpdateParameters, key: string, entries: seq<(string, Value)>): UpdateParameters
    decreases |entries|
  {
    if |entries| == 0 then u
    else
      var v := NestedUpdate(u, key, entries[..|entries| - 1]);
      var (nestedKey, nestedValue) := entries[|entries| - 1];
      var attr := NestedAttr(key, nestedKey);
      UpdateParameters(v.clauses + [SetClause(attr)], v.values[":" + attr := nestedValue], v.names["#" + attr := nestedKey])
  }

  /** What one attribute that is not a table key adds. */
  function FieldUpdate(u: UpdateParameters, key: string, value: Value): UpdateParameters
  {
    match value
    case Null => UpdateParameters(u.clauses + [RemoveClause(key)], u.values, u.names["#" + key := key])
    case List(_) => UpdateParameters(u.clauses + [AppendClause(key)], u.values[":" + key := value], u.names["#" + key := key])
    case Dict(entries) => NestedUpdate(u, key, entries)
    case _ => UpdateParameters(u.clauses + [SetClause(key)], u.values[":" + key := value], u.names["#" + key := key])
  }

  function FieldStep(u: UpdateParameters, field: (string, Value), partitionKey: string, sortKey: string): UpdateParameters
  {
    if IsTableKey(field.0, partitionKey, sortKey) then u else FieldUpdate(u, field.0, field.1)
  }

  /** The state of the loop of `build_update_parameters` after the given attributes, starting from `u`. */
  function UpdateFrom(u: UpdateParameters, data: seq<(string, Value)>, partitionKey: string, sortKey: string): UpdateParameters
    decreases |data|
  {
    if |data| == 0 then u
    else FieldStep(UpdateFrom(u, data[..|data| - 1], partitionKey, sortKey), data[|data| - 1], partitionKey, sortKey)
  }

  function Update(data: seq<(string, Value)>, partitionKey: string, sortKey: string): UpdateParameters
  {
    UpdateFrom(NoUpdate, data, partitionKey, sortKey)
  }

  /** The update expression: the clauses joined with ", ". */
  function Expression(data: seq<(string, Value)>, partitionKey: string, sortKey: string): string
  {
    Join(Update(data, partitionKey, sortKey).clauses, ", ")
  }

  /**
   * `build_update_parameters(data)` with the module globals `partition_key` and `sort_key`
   * passed in: the update expression and the value and name placeholder maps.
   */
  method BuildUpdateParameters(data: seq<(string, Value)>, partitionKey: string, sortKey: string)
    returns (expression: string, values: map<string, Value>, names: map<string, string>)
    ensures expression == Expression(data, partitionKey, sortKey)
    ensures values == Update(data, partitionKey, sortKey).values
    ensures names == Update(data, partitionKey, sortKey).names
  {
    var updateExpression: seq<string> := [];
    values := map[];
    names := map[];
    var i := 0;
    while i < |data|
      invariant 0 <= i <= |data|
      invariant UpdateParameters(updateExpression, values, names) == Update(data[..i], partitionKey, sortKey)
    {
      var (key, value) := data[i];
      assert data[..i + 1][..i] == data[..i];
      ghost var before := UpdateParameters(updateExpression, values, names);
      if key !in [partitionKey, sortKey] {
        if value.Null? {
          updateExpression := updateExpression + ["REMOVE #" + key];
          names := names["#" + key := key];
        } else if value.List? {
          updateExpression := updateExpression + ["SET #" + key + " = list_append(#" + key + ", :" + key + ")"];
          values := values[":" + key := value];
          names := names["#" + key := key];
        } else if value.Dict? {
          var entries := value.entries;
          var j := 0;
          while j < |entries|
            invariant 0 <= j <= |entries|
            invariant UpdateParameters(updateExpression, values, names) == NestedUpdate(before, key, entries[..j])
          {
            var (nestedKey, nestedValue) := entries[j];
            assert entries[..j + 1][..j] == entries[..j];
            var nestedAttr := key + "." + nestedKey;
            updateExpression := updateExpression + ["SET #" + nestedAttr + " = :" + nestedAttr];
            values := values[":" + nestedAttr := nestedValue];
            names := names["#" + nestedAttr := nestedKey];
            j := j + 1;
          }
          assert entries[..j] == entries;
        } else {
          updateExpression := updateExpression + ["SET #" + key + " = :" + key];
          values := values[":" + key := value];
          names := names["#" + key := key];
        }
      }
      i := i + 1;
    }
    assert data[..i] == data;
    expression := Join(updateExpression, ", ");
  }

  // ---------------------------------------------------------------------------------
  // Order: the fold over a concatenation is the fold over its parts, one after the other.

  lemma {:induction false} UpdateFromAppend(u: UpdateParameters, a: seq<(string, Value)>, b: seq<(string, Value)>, partitionKey: string, sortKey: string)
    ensures UpdateFrom(u, a + b, partitionKey, sortKey) == UpdateFrom(UpdateFrom(u, a, partitionKey, sortKey), b, partitionKey, sortKey)
    decreases |b|
  {
    if |b| == 0 {
      assert a + b == a;
    } else {
      var b' := b[..|b| - 1];
      assert (a + b)[..|a + b| - 1] == a + b';
      assert (a + b)[|a + b| - 1] == b[|b| - 1];
      UpdateFromAppend(u, a, b', partitionKey, sortKey);
    }
  }

  /** The clauses an attribute adds do not depend on what came before. */
  lemma NestedClauses(u: UpdateParameters, key: string, entries: seq<(string, Value)>)
    ensures NestedUpdate(u, key, entries).clauses == u.clauses + NestedUpdate(NoUpdate, key, entries).clauses
    ensures |NestedUpdate(u, key, entries).clauses| == |u.clauses| + |entries|
    ensures forall j | 0 <= j < |entries| ::
      NestedUpdate(u, key, entries).clauses[|u.clauses| + j] == SetClause(NestedAttr(key, entries[j].0))
  {
    NestedClausesAfter(u, key, entries);
    NestedClausesOwn(key, entries);
  }

  lemma {:induction false} NestedClausesAfter(u: UpdateParameters, key: string, entries: seq<(string, Value)>)
    ensures NestedUpdate(u, key, entries).clauses == u.clauses + NestedUpdate(NoUpdate, key, entries).clauses
    decreases |entries|
  {
    if |entries| > 0 {
      var e' := entries[..|entries| - 1];
      NestedClausesStep(u, key, entries);
      NestedClausesStep(NoUpdate, key, entries);
      NestedClausesAfter(u, key, e');
      var own := NestedUpdate(NoUpdate, key, e').clauses;
      var last := [SetClause(NestedAttr(key, entries[|entries| - 1].0))];
      assert u.clauses + own + last == u.clauses + (own + last);
    }
  }

  /** Alone, an object's entries give one `SET` clause each, in order. */
  lemma {:induction false} NestedClausesOwn(key: string, entries: seq<(string, Value)>)
    ensures |NestedUpdate(NoUpdate, key, entries).clauses| == |entries|
    ensures forall j | 0 <= j < |entries| ::
      NestedUpdate(NoUpdate, key, entries).clauses[j] == SetClause(NestedAttr(key, entries[j].0))
    decreases |entries|
  {
    if |entries| > 0 {
      var e' := entries[..|entries| - 1];
      NestedClausesStep(NoUpdate, key, entries);
      NestedClausesOwn(key, e');
      assert forall j | 0 <= j < |e'| :: e'[j] == entries[j];
    }
  }

  lemma NestedClausesStep(u: UpdateParameters, key: string, entries: seq<(string, Value)>)
    requires |entries| > 0
    ensures NestedUpdate(u, key, entries).clauses
         == NestedUpdate(u, key, entries[..|entries| - 1]).clauses + [SetClause(NestedAttr(key, entries[|entries| - 1].0))]
  {
  }

  lemma {:induction false} UpdateFromClauses(u: UpdateParameters, data: seq<(string, Value)>, partitionKey: string, sortKey: string)
    ensures UpdateFrom(u, data, partitionKey, sortKey).clauses == u.clauses + Update(data, partitionKey, sortKey).clauses
    decreases |data|
  {
    if |data| > 0 {
      var d' := data[..|data| - 1];
      var (key, value) := data[|data| - 1];
      UpdateFromClauses(u, d', partitionKey, sortKey);
      var v := UpdateFrom(u, d', partitionKey, sortKey);
      var w := Update(d', partitionKey, sortKey);
      if !IsTableKey(key, partitionKey, sortKey) && value.Dict? {
        NestedClauses(v, key, value.entries);
        NestedClauses(w, key, value.entries);
      }
    }
  }

  /** Clauses appear in the order of the attributes they come from. */
  lemma ClausesAppend(a: seq<(string, Value)>, b: seq<(string, Value)>, partitionKey: string, sortKey: string)
    ensures Update(a + b, partitionKey, sortKey).clauses
         == Update(a, partitionKey, sortKey).clauses + Update(b, partitionKey, sortKey).clauses
  {
    UpdateFromAppend(NoUpdate, a, b, partitionKey, sortKey);
    UpdateFromClauses(Update(a, partitionKey, sortKey), b, partitionKey, sortKey);
  }

  lemma {:induction false} JoinAppend(xs: seq<string>, ys: seq<string>, d: string)
    requires |xs| > 0 && |ys| > 0
    ensures Join(xs + ys, d) == Join(xs, d) + d + Join(ys, d)
    decreases |xs|
  {
    if |xs| == 1 {
      assert (xs + ys)[1..] == ys;
    } else {
      assert (xs + ys)[1..] == xs[1..] + ys;
      JoinAppend(xs[1..], ys, d);
    }
  }

  /** The expression for `a + b` is the expression for `a`, ", ", then the one for `b`. */
  lemma ExpressionAppend(a: seq<(string, Value)>, b: seq<(string, Value)>, partitionKey: string, sortKey: string)
    requires Expression(a, partitionKey, sortKey) != "" && Expression(b, partitionKey, sortKey) != ""
    ensures Expression(a + b, partitionKey, sortKey)
         == Expression(a, partitionKey, sortKey) + ", " + Expression(b, partitionKey, sortKey)
  {
    ClausesAppend(a, b, partitionKey, sortKey);
    JoinAppend(Update(a, partitionKey, sortKey).clauses, Update(b, partitionKey, sortKey).clauses, ", ");
  }

  // ---------------------------------------------------------------------------------
  // Key exclusion and the empty case.

  /** A partition or sort key attribute, wherever it stands, changes nothing. */
  lemma TableKeyIgnored(a: seq<(string, Value)>, key: string, value: Value, b: seq<(string, Value)>, partitionKey: string, sortKey: string)
    requires key == partitionKey || key == sortKey
    ensures Update(a + [(key, value)] + b, partitionKey, sortKey) == Update(a + b, partitionKey, sortKey)
  {
    UpdateFromAppend(NoUpdate, a + [(key, value)], b, partitionKey, sortKey);
    UpdateFromAppend(NoUpdate, a, [(key, value)], partitionKey, sortKey);
    UpdateFromAppend(NoUpdate, a, b, partitionKey, sortKey);
    assert [(key, value)][..0] == [];
  }

  /** No attributes, or only the table keys: an empty expression and empty maps. */
  lemma {:induction false} OnlyTableKeys(data: seq<(string, Value)>, partitionKey: string, sortKey: string)
    requires forall i | 0 <= i < |data| :: IsTableKey(data[i].0, partitionKey, sortKey)
    ensures Update(data, partitionKey, sortKey) == NoUpdate
    ensures Expression(data, partitionKey, sortKey) == ""
    decreases |data|
  {
    if |data| > 0 {
      OnlyTableKeys(data[..|data| - 1], partitionKey, sortKey);
    }
  }

  // ---------------------------------------------------------------------------------
  // Clause count.

  /** The number of clauses an attribute contributes: one per nested entry of an object, else one. */
  function ClauseCount(data: seq<(string, Value)>, partitionKey: string, sortKey: string): nat
    decreases |data|
  {
    if |data| == 0 then 0
    else
      var (key, value) := data[|data| - 1];
      ClauseCount(data[..|data| - 1], partitionKey, sortKey)
        + (if IsTableKey(key, partitionKey, sortKey) then 0 else if value.Dict? then |value.entries| else 1)
  }

  lemma {:induction false} ClauseCountMatches(data: seq<(string, Value)>, partitionKey: string, sortKey: string)
    ensures |Update(data, partitionKey, sortKey).clauses| == ClauseCount(data, partitionKey, sortKey)
    decreases |data|
  {
    if |data| > 0 {
      var d' := data[..|data| - 1];
      var (key, value) := data[|data| - 1];
      ClauseCountMatches(d', partitionKey, sortKey);
      if !IsTableKey(key, partitionKey, sortKey) && value.Dict? {
        NestedClauses(Update(d', partitionKey, sortKey), key, value.entries);
      }
    }
  }

  // ---------------------------------------------------------------------------------
  // Placeholder maps.

  /** The placeholders `<marker>k.n` of the entries `n` of the object attribute `k`. */
  function NestedPlaceholders(marker: string, key: string, entries: seq<(string, Value)>): set<string>
    decreases |entries|
  {
    if |entries| == 0 then {}
    else NestedPlaceholders(marker, key, entries[..|entries| - 1]) + {marker + NestedAttr(key, entries[|entries| - 1].0)}
  }

  /** The `:value` placeholders an attribute writes. */
  function ValueKeys(key: string, value: Value, partitionKey: string, sortKey: string): set<string>
  {
    if IsTableKey(key, partitionKey, sortKey) || value.Null? then {}
    else if value.Dict? then NestedPlaceholders(":", key, value.entries)
    else {":" + key}
  }

  /** The `#name` placeholders an attribute writes. */
  function NameKeys(key: string, value: Value, partitionKey: string, sortKey: string): set<string>
  {
    if IsTableKey(key, partitionKey, sortKey) then {}
    else if value.Dict? then NestedPlaceholders("#", key, value.entries)
    else {"#" + key}
  }

  predicate WritesValue(data: seq<(string, Value)>, x: string, partitionKey: string, sortKey: string)
  {
    exists i | 0 <= i < |data| :: x in ValueKeys(data[i].0, data[i].1, partitionKey, sortKey)
  }

  predicate WritesName(data: seq<(string, Value)>, x: string, partitionKey: string, sortKey: string)
  {
    exists i | 0 <= i < |data| :: x in NameKeys(data[i].0, data[i].1, partitionKey, sortKey)
  }

  lemma {:induction false} NestedKeys(u: UpdateParameters, key: string, entries: seq<(string, Value)>)
    ensures NestedUpdate(u, key, entries).values.Keys == u.values.Keys + NestedPlaceholders(":", key, entries)
    ensures NestedUpdate(u, key, entries).names.Keys == u.names.Keys + NestedPlaceholders("#", key, entries)
    decreases |entries|
  {
    if |entries| > 0 {
      NestedKeys(u, key, entries[..|entries| - 1]);
    }
  }

  lemma {:induction false} NestedPlaceholdersOf(marker: string, key: string, entries: seq<(string, Value)>, j: nat)
    requires j < |entries|
    ensures marker + NestedAttr(key, entries[j].0) in NestedPlaceholders(marker, key, entries)
    decreases |entries|
  {
    if j < |entries| - 1 {
      NestedPlaceholdersOf(marker, key, entries[..|entries| - 1], j);
    }
  }

  /** The attribute keys of the two maps are exactly the placeholders some attribute writes. */
  lemma {:induction false} PlaceholderKeys(data: seq<(string, Value)>, partitionKey: string, sortKey: string)
    ensures forall x :: x in Update(data, partitionKey, sortKey).values <==> WritesValue(data, x, partitionKey, sortKey)
    ensures forall x :: x in Update(data, partitionKey, sortKey).names <==> WritesName(data, x, partitionKey, sortKey)
    decreases |data|
  {
    if |data| > 0 {
      var d' := data[..|data| - 1];
      var n := |data| - 1;
      var (key, value) := data[n];
      PlaceholderKeys(d', partitionKey, sortKey);
      var u := Update(d', partitionKey, sortKey);
      if !IsTableKey(key, partitionKey, sortKey) && value.Dict? {
        NestedKeys(u, key, value.entries);
      }
      assert Update(data, partitionKey, sortKey).values.Keys == u.values.Keys + ValueKeys(key, value, partitionKey, sortKey);
      assert Update(data, partitionKey, sortKey).names.Keys == u.names.Keys + NameKeys(key, value, partitionKey, sortKey);
      forall x
        ensures WritesValue(data, x, partitionKey, sortKey)
            <==> WritesValue(d', x, partitionKey, sortKey) || x in ValueKeys(key, value, partitionKey, sortKey)
        ensures WritesName(data, x, partitionKey, sortKey)
            <==> WritesName(d', x, partitionKey, sortKey) || x in NameKeys(key, value, partitionKey, sortKey)
      {
        assert forall i | 0 <= i < n :: d'[i] == data[i];
      }
    }
  }

  /** An entry of either map that no later attribute writes keeps its value. */
  lemma {:induction false} LaterFieldsKeep(a: seq<(string, Value)>, b: seq<(string, Value)>, x: string, partitionKey: string, sortKey: string)
    ensures x in Update(a, partitionKey, sortKey).values && !WritesValue(b, x, partitionKey, sortKey) ==>
      x in Update(a + b, partitionKey, sortKey).values
      && Update(a + b, partitionKey, sortKey).values[x] == Update(a, partitionKey, sortKey).values[x]
    ensures x in Update(a, partitionKey, sortKey).names && !WritesName(b, x, partitionKey, sortKey) ==>
      x in Update(a + b, partitionKey, sortKey).names
      && Update(a + b, partitionKey, sortKey).names[x] == Update(a, partitionKey, sortKey).names[x]
    decreases |b|
  {
    if |b| == 0 {
      assert a + b == a;
    } else {
      var b' := b[..|b| - 1];
      var (key, value) := b[|b| - 1];
      assert (a + b)[..|a + b| - 1] == a + b';
      assert (a + b)[|a + b| - 1] == (key, value);
      assert forall i | 0 <= i < |b'| :: b'[i] == b[i];
      LaterFieldsKeep(a, b', x, partitionKey, sortKey);
      var u := Update(a + b', partitionKey, sortKey);
      if !IsTableKey(key, partitionKey, sortKey) && value.Dict? {
        NestedKeep(u, key, value.entries, x);
      }
    }
  }

  lemma {:induction false} NestedKeep(u: UpdateParameters, key: string, entries: seq<(string, Value)>, x: string)
    ensures x !in NestedPlaceholders(":", key, entries) && x in u.values ==>
      x in NestedUpdate(u, key, entries).values && NestedUpdate(u, key, entries).values[x] == u.values[x]
    ensures x !in NestedPlaceholders("#", key, entries) && x in u.names ==>
      x in NestedUpdate(u, key, entries).names && NestedUpdate(u, key, entries).names[x] == u.names[x]
    decreases |entries|
  {
    if |entries| > 0 {
      NestedKeep(u, key, entries[..|entries| - 1], x);
    }
  }

  lemma NestedAttrInjective(prefix: string, key: string, n1: string, n2: string)
    requires prefix + NestedAttr(key, n1) == prefix + NestedAttr(key, n2)
    ensures n1 == n2
  {
    var k := |prefix| + |key| + 1;
    assert (prefix + NestedAttr(key, n1))[k..] == n1;
    assert (prefix + NestedAttr(key, n2))[k..] == n2;
  }

  /** Entries of one object with distinct keys each get their own placeholders. */
  lemma {:induction false} NestedEntries(u: UpdateParameters, key: string, entries: seq<(string, Value)>)
    requires DistinctKeys(entries)
    ensures forall j | 0 <= j < |entries| ::
      ":" + NestedAttr(key, entries[j].0) in NestedUpdate(u, key, entries).values
      && NestedUpdate(u, key, entries).values[":" + NestedAttr(key, entries[j].0)] == entries[j].1
    ensures forall j | 0 <= j < |entries| ::
      "#" + NestedAttr(key, entries[j].0) in NestedUpdate(u, key, entries).names
      && NestedUpdate(u, key, entries).names["#" + NestedAttr(key, entries[j].0)] == entries[j].0
    decreases |entries|
  {
    if |entries| > 0 {
      var e' := entries[..|entries| - 1];
      var n := |entries| - 1;
      NestedEntries(u, key, e');
      forall j | 0 <= j < n
        ensures ":" + NestedAttr(key, entries[j].0) != ":" + NestedAttr(key, entries[n].0)
        ensures "#" + NestedAttr(key, entries[j].0) != "#" + NestedAttr(key, entries[n].0)
      {
        if ":" + NestedAttr(key, entries[j].0) == ":" + NestedAttr(key, entries[n].0) {
          NestedAttrInjective(":", key, entries[j].0, entries[n].0);
        }
        if "#" + NestedAttr(key, entries[j].0) == "#" + NestedAttr(key, entries[n].0) {
          NestedAttrInjective("#", key, entries[j].0, entries[n].0);
        }
      }
      assert forall j | 0 <= j < n :: e'[j] == entries[j];
    }
  }

  // ---------------------------------------------------------------------------------
  // The rule for each kind of value.

  /** `null`: a `REMOVE #k` clause and `#k` naming `k`, with no value placeholder. */
  lemma NullField(a: seq<(string, Value)>, key: string, b: seq<(string, Value)>, partitionKey: string, sortKey: string)
    requires !IsTableKey(key, partitionKey, sortKey)
    requires !WritesName(b, "#" + key, partitionKey, sortKey)
    ensures var u := Update(a + [(key, Null)] + b, partitionKey, sortKey);
      RemoveClause(key) in u.clauses && "#" + key in u.names && u.names["#" + key] == key
    ensures Update(a + [(key, Null)], partitionKey, sortKey).values == Update(a, partitionKey, sortKey).values
  {
    var a' := a + [(key, Null)];
    assert a'[..|a'| - 1] == a;
    ClausesAppend(a', b, partitionKey, sortKey);
    LaterFieldsKeep(a', b, "#" + key, partitionKey, sortKey);
  }

  /** A list: `SET #k = list_append(#k, :k)`, `:k` holding the list and `#k` naming `k`. */
  lemma ListField(a: seq<(string, Value)>, key: string, items: seq<Value>, b: seq<(string, Value)>, partitionKey: string, sortKey: string)
    requires !IsTableKey(key, partitionKey, sortKey)
    requires !WritesValue(b, ":" + key, partitionKey, sortKey) && !WritesName(b, "#" + key, partitionKey, sortKey)
    ensures var u := Update(a + [(key, List(items))] + b, partitionKey, sortKey);
      AppendClause(key) in u.clauses
      && ":" + key in u.values && u.values[":" + key] == List(items)
      && "#" + key in u.names && u.names["#" + key] == key
  {
    var a' := a + [(key, List(items))];
    assert a'[..|a'| - 1] == a;
    ClausesAppend(a', b, partitionKey, sortKey);
    LaterFieldsKeep(a', b, ":" + key, partitionKey, sortKey);
    LaterFieldsKeep(a', b, "#" + key, partitionKey, sortKey);
  }

  /** An integer, string or boolean: `SET #k = :k`, `:k` holding the value and `#k` naming `k`. */
  lemma ScalarField(a: seq<(string, Value)>, key: string, value: Value, b: seq<(string, Value)>, partitionKey: string, sortKey: string)
    requires value.Bool? || value.Number? || value.Str?
    requires !IsTableKey(key, partitionKey, sortKey)
    requires !WritesValue(b, ":" + key, partitionKey, sortKey) && !WritesName(b, "#" + key, partitionKey, sortKey)
    ensures var u := Update(a + [(key, value)] + b, partitionKey, sortKey);
      SetClause(key) in u.clauses
      && ":" + key in u.values && u.values[":" + key] == value
      && "#" + key in u.names && u.names["#" + key] == key
  {
    var a' := a + [(key, value)];
    assert a'[..|a'| - 1] == a;
    ClausesAppend(a', b, partitionKey, sortKey);
    LaterFieldsKeep(a', b, ":" + key, partitionKey, sortKey);
    LaterFieldsKeep(a', b, "#" + key, partitionKey, sortKey);
  }

  /**
   * An object: one `SET #k.n = :k.n` clause per entry, in order, with `:k.n` holding the
   * entry's value and `#k.n` naming `n` (not `k`). An empty object adds nothing.
   */
  lemma DictField(a: seq<(string, Value)>, key: string, entries: seq<(string, Value)>, b: seq<(string, Value)>, partitionKey: string, sortKey: string)
    requires !IsTableKey(key, partitionKey, sortKey) && DistinctKeys(entries)
    requires forall j | 0 <= j < |entries| ::
      !WritesValue(b, ":" + NestedAttr(key, entries[j].0), partitionKey, sortKey)
      && !WritesName(b, "#" + NestedAttr(key, entries[j].0), partitionKey, sortKey)
    ensures var before := Update(a, partitionKey, sortKey).clauses;
      var after := Update(a + [(key, Dict(entries))], partitionKey, sortKey).clauses;
      |after| == |before| + |entries|
      && forall j | 0 <= j < |entries| :: after[|before| + j] == SetClause(NestedAttr(key, entries[j].0))
    ensures forall j | 0 <= j < |entries| ::
      var u := Update(a + [(key, Dict(entries))] + b, partitionKey, sortKey);
      var attr := NestedAttr(key, entries[j].0);
      ":" + attr in u.values && u.values[":" + attr] == entries[j].1
      && "#" + attr in u.names && u.names["#" + attr] == entries[j].0
    ensures entries == [] ==> Update(a + [(key, Dict(entries))], partitionKey, sortKey) == Update(a, partitionKey, sortKey)
  {
    var a' := a + [(key, Dict(entries))];
    assert a'[..|a'| - 1] == a;
    var u := Update(a, partitionKey, sortKey);
    NestedClauses(u, key, entries);
    NestedEntries(u, key, entries);
    forall j | 0 <= j < |entries|
      ensures var w := Update(a' + b, partitionKey, sortKey);
        var attr := NestedAttr(key, entries[j].0);
        ":" + attr in w.values && w.values[":" + attr] == entries[j].1
        && "#" + attr in w.names && w.names["#" + attr] == entries[j].0
    {
      LaterFieldsKeep(a', b, ":" + NestedAttr(key, entries[j].0), partitionKey, sortKey);
      LaterFieldsKeep(a', b, "#" + NestedAttr(key, entries[j].0), partitionKey, sortKey);
    }
  }
}
