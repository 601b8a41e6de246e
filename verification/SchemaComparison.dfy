/** Comparing app-server schema bundles: documentation is ignored where a schema stands, and nothing
    else is. */
module SchemaComparison {
  import opened Wrappers
  import opened JsonValues

  const DOCUMENTATION: set<string> := {"description", "title", "$comment"}

  /** Keywords whose value maps names to schemas. */
  const MAPPINGS: set<string> := {"properties", "patternProperties", "$defs", "definitions", "dependentSchemas"}

  /** Keywords whose value is a schema or a list of schemas. */
  const SUBSCHEMAS: set<string> :=
    {"items", "prefixItems", "allOf", "anyOf", "oneOf", "not", "if", "then", "else",
     "contains", "additionalProperties", "unevaluatedProperties", "unevaluatedItems", "propertyNames"}

  function Normalized(v: Json): Json
    decreases v, 0
  {
    match v
    case Obj(fields) =>
      Obj(map key | key in fields && key !in DOCUMENTATION :: NormalizedField(key, fields[key]))
    case Arr(items) => Arr(seq(|items|, i requires 0 <= i < |items| => Normalized(items[i])))
    case _ => v
  }

  function NormalizedField(key: string, item: Json): Json
    decreases item, 1
  {
    if key in MAPPINGS && item.Obj? then NormalizedNames(item)
    else if key in SUBSCHEMAS then Normalized(item)
    else item
  }

  function NormalizedNames(item: Json): Json
    requires item.Obj?
    decreases item, 0
  {
    Obj(map name | name in item.fields :: Normalized(item.fields[name]))
  }

  /** The recursive walk, filling one dictionary or list at a time. */
  method Normalize(v: Json) returns (r: Json)
    ensures r == Normalized(v)
    decreases v, 1
  {
    match v
    case Obj(fields) =>
      var result: map<string, Json> := map[];
      var left := fields.Keys;
      while left != {}
        invariant left <= fields.Keys
        invariant result == map key | key in fields && key !in left && key !in DOCUMENTATION ::
                              NormalizedField(key, fields[key])
        decreases |left|
      {
        var key :| key in left;
        left := left - {key};
        if key in DOCUMENTATION {
          continue;
        }
        var item := fields[key];
        if key in MAPPINGS && item.Obj? {
          var names := NormalizeNames(item);
          result := result[key := names];
        } else if key in SUBSCHEMAS {
          var inner := Normalize(item);
          result := result[key := inner];
        } else {
          result := result[key := item];
        }
      }
      return Obj(result);
    case Arr(items) =>
      var result := [];
      for i := 0 to |items|
        invariant |result| == i
        invariant forall k | 0 <= k < i :: result[k] == Normalized(items[k])
      {
        var inner := Normalize(items[i]);
        result := result + [inner];
      }
      assert result == Normalized(v).items;
      return Arr(result);
    case _ =>
      return v;
  }

  method NormalizeNames(item: Json) returns (r: Json)
    requires item.Obj?
    ensures r == NormalizedNames(item)
    decreases item, 1
  {
    var result: map<string, Json> := map[];
    var left := item.fields.Keys;
    while left != {}
      invariant left <= item.fields.Keys
      invariant result == map name | name in item.fields && name !in left :: Normalized(item.fields[name])
      decreases |left|
    {
      var name :| name in left;
      left := left - {name};
      var schema := Normalize(item.fields[name]);
      result := result[name := schema];
    }
    return Obj(result);
  }

  // ---------- The keywords, one by one ----------

  /** What becomes of a member of an object, by its name. */
  lemma MemberByKeyword(fields: map<string, Json>, key: string)
    requires key in fields
    ensures var normal := Normalized(Obj(fields)).fields;
            var item := fields[key];
            if key in {"description", "title", "$comment"} then key !in normal
            else if key in {"properties", "patternProperties", "$defs", "definitions", "dependentSchemas"} && item.Obj? then
              && key in normal && normal[key].Obj? && normal[key].fields.Keys == item.fields.Keys
              && forall name | name in item.fields :: normal[key].fields[name] == Normalized(item.fields[name])
            else if key in {"items", "prefixItems", "allOf", "anyOf", "oneOf", "not", "if", "then", "else", "contains",
                            "additionalProperties", "unevaluatedProperties", "unevaluatedItems", "propertyNames"} then
              key in normal && normal[key] == Normalized(item)
            else key in normal && normal[key] == item
  {
    if key !in DOCUMENTATION {
      assert Normalized(Obj(fields)).fields[key] == NormalizedField(key, fields[key]);
    }
    if fields[key].Obj? {
      NamesAreKept(fields[key]);
    }
  }

  lemma NamesAreKept(item: Json)
    requires item.Obj?
    ensures NormalizedNames(item).Obj? && NormalizedNames(item).fields.Keys == item.fields.Keys
    ensures forall name | name in item.fields :: NormalizedNames(item).fields[name] == Normalized(item.fields[name])
  {
    hide Normalized;
  }

  /** Lists go item by item, and everything else stays. */
  lemma OthersByKind(v: Json)
    requires !v.Obj?
    ensures if v.Arr? then
              var normal := Normalized(v);
              && normal.Arr? && |normal.items| == |v.items|
              && forall i | 0 <= i < |v.items| :: normal.items[i] == Normalized(v.items[i])
            else Normalized(v) == v
  {
  }

  // ---------- The congruence ----------

  /** Derivations that two documents are the same schema.  The only axiom lets one documentation keyword
      of one object differ; the rest closes it under equivalence and under schema positions. */
  datatype Derivation =
    | Same
    | Flip(of: Derivation)
    | Chain(middle: Json, left: Derivation, right: Derivation)
    | Document(key: string)
    | InSubschema(key: string, within: Derivation)
    | InMapping(key: string, name: string, within: Derivation)
    | InItem(position: nat, within: Derivation)

  /** Two objects that both have a member and agree on all others. */
  predicate SameBut(a: Json, b: Json, key: string) {
    && a.Obj? && b.Obj? && key in a.fields && key in b.fields
    && a.fields - {key} == b.fields - {key}
  }

  predicate Derives(d: Derivation, a: Json, b: Json)
    decreases d
  {
    match d
    case Same => a == b
    case Flip(of) => Derives(of, b, a)
    case Chain(middle, left, right) => Derives(left, a, middle) && Derives(right, middle, b)
    case Document(key) => key in DOCUMENTATION && a.Obj? && b.Obj? && a.fields - {key} == b.fields - {key}
    case InSubschema(key, within) =>
      key in SUBSCHEMAS && SameBut(a, b, key) && Derives(within, a.fields[key], b.fields[key])
    case InMapping(key, name, within) =>
      && key in MAPPINGS && SameBut(a, b, key) && SameBut(a.fields[key], b.fields[key], name)
      && Derives(within, a.fields[key].fields[name], b.fields[key].fields[name])
    case InItem(i, within) =>
      && a.Arr? && b.Arr? && |a.items| == |b.items| && i < |a.items|
      && a.items[..i] == b.items[..i] && a.items[i + 1..] == b.items[i + 1..]
      && Derives(within, a.items[i], b.items[i])
  }

  /** The least congruence that ignores documentation at schema positions. */
  ghost predicate SameSchema(a: Json, b: Json) {
    exists d :: Derives(d, a, b)
  }

  // ---------- Normalizing respects the congruence ----------

  lemma SameElsewhere(a: Json, b: Json, key: string, other: string)
    requires a.Obj? && b.Obj? && a.fields - {key} == b.fields - {key} && other != key
    ensures other in a.fields <==> other in b.fields
    ensures other in a.fields ==> a.fields[other] == b.fields[other]
  {
    assert other in a.fields <==> other in a.fields - {key};
    assert other in b.fields <==> other in b.fields - {key};
    if other in a.fields {
      assert (a.fields - {key})[other] == (b.fields - {key})[other];
    }
  }

  lemma FieldsAgree(a: Json, b: Json, key: string)
    requires SameBut(a, b, key) && NormalizedField(key, a.fields[key]) == NormalizedField(key, b.fields[key])
    ensures Normalized(a) == Normalized(b)
  {
    hide NormalizedField;
    var m, n := Normalized(a).fields, Normalized(b).fields;
    forall other ensures other in m <==> other in n
      ensures other in m ==> m[other] == n[other]
    {
      if other != key {
        SameElsewhere(a, b, key, other);
      }
    }
    assert m == n;
  }

  lemma DocumentationDropped(a: Json, b: Json, key: string)
    requires key in DOCUMENTATION && a.Obj? && b.Obj? && a.fields - {key} == b.fields - {key}
    ensures Normalized(a) == Normalized(b)
  {
    hide NormalizedField;
    var m, n := Normalized(a).fields, Normalized(b).fields;
    forall other ensures other in m <==> other in n
      ensures other in m ==> m[other] == n[other]
    {
      if other != key {
        SameElsewhere(a, b, key, other);
      }
    }
    assert m == n;
  }

  lemma NamesAgree(a: Json, b: Json, name: string)
    requires SameBut(a, b, name) && Normalized(a.fields[name]) == Normalized(b.fields[name])
    ensures NormalizedNames(a) == NormalizedNames(b)
  {
    hide Normalized;
    var m, n := NormalizedNames(a).fields, NormalizedNames(b).fields;
    forall other ensures other in m <==> other in n
      ensures other in m ==> m[other] == n[other]
    {
      if other != name {
        SameElsewhere(a, b, name, other);
      }
    }
    assert m == n;
  }

  lemma ItemsAgree(a: Json, b: Json, i: nat)
    requires a.Arr? && b.Arr? && |a.items| == |b.items| && i < |a.items|
    requires a.items[..i] == b.items[..i] && a.items[i + 1..] == b.items[i + 1..]
    requires Normalized(a.items[i]) == Normalized(b.items[i])
    ensures Normalized(a) == Normalized(b)
  {
    var m, n := Normalized(a).items, Normalized(b).items;
    forall k | 0 <= k < |m| ensures m[k] == n[k] {
      if k < i {
        assert a.items[k] == a.items[..i][k] == b.items[..i][k];
      } else if k > i {
        assert a.items[k] == a.items[i + 1..][k - i - 1] == b.items[i + 1..][k - i - 1];
      }
    }
  }

  lemma {:induction false} DerivedNormalizeAlike(d: Derivation, a: Json, b: Json)
    requires Derives(d, a, b)
    ensures Normalized(a) == Normalized(b)
    decreases d
  {
    hide Normalized, NormalizedNames, SameBut;
    match d
    case Same =>
    case Flip(of) => DerivedNormalizeAlike(of, b, a);
    case Chain(middle, left, right) =>
      DerivedNormalizeAlike(left, a, middle);
      DerivedNormalizeAlike(right, middle, b);
    case Document(key) => DocumentationDropped(a, b, key);
    case InSubschema(key, within) =>
      BothHave(a, b, key);
      DerivedNormalizeAlike(within, a.fields[key], b.fields[key]);
      FieldsAgree(a, b, key);
    case InMapping(key, name, within) =>
      BothHave(a, b, key);
      BothHave(a.fields[key], b.fields[key], name);
      DerivedNormalizeAlike(within, a.fields[key].fields[name], b.fields[key].fields[name]);
      NamesAgree(a.fields[key], b.fields[key], name);
      FieldsAgree(a, b, key);
    case InItem(i, within) =>
      DerivedNormalizeAlike(within, a.items[i], b.items[i]);
      ItemsAgree(a, b, i);
  }

  lemma BothHave(a: Json, b: Json, key: string)
    requires SameBut(a, b, key)
    ensures a.Obj? && b.Obj? && key in a.fields && key in b.fields
  {
  }

  // ---------- Every document is congruent to its normal form ----------

  lemma Trans(a: Json, b: Json, c: Json)
    requires SameSchema(a, b) && SameSchema(b, c)
    ensures SameSchema(a, c)
  {
    var left :| Derives(left, a, b);
    var right :| Derives(right, b, c);
    assert Derives(Chain(b, left, right), a, c);
  }

  lemma Symm(a: Json, b: Json)
    requires SameSchema(a, b)
    ensures SameSchema(b, a)
  {
    var d :| Derives(d, a, b);
    assert Derives(Flip(d), b, a);
  }

  lemma Refl(a: Json)
    ensures SameSchema(a, a)
  {
    assert Derives(Same, a, a);
  }

  /** The members in `done` in normal form, the others as they were. */
  function PartFields(fields: map<string, Json>, done: set<string>): map<string, Json> {
    map key | key in fields && !(key in done && key in DOCUMENTATION) ::
      if key in done then NormalizedField(key, fields[key]) else fields[key]
  }

  function PartNames(fields: map<string, Json>, done: set<string>): map<string, Json> {
    map name | name in fields :: if name in done then Normalized(fields[name]) else fields[name]
  }

  function PartItems(items: seq<Json>, done: nat): seq<Json> {
    seq(|items|, i requires 0 <= i < |items| => if i < done then Normalized(items[i]) else items[i])
  }

  lemma {:induction false} NormalFormIsSame(v: Json)
    ensures SameSchema(v, Normalized(v))
    decreases v, 1
  {
    match v
    case Obj(fields) =>
      FieldsNormalize(v, fields.Keys);
      assert PartFields(fields, fields.Keys) == Normalized(v).fields;
    case Arr(items) =>
      ItemsNormalize(v, |items|);
      assert PartItems(items, |items|) == Normalized(v).items;
    case _ =>
      Refl(v);
  }

  lemma {:induction false} ItemsNormalize(v: Json, done: nat)
    requires v.Arr? && done <= |v.items|
    ensures SameSchema(v, Arr(PartItems(v.items, done)))
    decreases v, 0, done
  {
    if done == 0 {
      assert PartItems(v.items, 0) == v.items;
      Refl(v);
    } else {
      var i := done - 1;
      ItemsNormalize(v, i);
      NormalFormIsSame(v.items[i]);
      var a, b := PartItems(v.items, i), PartItems(v.items, done);
      var d :| Derives(d, v.items[i], Normalized(v.items[i]));
      assert a[..i] == b[..i] && a[i + 1..] == b[i + 1..];
      assert Derives(InItem(i, d), Arr(a), Arr(b));
      Trans(v, Arr(a), Arr(b));
    }
  }

  lemma {:induction false} FieldsNormalize(v: Json, done: set<string>)
    requires v.Obj? && done <= v.fields.Keys
    ensures SameSchema(v, Obj(PartFields(v.fields, done)))
    decreases v, 0, |done|
  {
    if done == {} {
      assert PartFields(v.fields, {}) == v.fields;
      Refl(v);
    } else {
      var key :| key in done;
      var fewer := done - {key};
      FieldsNormalize(v, fewer);
      FieldNormalizes(v, key, fewer);
      assert fewer + {key} == done;
      Trans(v, Obj(PartFields(v.fields, fewer)), Obj(PartFields(v.fields, done)));
    }
  }

  lemma FieldNormalizes(v: Json, key: string, done: set<string>)
    requires v.Obj? && key in v.fields && key !in done
    ensures SameSchema(Obj(PartFields(v.fields, done)), Obj(PartFields(v.fields, done + {key})))
    decreases v, 0, 0
  {
    var item := v.fields[key];
    var a, b := Obj(PartFields(v.fields, done)), Obj(PartFields(v.fields, done + {key}));
    PartFieldsBut(v.fields, done, key);
    if key in DOCUMENTATION {
      assert Derives(Document(key), a, b);
    } else if key in MAPPINGS && item.Obj? {
      NamesNormalize(item, item.fields.Keys);
      assert PartNames(item.fields, item.fields.Keys) == NormalizedNames(item).fields;
      LiftMapping(a, b, key);
    } else if key in SUBSCHEMAS {
      NormalFormIsSame(item);
      var d :| Derives(d, item, Normalized(item));
      assert Derives(InSubschema(key, d), a, b);
    } else {
      assert a.fields == b.fields;
      Refl(a);
    }
  }

  lemma PartFieldsBut(fields: map<string, Json>, done: set<string>, key: string)
    requires key in fields && key !in done
    ensures PartFields(fields, done) - {key} == PartFields(fields, done + {key}) - {key}
    ensures key in PartFields(fields, done) && PartFields(fields, done)[key] == fields[key]
    ensures key !in DOCUMENTATION ==>
              key in PartFields(fields, done + {key})
              && PartFields(fields, done + {key})[key] == NormalizedField(key, fields[key])
  {
    hide NormalizedField;
  }

  /** Names of a mapping are congruent one by one. */
  ghost predicate SameNames(a: Json, b: Json)
    requires a.Obj? && b.Obj?
  {
    exists chain: seq<Json> :: NameChain(chain, a, b)
  }

  ghost predicate NameChain(chain: seq<Json>, a: Json, b: Json) {
    && chain != [] && chain[0] == a && chain[|chain| - 1] == b
    && forall i | 0 <= i < |chain| - 1 :: NameStep(chain[i], chain[i + 1])
  }

  ghost predicate NameStep(a: Json, b: Json) {
    exists name :: SameBut(a, b, name) && SameSchema(a.fields[name], b.fields[name])
  }

  lemma {:induction false} NamesNormalize(item: Json, done: set<string>)
    requires item.Obj? && done <= item.fields.Keys
    ensures SameNames(item, Obj(PartNames(item.fields, done)))
    decreases item, 0, |done|
  {
    if done == {} {
      assert PartNames(item.fields, {}) == item.fields;
      assert NameChain([item], item, item);
    } else {
      var name :| name in done;
      var fewer := done - {name};
      NamesNormalize(item, fewer);
      NormalFormIsSame(item.fields[name]);
      var a, b := Obj(PartNames(item.fields, fewer)), Obj(PartNames(item.fields, done));
      assert a.fields - {name} == b.fields - {name};
      assert SameBut(a, b, name) && SameSchema(a.fields[name], b.fields[name]);
      var chain :| NameChain(chain, item, a);
      assert NameChain(chain + [b], item, b);
    }
  }

  lemma LiftMapping(a: Json, b: Json, key: string)
    requires key in MAPPINGS && SameBut(a, b, key) && a.fields[key].Obj? && b.fields[key].Obj?
    requires SameNames(a.fields[key], b.fields[key])
    ensures SameSchema(a, b)
  {
    var chain :| NameChain(chain, a.fields[key], b.fields[key]);
    LiftChain(a, key, chain, |chain| - 1);
    assert a.fields[key := b.fields[key]] == b.fields by {
      forall other ensures other in a.fields <==> other in b.fields
        ensures other in a.fields && other != key ==> a.fields[other] == b.fields[other]
      {
        if other != key {
          SameElsewhere(a, b, key, other);
        }
      }
    }
  }

  lemma {:induction false} LiftChain(a: Json, key: string, chain: seq<Json>, n: nat)
    requires a.Obj? && key in a.fields && key in MAPPINGS
    requires n < |chain| && chain[0] == a.fields[key]
    requires forall i | 0 <= i < |chain| - 1 :: NameStep(chain[i], chain[i + 1])
    ensures SameSchema(a, Obj(a.fields[key := chain[n]]))
  {
    if n == 0 {
      assert a.fields[key := chain[0]] == a.fields;
      Refl(a);
    } else {
      LiftChain(a, key, chain, n - 1);
      var x, y := Obj(a.fields[key := chain[n - 1]]), Obj(a.fields[key := chain[n]]);
      assert NameStep(chain[n - 1], chain[n - 1 + 1]);
      var name :| SameBut(chain[n - 1], chain[n], name) && SameSchema(chain[n - 1].fields[name], chain[n].fields[name]);
      var d :| Derives(d, chain[n - 1].fields[name], chain[n].fields[name]);
      assert x.fields - {key} == y.fields - {key};
      assert Derives(InMapping(key, name, d), x, y);
      Trans(a, x, y);
    }
  }

  /** Exactness: two documents have one normal form if and only if they are the same schema. */
  lemma NormalFormsAreExact(a: Json, b: Json)
    ensures Normalized(a) == Normalized(b) <==> SameSchema(a, b)
  {
    hide Normalized, Derives;
    NormalFormIsSame(a);
    NormalFormIsSame(b);
    if Normalized(a) == Normalized(b) {
      Symm(b, Normalized(b));
      Trans(a, Normalized(a), b);
    }
    if SameSchema(a, b) {
      var d :| Derives(d, a, b);
      DerivedNormalizeAlike(d, a, b);
    }
  }

  lemma NormalizedIsIdempotent(a: Json)
    ensures Normalized(Normalized(a)) == Normalized(a)
  {
    hide Normalized;
    NormalFormIsSame(a);
    NormalFormsAreExact(a, Normalized(a));
  }
}
