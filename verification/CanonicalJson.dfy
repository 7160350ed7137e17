/** Canonical JSON: the recursive key sorting that the backend (src/airi/approvals/artifacts.py)
    applies before hashing a document. */
module CanonicalJson {
  import opened Sorting

  /** A JSON value; a number is the numeral that is written for it, and an object lists its fields
      in the order in which they are written. */
  datatype Json =
    | Null
    | Bool(b: bool)
    | Number(numeral: string)
    | Str(s: string)
    | Array(items: seq<Json>)
    | Object(fields: seq<Field>)

  datatype Field = Field(key: string, value: Json)

  ghost predicate DistinctKeys(fields: seq<Field>) {
    forall i, j | 0 <= i < j < |fields| :: fields[i].key != fields[j].key
  }

  predicate IsNumeral(s: string) {
    && s != [] && ('0' <= s[0] <= '9' || s[0] == '-')
    && forall i | 0 <= i < |s| :: '0' <= s[i] <= '9' || s[i] in {'-', '+', '.', 'e', 'E'}
  }

  /** No object names a key twice and numbers are numerals, at any depth. */
  ghost predicate WellFormed(v: Json) {
    match v
    case Number(numeral) => IsNumeral(numeral)
    case Array(items) => forall i | 0 <= i < |items| :: WellFormed(items[i])
    case Object(fields) =>
      DistinctKeys(fields) && forall i | 0 <= i < |fields| :: WellFormed(fields[i].value)
    case _ => true
  }

  /** Equality of JSON values, with objects read as maps from keys to values. */
  ghost predicate Same(a: Json, b: Json) {
    match a
    case Array(items) =>
      b.Array? && |items| == |b.items| && forall i | 0 <= i < |items| :: Same(items[i], b.items[i])
    case Object(fields) =>
      && b.Object?
      && (forall j | 0 <= j < |b.fields| :: HasKey(fields, b.fields[j].key))
      && (forall i | 0 <= i < |fields| :: HasKey(b.fields, fields[i].key))
      && (forall i, j | 0 <= i < |fields| && 0 <= j < |b.fields| && fields[i].key == b.fields[j].key ::
            Same(fields[i].value, b.fields[j].value))
    case _ => a == b
  }

  ghost predicate HasKey(fields: seq<Field>, key: string) {
    exists i :: 0 <= i < |fields| && fields[i].key == key
  }

  predicate KeyLe(a: Field, b: Field) { StringLe(a.key, b.key) }

  function Canonical(v: Json): Json {
    match v
    case Array(items) => Array(seq(|items|, (i: nat) requires i < |items| => Canonical(items[i])))
    case Object(fields) => Object(SortBy(KeyLe, CanonicalFields(v)))
    case _ => v
  }

  function CanonicalFields(v: Json): (r: seq<Field>)
    requires v.Object?
    ensures |r| == |v.fields|
    ensures forall i | 0 <= i < |r| :: r[i].key == v.fields[i].key
    decreases v, 0
  {
    seq(|v.fields|, (i: nat) requires i < |v.fields| => Field(v.fields[i].key, Canonical(v.fields[i].value)))
  }

  // ------------------------------------------------------------ fields as sets

  lemma {:induction false} KeyLeOrder()
    ensures TotalPreorder(KeyLe)
    ensures forall a, b :: KeyLe(a, b) && KeyLe(b, a) ==> a.key == b.key
  {
    forall a, b ensures KeyLe(a, b) || KeyLe(b, a) ensures KeyLe(a, b) && KeyLe(b, a) ==> a.key == b.key {
      StringLeTotal(a.key, b.key);
    }
    forall a, b, c | KeyLe(a, b) && KeyLe(b, c) ensures KeyLe(a, c) {
      StringLeTransitive(a.key, b.key, c.key);
    }
  }

  lemma {:induction false} DistinctMultiplicity<T>(s: seq<T>, x: T)
    requires forall i, j | 0 <= i < j < |s| :: s[i] != s[j]
    ensures multiset(s)[x] == if x in s then 1 else 0
  {
    if s != [] {
      DistinctMultiplicity(s[1..], x);
      assert s == [s[0]] + s[1..];
    }
  }

  lemma {:induction false} SameFieldSets(a: seq<Field>, b: seq<Field>)
    requires DistinctKeys(a) && DistinctKeys(b)
    requires forall f :: f in a <==> f in b
    ensures multiset(a) == multiset(b)
  {
    forall f ensures multiset(a)[f] == multiset(b)[f] {
      DistinctMultiplicity(a, f);
      DistinctMultiplicity(b, f);
    }
  }

  lemma {:induction false} DistinctKeysDistinguish(fields: seq<Field>)
    requires DistinctKeys(fields)
    ensures Distinguishes(KeyLe, fields)
  {
    KeyLeOrder();
  }

  /** Equal sorted field lists have the same fields, and conversely for distinct keys. */
  lemma {:induction false} SortedFieldsAgree(a: seq<Field>, b: seq<Field>)
    requires DistinctKeys(a) && DistinctKeys(b)
    ensures SortBy(KeyLe, a) == SortBy(KeyLe, b) <==> forall f :: f in a <==> f in b
  {
    KeyLeOrder();
    if SortBy(KeyLe, a) == SortBy(KeyLe, b) {
      SortedPermutation(KeyLe, a);
      SortedPermutation(KeyLe, b);
      SameElements(a, b);
    }
    if forall f :: f in a <==> f in b {
      SameFieldSets(a, b);
      DistinctKeysDistinguish(a);
      SortIgnoresOrder(KeyLe, a, b);
    }
  }

  // ------------------------------------------------------------ the main theorem

  lemma {:induction false} CanonicalFieldAt(v: Json, f: Field)
    requires v.Object?
    ensures f in CanonicalFields(v)
            <==> exists i :: 0 <= i < |v.fields| && f.key == v.fields[i].key && f.value == Canonical(v.fields[i].value)
  {
    var r := CanonicalFields(v);
    if f in r {
      var i :| 0 <= i < |r| && r[i] == f;
      assert f.key == v.fields[i].key && f.value == Canonical(v.fields[i].value);
    }
    if i :| 0 <= i < |v.fields| && f.key == v.fields[i].key && f.value == Canonical(v.fields[i].value) {
      assert r[i] == f;
    }
  }

  /** Same fields after canonicalization: same keys, and equal canonical values under each key. */
  lemma {:induction false} CanonicalFieldsAgree(a: Json, b: Json)
    requires a.Object? && b.Object? && DistinctKeys(a.fields) && DistinctKeys(b.fields)
    ensures (forall f :: f in CanonicalFields(a) <==> f in CanonicalFields(b))
            <==> (forall j | 0 <= j < |b.fields| :: HasKey(a.fields, b.fields[j].key))
                 && (forall i | 0 <= i < |a.fields| :: HasKey(b.fields, a.fields[i].key))
                 && (forall i, j | 0 <= i < |a.fields| && 0 <= j < |b.fields| && a.fields[i].key == b.fields[j].key ::
                       Canonical(a.fields[i].value) == Canonical(b.fields[j].value))
  {
    var ca, cb := CanonicalFields(a), CanonicalFields(b);
    hide Canonical;
    if forall f :: f in ca <==> f in cb {
      FieldsIncluded(a, b);
      FieldsIncluded(b, a);
    } else {
      var f :| !(f in ca <==> f in cb);
      CanonicalFieldAt(a, f);
      CanonicalFieldAt(b, f);
    }
  }

  lemma {:induction false} FieldsIncluded(a: Json, b: Json)
    requires a.Object? && b.Object? && DistinctKeys(b.fields)
    requires forall f | f in CanonicalFields(a) :: f in CanonicalFields(b)
    ensures forall i | 0 <= i < |a.fields| :: HasKey(b.fields, a.fields[i].key)
    ensures forall i, j | 0 <= i < |a.fields| && 0 <= j < |b.fields| && a.fields[i].key == b.fields[j].key ::
              Canonical(a.fields[i].value) == Canonical(b.fields[j].value)
  {
    hide Canonical;
    forall i | 0 <= i < |a.fields|
      ensures HasKey(b.fields, a.fields[i].key)
      ensures forall j | 0 <= j < |b.fields| && a.fields[i].key == b.fields[j].key ::
                Canonical(a.fields[i].value) == Canonical(b.fields[j].value)
    {
      var f := Field(a.fields[i].key, Canonical(a.fields[i].value));
      CanonicalFieldAt(a, f);
      CanonicalFieldAt(b, f);
    }
  }

  /** Canonicalization decides JSON equality: two documents have the same canonical form
      exactly when they are equal with objects read as maps. */
  lemma {:induction false} CanonicalDecidesEquality(a: Json, b: Json)
    requires WellFormed(a) && WellFormed(b)
    ensures Canonical(a) == Canonical(b) <==> Same(a, b)
    decreases a
  {
    match a
    case Array(items) =>
      if b.Array? && |b.items| == |items| {
        forall i | 0 <= i < |items| ensures Canonical(items[i]) == Canonical(b.items[i]) <==> Same(items[i], b.items[i]) {
          CanonicalDecidesEquality(items[i], b.items[i]);
        }
        ArrayItems(a, b);
      } else if b.Array? {
        assert |Canonical(a).items| != |Canonical(b).items|;
      }
    case Object(fields) =>
      if b.Object? {
        forall i, j | 0 <= i < |fields| && 0 <= j < |b.fields|
          ensures Canonical(fields[i].value) == Canonical(b.fields[j].value) <==> Same(fields[i].value, b.fields[j].value)
        {
          CanonicalDecidesEquality(fields[i].value, b.fields[j].value);
        }
        SortedFieldsAgree(CanonicalFields(a), CanonicalFields(b));
        CanonicalFieldsAgree(a, b);
        hide CanonicalFields, SortBy;
      }
    case _ =>
  }

  lemma {:induction false} ArrayItems(a: Json, b: Json)
    requires a.Array? && b.Array? && |a.items| == |b.items|
    ensures Canonical(a) == Canonical(b) <==> forall i | 0 <= i < |a.items| :: Canonical(a.items[i]) == Canonical(b.items[i])
  {
    var ca, cb := Canonical(a).items, Canonical(b).items;
    assert |ca| == |cb| == |a.items|;
    forall i | 0 <= i < |a.items| ensures ca[i] == Canonical(a.items[i]) && cb[i] == Canonical(b.items[i]) {}
    hide Canonical;
  }

  // ------------------------------------------------------------ consequences

  lemma {:induction false} SortedKeysDistinct(le: (Field, Field) -> bool, fields: seq<Field>)
    requires DistinctKeys(fields) && TotalPreorder(le)
    ensures DistinctKeys(SortBy(le, fields))
  {
    SortedPermutation(le, fields);
    var s := SortBy(le, fields);
    SameElements(s, fields);
    forall i, j | 0 <= i < j < |s| ensures s[i].key != s[j].key {
      if s[i].key == s[j].key {
        assert s[i] in fields && s[j] in fields;
        assert s[i] == s[j];
        DistinctMultiplicity(fields, s[i]);
        RepeatedMultiplicity(s, i, j);
      }
    }
  }

  lemma {:induction false} RepeatedMultiplicity<T>(s: seq<T>, i: nat, j: nat)
    requires i < j < |s| && s[i] == s[j]
    ensures multiset(s)[s[i]] >= 2
  {
    assert s == s[..i] + [s[i]] + s[i + 1..j] + [s[j]] + s[j + 1..];
  }

  /** The canonical form of a document is a document, and equal to it. */
  lemma {:induction false} CanonicalIsSame(v: Json)
    requires WellFormed(v)
    ensures WellFormed(Canonical(v)) && Same(Canonical(v), v)
    decreases v
  {
    match v
    case Array(items) =>
      forall i | 0 <= i < |items| ensures WellFormed(Canonical(items[i])) && Same(Canonical(items[i]), items[i]) {
        CanonicalIsSame(items[i]);
      }
    case Object(fields) =>
      forall i | 0 <= i < |fields|
        ensures WellFormed(Canonical(fields[i].value)) && Same(Canonical(fields[i].value), fields[i].value)
      {
        CanonicalIsSame(fields[i].value);
      }
      CanonicalObjectIsSame(v);
    case _ =>
  }

  /** The sorted canonical fields stem from the original ones, key by key. */
  ghost predicate StemsFrom(s: seq<Field>, fields: seq<Field>) {
    && DistinctKeys(s)
    && (forall k | 0 <= k < |s| :: HasKey(fields, s[k].key))
    && (forall i | 0 <= i < |fields| :: HasKey(s, fields[i].key))
    && (forall k, i | 0 <= k < |s| && 0 <= i < |fields| && s[k].key == fields[i].key ::
          s[k].value == Canonical(fields[i].value))
  }

  lemma {:induction false} SortedFieldsStem(v: Json)
    requires v.Object? && DistinctKeys(v.fields)
    ensures StemsFrom(SortBy(KeyLe, CanonicalFields(v)), v.fields)
  {
    hide Canonical;
    var cf := CanonicalFields(v);
    var s := SortBy(KeyLe, cf);
    KeyLeOrder();
    SortedPermutation(KeyLe, cf);
    SortedKeysDistinct(KeyLe, cf);
    SameElements(s, cf);
    forall k | 0 <= k < |s|
      ensures HasKey(v.fields, s[k].key)
      ensures forall i | 0 <= i < |v.fields| && s[k].key == v.fields[i].key :: s[k].value == Canonical(v.fields[i].value)
    {
      assert s[k] in cf;
      CanonicalFieldAt(v, s[k]);
    }
    forall i | 0 <= i < |v.fields| ensures HasKey(s, v.fields[i].key) {
      assert cf[i] in s;
      var k :| 0 <= k < |s| && s[k] == cf[i];
    }
  }

  lemma {:induction false} CanonicalObjectIsSame(v: Json)
    requires WellFormed(v) && v.Object?
    requires forall i | 0 <= i < |v.fields| ::
               WellFormed(Canonical(v.fields[i].value)) && Same(Canonical(v.fields[i].value), v.fields[i].value)
    ensures WellFormed(Canonical(v)) && Same(Canonical(v), v)
  {
    SortedFieldsStem(v);
    var s := SortBy(KeyLe, CanonicalFields(v));
    assert Canonical(v) == Object(s);
    hide CanonicalFields, SortBy, Canonical, KeyLe;
    StemmedIsSame(s, v);
  }

  lemma {:induction false} StemmedIsSame(s: seq<Field>, v: Json)
    requires v.Object? && StemsFrom(s, v.fields)
    requires forall i | 0 <= i < |v.fields| ::
               WellFormed(Canonical(v.fields[i].value)) && Same(Canonical(v.fields[i].value), v.fields[i].value)
    ensures WellFormed(Object(s)) && Same(Object(s), v)
  {
    hide Canonical;
    forall k | 0 <= k < |s| ensures WellFormed(s[k].value) {
      var i :| 0 <= i < |v.fields| && v.fields[i].key == s[k].key;
    }
    assert forall i, j | 0 <= i < |s| && 0 <= j < |v.fields| && s[i].key == v.fields[j].key ::
        Same(s[i].value, v.fields[j].value);
  }

  lemma {:induction false} CanonicalIdempotent(v: Json)
    requires WellFormed(v)
    ensures Canonical(Canonical(v)) == Canonical(v)
  {
    CanonicalIsSame(v);
    CanonicalDecidesEquality(Canonical(v), v);
  }

  lemma {:induction false} SameReflexive(v: Json)
    requires WellFormed(v)
    ensures Same(v, v)
  {
    CanonicalDecidesEquality(v, v);
  }

  /** Listing the fields of an object in another order does not change the canonical form, and
      neither does it for the documents that contain the object (they stay `Same`). */
  lemma {:induction false} KeyOrderIrrelevant(fields: seq<Field>, reordered: seq<Field>)
    requires WellFormed(Object(fields)) && multiset(fields) == multiset(reordered)
    ensures WellFormed(Object(reordered)) && Same(Object(fields), Object(reordered))
    ensures Canonical(Object(fields)) == Canonical(Object(reordered))
  {
    SameElements(fields, reordered);
    forall i, j | 0 <= i < j < |reordered| ensures reordered[i].key != reordered[j].key {
      if reordered[i].key == reordered[j].key {
        assert reordered[i] in fields && reordered[j] in fields;
        assert reordered[i] == reordered[j];
        DistinctMultiplicity(fields, reordered[i]);
        RepeatedMultiplicity(reordered, i, j);
      }
    }
    forall i | 0 <= i < |reordered| ensures WellFormed(reordered[i].value) { assert reordered[i] in fields; }
    forall i | 0 <= i < |fields| ensures HasKey(reordered, fields[i].key) {
      assert fields[i] in reordered;
      var k :| 0 <= k < |reordered| && reordered[k] == fields[i];
    }
    forall j | 0 <= j < |reordered| ensures HasKey(fields, reordered[j].key) {
      assert reordered[j] in fields;
      var k :| 0 <= k < |fields| && fields[k] == reordered[j];
    }
    forall i, j | 0 <= i < |fields| && 0 <= j < |reordered| && fields[i].key == reordered[j].key
      ensures Same(fields[i].value, reordered[j].value)
    {
      assert reordered[j] in fields;
      SameReflexive(fields[i].value);
    }
    CanonicalDecidesEquality(Object(fields), Object(reordered));
  }
}
