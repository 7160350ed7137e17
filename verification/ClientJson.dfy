/** The web client's canonical form (airi-web/src/utils/canonicalHash.ts), and when it is the
    backend's. The client sorts keys by UTF-16 code unit and stores them in an object, which lists
    array indices first, in numeric order, and other keys as they were stored. */
module ClientJson {
  import opened Sorting
  import opened CanonicalJson
  import Numerals

  // ------------------------------------------------------------ UTF-16

  function Units(c: char): seq<int> {
    if (c as int) < 0x10000 then [c as int]
    else [0xD800 + (c as int - 0x10000) / 0x400, 0xDC00 + (c as int - 0x10000) % 0x400]
  }

  /** A character is one code unit, or a high and a low surrogate that give it back. */
  lemma {:induction false} UnitsExactly(c: char)
    ensures var units := Units(c);
            if c as int < 0x10000 then units == [c as int]
            else
              && |units| == 2 && 0xD800 <= units[0] < 0xDC00 <= units[1] < 0xE000
              && 0x10000 + (units[0] - 0xD800) * 0x400 + (units[1] - 0xDC00) == c as int
  {
  }

  function Utf16(s: string): seq<int> {
    if s == [] then [] else Units(s[0]) + Utf16(s[1..])
  }

  lemma {:induction false} UnitsInjective(c: char, d: char, x: seq<int>, y: seq<int>)
    requires Units(c) + x == Units(d) + y
    ensures c == d && x == y
  {
    assert (Units(c) + x)[0] == Units(c)[0] && (Units(d) + y)[0] == Units(d)[0];
    if (c as int) >= 0x10000 { assert (Units(c) + x)[1] == Units(c)[1] && (Units(d) + y)[1] == Units(d)[1]; }
    assert x == (Units(c) + x)[|Units(c)|..] && y == (Units(d) + y)[|Units(d)|..];
  }

  lemma {:induction false} Utf16Injective(a: string, b: string)
    requires Utf16(a) == Utf16(b)
    ensures a == b
  {
    if a != [] && b != [] {
      UnitsInjective(a[0], b[0], Utf16(a[1..]), Utf16(b[1..]));
      Utf16Injective(a[1..], b[1..]);
      assert a == [a[0]] + a[1..] && b == [b[0]] + b[1..];
    }
  }

  predicate UnitsLe(a: seq<int>, b: seq<int>) {
    a == [] || (b != [] && (a[0] < b[0] || (a[0] == b[0] && UnitsLe(a[1..], b[1..]))))
  }

  lemma {:induction false} UnitsLeTotal(a: seq<int>, b: seq<int>)
    ensures UnitsLe(a, b) || UnitsLe(b, a)
    ensures UnitsLe(a, b) && UnitsLe(b, a) ==> a == b
  {
    if a != [] && b != [] {
      UnitsLeTotal(a[1..], b[1..]);
      assert a == [a[0]] + a[1..] && b == [b[0]] + b[1..];
    }
  }

  lemma {:induction false} UnitsLeTransitive(a: seq<int>, b: seq<int>, c: seq<int>)
    requires UnitsLe(a, b) && UnitsLe(b, c)
    ensures UnitsLe(a, c)
  {
    if a != [] && a[0] == b[0] == c[0] {
      UnitsLeTransitive(a[1..], b[1..], c[1..]);
    }
  }

  /** What `sort()` without a comparator orders strings by. */
  predicate Utf16Le(a: string, b: string) { UnitsLe(Utf16(a), Utf16(b)) }

  lemma {:induction false} Utf16LeOrder()
    ensures TotalPreorder(Utf16Le)
    ensures forall a, b :: Utf16Le(a, b) && Utf16Le(b, a) ==> a == b
  {
    forall a, b ensures Utf16Le(a, b) || Utf16Le(b, a) ensures Utf16Le(a, b) && Utf16Le(b, a) ==> a == b {
      UnitsLeTotal(Utf16(a), Utf16(b));
      if Utf16(a) == Utf16(b) { Utf16Injective(a, b); }
    }
    forall a, b, c | Utf16Le(a, b) && Utf16Le(b, c) ensures Utf16Le(a, c) {
      UnitsLeTransitive(Utf16(a), Utf16(b), Utf16(c));
    }
  }

  // ------------------------------------------------------------ the order of an object's keys

  /** Digits without padding. */
  predicate Padless(key: string) {
    key != [] && Numerals.IsDigits(key) && (key == "0" || key[0] != '0')
  }

  /** A numeral without padding that is small enough for an array index. */
  predicate IsIndex(key: string) { Padless(key) && Numerals.Number(key) < 0xFFFF_FFFF }

  lemma {:induction false} NumberOfPadless(key: string)
    requires key != [] && Numerals.IsDigits(key) && key[0] != '0'
    ensures Numerals.Number(key) > 0
  {
    if |key| > 1 { NumberOfPadless(key[..|key| - 1]); } else { assert key[..0] == []; }
  }

  /** The digits before the last are padless, and their number is zero exactly when there are none. */
  lemma {:induction false} PadlessPrefix(key: string)
    requires Padless(key)
    ensures var prefix := key[..|key| - 1];
            && Numerals.IsDigits(prefix) && (prefix != [] ==> Padless(prefix))
            && (Numerals.Number(prefix) == 0 <==> prefix == [])
  {
    var prefix := key[..|key| - 1];
    if prefix != [] {
      assert prefix[0] == key[0];
      NumberOfPadless(prefix);
    }
  }

  lemma {:induction false} LastDigit(m: nat, n: nat, d: nat, e: nat)
    requires m * 10 + d == n * 10 + e && d < 10 && e < 10
    ensures m == n && d == e
  {
  }

  lemma {:induction false} NumberInjective(a: string, b: string)
    requires Padless(a) && Padless(b) && Numerals.Number(a) == Numerals.Number(b)
    ensures a == b
    decreases |a|
  {
    var p, q := a[..|a| - 1], b[..|b| - 1];
    assert a == p + [a[|a| - 1]] && b == q + [b[|b| - 1]];
    PadlessPrefix(a);
    PadlessPrefix(b);
    LastDigit(Numerals.Number(p), Numerals.Number(q), a[|a| - 1] as nat - '0' as nat, b[|b| - 1] as nat - '0' as nat);
    hide Numerals.Number, Padless;
    if p != [] { NumberInjective(p, q); }
  }

  lemma {:induction false} DecimalPadless(n: nat)
    ensures Padless(Numerals.Decimal(n))
  {
    Numerals.NumberOfDecimal(n);
    if n >= 10 {
      DecimalPadless(n / 10);
      if Numerals.Decimal(n / 10) == "0" { ZeroSpelled(n / 10); }
      assert Numerals.Decimal(n)[0] == Numerals.Decimal(n / 10)[0];
    } else if n > 0 {
      assert Numerals.Decimal(n)[0] != '0';
    }
  }

  lemma {:induction false} ZeroSpelled(n: nat)
    requires Numerals.Decimal(n) == "0"
    ensures n == 0
  {
  }

  /** An index key is the decimal numeral of a number below 2^32 - 1, and only those are. */
  lemma {:induction false} IndexExactly(key: string)
    ensures IsIndex(key) <==> exists n: nat :: n < 4_294_967_295 && key == Numerals.Decimal(n)
  {
    if IsIndex(key) {
      var n := Numerals.Number(key);
      DecimalPadless(n);
      Numerals.NumberOfDecimal(n);
      NumberInjective(key, Numerals.Decimal(n));
    }
    if n: nat :| n < 4_294_967_295 && key == Numerals.Decimal(n) {
      DecimalPadless(n);
      Numerals.NumberOfDecimal(n);
    }
  }

  /** The order in which an object lists keys that were stored in UTF-16 order. */
  predicate PropertyLe(a: string, b: string) {
    if IsIndex(a) && IsIndex(b) then Numerals.Number(a) <= Numerals.Number(b)
    else if IsIndex(a) || IsIndex(b) then IsIndex(a)
    else Utf16Le(a, b)
  }

  lemma {:induction false} PropertyLeOrder()
    ensures TotalPreorder(PropertyLe)
    ensures forall a, b :: PropertyLe(a, b) && PropertyLe(b, a) ==> a == b
  {
    Utf16LeOrder();
    hide Utf16Le;
    forall a, b | PropertyLe(a, b) && PropertyLe(b, a) ensures a == b {
      if IsIndex(a) { NumberInjective(a, b); }
    }
    hide IsIndex;
  }

  predicate FieldLe(a: Field, b: Field) { PropertyLe(a.key, b.key) }

  lemma {:induction false} FieldLeOrder()
    ensures TotalPreorder(FieldLe)
    ensures forall a, b :: FieldLe(a, b) && FieldLe(b, a) ==> a.key == b.key
  {
    PropertyLeOrder();
    hide PropertyLe;
  }

  // ------------------------------------------------------------ the client's canonical form

  function Client(v: Json): Json {
    match v
    case Array(items) => Array(seq(|items|, (i: nat) requires i < |items| => Client(items[i])))
    case Object(fields) => Object(SortBy(FieldLe, ClientFields(v)))
    case _ => v
  }

  function ClientFields(v: Json): (r: seq<Field>)
    requires v.Object?
    ensures |r| == |v.fields|
    ensures forall i | 0 <= i < |r| :: r[i] == Field(v.fields[i].key, Client(v.fields[i].value))
    decreases v, 0
  {
    seq(|v.fields|, (i: nat) requires i < |v.fields| => Field(v.fields[i].key, Client(v.fields[i].value)))
  }

  /** The client's form of a document is a document. */
  lemma {:induction false} ClientWellFormed(v: Json)
    requires WellFormed(v)
    ensures WellFormed(Client(v))
  {
    match v
    case Array(items) =>
      forall i | 0 <= i < |items| ensures WellFormed(Client(items[i])) { ClientWellFormed(items[i]); }
    case Object(fields) =>
      forall i | 0 <= i < |fields| ensures WellFormed(Client(fields[i].value)) { ClientWellFormed(fields[i].value); }
      var cf := ClientFields(v);
      FieldLeOrder();
      SortedKeysDistinct(FieldLe, cf);
      SortedPermutation(FieldLe, cf);
      SameElements(SortBy(FieldLe, cf), cf);
      hide SortBy, ClientFields;
      var s := SortBy(FieldLe, cf);
      forall k | 0 <= k < |s| ensures WellFormed(s[k].value) { assert s[k] in cf; }
    case _ =>
  }

  // ------------------------------------------------------------ when it is the backend's

  /** No object, at any depth, has two keys that client and backend list in different orders. */
  ghost predicate OrdersAgree(v: Json) {
    match v
    case Array(items) => forall i | 0 <= i < |items| :: OrdersAgree(items[i])
    case Object(fields) =>
      && (forall i, j | 0 <= i < |fields| && 0 <= j < |fields| ::
            PropertyLe(fields[i].key, fields[j].key) <==> StringLe(fields[i].key, fields[j].key))
      && forall i | 0 <= i < |fields| :: OrdersAgree(fields[i].value)
    case _ => true
  }

  ghost predicate KeysAgree(fields: seq<Field>) {
    forall i, j | 0 <= i < |fields| && 0 <= j < |fields| ::
      PropertyLe(fields[i].key, fields[j].key) <==> StringLe(fields[i].key, fields[j].key)
  }

  /** A list that is in both orders shows them to agree on its keys. */
  lemma {:induction false} BothOrders(fields: seq<Field>, s: seq<Field>)
    requires Ordered(FieldLe, s) && Ordered(KeyLe, s) && forall f | f in fields :: f in s
    ensures KeysAgree(fields)
  {
    PropertyLeOrder();
    StringLeOrder();
    forall i, j | 0 <= i < |fields| && 0 <= j < |fields|
      ensures PropertyLe(fields[i].key, fields[j].key) <==> StringLe(fields[i].key, fields[j].key)
    {
      assert fields[i] in s && fields[j] in s;
      var p :| 0 <= p < |s| && s[p] == fields[i];
      var q :| 0 <= q < |s| && s[q] == fields[j];
      StringLeTotal(s[p].key, s[q].key);
      hide PropertyLe, StringLe;
      if p < q { assert FieldLe(s[p], s[q]) && KeyLe(s[p], s[q]); }
      if q < p { assert FieldLe(s[q], s[p]) && KeyLe(s[q], s[p]); }
    }
  }

  lemma {:induction false} AgreeingOrder(fields: seq<Field>, t: seq<Field>)
    requires KeysAgree(fields) && DistinctKeys(fields) && Ordered(KeyLe, t) && forall f | f in t :: f in fields
    ensures Ordered(FieldLe, t) && Distinguishes(FieldLe, t)
  {
    FieldLeOrder();
    hide PropertyLe, StringLe;
    forall i, j | 0 <= i < j < |t| ensures FieldLe(t[i], t[j]) {
      assert KeyLe(t[i], t[j]) && t[i] in fields && t[j] in fields;
    }
    hide KeyLe;
    forall i, j | 0 <= i < |t| && 0 <= j < |t| && FieldLe(t[i], t[j]) && FieldLe(t[j], t[i]) ensures t[i] == t[j] {
      assert t[i] in fields && t[j] in fields;
    }
  }

  /** One list sorted for the client and for the backend: the same list exactly if the orders agree. */
  lemma {:induction false} SortsAgree(fields: seq<Field>)
    requires DistinctKeys(fields)
    ensures SortBy(FieldLe, fields) == SortBy(KeyLe, fields) <==> KeysAgree(fields)
  {
    FieldLeOrder();
    KeyLeOrder();
    var s, t := SortBy(FieldLe, fields), SortBy(KeyLe, fields);
    SortedPermutation(FieldLe, fields);
    SortedPermutation(KeyLe, fields);
    SameElements(s, fields);
    SameElements(t, fields);
    hide *;
    if s == t { BothOrders(fields, s); }
    if KeysAgree(fields) {
      AgreeingOrder(fields, t);
      OrderedUnique(FieldLe, t, s);
    }
  }

  /** Different child forms show in the sorted fields. */
  lemma {:induction false} FieldsShow(a: seq<Field>, b: seq<Field>)
    requires |a| == |b| && DistinctKeys(a) && forall i | 0 <= i < |a| :: a[i].key == b[i].key
    requires SortBy(FieldLe, a) == SortBy(KeyLe, b)
    ensures a == b
  {
    FieldLeOrder();
    KeyLeOrder();
    SortedPermutation(FieldLe, a);
    SortedPermutation(KeyLe, b);
    SameElements(a, b);
    forall i | 0 <= i < |a| ensures a[i] == b[i] {
      assert a[i] in b;
      var k :| 0 <= k < |b| && b[k] == a[i];
      assert a[k].key == a[i].key;
    }
  }

  lemma {:induction false} ClientObjectAgrees(v: Json)
    requires v.Object? && DistinctKeys(v.fields)
    ensures Client(v) == Canonical(v)
            <==> KeysAgree(v.fields)
                 && forall i | 0 <= i < |v.fields| :: Client(v.fields[i].value) == Canonical(v.fields[i].value)
  {
    var cf, bf := ClientFields(v), CanonicalFields(v);
    assert Client(v) == Object(SortBy(FieldLe, cf)) && Canonical(v) == Object(SortBy(KeyLe, bf));
    forall i | 0 <= i < |v.fields|
      ensures cf[i] == Field(v.fields[i].key, Client(v.fields[i].value))
      ensures bf[i] == Field(v.fields[i].key, Canonical(v.fields[i].value))
    {
    }
    hide *;
    SameKeys(v.fields, cf);
    if SortBy(FieldLe, cf) == SortBy(KeyLe, bf) { FieldsShow(cf, bf); }
    SortsAgree(cf);
    if forall i | 0 <= i < |v.fields| :: Client(v.fields[i].value) == Canonical(v.fields[i].value) { assert cf == bf; }
  }

  lemma {:induction false} SameKeys(a: seq<Field>, b: seq<Field>)
    requires |a| == |b| && forall i | 0 <= i < |a| :: a[i].key == b[i].key
    ensures KeysAgree(a) <==> KeysAgree(b)
    ensures DistinctKeys(a) <==> DistinctKeys(b)
  {
    hide PropertyLe, StringLe;
    if KeysAgree(a) {
      forall i, j | 0 <= i < |b| && 0 <= j < |b|
        ensures PropertyLe(b[i].key, b[j].key) <==> StringLe(b[i].key, b[j].key)
      {
        assert a[i].key == b[i].key && a[j].key == b[j].key;
      }
    }
    if KeysAgree(b) {
      forall i, j | 0 <= i < |a| && 0 <= j < |a|
        ensures PropertyLe(a[i].key, a[j].key) <==> StringLe(a[i].key, a[j].key)
      {
        assert a[i].key == b[i].key && a[j].key == b[j].key;
      }
    }
  }

  /** Client and backend produce the same canonical form exactly if no object has two keys that they
      list in different orders. */
  lemma {:induction false} ClientAgreesExactly(v: Json)
    requires WellFormed(v)
    ensures Client(v) == Canonical(v) <==> OrdersAgree(v)
  {
    match v
    case Array(items) =>
      forall i | 0 <= i < |items| ensures Client(items[i]) == Canonical(items[i]) <==> OrdersAgree(items[i]) {
        ClientAgreesExactly(items[i]);
      }
      ClientItems(v);
      hide Client, Canonical;
    case Object(fields) =>
      forall i | 0 <= i < |fields|
        ensures Client(fields[i].value) == Canonical(fields[i].value) <==> OrdersAgree(fields[i].value)
      {
        ClientAgreesExactly(fields[i].value);
      }
      ClientObjectAgrees(v);
      hide Client, Canonical, PropertyLe, StringLe;
    case _ =>
  }

  lemma {:induction false} ClientItems(v: Json)
    requires v.Array?
    ensures Client(v) == Canonical(v) <==> forall i | 0 <= i < |v.items| :: Client(v.items[i]) == Canonical(v.items[i])
  {
    var a, b := Client(v).items, Canonical(v).items;
    assert |a| == |b| == |v.items|;
    forall i | 0 <= i < |v.items| ensures a[i] == Client(v.items[i]) && b[i] == Canonical(v.items[i]) {}
    hide Client, Canonical;
  }

  /** Every key is spelled in the basic plane and is no array index, at any depth. */
  ghost predicate PlainKeys(v: Json) {
    match v
    case Array(items) => forall i | 0 <= i < |items| :: PlainKeys(items[i])
    case Object(fields) => forall i | 0 <= i < |fields| :: PlainKey(fields[i].key) && PlainKeys(fields[i].value)
    case _ => true
  }

  predicate PlainKey(key: string) {
    !IsIndex(key) && forall i | 0 <= i < |key| :: (key[i] as int) < 0x10000
  }

  lemma {:induction false} BasicPlaneOrder(a: string, b: string)
    requires forall i | 0 <= i < |a| :: (a[i] as int) < 0x10000
    requires forall i | 0 <= i < |b| :: (b[i] as int) < 0x10000
    ensures UnitsLe(Utf16(a), Utf16(b)) <==> StringLe(a, b)
  {
    if a != [] && b != [] {
      BasicPlaneOrder(a[1..], b[1..]);
      assert Utf16(a)[1..] == Utf16(a[1..]) && Utf16(b)[1..] == Utf16(b[1..]);
    }
  }

  /** Keys like those of a metric definition never make the two forms differ. */
  lemma {:induction false} PlainKeysAgree(v: Json)
    requires PlainKeys(v)
    ensures OrdersAgree(v)
  {
    match v
    case Array(items) =>
      forall i | 0 <= i < |items| ensures OrdersAgree(items[i]) { PlainKeysAgree(items[i]); }
    case Object(fields) =>
      forall i | 0 <= i < |fields| ensures OrdersAgree(fields[i].value) { PlainKeysAgree(fields[i].value); }
      forall i, j | 0 <= i < |fields| && 0 <= j < |fields|
        ensures PropertyLe(fields[i].key, fields[j].key) <==> StringLe(fields[i].key, fields[j].key)
      {
        assert PlainKey(fields[i].key) && PlainKey(fields[j].key);
        BasicPlaneOrder(fields[i].key, fields[j].key);
      }
      hide PropertyLe, StringLe, PlainKey;
    case _ =>
  }

  lemma {:induction false} NineAndTen()
    ensures PropertyLe("9", "10") && !PropertyLe("10", "9") && StringLe("10", "9")
  {
    assert "9"[..0] == [] && "10"[..1] == "1" && "1"[..0] == [];
    assert Numerals.Number("9") == 9 && Numerals.Number("1") == 1 && Numerals.Number("10") == 10;
  }

  /** Two keys on which the orders disagree. */
  lemma {:induction false} IndexKeysDisagree(nine: Json, ten: Json)
    requires WellFormed(nine) && WellFormed(ten)
    ensures var v := Object([Field("10", ten), Field("9", nine)]);
            && WellFormed(v) && !OrdersAgree(v)
            && Canonical(v) == Object([Field("10", Canonical(ten)), Field("9", Canonical(nine))])
            && Client(v) == Object([Field("9", Client(nine)), Field("10", Client(ten))])
  {
    var v := Object([Field("10", ten), Field("9", nine)]);
    NineAndTen();
    hide PropertyLe, StringLe, SortBy;
    assert v.fields[0].key == "10" && v.fields[1].key == "9";
    assert CanonicalFields(v) == [Field("10", Canonical(ten)), Field("9", Canonical(nine))];
    assert ClientFields(v) == [Field("10", Client(ten)), Field("9", Client(nine))];
    TwoSorted(KeyLe, Field("10", Canonical(ten)), Field("9", Canonical(nine)));
    TwoSorted(FieldLe, Field("10", Client(ten)), Field("9", Client(nine)));
  }

  lemma {:induction false} TwoSorted<T>(le: (T, T) -> bool, a: T, b: T)
    ensures SortBy(le, [a, b]) == if le(a, b) then [a, b] else [b, a]
  {
    assert [a, b][1..] == [b] && [b][1..] == [];
    assert SortBy(le, [b]) == [b] && Insert(le, a, []) == [a];
  }

  // ------------------------------------------------------------ the recursive procedure

  function KeysOf(fields: seq<Field>): (keys: seq<string>)
    ensures |keys| == |fields| && forall i | 0 <= i < |keys| :: keys[i] == fields[i].key
  {
    seq(|fields|, (i: nat) requires i < |fields| => fields[i].key)
  }

  /** `value[key]`: the position of a key that is present. */
  method IndexOf(fields: seq<Field>, key: string) returns (i: nat)
    requires HasKey(fields, key)
    ensures i < |fields| && fields[i].key == key
  {
    i := 0;
    while fields[i].key != key
      invariant i < |fields| && forall k | 0 <= k < i :: fields[k].key != key
      decreases |fields| - i
    {
      i := i + 1;
    }
  }

  /** `sorted[key] = value` for a new key: an array index goes where its number puts it, any other
      key to the end. */
  function Put(fields: seq<Field>, f: Field): seq<Field> {
    if IsIndex(f.key) then Insert(FieldLe, f, fields) else fields + [f]
  }

  lemma {:induction false} PutKeepsOrder(fields: seq<Field>, f: Field)
    requires Ordered(FieldLe, fields) && forall i | 0 <= i < |fields| :: Utf16Le(fields[i].key, f.key)
    ensures Ordered(FieldLe, Put(fields, f)) && multiset(Put(fields, f)) == multiset(fields) + multiset{f}
  {
    if IsIndex(f.key) {
      FieldLeOrder();
      InsertOrdered(FieldLe, f, fields);
      InsertContents(FieldLe, f, fields);
    } else {
      forall i | 0 <= i < |fields| ensures FieldLe(fields[i], f) {}
    }
  }

  /** The keys are those of the fields, each once. */
  ghost predicate KeysOnce(fields: seq<Field>, keys: seq<string>) {
    && |keys| == |fields|
    && (forall i | 0 <= i < |keys| :: HasKey(fields, keys[i]))
    && (forall i | 0 <= i < |fields| :: fields[i].key in keys)
    && (forall i, j | 0 <= i < j < |keys| :: keys[i] != keys[j])
  }

  lemma {:induction false} SortedKeysAre(fields: seq<Field>)
    requires DistinctKeys(fields)
    ensures var keys := SortBy(Utf16Le, KeysOf(fields));
            Ordered(Utf16Le, keys) && KeysOnce(fields, keys)
  {
    Utf16LeOrder();
    var keys := SortBy(Utf16Le, KeysOf(fields));
    SortedPermutation(Utf16Le, KeysOf(fields));
    SameElements(keys, KeysOf(fields));
    forall i | 0 <= i < |keys| ensures HasKey(fields, keys[i]) {
      assert keys[i] in KeysOf(fields);
      var k :| 0 <= k < |fields| && KeysOf(fields)[k] == keys[i];
    }
    forall i | 0 <= i < |fields| ensures fields[i].key in keys {
      assert KeysOf(fields)[i] in keys;
    }
    forall i, j | 0 <= i < j < |keys| ensures keys[i] != keys[j] {
      if keys[i] == keys[j] {
        DistinctMultiplicity(KeysOf(fields), keys[i]);
        RepeatedMultiplicity(keys, i, j);
      }
    }
  }

  /** What the loop visited, key by key, has the fields of the client's form. */
  lemma {:induction false} VisitedMembers(v: Json, visited: seq<Field>)
    requires v.Object? && DistinctKeys(v.fields) && |visited| == |v.fields|
    requires forall i, j | 0 <= i < j < |visited| :: visited[i].key != visited[j].key
    requires forall i | 0 <= i < |visited| :: HasKey(v.fields, visited[i].key)
    requires forall j | 0 <= j < |v.fields| :: HasKey(visited, v.fields[j].key)
    requires forall i, j | 0 <= i < |visited| && 0 <= j < |v.fields| && visited[i].key == v.fields[j].key ::
               visited[i].value == Client(v.fields[j].value)
    ensures multiset(visited) == multiset(ClientFields(v))
  {
    var cf := ClientFields(v);
    hide Client;
    forall f ensures f in visited <==> f in cf {
      if f in visited {
        var i :| 0 <= i < |visited| && visited[i] == f;
        var j :| 0 <= j < |v.fields| && v.fields[j].key == f.key;
        assert cf[j] == f;
      }
      if f in cf {
        var j :| 0 <= j < |cf| && cf[j] == f;
        var i :| 0 <= i < |visited| && visited[i].key == v.fields[j].key;
        assert visited[i] == f;
      }
    }
    SameFieldSets(visited, cf);
  }

  lemma {:induction false} FilledIsClient(v: Json, filled: seq<Field>)
    requires v.Object? && DistinctKeys(v.fields) && Ordered(FieldLe, filled)
    requires multiset(filled) == multiset(ClientFields(v))
    ensures Client(v) == Object(filled)
  {
    var cf := ClientFields(v);
    FieldLeOrder();
    SortedPermutation(FieldLe, cf);
    hide SortBy, PropertyLe;
    assert Distinguishes(FieldLe, cf);
    var sorted := SortBy(FieldLe, cf);
    SameElements(sorted, cf);
    forall i, j | 0 <= i < |sorted| && 0 <= j < |sorted| && FieldLe(sorted[i], sorted[j]) && FieldLe(sorted[j], sorted[i])
      ensures sorted[i] == sorted[j]
    {
      assert sorted[i] in cf && sorted[j] in cf;
    }
    OrderedUnique(FieldLe, sorted, filled);
  }

  /** Fields visited so far: one for each of the first keys, with the client's form of its value. */
  ghost predicate VisitedTo(fields: seq<Field>, keys: seq<string>, visited: seq<Field>) {
    && |visited| <= |keys|
    && (forall k | 0 <= k < |visited| :: visited[k].key == keys[k])
    && (forall k, j | 0 <= k < |visited| && 0 <= j < |fields| && visited[k].key == fields[j].key ::
          visited[k].value == Client(fields[j].value))
  }

  /** One round of the loop over the sorted keys. */
  lemma {:induction false} PutNext(
      fields: seq<Field>, keys: seq<string>, i: nat, sorted: seq<Field>, visited: seq<Field>, value: Json)
    requires Ordered(Utf16Le, keys) && i < |keys| && |visited| == i
    requires multiset(sorted) == multiset(visited) && Ordered(FieldLe, sorted) && VisitedTo(fields, keys, visited)
    ensures var f := Field(keys[i], value);
            Ordered(FieldLe, Put(sorted, f)) && multiset(Put(sorted, f)) == multiset(visited + [f])
  {
    SameElements(sorted, visited);
    hide Utf16Le, Put, FieldLe;
    forall p | 0 <= p < |sorted| ensures Utf16Le(sorted[p].key, keys[i]) {
      assert sorted[p] in visited;
      var k :| 0 <= k < i && visited[k] == sorted[p];
      assert Utf16Le(keys[k], keys[i]);
    }
    PutKeepsOrder(sorted, Field(keys[i], value));
  }

  lemma {:induction false} VisitNext(fields: seq<Field>, keys: seq<string>, visited: seq<Field>, at: nat, value: Json)
    requires VisitedTo(fields, keys, visited) && |visited| < |keys| && DistinctKeys(fields)
    requires at < |fields| && fields[at].key == keys[|visited|] && value == Client(fields[at].value)
    ensures VisitedTo(fields, keys, visited + [Field(keys[|visited|], value)])
  {
    hide Client;
    forall j | 0 <= j < |fields| && fields[j].key == keys[|visited|] ensures j == at {}
  }

  lemma {:induction false} KeyFound(fields: seq<Field>, keys: seq<string>, i: nat)
    requires KeysOnce(fields, keys) && i < |keys|
    ensures HasKey(fields, keys[i])
  {
  }

  lemma {:induction false} AllVisited(v: Json, keys: seq<string>, visited: seq<Field>)
    requires v.Object? && DistinctKeys(v.fields) && KeysOnce(v.fields, keys)
    requires VisitedTo(v.fields, keys, visited) && |visited| == |keys|
    ensures multiset(visited) == multiset(ClientFields(v))
  {
    hide Client;
    forall j | 0 <= j < |v.fields| ensures HasKey(visited, v.fields[j].key) {
      assert v.fields[j].key in keys;
      var k :| 0 <= k < |keys| && keys[k] == v.fields[j].key;
      assert visited[k].key == v.fields[j].key;
    }
    VisitedMembers(v, visited);
  }

  /** `canonicalize`: walks arrays in place and fills each object key by key in sorted order. */
  method Canonicalize(v: Json) returns (r: Json)
    requires WellFormed(v)
    ensures r == Client(v)
    decreases v
  {
    match v
    case Array(items) =>
      var mapped: seq<Json> := [];
      for i := 0 to |items|
        invariant |mapped| == i && forall k | 0 <= k < i :: mapped[k] == Client(items[k])
      {
        var item := Canonicalize(items[i]);
        mapped := mapped + [item];
      }
      r := Array(mapped);
    case Object(fields) =>
      r := FillInOrder(v);
    case _ =>
      r := v;
  }

  /** The branch of `canonicalize` for objects. */
  method FillInOrder(v: Json) returns (r: Json)
    requires WellFormed(v) && v.Object?
    ensures r == Client(v)
    decreases v, 0
  {
    var fields := v.fields;
    var keys := SortBy(Utf16Le, KeysOf(fields));
    SortedKeysAre(fields);
    var sorted: seq<Field> := [];
    ghost var visited: seq<Field> := [];
    assert DistinctKeys(fields) && (forall j | 0 <= j < |fields| :: WellFormed(fields[j].value));
    assert VisitedTo(fields, keys, visited) && Ordered(FieldLe, sorted);
    hide *;
    for i := 0 to |keys|
      invariant |visited| == i && VisitedTo(fields, keys, visited)
      invariant multiset(sorted) == multiset(visited) && Ordered(FieldLe, sorted)
    {
      KeyFound(fields, keys, i);
      var at := IndexOf(fields, keys[i]);
      var value := Canonicalize(fields[at].value);
      PutNext(fields, keys, i, sorted, visited, value);
      VisitNext(fields, keys, visited, at, value);
      sorted := Put(sorted, Field(keys[i], value));
      visited := visited + [Field(keys[i], value)];
    }
    AllVisited(v, keys, visited);
    FilledIsClient(v, sorted);
    r := Object(sorted);
  }
}
