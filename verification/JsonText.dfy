/** The compact JSON text that is hashed (src/airi/approvals/artifacts.py,
    airi-web/src/utils/canonicalHash.ts): no spaces, and only quotes, backslashes and control
    characters escaped. Different documents have different texts, so the text, and any digest that
    does not collide on the two texts compared, decides the equality of documents. */
module JsonText {
  import opened CanonicalJson
  import opened ClientJson

  // ------------------------------------------------------------ strings

  function HexDigit(d: nat): char
    requires d < 16
  {
    "0123456789abcdef"[d]
  }

  function Code(c: char): string {
    if c == '\"' then "\\\""
    else if c == '\\' then "\\\\"
    else if c == '\n' then "\\n"
    else if c == '\r' then "\\r"
    else if c == '\t' then "\\t"
    else if c == '\U{8}' then "\\b"
    else if c == '\U{c}' then "\\f"
    else if c < ' ' then "\\u00" + [HexDigit(c as nat / 16), HexDigit(c as nat % 16)]
    else [c]
  }

  /** The inside of a quoted string with its closing quote. */
  function Escaped(s: string): string {
    if s == [] then "\"" else Code(s[0]) + Escaped(s[1..])
  }

  function Quoted(s: string): string { "\"" + Escaped(s) }

  lemma {:induction false} Cancel<T>(p: seq<T>, x: seq<T>, y: seq<T>)
    requires p + x == p + y
    ensures x == y
  {
    assert x == (p + x)[|p|..] && y == (p + y)[|p|..];
  }

  lemma {:induction false} Regroup<T>(p: seq<T>, r: seq<T>, x: seq<T>)
    ensures (p + r) + x == p + (r + x)
  {
  }

  /** Taking a common start off two texts. */
  lemma {:induction false} Peel<T>(p: seq<T>, r: seq<T>, x: seq<T>, s: seq<T>, y: seq<T>)
    requires (p + r) + x == (p + s) + y
    ensures r + x == s + y
  {
    Regroup(p, r, x);
    Regroup(p, s, y);
    Cancel(p, r + x, s + y);
  }

  lemma {:induction false} HeadAndRest<T>(s: seq<T>, i: nat)
    requires i < |s|
    ensures s[i..] == [s[i]] + s[i + 1..]
  {
  }

  lemma {:induction false} HexDigits(a: nat, b: nat)
    requires a < 256 && b < 256 && HexDigit(a / 16) == HexDigit(b / 16) && HexDigit(a % 16) == HexDigit(b % 16)
    ensures a == b
  {
    SameHexDigit(a / 16, b / 16);
    SameHexDigit(a % 16, b % 16);
  }

  lemma {:induction false} SameHexDigit(a: nat, b: nat)
    requires a < 16 && b < 16 && HexDigit(a) == HexDigit(b)
    ensures a == b
  {
  }

  /** The first two characters of a code say how long it is and, up to a control code, of what. */
  lemma {:induction false} CodeStarts(c: char)
    ensures Code(c) != [] && Code(c)[0] != '\"'
    ensures (Code(c)[0] == '\\' <==> |Code(c)| > 1) && |Code(c)| in {1, 2, 6}
    ensures |Code(c)| == 1 ==> Code(c) == [c]
    ensures |Code(c)| == 6 <==> |Code(c)| > 1 && Code(c)[1] == 'u'
    ensures |Code(c)| == 6 ==> c < ' ' && Code(c)[4] == HexDigit(c as nat / 16) && Code(c)[5] == HexDigit(c as nat % 16)
    ensures |Code(c)| == 2 ==> Code(c)[1] == match c case '\n' => 'n' case '\r' => 'r' case '\t' => 't'
                                                       case '\U{8}' => 'b' case '\U{c}' => 'f' case _ => c
    ensures |Code(c)| == 2 ==> c in {'\n', '\r', '\t', '\U{8}', '\U{c}', '\"', '\\'}
  {
  }

  lemma {:induction false} CodeInjective(c: char, d: char)
    requires Code(c) == Code(d)
    ensures c == d
  {
    CodeStarts(c);
    CodeStarts(d);
    hide Code, HexDigit;
    if |Code(c)| == 6 { HexDigits(c as nat, d as nat); }
  }

  /** No code starts another, so escaped text is read in one way. */
  lemma {:induction false} CodeUnique(c: char, d: char, x: string, y: string)
    requires Code(c) + x == Code(d) + y
    ensures c == d && x == y
  {
    CodeStarts(c);
    CodeStarts(d);
    hide Code;
    var t := Code(c) + x;
    assert t[0] == Code(c)[0] == Code(d)[0];
    if |Code(c)| > 1 { assert t[1] == Code(c)[1] == Code(d)[1]; }
    assert Code(c) == t[..|Code(c)|] && Code(d) == t[..|Code(d)|];
    CodeInjective(c, d);
    Cancel(Code(c), x, y);
  }

  lemma {:induction false} EscapedStarts(s: string, x: string)
    ensures var t := Escaped(s) + x; t != [] && (t[0] == '\"' <==> s == [])
    ensures s != [] ==> Escaped(s) + x == Code(s[0]) + (Escaped(s[1..]) + x)
  {
    if s != [] {
      CodeStarts(s[0]);
      hide Code;
      Regroup(Code(s[0]), Escaped(s[1..]), x);
    }
  }

  lemma {:induction false} EscapedUnique(s: string, t: string, x: string, y: string)
    requires Escaped(s) + x == Escaped(t) + y
    ensures s == t && x == y
    decreases |s|
  {
    EscapedStarts(s, x);
    EscapedStarts(t, y);
    hide Code;
    if s == [] {
      Cancel("\"", x, y);
    } else {
      hide Escaped;
      CodeUnique(s[0], t[0], Escaped(s[1..]) + x, Escaped(t[1..]) + y);
      EscapedUnique(s[1..], t[1..], x, y);
      assert s == [s[0]] + s[1..] && t == [t[0]] + t[1..];
    }
  }

  lemma {:induction false} QuotedUnique(s: string, t: string, x: string, y: string)
    requires Quoted(s) + x == Quoted(t) + y
    ensures s == t && x == y
  {
    hide Escaped;
    Peel("\"", Escaped(s), x, Escaped(t), y);
    EscapedUnique(s, t, x, y);
  }

  // ------------------------------------------------------------ documents

  /** `json.dumps` with compact separators, and `JSON.stringify`. */
  function Text(v: Json): string
    decreases v, 1, 0
  {
    match v
    case Null => "null"
    case Bool(b) => if b then "true" else "false"
    case Number(numeral) => numeral
    case Str(s) => Quoted(s)
    case Array(_) => "[" + ItemsText(v, 0)
    case Object(_) => "{" + FieldsText(v, 0)
  }

  function Separator(i: nat): string { if i > 0 then "," else "" }

  /** The items from position `i` on, with the closing bracket. */
  function ItemsText(v: Json, i: nat): string
    requires v.Array? && i <= |v.items|
    decreases v, 0, |v.items| - i
  {
    if i == |v.items| then "]" else Separator(i) + (Text(v.items[i]) + ItemsText(v, i + 1))
  }

  function FieldsText(v: Json, i: nat): string
    requires v.Object? && i <= |v.fields|
    decreases v, 0, |v.fields| - i
  {
    if i == |v.fields| then "}"
    else Separator(i) + (Quoted(v.fields[i].key) + (":" + (Text(v.fields[i].value) + FieldsText(v, i + 1))))
  }

  /** What may follow a document inside another one. */
  predicate Ends(x: string) { x == [] || x[0] in {',', ']', '}'} }

  lemma {:induction false} TextStarts(v: Json)
    requires WellFormed(v)
    ensures Text(v) != []
    ensures match v
            case Null => Text(v)[0] == 'n'
            case Bool(b) => Text(v)[0] == if b then 't' else 'f'
            case Number(_) => '0' <= Text(v)[0] <= '9' || Text(v)[0] == '-'
            case Str(_) => Text(v)[0] == '\"'
            case Array(_) => Text(v)[0] == '['
            case Object(_) => Text(v)[0] == '{'
  {
  }

  lemma {:induction false} SharedCharacter(a: string, b: string, x: string, y: string)
    requires a + x == b + y && |a| < |b|
    ensures x != [] && x[0] == b[|a|]
  {
    assert (a + x)[|a|] == x[0] && (b + y)[|a|] == b[|a|];
  }

  lemma {:induction false} SameLength(a: string, b: string, x: string, y: string)
    requires IsNumeral(a) && IsNumeral(b) && Ends(x) && Ends(y) && a + x == b + y
    ensures |a| == |b|
  {
    if |a| < |b| {
      SharedCharacter(a, b, x, y);
    } else if |b| < |a| {
      SharedCharacter(b, a, y, x);
    }
  }

  lemma {:induction false} NumeralUnique(a: string, b: string, x: string, y: string)
    requires IsNumeral(a) && IsNumeral(b) && Ends(x) && Ends(y) && a + x == b + y
    ensures a == b && x == y
  {
    SameLength(a, b, x, y);
    var t := a + x;
    assert a == t[..|a|] && b == t[..|b|];
    Cancel(a, x, y);
  }

  /** A closing bracket comes first exactly where the items end, and a comma before every later one. */
  lemma {:induction false} ItemsStart(v: Json, i: nat, x: string)
    requires WellFormed(v) && v.Array? && i <= |v.items|
    ensures ItemsText(v, i) != [] && (ItemsText(v, i)[0] == ']' <==> i == |v.items|)
    ensures (ItemsText(v, i) + x)[0] == ItemsText(v, i)[0] && (i > 0 ==> Ends(ItemsText(v, i) + x))
    ensures i < |v.items| ==> ItemsText(v, i) == Separator(i) + (Text(v.items[i]) + ItemsText(v, i + 1))
  {
    if i < |v.items| {
      TextStarts(v.items[i]);
      hide Text;
      assert (Text(v.items[i]) + ItemsText(v, i + 1))[0] == Text(v.items[i])[0];
    }
  }

  lemma {:induction false} FieldsStart(v: Json, i: nat, x: string)
    requires v.Object? && i <= |v.fields|
    ensures FieldsText(v, i) != [] && (FieldsText(v, i)[0] == '}' <==> i == |v.fields|)
    ensures (FieldsText(v, i) + x)[0] == FieldsText(v, i)[0] && (i > 0 ==> Ends(FieldsText(v, i) + x))
    ensures i < |v.fields| ==> FieldsText(v, i) == Separator(i) + FieldText(v, i)
  {
    hide Escaped, Text;
  }

  /** The field at a position and everything after it. */
  function FieldText(v: Json, i: nat): string
    requires v.Object? && i < |v.fields|
  {
    Quoted(v.fields[i].key) + (":" + (Text(v.fields[i].value) + FieldsText(v, i + 1)))
  }

  /** Text is read in one way: a document, and then what follows it. */
  lemma {:induction false} TextUnique(a: Json, b: Json, x: string, y: string)
    requires WellFormed(a) && WellFormed(b) && Ends(x) && Ends(y) && Text(a) + x == Text(b) + y
    ensures a == b && x == y
    decreases a, 2, 0
  {
    SameKind(a, b, x, y);
    match a
    case Number(numeral) => NumeralUnique(numeral, b.numeral, x, y);
    case Str(s) => QuotedUnique(s, b.s, x, y);
    case Array(items) => ArrayUnique(a, b, x, y);
    case Object(fields) => ObjectUnique(a, b, x, y);
    case _ => Cancel(Text(a), x, y);
  }

  /** The first character says what kind of document it is. */
  lemma {:induction false} SameKind(a: Json, b: Json, x: string, y: string)
    requires WellFormed(a) && WellFormed(b) && Text(a) + x == Text(b) + y
    ensures match a case Null => b == a case Bool(_) => b == a case Number(_) => b.Number? case Str(_) => b.Str?
                    case Array(_) => b.Array? case Object(_) => b.Object?
  {
    TextStarts(a);
    TextStarts(b);
    hide Text, WellFormed;
    assert (Text(a) + x)[0] == Text(a)[0] && (Text(b) + y)[0] == Text(b)[0];
  }

  lemma {:induction false} ArrayUnique(a: Json, b: Json, x: string, y: string)
    requires a.Array? && b.Array? && WellFormed(a) && WellFormed(b) && Ends(x) && Ends(y) && Text(a) + x == Text(b) + y
    ensures a == b && x == y
    decreases a, 1, 0
  {
    assert Text(a) == "[" + ItemsText(a, 0) && Text(b) == "[" + ItemsText(b, 0);
    hide Text, ItemsText, WellFormed;
    Peel("[", ItemsText(a, 0), x, ItemsText(b, 0), y);
    ItemsUnique(a, b, 0, x, y);
    assert a.items[0..] == a.items && b.items[0..] == b.items;
  }

  lemma {:induction false} ObjectUnique(a: Json, b: Json, x: string, y: string)
    requires a.Object? && b.Object? && WellFormed(a) && WellFormed(b) && Ends(x) && Ends(y)
    requires Text(a) + x == Text(b) + y
    ensures a == b && x == y
    decreases a, 1, 0
  {
    assert Text(a) == "{" + FieldsText(a, 0) && Text(b) == "{" + FieldsText(b, 0);
    hide Text, FieldsText, WellFormed;
    Peel("{", FieldsText(a, 0), x, FieldsText(b, 0), y);
    FieldsUnique(a, b, 0, x, y);
    assert a.fields[0..] == a.fields && b.fields[0..] == b.fields;
  }

  lemma {:induction false} ItemsUnique(a: Json, b: Json, i: nat, x: string, y: string)
    requires a.Array? && b.Array? && WellFormed(a) && WellFormed(b) && i <= |a.items| && i <= |b.items|
    requires ItemsText(a, i) + x == ItemsText(b, i) + y
    ensures a.items[i..] == b.items[i..] && x == y
    decreases a, 0, |a.items| - i
  {
    ItemsStart(a, i, x);
    ItemsStart(b, i, y);
    if i == |a.items| {
      Cancel("]", x, y);
    } else {
      hide ItemsText, Text, Separator;
      var p, q := ItemsText(a, i + 1), ItemsText(b, i + 1);
      Peel(Separator(i), Text(a.items[i]) + p, x, Text(b.items[i]) + q, y);
      Regroup(Text(a.items[i]), p, x);
      Regroup(Text(b.items[i]), q, y);
      ItemsStart(a, i + 1, x);
      ItemsStart(b, i + 1, y);
      TextUnique(a.items[i], b.items[i], p + x, q + y);
      ItemsUnique(a, b, i + 1, x, y);
      HeadAndRest(a.items, i);
      HeadAndRest(b.items, i);
    }
  }

  lemma {:induction false} FieldsUnique(a: Json, b: Json, i: nat, x: string, y: string)
    requires a.Object? && b.Object? && WellFormed(a) && WellFormed(b) && i <= |a.fields| && i <= |b.fields|
    requires FieldsText(a, i) + x == FieldsText(b, i) + y
    ensures a.fields[i..] == b.fields[i..] && x == y
    decreases a, 0, |a.fields| - i
  {
    FieldsStart(a, i, x);
    FieldsStart(b, i, y);
    if i == |a.fields| {
      Cancel("}", x, y);
    } else {
      hide FieldsText, Text, Separator, FieldText;
      Peel(Separator(i), FieldText(a, i), x, FieldText(b, i), y);
      KeyUnique(a, b, i, x, y);
      FieldsStart(a, i + 1, x);
      FieldsStart(b, i + 1, y);
      hide Ends;
      TextUnique(a.fields[i].value, b.fields[i].value, FieldsText(a, i + 1) + x, FieldsText(b, i + 1) + y);
      FieldsUnique(a, b, i + 1, x, y);
      HeadAndRest(a.fields, i);
      HeadAndRest(b.fields, i);
    }
  }

  /** The next field is read in one way up to its value. */
  lemma {:induction false} KeyUnique(a: Json, b: Json, i: nat, x: string, y: string)
    requires a.Object? && b.Object? && i < |a.fields| && i < |b.fields| && FieldText(a, i) + x == FieldText(b, i) + y
    ensures a.fields[i].key == b.fields[i].key
    ensures Text(a.fields[i].value) + (FieldsText(a, i + 1) + x) == Text(b.fields[i].value) + (FieldsText(b, i + 1) + y)
  {
    hide Quoted, Text, FieldsText;
    var k, l := Quoted(a.fields[i].key), Quoted(b.fields[i].key);
    var r, s := Text(a.fields[i].value) + FieldsText(a, i + 1), Text(b.fields[i].value) + FieldsText(b, i + 1);
    assert FieldText(a, i) == k + (":" + r) && FieldText(b, i) == l + (":" + s);
    hide FieldText;
    Regroup(k, ":" + r, x);
    Regroup(l, ":" + s, y);
    QuotedUnique(a.fields[i].key, b.fields[i].key, (":" + r) + x, (":" + s) + y);
    Peel(":", r, x, s, y);
    Regroup(Text(a.fields[i].value), FieldsText(a, i + 1), x);
    Regroup(Text(b.fields[i].value), FieldsText(b, i + 1), y);
  }

  // ------------------------------------------------------------ hashes

  /** The text that is hashed decides JSON equality. */
  lemma {:induction false} TextDecidesEquality(a: Json, b: Json)
    requires WellFormed(a) && WellFormed(b)
    ensures Text(Canonical(a)) == Text(Canonical(b)) <==> Same(a, b)
  {
    CanonicalIsSame(a);
    CanonicalIsSame(b);
    CanonicalDecidesEquality(a, b);
    hide *;
    if Text(Canonical(a)) == Text(Canonical(b)) { SameText(Canonical(a), Canonical(b)); }
  }

  lemma {:induction false} SameText(a: Json, b: Json)
    requires WellFormed(a) && WellFormed(b) && Text(a) == Text(b)
    ensures a == b
  {
    hide Text, WellFormed;
    assert Text(a) + [] == Text(a) && Text(b) + [] == Text(b);
    TextUnique(a, b, [], []);
  }

  /** `canonical_hash`. */
  function CanonicalHash(v: Json, digest: string -> string): string { digest(Text(Canonical(v))) }

  /** Two documents hash equal exactly if they are equal, unless the digest collides on their texts. */
  lemma {:induction false} HashDecidesEquality(a: Json, b: Json, digest: string -> string)
    requires WellFormed(a) && WellFormed(b)
    requires CanonicalHash(a, digest) == CanonicalHash(b, digest) ==> Text(Canonical(a)) == Text(Canonical(b))
    ensures CanonicalHash(a, digest) == CanonicalHash(b, digest) <==> Same(a, b)
  {
    TextDecidesEquality(a, b);
    hide Canonical, Same, Text;
  }

  /** `canonicalHash` of the web client. */
  function ClientHash(v: Json, digest: string -> string): string { digest(Text(Client(v))) }

  lemma {:induction false} ClientTextAgreesExactly(v: Json)
    requires WellFormed(v)
    ensures Text(Client(v)) == Text(Canonical(v)) <==> OrdersAgree(v)
  {
    ClientAgreesExactly(v);
    ClientWellFormed(v);
    CanonicalIsSame(v);
    hide *;
    if Text(Client(v)) == Text(Canonical(v)) { SameText(Client(v), Canonical(v)); }
  }

  /** Client and backend hash a document equal exactly if no object in it has two keys that they list
      in different orders, unless the digest collides on the two texts. */
  lemma {:induction false} ClientHashAgreesExactly(v: Json, digest: string -> string)
    requires WellFormed(v)
    requires ClientHash(v, digest) == CanonicalHash(v, digest) ==> Text(Client(v)) == Text(Canonical(v))
    ensures ClientHash(v, digest) == CanonicalHash(v, digest) <==> OrdersAgree(v)
  {
    ClientTextAgreesExactly(v);
    hide Canonical, Client, Text, OrdersAgree;
  }

  // ------------------------------------------------------------ the text, spelled out

  /** A character stands for itself, except that quotes, backslashes and five control characters are
      escaped by a letter and the other control characters by their number. */
  lemma {:induction false} CodeSpelled(c: char)
    ensures |Code(c)| == 1 <==> c >= ' ' && c != '\"' && c != '\\'
    ensures |Code(c)| == 1 ==> Code(c) == [c]
    ensures |Code(c)| == 2 <==> c in {'\"', '\\', '\n', '\r', '\t', '\U{8}', '\U{c}'}
    ensures |Code(c)| == 2 ==>
              && Code(c)[0] == '\\'
              && (c in {'\"', '\\'} ==> Code(c)[1] == c)
              && (c == '\n' <==> Code(c)[1] == 'n') && (c == '\r' <==> Code(c)[1] == 'r') && (c == '\t' <==> Code(c)[1] == 't')
              && (c == '\U{8}' <==> Code(c)[1] == 'b') && (c == '\U{c}' <==> Code(c)[1] == 'f')
    ensures |Code(c)| != 1 && |Code(c)| != 2 ==>
              && |Code(c)| == 6 && Code(c)[..4] == "\\u00"
              && Code(c)[4] == (if c < '\U{10}' then '0' else '1') && Code(c)[5] == "0123456789abcdef"[c as nat % 16]
  {
  }

  function Joined(parts: seq<string>): string {
    if parts == [] then "" else if |parts| == 1 then parts[0] else parts[0] + ("," + Joined(parts[1..]))
  }

  function ItemTexts(v: Json, i: nat): seq<string>
    requires v.Array? && i <= |v.items|
    decreases |v.items| - i
  {
    if i == |v.items| then [] else [Text(v.items[i])] + ItemTexts(v, i + 1)
  }

  function FieldTexts(v: Json, i: nat): seq<string>
    requires v.Object? && i <= |v.fields|
    decreases |v.fields| - i
  {
    if i == |v.fields| then []
    else [Quoted(v.fields[i].key) + (":" + Text(v.fields[i].value))] + FieldTexts(v, i + 1)
  }

  lemma {:induction false} JoinedNext(part: string, rest: seq<string>)
    ensures Joined([part] + rest) == part + (if rest == [] then "" else "," + Joined(rest))
  {
    assert ([part] + rest)[1..] == rest;
    assert part + "" == part;
  }

  lemma {:induction false} ItemsJoined(v: Json, i: nat)
    requires v.Array? && i <= |v.items|
    ensures ItemTexts(v, i) == [] <==> i == |v.items|
    ensures ItemsText(v, i) == (if i == |v.items| then "" else Separator(i) + Joined(ItemTexts(v, i))) + "]"
    decreases |v.items| - i
  {
    if i < |v.items| {
      ItemsJoined(v, i + 1);
      JoinedNext(Text(v.items[i]), ItemTexts(v, i + 1));
      hide Joined, Text;
      assert Separator(i + 1) == ",";
      Regrouped(Separator(i), Text(v.items[i]), if i + 1 == |v.items| then "" else "," + Joined(ItemTexts(v, i + 1)), "]");
    }
  }

  lemma {:induction false} FieldsJoined(v: Json, i: nat)
    requires v.Object? && i <= |v.fields|
    ensures FieldTexts(v, i) == [] <==> i == |v.fields|
    ensures FieldsText(v, i) == (if i == |v.fields| then "" else Separator(i) + Joined(FieldTexts(v, i))) + "}"
    decreases |v.fields| - i
  {
    if i < |v.fields| {
      FieldsJoined(v, i + 1);
      var part := Quoted(v.fields[i].key) + (":" + Text(v.fields[i].value));
      JoinedNext(part, FieldTexts(v, i + 1));
      hide Joined, Text, Quoted;
      assert Separator(i + 1) == ",";
      var rest := if i + 1 == |v.fields| then "" else "," + Joined(FieldTexts(v, i + 1));
      FieldRegrouped(Quoted(v.fields[i].key), ":", Text(v.fields[i].value), rest + "}");
      Regrouped(Separator(i), part, rest, "}");
    }
  }

  lemma {:induction false} Regrouped(a: string, b: string, c: string, d: string)
    ensures a + (b + (c + d)) == (a + (b + c)) + d
  {
  }

  lemma {:induction false} FieldRegrouped(key: string, colon: string, value: string, rest: string)
    ensures key + (colon + (value + rest)) == (key + (colon + value)) + rest
  {
  }

  /** Arrays and objects are their parts with commas between them and nothing else, in brackets or
      braces, a field being its quoted key, a colon and its value; the rest is spelled as usual. */
  lemma {:induction false} TextSpelled(v: Json)
    ensures v == Null ==> Text(v) == "null"
    ensures v == Bool(true) ==> Text(v) == "true"
    ensures v == Bool(false) ==> Text(v) == "false"
    ensures v.Number? ==> Text(v) == v.numeral
    ensures v.Str? ==> Text(v) == "\"" + Escaped(v.s)
    ensures v.Array? ==> Text(v) == "[" + (Joined(ItemTexts(v, 0)) + "]")
    ensures v.Object? ==> Text(v) == "{" + (Joined(FieldTexts(v, 0)) + "}")
  {
    if v.Array? {
      assert Text(v) == "[" + ItemsText(v, 0);
      hide Text, FieldsText, Joined;
      ItemsJoined(v, 0);
      if v.items != [] { assert Separator(0) + Joined(ItemTexts(v, 0)) == Joined(ItemTexts(v, 0)); }
    }
    if v.Object? {
      assert Text(v) == "{" + FieldsText(v, 0);
      hide Text, ItemsText, Joined;
      FieldsJoined(v, 0);
      if v.fields != [] { assert Separator(0) + Joined(FieldTexts(v, 0)) == Joined(FieldTexts(v, 0)); }
    }
  }
}
