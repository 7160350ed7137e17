/** The synthetic two-hop relationship fixture (src/airi/infrastructure/relation_fixture.py),
    for any number `n` of enterprises in place of the constant 120, and the documented
    closed form of the COUNT DISTINCT query over its two tables. */
module RelationFixture {
  import opened Numerals

  datatype BaseRow = BaseRow(enterpriseId: string, personId: string, relationType: string)
  datatype JoinedRow = JoinedRow(personId: string, relatedId: string, relationType: string)
  datatype LabeledRow = LabeledRow(enterpriseId: string, badFlag: nat, dt: string)

  const RELATION_PARTITION := "20260911"
  const ENTERPRISES := 120
  const ISOLATED_ENTERPRISE := "91310000SYNTH9000"

  // ------------------------------------------------------------ identifiers

  /** Left-pads with zeros to four characters, as the format specification `04d` does. */
  function Pad(s: string): string
    decreases 4 - |s|
  {
    if |s| < 4 then Pad("0" + s) else s
  }

  function EnterpriseId(i: nat): string { "91310000SYNTH" + Pad(Decimal(i)) }

  function PersonId(i: nat): string { "SYNTHPERSON" + Pad(Decimal(i)) }

  function HubPersonId(i: nat): string { "SYNTHPERSONH" + Pad(Decimal(i)) }

  lemma {:induction false} NumberIgnoresZero(s: string)
    requires IsDigits(s)
    ensures IsDigits("0" + s) && Number("0" + s) == Number(s)
  {
    var z := "0" + s;
    if s == [] {
      assert z[..0] == [];
    } else {
      NumberIgnoresZero(s[..|s| - 1]);
      assert z[..|z| - 1] == "0" + s[..|s| - 1];
    }
  }

  lemma {:induction false} NumberIgnoresPadding(s: string)
    requires IsDigits(s)
    ensures IsDigits(Pad(s)) && Number(Pad(s)) == Number(s) && |Pad(s)| >= 4
    decreases 4 - |s|
  {
    if |s| < 4 {
      NumberIgnoresZero(s);
      NumberIgnoresPadding("0" + s);
    }
  }

  lemma {:induction false} PaddedInjective(prefix: string, i: nat, j: nat)
    requires prefix + Pad(Decimal(i)) == prefix + Pad(Decimal(j))
    ensures i == j
  {
    assert (prefix + Pad(Decimal(i)))[|prefix|..] == Pad(Decimal(i));
    assert (prefix + Pad(Decimal(j)))[|prefix|..] == Pad(Decimal(j));
    NumberOfDecimal(i);
    NumberOfDecimal(j);
    NumberIgnoresPadding(Decimal(i));
    NumberIgnoresPadding(Decimal(j));
  }

  /** The three identifier families are injective and persons never collide with hub persons. */
  lemma {:induction false} IdentifiersDistinct(i: nat, j: nat)
    ensures EnterpriseId(i) == EnterpriseId(j) <==> i == j
    ensures PersonId(i) == PersonId(j) <==> i == j
    ensures HubPersonId(i) == HubPersonId(j) <==> i == j
    ensures PersonId(i) != HubPersonId(j)
  {
    if EnterpriseId(i) == EnterpriseId(j) { PaddedInjective("91310000SYNTH", i, j); }
    if PersonId(i) == PersonId(j) { PaddedInjective("SYNTHPERSON", i, j); }
    if HubPersonId(i) == HubPersonId(j) { PaddedInjective("SYNTHPERSONH", i, j); }
    NumberOfDecimal(i);
    NumberIgnoresPadding(Decimal(i));
    assert PersonId(i)[11] == Pad(Decimal(i))[0];
    assert HubPersonId(j)[11] == 'H';
  }

  // ------------------------------------------------------------ the two tables

  /** The enterprise `offset` places after `i`, wrapping around after `n`. */
  function Target(i: nat, offset: nat, n: nat): nat
    requires n > 0 && i + offset > 0
  {
    (i + offset - 1) % n + 1
  }

  function ShareholderRows(i: nat, offsets: nat, n: nat): seq<JoinedRow>
    requires n > 0
  {
    if offsets == 0 then []
    else ShareholderRows(i, offsets - 1, n) + [JoinedRow(PersonId(i), EnterpriseId(Target(i, offsets, n)), "shareholder")]
  }

  function BaseOf(i: nat): seq<BaseRow> {
    [BaseRow(EnterpriseId(i), PersonId(i), "controller")]
    + (if i % 4 == 0 then [BaseRow(EnterpriseId(i), HubPersonId(i), "shareholder")] else [])
  }

  function JoinedOf(i: nat, n: nat): seq<JoinedRow>
    requires n > 0
  {
    ShareholderRows(i, i % 5, n)
    + (if i % 4 == 0 then [JoinedRow(HubPersonId(i), EnterpriseId(i % n + 1), "shareholder")] else [])
    + (if i % 7 == 0 then [JoinedRow(PersonId(i), EnterpriseId(i), "controller")] else [])
    + (if i % 3 == 0 && i % 5 > 0 then [JoinedRow(PersonId(i), EnterpriseId(Target(i, 1, n)), "shareholder")] else [])
  }

  /** Rows contributed by the first `m` of `n` enterprises. */
  function Base(m: nat): seq<BaseRow> {
    if m == 0 then [] else Base(m - 1) + BaseOf(m)
  }

  function Joined(m: nat, n: nat): seq<JoinedRow>
    requires m <= n
  {
    if m == 0 then [] else Joined(m - 1, n) + JoinedOf(m, n)
  }

  /** One pass of the loop: the rows that enterprise `index` contributes. */
  method RelationRows(index: nat, n: nat) returns (base: seq<BaseRow>, joined: seq<JoinedRow>)
    requires n > 0
    ensures base == BaseOf(index) && joined == JoinedOf(index, n)
  {
    hide EnterpriseId, PersonId, HubPersonId;
    var enterprise, person := EnterpriseId(index), PersonId(index);
    base, joined := [BaseRow(enterprise, person, "controller")], [];
    var targets: seq<string> := [];
    for offset := 1 to index % 5 + 1
      invariant |targets| == offset - 1
      invariant targets != [] ==> targets[0] == EnterpriseId(Target(index, 1, n))
      invariant joined == ShareholderRows(index, offset - 1, n)
    {
      var target := EnterpriseId((index + offset - 1) % n + 1);
      targets := targets + [target];
      joined := joined + [JoinedRow(person, target, "shareholder")];
    }
    if index % 4 == 0 {
      base := base + [BaseRow(enterprise, HubPersonId(index), "shareholder")];
      joined := joined + [JoinedRow(HubPersonId(index), EnterpriseId(index % n + 1), "shareholder")];
    }
    if index % 7 == 0 {
      joined := joined + [JoinedRow(person, enterprise, "controller")];
    }
    if index % 3 == 0 && targets != [] {
      joined := joined + [JoinedRow(person, targets[0], "shareholder")];
    }
  }

  /** `relation_tables` for `n` enterprises. */
  method RelationTables(n: nat) returns (base: seq<BaseRow>, joined: seq<JoinedRow>)
    ensures base == Base(n) && joined == Joined(n, n)
  {
    base, joined := [], [];
    hide BaseOf, JoinedOf, EnterpriseId, PersonId, HubPersonId;
    for index := 1 to n + 1
      invariant base == Base(index - 1) && joined == Joined(index - 1, n)
    {
      var baseRows, joinedRows := RelationRows(index, n);
      base, joined := base + baseRows, joined + joinedRows;
    }
  }

  // ------------------------------------------------------------ the query

  /** Distinct non-self targets on the two-hop path of one enterprise. */
  function Related(base: seq<BaseRow>, joined: seq<JoinedRow>, enterprise: string): set<string> {
    set b, j | b in base && j in joined
               && b.enterpriseId == enterprise && b.personId == j.personId && j.relatedId != b.enterpriseId
      :: j.relatedId
  }

  /** INNER JOIN on person, WHERE related <> enterprise, COUNT(DISTINCT related) GROUP BY enterprise. */
  function QueryResult(base: seq<BaseRow>, joined: seq<JoinedRow>): map<string, nat> {
    map b | b in base && Related(base, joined, b.enterpriseId) != {}
      :: b.enterpriseId := |Related(base, joined, b.enterpriseId)|
  }

  /** The documented closed form: t = i mod 5, bumped to 1 when t = 0 and i is a multiple of 4. */
  function Expected(i: nat): nat {
    if i % 5 == 0 && i % 4 == 0 then 1 else i % 5
  }

  ghost predicate ClosedForm(n: nat) {
    forall i | 1 <= i <= n :: |Related(Base(n), Joined(n, n), EnterpriseId(i))| == Expected(i)
  }

  // ------------------------------------------------------------ which rows belong to an enterprise

  lemma {:induction false} BaseMembers(m: nat, b: BaseRow)
    ensures b in Base(m) <==> exists i :: 1 <= i <= m && b in BaseOf(i)
  {
    hide BaseOf;
    if m > 0 { BaseMembers(m - 1, b); }
  }

  lemma {:induction false} JoinedMembers(m: nat, n: nat, j: JoinedRow)
    requires m <= n
    ensures j in Joined(m, n) <==> exists i :: 1 <= i <= m && j in JoinedOf(i, n)
  {
    hide JoinedOf;
    if m > 0 { JoinedMembers(m - 1, n, j); }
  }

  lemma {:induction false} ShareholderMembers(i: nat, offsets: nat, n: nat, j: JoinedRow)
    requires n > 0
    ensures j in ShareholderRows(i, offsets, n)
            <==> exists k :: 1 <= k <= offsets && j == JoinedRow(PersonId(i), EnterpriseId(Target(i, k, n)), "shareholder")
  {
    if offsets > 0 { ShareholderMembers(i, offsets - 1, n, j); }
  }

  /** Persons who own rows of enterprise `i` in the joined table. */
  predicate Owner(person: string, i: nat) { person == PersonId(i) || (i % 4 == 0 && person == HubPersonId(i)) }

  lemma {:induction false} JoinedOwner(i: nat, n: nat, j: JoinedRow)
    requires n > 0 && j in JoinedOf(i, n)
    ensures Owner(j.personId, i)
  {
    ShareholderMembers(i, i % 5, n, j);
  }

  lemma {:induction false} OwnerUnique(person: string, i: nat, k: nat)
    requires Owner(person, i) && Owner(person, k)
    ensures i == k
  {
    IdentifiersDistinct(i, k);
    IdentifiersDistinct(k, i);
  }

  /** Two-hop paths of enterprise `i` run through its own rows only. */
  lemma {:induction false} RelatedLocal(n: nat, i: nat, x: string)
    requires 1 <= i <= n
    ensures x in Related(Base(n), Joined(n, n), EnterpriseId(i))
            <==> x != EnterpriseId(i) && exists j :: j in JoinedOf(i, n) && j.relatedId == x
  {
    hide EnterpriseId, PersonId, HubPersonId, Related, JoinedOf;
    if x in Related(Base(n), Joined(n, n), EnterpriseId(i)) { var j := RelatedByOwnRow(n, i, x); }
    if x != EnterpriseId(i) && exists j :: j in JoinedOf(i, n) && j.relatedId == x {
      var j :| j in JoinedOf(i, n) && j.relatedId == x;
      OwnRowRelates(n, i, j);
    }
  }

  lemma {:induction false} RelatedByOwnRow(n: nat, i: nat, x: string) returns (j: JoinedRow)
    requires 1 <= i <= n && x in Related(Base(n), Joined(n, n), EnterpriseId(i))
    ensures x != EnterpriseId(i) && j in JoinedOf(i, n) && j.relatedId == x
  {
    hide EnterpriseId, PersonId, HubPersonId, Base, Joined, JoinedOf;
    var b: BaseRow;
    b, j :| b in Base(n) && j in Joined(n, n) && b.enterpriseId == EnterpriseId(i)
            && b.personId == j.personId && j.relatedId != b.enterpriseId && j.relatedId == x;
    BaseMembers(n, b);
    JoinedMembers(n, n, j);
    var p :| 1 <= p <= n && b in BaseOf(p);
    var q :| 1 <= q <= n && j in JoinedOf(q, n);
    IdentifiersDistinct(p, i);
    JoinedOwner(q, n, j);
    OwnerUnique(j.personId, i, q);
  }

  lemma {:induction false} OwnRowRelates(n: nat, i: nat, j: JoinedRow)
    requires 1 <= i <= n && j in JoinedOf(i, n) && j.relatedId != EnterpriseId(i)
    ensures j.relatedId in Related(Base(n), Joined(n, n), EnterpriseId(i))
  {
    JoinedOwner(i, n, j);
    JoinedMembers(n, n, j);
    hide EnterpriseId, PersonId, HubPersonId, Base, Joined, JoinedOf;
    var b := if j.personId == PersonId(i) then BaseRow(EnterpriseId(i), PersonId(i), "controller")
             else BaseRow(EnterpriseId(i), HubPersonId(i), "shareholder");
    assert b in BaseOf(i);
    BaseMembers(n, b);
  }

  /** Targets reached from `i`: its offsets, and its first successor when it has a hub. */
  lemma {:induction false} RelatedTargets(n: nat, i: nat, x: string)
    requires 1 <= i <= n
    ensures x in Related(Base(n), Joined(n, n), EnterpriseId(i))
            <==> x != EnterpriseId(i)
                 && ((exists k :: 1 <= k <= i % 5 && x == EnterpriseId(Target(i, k, n)))
                     || (i % 4 == 0 && x == EnterpriseId(Target(i, 1, n))))
  {
    RelatedLocal(n, i, x);
    hide Related, Base, Joined, EnterpriseId, PersonId, HubPersonId, Target;
    if exists j :: j in JoinedOf(i, n) && j.relatedId == x {
      var j :| j in JoinedOf(i, n) && j.relatedId == x;
      ShareholderMembers(i, i % 5, n, j);
    }
    if exists k :: 1 <= k <= i % 5 && x == EnterpriseId(Target(i, k, n)) {
      var k :| 1 <= k <= i % 5 && x == EnterpriseId(Target(i, k, n));
      var j := JoinedRow(PersonId(i), x, "shareholder");
      ShareholderMembers(i, i % 5, n, j);
      assert j in JoinedOf(i, n);
    }
    if i % 4 == 0 && x == EnterpriseId(Target(i, 1, n)) {
      assert JoinedRow(HubPersonId(i), x, "shareholder") in JoinedOf(i, n);
    }
  }

  // ------------------------------------------------------------ counting targets

  function TargetIds(i: nat, offsets: nat, n: nat): set<string>
    requires n > 0
  {
    if offsets == 0 then {} else TargetIds(i, offsets - 1, n) + {EnterpriseId(Target(i, offsets, n))}
  }

  lemma {:induction false} TargetIdMembers(i: nat, offsets: nat, n: nat, x: string)
    requires n > 0
    ensures x in TargetIds(i, offsets, n) <==> exists k :: 1 <= k <= offsets && x == EnterpriseId(Target(i, k, n))
  {
    if offsets > 0 { TargetIdMembers(i, offsets - 1, n, x); }
  }

  lemma {:induction false} Remainder(a: nat, n: nat)
    requires a < n
    ensures a % n == a && (n + a) % n == a
  {
  }

  lemma {:induction false} WrapOnce(i: nat, k: nat, n: nat)
    requires 1 <= i <= n && 1 <= k < n
    ensures Target(i, k, n) == if i + k <= n then i + k else i + k - n
  {
    if i + k <= n {
      Remainder(i + k - 1, n);
    } else {
      Remainder(i + k - 1 - n, n);
      assert n + (i + k - 1 - n) == i + k - 1;
    }
  }

  lemma {:induction false} TargetIdCount(i: nat, offsets: nat, n: nat)
    requires 1 <= i <= n && offsets < n
    ensures |TargetIds(i, offsets, n)| == offsets
    ensures EnterpriseId(i) !in TargetIds(i, offsets, n)
  {
    if offsets > 0 {
      TargetIdCount(i, offsets - 1, n);
      var t := Target(i, offsets, n);
      WrapOnce(i, offsets, n);
      TargetIsNew(i, offsets, n);
      hide EnterpriseId, Target;
      IdentifiersDistinct(i, t);
    }
  }

  /** The next offset wraps to an enterprise that no smaller one reached. */
  lemma {:induction false} TargetIsNew(i: nat, offsets: nat, n: nat)
    requires 1 <= i <= n && 0 < offsets < n
    ensures EnterpriseId(Target(i, offsets, n)) !in TargetIds(i, offsets - 1, n)
  {
    hide EnterpriseId, TargetIds;
    var t := Target(i, offsets, n);
    TargetIdMembers(i, offsets - 1, n, EnterpriseId(t));
    forall k: nat | 1 <= k <= offsets - 1 ensures EnterpriseId(t) != EnterpriseId(Target(i, k, n)) {
      WrapOnce(i, offsets, n);
      WrapOnce(i, k, n);
      hide Target;
      IdentifiersDistinct(t, Target(i, k, n));
    }
  }

  /** Despite hub, self-loop and duplicate rows, an enterprise whose relations do not wrap around to
      itself has exactly the documented number of distinct related enterprises. */
  lemma {:induction false} CountUnlessWrapped(n: nat, i: nat)
    requires 1 <= i <= n && Expected(i) < n
    ensures |Related(Base(n), Joined(n, n), EnterpriseId(i))| == Expected(i)
  {
    var offsets := if i % 5 == 0 && i % 4 == 0 then 1 else i % 5;
    TargetIdCount(i, offsets, n);
    var related := Related(Base(n), Joined(n, n), EnterpriseId(i));
    forall x ensures x in related <==> x in TargetIds(i, offsets, n) {
      RelatedTargets(n, i, x);
      TargetIdMembers(i, offsets, n, x);
    }
    assert related == TargetIds(i, offsets, n);
  }

  /** With five or more enterprises none wraps around. */
  lemma {:induction false} CountIsExpected(n: nat, i: nat)
    requires 1 <= i <= n && n >= 5
    ensures |Related(Base(n), Joined(n, n), EnterpriseId(i))| == Expected(i)
  {
    CountUnlessWrapped(n, i);
  }

  lemma {:induction false} FullCircle(n: nat)
    requires n >= 1
    ensures Target(n, n, n) == n
  {
    assert n + n - 1 == n * 1 + (n - 1);
    assert (n + n - 1) % n == n - 1;
  }

  lemma {:induction false} LastTargetIsSelf(n: nat)
    requires n >= 1
    ensures TargetIds(n, n, n) == TargetIds(n, n - 1, n) + {EnterpriseId(n)}
  {
    FullCircle(n);
    hide EnterpriseId, Target;
  }

  lemma {:induction false} RelatedOfLast(n: nat, x: string)
    requires 1 <= n < 5
    ensures x in Related(Base(n), Joined(n, n), EnterpriseId(n)) <==> x in TargetIds(n, n - 1, n)
  {
    hide *;
    RelatedTargets(n, n, x);
    TargetIdMembers(n, n, n, x);
    TargetIdCount(n, n - 1, n);
    LastTargetIsSelf(n);
  }

  lemma {:induction false} RelatedSizeOfLast(n: nat)
    requires 1 <= n < 5
    ensures |Related(Base(n), Joined(n, n), EnterpriseId(n))| == n - 1
  {
    hide *;
    TargetIdCount(n, n - 1, n);
    forall x ensures x in Related(Base(n), Joined(n, n), EnterpriseId(n)) <==> x in TargetIds(n, n - 1, n) {
      RelatedOfLast(n, x);
    }
    assert Related(Base(n), Joined(n, n), EnterpriseId(n)) == TargetIds(n, n - 1, n);
  }

  /** With fewer than five enterprises the last one wraps around to itself and falls short. */
  lemma {:induction false} CountFallsShort(n: nat)
    requires 1 <= n < 5
    ensures |Related(Base(n), Joined(n, n), EnterpriseId(n))| == n - 1 < Expected(n)
  {
    hide *;
    RelatedSizeOfLast(n);
    ExpectedOfSmall(n);
  }

  lemma {:induction false} ExpectedOfSmall(n: nat)
    requires 1 <= n < 5
    ensures Expected(n) == n
  {
  }

  /** The documented counts hold for every enterprise exactly when there are at least five of
      them, or none. */
  lemma {:induction false} ClosedFormExactly(n: nat)
    ensures ClosedForm(n) <==> n == 0 || n >= 5
  {
    if n >= 5 {
      forall i | 1 <= i <= n ensures |Related(Base(n), Joined(n, n), EnterpriseId(i))| == Expected(i) {
        CountIsExpected(n, i);
      }
    } else if n > 0 {
      CountFallsShort(n);
    }
  }

  /** What an enterprise reaches: its documented number, or one less when the last of a few
      enterprises wraps around to itself. */
  function Reachable(n: nat, i: nat): nat
    requires n > 0
  {
    if Expected(i) < n then Expected(i) else n - 1
  }

  lemma {:induction false} OnlyLastWraps(n: nat, i: nat)
    requires 1 <= i <= n
    ensures Expected(i) >= n ==> i == n < 5
    ensures Expected(i) > 0 <==> i % 5 >= 1 || i % 4 == 0
  {
  }

  lemma {:induction false} CountExactly(n: nat, i: nat)
    requires 1 <= i <= n
    ensures |Related(Base(n), Joined(n, n), EnterpriseId(i))| == Reachable(n, i)
  {
    OnlyLastWraps(n, i);
    hide Expected, Related, Base, Joined, EnterpriseId;
    if Expected(i) < n { CountUnlessWrapped(n, i); } else { CountFallsShort(n); }
  }

  lemma {:induction false} QueryLookup(n: nat, i: nat)
    requires 1 <= i <= n
    ensures var result := QueryResult(Base(n), Joined(n, n));
            && (EnterpriseId(i) in result <==> Reachable(n, i) > 0)
            && (EnterpriseId(i) in result ==> result[EnterpriseId(i)] == Reachable(n, i))
  {
    hide *;
    CountExactly(n, i);
    if Reachable(n, i) > 0 { RelatedIsListed(n, i); }
    if EnterpriseId(i) in QueryResult(Base(n), Joined(n, n)) {
      var k := ListedIsReachable(n, EnterpriseId(i));
      IdentifiersDistinct(i, k);
    }
  }

  lemma {:induction false} RelatedIsListed(n: nat, i: nat)
    requires 1 <= i <= n && |Related(Base(n), Joined(n, n), EnterpriseId(i))| > 0
    ensures var result := QueryResult(Base(n), Joined(n, n));
            && EnterpriseId(i) in result
            && result[EnterpriseId(i)] == |Related(Base(n), Joined(n, n), EnterpriseId(i))|
  {
    var b := BaseRow(EnterpriseId(i), PersonId(i), "controller");
    assert b in BaseOf(i);
    BaseMembers(n, b);
    hide Related, Base, Joined, BaseOf, EnterpriseId, PersonId, Expected;
    Listed(Base(n), Joined(n, n), b);
  }

  lemma {:induction false} Listed(base: seq<BaseRow>, joined: seq<JoinedRow>, b: BaseRow)
    requires b in base && Related(base, joined, b.enterpriseId) != {}
    ensures var result := QueryResult(base, joined);
            b.enterpriseId in result && result[b.enterpriseId] == |Related(base, joined, b.enterpriseId)|
  {
    hide Related;
  }

  lemma {:induction false} ListedIsReachable(n: nat, e: string) returns (i: nat)
    requires e in QueryResult(Base(n), Joined(n, n))
    ensures 1 <= i <= n && e == EnterpriseId(i) && Reachable(n, i) > 0
  {
    hide Related, Base, Joined, Reachable, EnterpriseId, PersonId, HubPersonId;
    var b :| b in Base(n) && b.enterpriseId == e && Related(Base(n), Joined(n, n), b.enterpriseId) != {};
    BaseMembers(n, b);
    i :| 1 <= i <= n && b in BaseOf(i);
    CountExactly(n, i);
  }

  /** Exactly the enterprises documented to have a relation have a row. */
  ghost predicate PresentAsDocumented(n: nat) {
    forall i | 1 <= i <= n :: EnterpriseId(i) in QueryResult(Base(n), Joined(n, n)) <==> i % 5 >= 1 || i % 4 == 0
  }

  /** Every row of the result has the documented number. */
  ghost predicate CountedAsDocumented(n: nat) {
    forall i | 1 <= i <= n && EnterpriseId(i) in QueryResult(Base(n), Joined(n, n)) ::
      QueryResult(Base(n), Joined(n, n))[EnterpriseId(i)] == Expected(i)
  }

  /** The query returns one row per enterprise that reaches another one, with the number it reaches,
      and no other row. Presence is as documented for every number of enterprises but one, the
      numbers for at most one or at least five; the isolated enterprise is absent exactly as long as
      its identifier is not also the one generated for enterprise 9000. */
  lemma {:induction false} QueryMeetsContract(n: nat)
    ensures var result := QueryResult(Base(n), Joined(n, n));
            && (forall i | 1 <= i <= n :: EnterpriseId(i) in result <==> Reachable(n, i) > 0)
            && (forall i | 1 <= i <= n && EnterpriseId(i) in result :: result[EnterpriseId(i)] == Reachable(n, i))
            && (forall e | e in result :: exists i :: 1 <= i <= n && e == EnterpriseId(i))
            && (PresentAsDocumented(n) <==> n != 1)
            && (CountedAsDocumented(n) <==> n <= 1 || n >= 5)
            && (ISOLATED_ENTERPRISE !in result <==> n < 9000)
  {
    hide *;
    var result := QueryResult(Base(n), Joined(n, n));
    forall i: nat | 1 <= i <= n
      ensures EnterpriseId(i) in result <==> Reachable(n, i) > 0
      ensures EnterpriseId(i) in result ==> result[EnterpriseId(i)] == Reachable(n, i)
    {
      QueryLookup(n, i);
    }
    forall e | e in result ensures exists i :: 1 <= i <= n && e == EnterpriseId(i) {
      var i := ListedIsReachable(n, e);
    }
    PresentExactly(n);
    CountedExactly(n);
    IsolatedAbsentExactly(n);
  }

  lemma {:induction false} PresentExactly(n: nat)
    ensures PresentAsDocumented(n) <==> n != 1
  {
    hide QueryResult, Base, Joined, EnterpriseId, Expected;
    if n == 1 {
      QueryLookup(n, n);
      ExpectedOfSmall(n);
      assert EnterpriseId(n) !in QueryResult(Base(n), Joined(n, n)) && n % 5 >= 1;
    } else {
      forall i: nat | 1 <= i <= n
        ensures EnterpriseId(i) in QueryResult(Base(n), Joined(n, n)) <==> i % 5 >= 1 || i % 4 == 0
      {
        QueryLookup(n, i);
        OnlyLastWraps(n, i);
      }
    }
  }

  lemma {:induction false} CountedExactly(n: nat)
    ensures CountedAsDocumented(n) <==> n <= 1 || n >= 5
  {
    hide QueryResult, Base, Joined, EnterpriseId, Expected;
    forall i: nat | 1 <= i <= n && (n <= 1 || n >= 5) && EnterpriseId(i) in QueryResult(Base(n), Joined(n, n))
      ensures QueryResult(Base(n), Joined(n, n))[EnterpriseId(i)] == Expected(i)
    {
      QueryLookup(n, i);
      OnlyLastWraps(n, i);
    }
    if 1 < n < 5 {
      QueryLookup(n, n);
      ExpectedOfSmall(n);
    }
  }

  lemma {:induction false} IsolatedAbsentExactly(n: nat)
    ensures ISOLATED_ENTERPRISE !in QueryResult(Base(n), Joined(n, n)) <==> n < 9000
  {
    IsolatedIs9000();
    assert Expected(9000) == 1;
    hide QueryResult, Base, Joined, EnterpriseId, Expected;
    if n >= 9000 {
      QueryLookup(n, 9000);
    } else if ISOLATED_ENTERPRISE in QueryResult(Base(n), Joined(n, n)) {
      var k := ListedIsReachable(n, ISOLATED_ENTERPRISE);
      IdentifiersDistinct(9000, k);
    }
  }

  lemma {:induction false} IsolatedIs9000()
    ensures ISOLATED_ENTERPRISE == EnterpriseId(9000)
  {
    assert Decimal(9) == "9";
    assert Decimal(90) == "90";
    assert Decimal(900) == "900";
    assert Decimal(9000) == "9000";
  }

  // ------------------------------------------------------------ labels

  predicate IsBad(index: nat) {
    var count := Expected(index);
    || (count >= 3 && index % 3 != 0)
    || (count <= 1 && index % 11 == 0)
    || (count == 2 && index % 17 == 0)
  }

  function LabeledOf(i: nat): LabeledRow {
    LabeledRow(EnterpriseId(i), if IsBad(i) then 1 else 0, RELATION_PARTITION)
  }

  function LabeledUpTo(m: nat): seq<LabeledRow> {
    if m == 0 then [] else LabeledUpTo(m - 1) + [LabeledOf(m)]
  }

  /** `labeled_rows` for `n` enterprises. */
  method LabeledRows(n: nat) returns (rows: seq<LabeledRow>)
    ensures rows == LabeledUpTo(n) + [LabeledRow(ISOLATED_ENTERPRISE, 0, RELATION_PARTITION)]
  {
    rows := [];
    for index := 1 to n + 1
      invariant rows == LabeledUpTo(index - 1)
    {
      var count := index % 5;
      if count == 0 && index % 4 == 0 { count := 1; }
      var bad := (count >= 3 && index % 3 != 0) || (count <= 1 && index % 11 == 0) || (count == 2 && index % 17 == 0);
      rows := rows + [LabeledRow(EnterpriseId(index), if bad then 1 else 0, RELATION_PARTITION)];
    }
    rows := rows + [LabeledRow(ISOLATED_ENTERPRISE, 0, RELATION_PARTITION)];
  }
}
