/** Policies of transfers: which tables leave some transfer without a most specific
    policy, and that the guard of their creation lets such tables through. */
module TransferPolicies {
  import opened Common
  import opened Grants
  import opened Policies

  // ---- transfers without a policy ----

  const ANYTHING := PolicyScope(None, None, None, None, None, None)
  const ONLY_CASH := ANYTHING.(methodCategory := Some("CASH"))
  const ONLY_CHEQUES := ANYTHING.(methodCategory := Some("CHEQUE"))

  function CreationOf(scope: PolicyScope): Creation { Creation(TRANSFER, scope, true, true) }

  /** The guard keeps apart, or orders, scopes that differ in their category only. */
  lemma DifferentCategories(a: PolicyScope, b: PolicyScope)
    requires Seen(TRANSFER, a) == Seen(TRANSFER, b) && a != b
    ensures !Ambiguous(a, b)
  {
    assert a.methodCategory != b.methodCategory;
    if a.methodCategory.Some? && b.methodCategory.Some? {
      assert !Compatible(Keys(a)[3], Keys(b)[3]);
    } else {
      StrictIsWithinAndDifferent(a, b);
      StrictIsWithinAndDifferent(b, a);
    }
  }

  lemma RunOfTwo(x: Creation, y: Creation)
    ensures RunPolicies([], [x, y]) == NextPolicies(NextPolicies([], x), y)
  {
    hide NextPolicies;
    assert [x, y][..1] == [x] && [x][..0] == [];
    assert RunPolicies([], [x]) == NextPolicies([], x);
  }

  lemma ActiveOfTwo(a: PolicyScope, b: PolicyScope)
    ensures ActiveScopes([Policy(TRANSFER, a, true), Policy(TRANSFER, b, true)], TRANSFER) == [a, b]
  {
    var x, y := Policy(TRANSFER, a, true), Policy(TRANSFER, b, true);
    assert [x, y][..1] == [x] && [x][..0] == [];
    assert ActiveScopes([x], TRANSFER) == [a];
  }

  lemma AcceptedInTurn(a: PolicyScope, b: PolicyScope)
    requires PreparedScope(a) && PreparedScope(b) && !Ambiguous(a, b)
    ensures ActiveScopes(RunPolicies([], [CreationOf(a), CreationOf(b)]), TRANSFER) == [a, b]
  {
    hide Ambiguous, PreparedScope, RunPolicies, ActiveScopes;
    RunOfTwo(CreationOf(a), CreationOf(b));
    var x, y := Policy(TRANSFER, a, true), Policy(TRANSFER, b, true);
    assert NextPolicies([], CreationOf(a)) == [x];
    assert NextPolicies([x], CreationOf(b)) == [x] + [y] == [x, y];
    ActiveOfTwo(a, b);
  }

  lemma NeitherDominates(a: PolicyScope, b: PolicyScope)
    requires Seen(TRANSFER, a) == Seen(TRANSFER, b)
    ensures !Decided(TRANSFER, [a, b])
  {
    DominatesOrder(TRANSFER, a, a, a);
    assert !Dominates(TRANSFER, a, b) && !Dominates(TRANSFER, b, a);
    hide Dominates;
    forall m: nat | m < 2
      ensures !MostSpecific(TRANSFER, [a, b], m)
    {
      assert !Dominates(TRANSFER, [a, b][m], [a, b][1 - m]);
    }
  }

  /** Two transfer policies that differ in their method category only are accepted
      one after the other, and every transfer they match is left without a most
      specific policy. */
  lemma CategoriesLeaveUndecided(a: PolicyScope, b: PolicyScope, d: Document)
    requires PreparedScope(a) && PreparedScope(b) && Seen(TRANSFER, a) == Seen(TRANSFER, b) && a != b
    requires Matches(TRANSFER, a, d)
    ensures var active := ActiveScopes(RunPolicies([], [CreationOf(a), CreationOf(b)]), TRANSFER);
            active == [a, b] && Matching(TRANSFER, active, d) == [a, b] && !Decided(TRANSFER, [a, b])
  {
    DifferentCategories(a, b);
    AcceptedInTurn(a, b);
    NeitherDominates(a, b);
    assert Matches(TRANSFER, b, d);
    hide Matches;
    assert [a, b][..1] == [a] && [a][..0] == [];
    assert Matching(TRANSFER, [a], d) == [a];
  }

  /** So with policies for cash and for cheques, or with one for everything and one
      for cash, no transfer at all can be submitted. */
  lemma TransfersWithoutPolicy(d: Document)
    ensures var active := ActiveScopes(RunPolicies([], [CreationOf(ONLY_CASH), CreationOf(ONLY_CHEQUES)]), TRANSFER);
            |active| == 2 && !Decided(TRANSFER, Matching(TRANSFER, active, d))
    ensures var active := ActiveScopes(RunPolicies([], [CreationOf(ANYTHING), CreationOf(ONLY_CASH)]), TRANSFER);
            |active| == 2 && !Decided(TRANSFER, Matching(TRANSFER, active, d))
  {
    assert "CASH"[2] != "CHEQUE"[2];
    CategoriesLeaveUndecided(ONLY_CASH, ONLY_CHEQUES, d);
    CategoriesLeaveUndecided(ANYTHING, ONLY_CASH, d);
  }

  // ---- tables that decide every transfer ----

  predicate Admits(p: PolicyScope, amount: int) {
    && (p.minimum.Some? ==> p.minimum.value <= amount)
    && (p.maximum.Some? ==> amount <= p.maximum.value)
  }

  /** A policy with exactly the branch, unit and currency that two others name
      together. */
  predicate NamesBoth(c: PolicyScope, a: PolicyScope, b: PolicyScope) {
    c.branch == Pick(a.branch, b.branch) && c.unit == Pick(a.unit, b.unit) && c.currency == Pick(a.currency, b.currency)
  }

  /** For an amount, some policy names what both name and dominates them. */
  predicate Bridged(policies: seq<PolicyScope>, a: PolicyScope, b: PolicyScope, amount: int) {
    exists c :: c in policies && NamesBoth(c, a, b) && Admits(c, amount)
      && Dominates(TRANSFER, c, a) && Dominates(TRANSFER, c, b)
  }

  ghost predicate BridgedAt(policies: seq<PolicyScope>, a: PolicyScope, b: PolicyScope) {
    forall amount: int :: amount > 0 && Admits(a, amount) && Admits(b, amount) ==> Bridged(policies, a, b, amount)
  }

  ghost predicate AllBridged(policies: seq<PolicyScope>) {
    forall j, k | 0 <= j < k < |policies| && Ambiguous(Seen(TRANSFER, policies[j]), Seen(TRANSFER, policies[k])) ::
      BridgedAt(policies, policies[j], policies[k])
  }

  ghost predicate DecidesTransfers(policies: seq<PolicyScope>) {
    forall d: Document :: d.amount > 0 && Matching(TRANSFER, policies, d) != [] ==>
      Decided(TRANSFER, Matching(TRANSFER, policies, d))
  }

  function Currencies(policies: seq<PolicyScope>): (r: seq<string>)
    ensures forall p :: p in policies && p.currency.Some? ==> p.currency.value in r
  {
    if policies == [] then []
    else
      var last := policies[|policies| - 1].currency;
      var before := Currencies(policies[..|policies| - 1]);
      if last.Some? then before + [last.value] else before
  }

  /** A transfer with what two policies name, no other branch or unit, and no
      currency that a policy of the table names. */
  function Barest(policies: seq<PolicyScope>, a: PolicyScope, b: PolicyScope, amount: int): Document {
    var currency := Pick(a.currency, b.currency);
    Document(Pick(a.branch, b.branch), Pick(a.unit, b.unit),
      if currency.Some? then currency.value else Longer(Currencies(policies)), None, amount)
  }

  lemma BarestMatches(policies: seq<PolicyScope>, a: PolicyScope, b: PolicyScope, amount: int)
    requires Overlap(Seen(TRANSFER, a), Seen(TRANSFER, b)) && Admits(a, amount) && Admits(b, amount)
    ensures Matches(TRANSFER, a, Barest(policies, a, b, amount)) && Matches(TRANSFER, b, Barest(policies, a, b, amount))
  {
    var x, y := Seen(TRANSFER, a), Seen(TRANSFER, b);
    assert Compatible(Keys(x)[0], Keys(y)[0]) && Compatible(Keys(x)[1], Keys(y)[1])
      && Compatible(Keys(x)[2], Keys(y)[2]);
  }

  lemma KeepsKeys(c: PolicyScope, a: PolicyScope)
    requires Dominates(TRANSFER, c, a)
    ensures a.branch.Some? ==> c.branch == a.branch
    ensures a.unit.Some? ==> c.unit == a.unit
    ensures a.currency.Some? ==> c.currency == a.currency
  {
    var x, y := Seen(TRANSFER, c), Seen(TRANSFER, a);
    assert Keys(y)[0] == a.branch && Keys(y)[1] == a.unit && Keys(y)[2] == a.currency;
    assert Keys(x)[0] == c.branch && Keys(x)[1] == c.unit && Keys(x)[2] == c.currency;
  }

  /** Only a policy that names what both name matches that transfer and dominates
      both. */
  lemma BarestIsNamed(policies: seq<PolicyScope>, a: PolicyScope, b: PolicyScope, amount: int, c: PolicyScope)
    requires c in policies && Matches(TRANSFER, c, Barest(policies, a, b, amount))
    requires Dominates(TRANSFER, c, a) && Dominates(TRANSFER, c, b)
    ensures NamesBoth(c, a, b) && Admits(c, amount)
  {
    KeepsKeys(c, a);
    KeepsKeys(c, b);
  }

  /** Positions in the table and among the candidates are in the same order. */
  lemma {:induction false} CandidatesInOrder(documentType: string, policies: seq<PolicyScope>, d: Document, j: nat,
      k: nat) returns (x: nat, y: nat)
    requires j < k < |policies| && Matches(documentType, policies[j], d) && Matches(documentType, policies[k], d)
    ensures var r := Matching(documentType, policies, d); x < y < |r| && r[x] == policies[j] && r[y] == policies[k]
  {
    hide Matches;
    var n := |policies| - 1;
    var before := Matching(documentType, policies[..n], d);
    if k < n {
      x, y := CandidatesInOrder(documentType, policies[..n], d, j, k);
    } else {
      assert policies[..n][j] == policies[j];
      x :| 0 <= x < |before| && before[x] == policies[j];
      y := |before|;
    }
  }

  lemma {:induction false} TableInOrder(documentType: string, policies: seq<PolicyScope>, d: Document, x: nat, y: nat)
    returns (j: nat, k: nat)
    requires x < y < |Matching(documentType, policies, d)|
    ensures var r := Matching(documentType, policies, d);
            j < k < |policies| && r[x] == policies[j] && r[y] == policies[k]
  {
    hide Matches;
    var n := |policies| - 1;
    var before := Matching(documentType, policies[..n], d);
    if y < |before| {
      j, k := TableInOrder(documentType, policies[..n], d, x, y);
    } else {
      j :| 0 <= j < n && policies[..n][j] == before[x];
      k := n;
    }
  }

  lemma DecidedIsBridged(policies: seq<PolicyScope>, j: nat, k: nat, amount: int)
    requires DecidesTransfers(policies) && j < k < |policies| && amount > 0
    requires Ambiguous(Seen(TRANSFER, policies[j]), Seen(TRANSFER, policies[k]))
    requires Admits(policies[j], amount) && Admits(policies[k], amount)
    ensures Bridged(policies, policies[j], policies[k], amount)
  {
    var a, b := policies[j], policies[k];
    var d := Barest(policies, a, b, amount);
    BarestMatches(policies, a, b, amount);
    var x, y := CandidatesInOrder(TRANSFER, policies, d, j, k);
    var candidates := Matching(TRANSFER, policies, d);
    DecidedIff(TRANSFER, candidates);
    assert !Comparable(TRANSFER, a, b);
    hide Dominates, Matches, Barest, Ambiguous, Admits, NamesBoth;
    assert Resolved(TRANSFER, candidates, candidates[x], candidates[y]);
    var c :| c in candidates && Dominates(TRANSFER, c, a) && Dominates(TRANSFER, c, b);
    BarestIsNamed(policies, a, b, amount, c);
  }

  lemma BridgeMatches(d: Document, a: PolicyScope, b: PolicyScope, c: PolicyScope)
    requires Matches(TRANSFER, a, d) && Matches(TRANSFER, b, d) && NamesBoth(c, a, b) && Admits(c, d.amount)
    ensures Matches(TRANSFER, c, d)
  {
  }

  lemma BridgedIsResolved(policies: seq<PolicyScope>, d: Document, x: nat, y: nat)
    requires AllPrepared(policies) && d.amount > 0 && x < y < |Matching(TRANSFER, policies, d)|
    requires AllBridged(policies)
    ensures var r := Matching(TRANSFER, policies, d); Resolved(TRANSFER, r, r[x], r[y])
  {
    var r := Matching(TRANSFER, policies, d);
    var j, k := TableInOrder(TRANSFER, policies, d, x, y);
    var a, b := policies[j], policies[k];
    OverlapIffCommonDocument(TRANSFER, a, b);
    assert Admits(a, d.amount) && Admits(b, d.amount);
    hide Matches, Admits, NamesBoth, Overlap, PreparedScope;
    if !Comparable(TRANSFER, a, b) {
      assert BridgedAt(policies, a, b) && Bridged(policies, a, b, d.amount);
      hide Dominates;
      var c :| c in policies && NamesBoth(c, a, b) && Admits(c, d.amount)
        && Dominates(TRANSFER, c, a) && Dominates(TRANSFER, c, b);
      BridgeMatches(d, a, b, c);
      assert c in r;
    }
  }

  /** A table decides every transfer that some policy matches if and only if, for
      every two policies that are ambiguous with categories dropped and every amount
      both admit, some policy that names exactly what both name dominates them. */
  lemma TransfersDecidedIff(policies: seq<PolicyScope>)
    requires AllPrepared(policies)
    ensures DecidesTransfers(policies) <==> AllBridged(policies)
  {
    hide Matches, Dominates, Ambiguous, Admits, NamesBoth, PreparedScope, Resolved, Bridged, Decided;
    if DecidesTransfers(policies) {
      forall j, k, amount: int |
        0 <= j < k < |policies| && Ambiguous(Seen(TRANSFER, policies[j]), Seen(TRANSFER, policies[k]))
        && amount > 0 && Admits(policies[j], amount) && Admits(policies[k], amount)
        ensures Bridged(policies, policies[j], policies[k], amount)
      {
        DecidedIsBridged(policies, j, k, amount);
      }
    }
    if AllBridged(policies) {
      forall d: Document | d.amount > 0 && Matching(TRANSFER, policies, d) != []
        ensures Decided(TRANSFER, Matching(TRANSFER, policies, d))
      {
        var r := Matching(TRANSFER, policies, d);
        forall x, y | 0 <= x < y < |r|
          ensures Resolved(TRANSFER, r, r[x], r[y])
        {
          BridgedIsResolved(policies, d, x, y);
        }
        DecidedIff(TRANSFER, r);
      }
    }
  }
}
