/** Approval policies: overlap, strict narrowing, the guard of their creation, and
    which documents have a most specific policy. The filter and the comparison of
    transfers skip the method category, which the guard does not. Amounts are
    integers of 10^-8. */
module Policies {
  import opened Common
  import opened Grants

  datatype PolicyScope = PolicyScope(
    branch: Option<string>, unit: Option<string>, currency: Option<string>, methodCategory: Option<string>,
    minimum: Option<int>, maximum: Option<int>)

  /** Bounds are not negative and in order. */
  predicate PreparedScope(p: PolicyScope) {
    && (p.minimum.Some? ==> p.minimum.value >= 0)
    && (p.maximum.Some? ==> p.maximum.value >= 0)
    && (p.minimum.Some? && p.maximum.Some? ==> p.minimum.value <= p.maximum.value)
  }

  /** Branch, unit, currency and method category, in the order they are compared. */
  function Keys(p: PolicyScope): (r: seq<Option<string>>)
    ensures |r| == 4
  {
    [p.branch, p.unit, p.currency, p.methodCategory]
  }

  predicate Compatible(a: Option<string>, b: Option<string>) { a.Some? && b.Some? ==> a == b }

  predicate Before(a: Option<int>, b: Option<int>) { a.Some? && b.Some? && a.value < b.value }

  predicate Overlap(a: PolicyScope, b: PolicyScope) {
    && (forall k :: 0 <= k < 4 ==> Compatible(Keys(a)[k], Keys(b)[k]))
    && !Before(a.maximum, b.minimum) && !Before(b.maximum, a.minimum)
  }

  /** Every restriction of `b` is kept by `a`. */
  predicate Within(a: PolicyScope, b: PolicyScope) {
    && (forall k :: 0 <= k < 4 ==> Keys(b)[k].Some? ==> Keys(a)[k] == Keys(b)[k])
    && (b.minimum.Some? ==> a.minimum.Some? && a.minimum.value >= b.minimum.value)
    && (b.maximum.Some? ==> a.maximum.Some? && a.maximum.value <= b.maximum.value)
  }

  predicate StrictlyNarrower(a: PolicyScope, b: PolicyScope) {
    && Within(a, b)
    && ((exists k :: 0 <= k < 4 && Keys(b)[k].None? && Keys(a)[k].Some?)
        || (a.minimum.Some? && (b.minimum.None? || a.minimum.value > b.minimum.value))
        || (a.maximum.Some? && (b.maximum.None? || a.maximum.value < b.maximum.value)))
  }

  predicate Ambiguous(a: PolicyScope, b: PolicyScope) {
    Overlap(a, b) && !StrictlyNarrower(a, b) && !StrictlyNarrower(b, a)
  }

  /** The comparison as it is written, returning early and collecting `strict`. */
  method CheckNarrower(candidate: PolicyScope, source: PolicyScope) returns (strict: bool)
    ensures strict == StrictlyNarrower(candidate, source)
  {
    strict := false;
    var a, b := Keys(candidate), Keys(source);
    var k := 0;
    while k < 4
      invariant k <= 4
      invariant forall j :: 0 <= j < k ==> b[j].Some? ==> a[j] == b[j]
      invariant strict <==> exists j :: 0 <= j < k && b[j].None? && a[j].Some?
    {
      if b[k].Some? && a[k] != b[k] {
        return false;
      }
      if b[k].None? && a[k].Some? {
        strict := true;
      }
      k := k + 1;
    }
    if source.minimum.Some? {
      if candidate.minimum.None? || candidate.minimum.value < source.minimum.value {
        return false;
      }
      strict := strict || candidate.minimum.value > source.minimum.value;
    } else if candidate.minimum.Some? {
      strict := true;
    }
    if source.maximum.Some? {
      if candidate.maximum.None? || candidate.maximum.value > source.maximum.value {
        return false;
      }
      strict := strict || candidate.maximum.value < source.maximum.value;
    } else if candidate.maximum.Some? {
      strict := true;
    }
  }

  // ---- a strict partial order ----

  lemma WithinTransitive(a: PolicyScope, b: PolicyScope, c: PolicyScope)
    requires Within(a, b) && Within(b, c)
    ensures Within(a, c)
  {
  }

  /** Narrowing strictly is keeping every restriction and not being the same. */
  lemma StrictIsWithinAndDifferent(a: PolicyScope, b: PolicyScope)
    ensures StrictlyNarrower(a, b) <==> Within(a, b) && a != b
  {
    if Within(a, b) && a != b {
      assert Keys(a)[0] == a.branch && Keys(a)[1] == a.unit && Keys(a)[2] == a.currency
        && Keys(a)[3] == a.methodCategory;
      assert Keys(b)[0] == b.branch && Keys(b)[1] == b.unit && Keys(b)[2] == b.currency
        && Keys(b)[3] == b.methodCategory;
    }
  }

  lemma WithinBothIsSame(a: PolicyScope, b: PolicyScope)
    requires Within(a, b) && Within(b, a)
    ensures a == b
  {
    assert Keys(a)[0] == a.branch && Keys(a)[1] == a.unit && Keys(a)[2] == a.currency && Keys(a)[3] == a.methodCategory;
    assert Keys(b)[0] == b.branch && Keys(b)[1] == b.unit && Keys(b)[2] == b.currency && Keys(b)[3] == b.methodCategory;
  }

  lemma StrictPartialOrder(a: PolicyScope, b: PolicyScope, c: PolicyScope)
    ensures !StrictlyNarrower(a, a)
    ensures StrictlyNarrower(a, b) ==> !StrictlyNarrower(b, a)
    ensures StrictlyNarrower(a, b) && StrictlyNarrower(b, c) ==> StrictlyNarrower(a, c)
  {
    StrictIsWithinAndDifferent(a, a);
    StrictIsWithinAndDifferent(a, b);
    StrictIsWithinAndDifferent(b, a);
    StrictIsWithinAndDifferent(b, c);
    StrictIsWithinAndDifferent(a, c);
    if Within(a, b) && Within(b, a) {
      WithinBothIsSame(a, b);
    }
    if Within(a, b) && Within(b, c) {
      WithinTransitive(a, b, c);
      if a == c {
        WithinBothIsSame(a, b);
      }
    }
  }

  // ---- documents ----

  /** What a policy is selected by. A document may have no branch, no unit or, as a
      transfer, no method category. */
  datatype Document = Document(
    branch: Option<string>, unit: Option<string>, currency: string, methodCategory: Option<string>, amount: int)

  /** An absent value meets only a policy without that restriction. */
  predicate Fits(bound: Option<string>, value: Option<string>) { bound.None? || bound == value }

  /** The database filter for the policies of a document of a type. */
  predicate Matches(documentType: string, p: PolicyScope, d: Document) {
    && Fits(p.branch, d.branch) && Fits(p.unit, d.unit) && Fits(p.currency, Some(d.currency))
    && (documentType == TRANSFER || Fits(p.methodCategory, d.methodCategory))
    && (p.minimum.Some? ==> p.minimum.value <= d.amount)
    && (p.maximum.Some? ==> d.amount <= p.maximum.value)
  }

  /** The part of a scope that matters for documents of a type. */
  function Seen(documentType: string, p: PolicyScope): PolicyScope {
    if documentType == TRANSFER then p.(methodCategory := None) else p
  }

  /** One policy takes precedence over another. */
  predicate Dominates(documentType: string, left: PolicyScope, right: PolicyScope) {
    StrictlyNarrower(Seen(documentType, left), Seen(documentType, right))
  }

  lemma DominatesOrder(documentType: string, a: PolicyScope, b: PolicyScope, c: PolicyScope)
    ensures !Dominates(documentType, a, a)
    ensures Dominates(documentType, a, b) ==> !Dominates(documentType, b, a)
    ensures Dominates(documentType, a, b) && Dominates(documentType, b, c) ==> Dominates(documentType, a, c)
  {
    StrictPartialOrder(Seen(documentType, a), Seen(documentType, b), Seen(documentType, c));
  }

  lemma SeenKeys(documentType: string, p: PolicyScope)
    ensures var keys := Keys(Seen(documentType, p));
            && keys[..3] == Keys(p)[..3]
            && keys[3] == if documentType == TRANSFER then None else Keys(p)[3]
  {
  }

  /** Whether a bound is kept, and whether it is narrowed. */
  datatype Narrowing = Narrowing(allowed: bool, strict: bool)

  function LowerNarrower(left: Option<int>, right: Option<int>): Narrowing {
    if right.None? then Narrowing(true, left.Some?)
    else if left.None? then Narrowing(false, false)
    else Narrowing(left.value >= right.value, left.value > right.value)
  }

  function UpperNarrower(left: Option<int>, right: Option<int>): Narrowing {
    if right.None? then Narrowing(true, left.Some?)
    else if left.None? then Narrowing(false, false)
    else Narrowing(left.value <= right.value, left.value < right.value)
  }

  /** The comparison of the services: over three keys for transfers, over four
      otherwise. */
  method CheckDominates(documentType: string, left: PolicyScope, right: PolicyScope) returns (r: bool)
    ensures r == Dominates(documentType, left, right)
  {
    SeenKeys(documentType, left);
    SeenKeys(documentType, right);
    ghost var x, y := Keys(Seen(documentType, left)), Keys(Seen(documentType, right));
    var a, b := Keys(left), Keys(right);
    var n := if documentType == TRANSFER then 3 else 4;
    assert forall k :: 0 <= k < n ==> x[k] == a[k] && y[k] == b[k];
    var strict := false;
    var k := 0;
    while k < n
      invariant k <= n
      invariant forall j :: 0 <= j < k ==> y[j].Some? ==> x[j] == y[j]
      invariant strict <==> exists j :: 0 <= j < k && y[j].None? && x[j].Some?
    {
      if b[k].Some? && a[k] != b[k] {
        return false;
      }
      strict := strict || (b[k].None? && a[k].Some?);
      k := k + 1;
    }
    var minimum, maximum := LowerNarrower(left.minimum, right.minimum), UpperNarrower(left.maximum, right.maximum);
    r := minimum.allowed && maximum.allowed && (strict || minimum.strict || maximum.strict);
  }

  function AtLeast(a: Option<int>, b: int): int { if a.Some? && a.value > b then a.value else b }

  function Pick(a: Option<string>, b: Option<string>): Option<string> { if a.Some? then a else b }

  /** A document at the lower end of what two policies have in common. */
  function InCommon(a: PolicyScope, b: PolicyScope): Document {
    var currency := Pick(a.currency, b.currency);
    Document(Pick(a.branch, b.branch), Pick(a.unit, b.unit), if currency.Some? then currency.value else "",
      Pick(a.methodCategory, b.methodCategory), AtLeast(a.minimum, AtLeast(b.minimum, 0)))
  }

  lemma KeysMatch(documentType: string, p: PolicyScope, d: Document)
    requires Matches(documentType, p, d)
    ensures forall k :: 0 <= k < 4 ==>
              Fits(Keys(Seen(documentType, p))[k], [d.branch, d.unit, Some(d.currency), d.methodCategory][k])
  {
    SeenKeys(documentType, p);
  }

  /** Two policies overlap, in what matters for the type, exactly when some document
      of the type matches both. */
  lemma OverlapIffCommonDocument(documentType: string, a: PolicyScope, b: PolicyScope)
    requires PreparedScope(a) && PreparedScope(b)
    ensures Overlap(Seen(documentType, a), Seen(documentType, b))
            <==> exists d :: Matches(documentType, a, d) && Matches(documentType, b, d)
  {
    var x, y := Seen(documentType, a), Seen(documentType, b);
    if Overlap(x, y) {
      assert Compatible(Keys(x)[0], Keys(y)[0]) && Compatible(Keys(x)[1], Keys(y)[1])
             && Compatible(Keys(x)[2], Keys(y)[2]) && Compatible(Keys(x)[3], Keys(y)[3]);
      assert Matches(documentType, a, InCommon(x, y)) && Matches(documentType, b, InCommon(x, y));
    }
    if d :| Matches(documentType, a, d) && Matches(documentType, b, d) {
      KeysMatch(documentType, a, d);
      KeysMatch(documentType, b, d);
    }
  }

  // ---- selecting a policy ----

  /** No other candidate takes precedence over `m`. */
  predicate Undominated(documentType: string, candidates: seq<PolicyScope>, m: nat) {
    && m < |candidates|
    && forall k :: 0 <= k < |candidates| && k != m ==> !Dominates(documentType, candidates[k], candidates[m])
  }

  ghost predicate OnlyUndominated(documentType: string, candidates: seq<PolicyScope>, m: nat) {
    && Undominated(documentType, candidates, m)
    && forall k: nat :: Undominated(documentType, candidates, k) ==> k == m
  }

  /** `m` takes precedence over every other candidate. */
  predicate MostSpecific(documentType: string, candidates: seq<PolicyScope>, m: nat) {
    && m < |candidates|
    && forall k :: 0 <= k < |candidates| && k != m ==> Dominates(documentType, candidates[m], candidates[k])
  }

  ghost predicate Decided(documentType: string, candidates: seq<PolicyScope>) {
    exists m: nat :: MostSpecific(documentType, candidates, m)
  }

  function Above(documentType: string, candidates: seq<PolicyScope>, k: nat): set<nat>
    requires k < |candidates|
  {
    set j: nat | j < |candidates| && Dominates(documentType, candidates[j], candidates[k])
  }

  /** Above every candidate there is one that nothing is above. */
  lemma {:induction false} Climb(documentType: string, candidates: seq<PolicyScope>, k: nat) returns (u: nat)
    requires k < |candidates|
    ensures Undominated(documentType, candidates, u)
    ensures u == k || Dominates(documentType, candidates[u], candidates[k])
    decreases Above(documentType, candidates, k)
  {
    hide Dominates;
    if Undominated(documentType, candidates, k) {
      u := k;
    } else {
      var j: nat :| j < |candidates| && j != k && Dominates(documentType, candidates[j], candidates[k]);
      forall i: nat | i in Above(documentType, candidates, j)
        ensures i in Above(documentType, candidates, k)
      {
        DominatesOrder(documentType, candidates[i], candidates[j], candidates[k]);
      }
      DominatesOrder(documentType, candidates[j], candidates[j], candidates[j]);
      assert j in Above(documentType, candidates, k) && j !in Above(documentType, candidates, j);
      u := Climb(documentType, candidates, j);
      DominatesOrder(documentType, candidates[u], candidates[j], candidates[k]);
    }
  }

  /** The only candidate that no other one dominates is the one that dominates every
      other one. */
  lemma OnlyUndominatedIff(documentType: string, candidates: seq<PolicyScope>, m: nat)
    ensures OnlyUndominated(documentType, candidates, m) <==> MostSpecific(documentType, candidates, m)
  {
    hide Dominates;
    if OnlyUndominated(documentType, candidates, m) {
      forall k: nat | k < |candidates| && k != m
        ensures Dominates(documentType, candidates[m], candidates[k])
      {
        var u := Climb(documentType, candidates, k);
      }
    }
    if MostSpecific(documentType, candidates, m) {
      forall k: nat | k < |candidates| && k != m
        ensures !Dominates(documentType, candidates[k], candidates[m]) && !Undominated(documentType, candidates, k)
      {
        DominatesOrder(documentType, candidates[m], candidates[k], candidates[m]);
      }
    }
  }

  predicate Comparable(documentType: string, a: PolicyScope, b: PolicyScope) {
    Dominates(documentType, a, b) || Dominates(documentType, b, a)
  }

  /** Some candidate takes precedence over both. */
  predicate Settled(documentType: string, candidates: seq<PolicyScope>, a: PolicyScope, b: PolicyScope) {
    exists c :: c in candidates && Dominates(documentType, c, a) && Dominates(documentType, c, b)
  }

  predicate Resolved(documentType: string, candidates: seq<PolicyScope>, a: PolicyScope, b: PolicyScope) {
    Comparable(documentType, a, b) || Settled(documentType, candidates, a, b)
  }

  /** Candidates are decided exactly when of every two of them one takes precedence,
      or a third one over both. */
  lemma DecidedIff(documentType: string, candidates: seq<PolicyScope>)
    requires candidates != []
    ensures Decided(documentType, candidates) <==>
            forall j, k :: 0 <= j < k < |candidates| ==>
              Resolved(documentType, candidates, candidates[j], candidates[k])
  {
    hide Dominates;
    if m: nat :| MostSpecific(documentType, candidates, m) {
      forall j, k | 0 <= j < k < |candidates|
        ensures Resolved(documentType, candidates, candidates[j], candidates[k])
      {
        assert j != m && k != m ==> candidates[m] in candidates;
      }
    }
    if forall j, k :: 0 <= j < k < |candidates| ==> Resolved(documentType, candidates, candidates[j], candidates[k]) {
      var u := Climb(documentType, candidates, 0);
      NothingAbove(documentType, candidates, u);
      forall k: nat | k < |candidates| && k != u
        ensures Dominates(documentType, candidates[u], candidates[k])
      {
        assert u < k ==> Resolved(documentType, candidates, candidates[u], candidates[k]);
        assert k < u ==> Resolved(documentType, candidates, candidates[k], candidates[u]);
      }
      assert MostSpecific(documentType, candidates, u);
    }
  }

  lemma NothingAbove(documentType: string, candidates: seq<PolicyScope>, u: nat)
    requires Undominated(documentType, candidates, u)
    ensures forall c :: c in candidates ==> !Dominates(documentType, c, candidates[u])
  {
    hide Dominates;
    DominatesOrder(documentType, candidates[u], candidates[u], candidates[u]);
  }

  method SomeDominates(documentType: string, candidates: seq<PolicyScope>, m: nat) returns (some: bool)
    requires m < |candidates|
    ensures some <==> !Undominated(documentType, candidates, m)
  {
    hide Dominates;
    var k := 0;
    while k < |candidates|
      invariant k <= |candidates|
      invariant forall j :: 0 <= j < k && j != m ==> !Dominates(documentType, candidates[j], candidates[m])
    {
      if k != m {
        var above := CheckDominates(documentType, candidates[k], candidates[m]);
        if above {
          return true;
        }
      }
      k := k + 1;
    }
    some := false;
  }

  /** The selection of the services: the undominated candidates are collected, and
      one is returned if it is the only one. Then it is the most specific candidate,
      and nothing is returned only if there is no such. */
  method UniqueMaximal(documentType: string, candidates: seq<PolicyScope>) returns (r: Option<nat>)
    ensures r.Some? ==> MostSpecific(documentType, candidates, r.value)
    ensures r.None? ==> !Decided(documentType, candidates)
  {
    hide Dominates, MostSpecific, Undominated;
    var maximal: seq<nat> := [];
    var m := 0;
    while m < |candidates|
      invariant m <= |candidates|
      invariant forall k: nat :: k in maximal <==> k < m && Undominated(documentType, candidates, k)
      invariant forall k :: 0 <= k < |maximal| ==> maximal[k] < m
      invariant forall j, k :: 0 <= j < k < |maximal| ==> maximal[j] < maximal[k]
    {
      var some := SomeDominates(documentType, candidates, m);
      if !some {
        maximal := maximal + [m];
      }
      m := m + 1;
    }
    r := if |maximal| == 1 then Some(maximal[0]) else None;
    UndominatedIsListed(documentType, candidates);
    ListedAreUndominated(documentType, candidates, maximal);
  }

  lemma UndominatedIsListed(documentType: string, candidates: seq<PolicyScope>)
    ensures forall k: nat :: Undominated(documentType, candidates, k) ==> k < |candidates|
  {
  }

  /** One maximal candidate is the most specific one; none or several, and there is
      no such. */
  lemma ListedAreUndominated(documentType: string, candidates: seq<PolicyScope>, maximal: seq<nat>)
    requires forall k: nat :: k in maximal <==> Undominated(documentType, candidates, k)
    requires forall j, k :: 0 <= j < k < |maximal| ==> maximal[j] < maximal[k]
    ensures |maximal| == 1 ==> MostSpecific(documentType, candidates, maximal[0])
    ensures Decided(documentType, candidates) ==> |maximal| == 1
  {
    hide Dominates, MostSpecific, Undominated;
    assert |maximal| > 1 ==> maximal[0] < maximal[1];
    if |maximal| == 1 {
      assert maximal[0] in maximal;
      OnlyUndominatedIff(documentType, candidates, maximal[0]);
    }
    if m: nat :| MostSpecific(documentType, candidates, m) {
      OnlyUndominatedIff(documentType, candidates, m);
      assert m in maximal;
      forall k | 0 <= k < |maximal|
        ensures maximal[k] == m
      {
        assert maximal[k] in maximal && Undominated(documentType, candidates, maximal[k]);
      }
    }
  }

  // ---- the most specific policy ----

  /** No two scopes are ambiguous in what matters for the type. */
  predicate Unambiguous(documentType: string, policies: seq<PolicyScope>) {
    forall j, k :: 0 <= j < k < |policies| ==>
      !Ambiguous(Seen(documentType, policies[j]), Seen(documentType, policies[k]))
  }

  predicate AllPrepared(policies: seq<PolicyScope>) {
    forall k :: 0 <= k < |policies| ==> PreparedScope(policies[k])
  }

  /** The candidates for a document. */
  function Matching(documentType: string, policies: seq<PolicyScope>, d: Document): (r: seq<PolicyScope>)
    ensures forall k :: 0 <= k < |r| ==> r[k] in policies && Matches(documentType, r[k], d)
    ensures forall k :: 0 <= k < |policies| && Matches(documentType, policies[k], d) ==> policies[k] in r
  {
    if policies == [] then []
    else
      var n := |policies| - 1;
      var before := Matching(documentType, policies[..n], d);
      if Matches(documentType, policies[n], d) then before + [policies[n]] else before
  }

  /** Of two matching policies that are not ambiguous one takes precedence. */
  lemma MatchingAreChain(documentType: string, a: PolicyScope, b: PolicyScope, d: Document)
    requires PreparedScope(a) && PreparedScope(b) && !Ambiguous(Seen(documentType, a), Seen(documentType, b))
    requires Matches(documentType, a, d) && Matches(documentType, b, d)
    ensures Dominates(documentType, a, b) != Dominates(documentType, b, a)
  {
    OverlapIffCommonDocument(documentType, a, b);
    DominatesOrder(documentType, a, b, a);
  }

  lemma PrefixUnambiguous(documentType: string, policies: seq<PolicyScope>, n: nat)
    requires Unambiguous(documentType, policies) && AllPrepared(policies) && n <= |policies|
    ensures Unambiguous(documentType, policies[..n]) && AllPrepared(policies[..n])
  {
    hide Ambiguous, PreparedScope;
  }

  lemma LastComparable(documentType: string, policies: seq<PolicyScope>, d: Document, p: PolicyScope)
    requires Unambiguous(documentType, policies) && AllPrepared(policies) && policies != []
    requires p in policies[..|policies| - 1] && Matches(documentType, p, d)
    requires Matches(documentType, policies[|policies| - 1], d)
    ensures Comparable(documentType, p, policies[|policies| - 1])
  {
    hide Ambiguous, PreparedScope, Matches, Dominates;
    var i :| 0 <= i < |policies| - 1 && policies[..|policies| - 1][i] == p;
    assert policies[i] == p;
    MatchingAreChain(documentType, p, policies[|policies| - 1], d);
  }

  predicate AllComparable(documentType: string, policies: seq<PolicyScope>) {
    forall j, k :: 0 <= j < k < |policies| ==> Comparable(documentType, policies[j], policies[k])
  }

  lemma {:induction false} MatchingComparable(documentType: string, policies: seq<PolicyScope>, d: Document)
    requires Unambiguous(documentType, policies) && AllPrepared(policies)
    ensures AllComparable(documentType, Matching(documentType, policies, d))
  {
    hide Ambiguous, PreparedScope, Matches, Comparable, Unambiguous, AllPrepared;
    if policies != [] {
      var n := |policies| - 1;
      PrefixUnambiguous(documentType, policies, n);
      MatchingComparable(documentType, policies[..n], d);
      var r := Matching(documentType, policies[..n], d);
      forall k | 0 <= k < |r| && Matches(documentType, policies[n], d)
        ensures Comparable(documentType, r[k], policies[n])
      {
        LastComparable(documentType, policies, d, r[k]);
      }
    }
  }

  /** If no two policies are ambiguous, in what matters for the type, every document
      that some policy matches has a most specific one, and only one. */
  lemma UniqueMostSpecific(documentType: string, policies: seq<PolicyScope>, d: Document) returns (m: nat)
    requires Unambiguous(documentType, policies) && AllPrepared(policies)
    requires exists k :: 0 <= k < |policies| && Matches(documentType, policies[k], d)
    ensures var candidates := Matching(documentType, policies, d);
            && MostSpecific(documentType, candidates, m)
            && forall other: nat :: MostSpecific(documentType, candidates, other) ==> other == m
  {
    hide Matches, Comparable, Unambiguous, AllPrepared, MostSpecific, Dominates, Settled;
    var candidates := Matching(documentType, policies, d);
    MatchingComparable(documentType, policies, d);
    DecidedIff(documentType, candidates);
    m :| MostSpecific(documentType, candidates, m);
    OnlyOneMostSpecific(documentType, candidates, m);
  }

  lemma OnlyOneMostSpecific(documentType: string, candidates: seq<PolicyScope>, m: nat)
    requires MostSpecific(documentType, candidates, m)
    ensures forall other: nat :: MostSpecific(documentType, candidates, other) ==> other == m
  {
    hide MostSpecific, Undominated;
    OnlyUndominatedIff(documentType, candidates, m);
    forall other: nat | MostSpecific(documentType, candidates, other)
      ensures other == m
    {
      OnlyUndominatedIff(documentType, candidates, other);
    }
  }

  // ---- creating policies ----

  /** Rows are never updated or deleted. */
  datatype Policy = Policy(documentType: string, scope: PolicyScope, active: bool)

  function ActiveScopes(policies: seq<Policy>, documentType: string): seq<PolicyScope> {
    if policies == [] then []
    else
      var last := policies[|policies| - 1];
      var before := ActiveScopes(policies[..|policies| - 1], documentType);
      if last.active && last.documentType == documentType then before + [last.scope] else before
  }

  datatype Creation = Creation(documentType: string, scope: PolicyScope, authorized: bool, separated: bool)

  /** The guard compares whole scopes, whatever the document type. */
  predicate Conflicts(policies: seq<Policy>, documentType: string, scope: PolicyScope) {
    exists k :: 0 <= k < |policies| && policies[k].active && policies[k].documentType == documentType
      && Ambiguous(policies[k].scope, scope)
  }

  predicate Creates(policies: seq<Policy>, c: Creation) {
    PreparedScope(c.scope) && c.authorized && c.separated && !Conflicts(policies, c.documentType, c.scope)
  }

  function NextPolicies(policies: seq<Policy>, c: Creation): seq<Policy> {
    if Creates(policies, c) then policies + [Policy(c.documentType, c.scope, true)] else policies
  }

  function RunPolicies(start: seq<Policy>, run: seq<Creation>): seq<Policy> {
    if run == [] then start else NextPolicies(RunPolicies(start, run[..|run| - 1]), run[|run| - 1])
  }

  /** A policy is created exactly with bounds that are not negative and in order, by
      someone with authority, with the separation its type needs, and beside no active
      policy of its type that overlaps it, unless one of the two is strictly narrower. */
  lemma CreatesIff(policies: seq<Policy>, c: Creation)
    ensures Creates(policies, c) <==>
            && (c.scope.minimum.Some? ==> c.scope.minimum.value >= 0)
            && (c.scope.maximum.Some? ==> c.scope.maximum.value >= 0)
            && (c.scope.minimum.Some? && c.scope.maximum.Some? ==> c.scope.minimum.value <= c.scope.maximum.value)
            && c.authorized && c.separated
            && forall k :: 0 <= k < |policies| && policies[k].active && policies[k].documentType == c.documentType ==>
                 || StrictlyNarrower(policies[k].scope, c.scope) || StrictlyNarrower(c.scope, policies[k].scope)
                 || !Overlap(policies[k].scope, c.scope)
    ensures Creates(policies, c) ==>
              NextPolicies(policies, c) == policies + [Policy(c.documentType, c.scope, true)]
    ensures !Creates(policies, c) ==> NextPolicies(policies, c) == policies
  {
    hide StrictlyNarrower, Overlap;
  }

  /** The table behind the command. */
  class PolicyTable {
    var rows: seq<Policy>

    constructor (migrated: seq<Policy>)
      ensures rows == migrated
    {
      rows := migrated;
    }

    /** Compares the candidate with every active policy of its document type
        before it inserts. */
    method CreatePolicy(documentType: string, scope: PolicyScope, authorized: bool, separated: bool) returns (ok: bool)
      modifies this
      ensures ok == Creates(old(rows), Creation(documentType, scope, authorized, separated))
      ensures rows == NextPolicies(old(rows), Creation(documentType, scope, authorized, separated))
    {
      if !PreparedScope(scope) || !authorized || !separated {
        return false;
      }
      var k := 0;
      while k < |rows|
        invariant k <= |rows|
        invariant forall j :: 0 <= j < k ==>
                    !(rows[j].active && rows[j].documentType == documentType && Ambiguous(rows[j].scope, scope))
      {
        if rows[k].active && rows[k].documentType == documentType && Ambiguous(rows[k].scope, scope) {
          return false;
        }
        k := k + 1;
      }
      rows := rows + [Policy(documentType, scope, true)];
      ok := true;
    }
  }

  /** No two scopes are ambiguous for the guard. */
  predicate Guarded(policies: seq<PolicyScope>) {
    forall j, k :: 0 <= j < k < |policies| ==> !Ambiguous(policies[j], policies[k])
  }

  predicate InPolicies(policies: seq<Policy>, documentType: string, scope: PolicyScope) {
    exists j :: 0 <= j < |policies| && policies[j].active && policies[j].documentType == documentType
      && policies[j].scope == scope
  }

  lemma {:induction false} ActiveFromPolicies(policies: seq<Policy>, documentType: string)
    ensures forall p :: p in ActiveScopes(policies, documentType) ==> InPolicies(policies, documentType, p)
  {
    if policies != [] {
      ActiveFromPolicies(policies[..|policies| - 1], documentType);
      forall p | p in ActiveScopes(policies[..|policies| - 1], documentType)
        ensures InPolicies(policies, documentType, p)
      {
        InLonger(policies, documentType, p);
      }
    }
  }

  lemma InLonger(policies: seq<Policy>, documentType: string, p: PolicyScope)
    requires policies != [] && InPolicies(policies[..|policies| - 1], documentType, p)
    ensures InPolicies(policies, documentType, p)
  {
    var before := policies[..|policies| - 1];
    var j :| 0 <= j < |before| && before[j].active && before[j].documentType == documentType && before[j].scope == p;
    assert policies[j] == before[j];
  }

  lemma NoConflict(policies: seq<Policy>, c: Creation)
    requires Creates(policies, c)
    ensures forall p :: p in ActiveScopes(policies, c.documentType) ==> !Ambiguous(p, c.scope)
  {
    hide Ambiguous;
    ActiveFromPolicies(policies, c.documentType);
  }

  lemma CreationKeeps(policies: seq<Policy>, c: Creation, documentType: string)
    requires Guarded(ActiveScopes(policies, documentType)) && AllPrepared(ActiveScopes(policies, documentType))
    ensures var scopes := ActiveScopes(NextPolicies(policies, c), documentType); Guarded(scopes) && AllPrepared(scopes)
  {
    if Creates(policies, c) {
      NoConflict(policies, c);
      hide Ambiguous, PreparedScope, Conflicts;
      assert (policies + [Policy(c.documentType, c.scope, true)])[..|policies|] == policies;
    }
  }

  /** The guard keeps the active policies of every type apart. */
  lemma {:induction false} RunKeepsGuarded(start: seq<Policy>, run: seq<Creation>, documentType: string)
    requires Guarded(ActiveScopes(start, documentType)) && AllPrepared(ActiveScopes(start, documentType))
    ensures var scopes := ActiveScopes(RunPolicies(start, run), documentType); Guarded(scopes) && AllPrepared(scopes)
  {
    if run != [] {
      RunKeepsGuarded(start, run[..|run| - 1], documentType);
      CreationKeeps(RunPolicies(start, run[..|run| - 1]), run[|run| - 1], documentType);
    }
  }

  /** The guard compares what the selection sees: the type is not a transfer, or no
      scope names a method category. */
  predicate GuardSees(documentType: string, policies: seq<PolicyScope>) {
    documentType != TRANSFER || forall k :: 0 <= k < |policies| ==> policies[k].methodCategory.None?
  }

  lemma GuardedIsUnambiguous(documentType: string, policies: seq<PolicyScope>)
    requires Guarded(policies) && GuardSees(documentType, policies)
    ensures Unambiguous(documentType, policies)
  {
    hide Ambiguous;
    assert forall k :: 0 <= k < |policies| ==> Seen(documentType, policies[k]) == policies[k];
  }

  /** From migrated policies that the guard would have kept apart, after any run of
      creations, every payment or receipt that some active policy matches has
      exactly one most specific policy; and so has every transfer while no active
      transfer policy names a method category. */
  lemma ReachableMostSpecific(start: seq<Policy>, run: seq<Creation>, documentType: string, d: Document)
    returns (m: nat)
    requires Guarded(ActiveScopes(start, documentType)) && AllPrepared(ActiveScopes(start, documentType))
    requires var active := ActiveScopes(RunPolicies(start, run), documentType);
             && GuardSees(documentType, active)
             && exists k :: 0 <= k < |active| && Matches(documentType, active[k], d)
    ensures var candidates := Matching(documentType, ActiveScopes(RunPolicies(start, run), documentType), d);
            && MostSpecific(documentType, candidates, m)
            && forall other: nat :: MostSpecific(documentType, candidates, other) ==> other == m
  {
    RunKeepsGuarded(start, run, documentType);
    var active := ActiveScopes(RunPolicies(start, run), documentType);
    GuardedIsUnambiguous(documentType, active);
    m := UniqueMostSpecific(documentType, active, d);
  }

  // ---- authority over policies ----

  /** A policy as a target grant, valid from now until its source ends. */
  function PolicyAuthorization(documentType: string, p: PolicyScope, baseCurrency: string, now: int,
      validTo: Option<int>): Grant {
    Grant(false,
      Scope(Listed(p.branch), Listed(p.unit), [], [], [documentType], Listed(p.methodCategory), Listed(p.currency),
        if p.maximum.Some? then Some(Ceiling(p.maximum.value, baseCurrency)) else None),
      now, validTo)
  }

  function Listed(value: Option<string>): seq<string> { if value.Some? then [value.value] else [] }

  predicate Lacks(allowed: seq<string>, required: seq<string>) {
    |allowed| > 0 && (|required| == 0 || exists k :: 0 <= k < |required| && required[k] !in allowed)
  }

  /** The check repeated inside the transaction, on the policy itself. */
  predicate PolicyGrantContains(source: Grant, documentType: string, p: PolicyScope, baseCurrency: string) {
    if source.organizationWide then true
    else if Lacks(source.scope.branches, Listed(p.branch)) || Lacks(source.scope.units, Listed(p.unit))
            || Lacks(source.scope.cashboxes, []) || Lacks(source.scope.bankAccounts, [])
            || Lacks(source.scope.documentTypes, [documentType])
            || Lacks(source.scope.methodCategories, Listed(p.methodCategory)) then false
    else if Lacks(EffectiveCurrencies(source.scope),
                  if p.currency.Some? then [p.currency.value] else if p.maximum.Some? then [baseCurrency] else []) then
                    false
    else if source.scope.ceiling.None? then true
    else p.maximum.Some? && source.scope.ceiling.value.currency == baseCurrency
         && p.maximum.value <= source.scope.ceiling.value.amount
  }

  lemma LacksIsNotContains(allowed: seq<string>, required: seq<string>)
    ensures Lacks(allowed, required) <==> !ContainsValues(allowed, required)
  {
  }

  /** For currently valid grants the check in the transaction and the check before
      it give the same answer. */
  lemma ChecksAgree(source: Grant, documentType: string, p: PolicyScope, baseCurrency: string, now: int)
    requires CurrentAt(source, now)
    ensures PolicyGrantContains(source, documentType, p, baseCurrency)
            <==> GrantContains(source, PolicyAuthorization(documentType, p, baseCurrency, now, source.validTo))
  {
    var s, t := source.scope, PolicyAuthorization(documentType, p, baseCurrency, now, source.validTo).scope;
    LacksIsNotContains(s.branches, t.branches);
    LacksIsNotContains(s.units, t.units);
    LacksIsNotContains(s.cashboxes, t.cashboxes);
    LacksIsNotContains(s.bankAccounts, t.bankAccounts);
    LacksIsNotContains(s.documentTypes, t.documentTypes);
    LacksIsNotContains(s.methodCategories, t.methodCategories);
    LacksIsNotContains(EffectiveCurrencies(s), EffectiveCurrencies(t));
  }
}
