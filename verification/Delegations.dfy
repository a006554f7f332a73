/** Delegations of a grant: the strict narrowing required when one is created,
    its effective scope as views compute it, the scope merged in SQL when
    authority is resolved, and the check that a delegation is still current. */
module Delegations {
  import opened Common
  import opened Grants

  datatype DelegationScope = DelegationScope(
    branch: Option<string>, unit: Option<string>, currency: Option<string>, documentType: Option<string>,
    methodCategory: Option<string>, ceiling: Option<Ceiling>)

  /** What preparing a delegation leaves: a ceiling is in the currency named. */
  predicate PreparedDelegation(d: DelegationScope) {
    d.ceiling.Some? && d.currency.Some? ==> d.ceiling.value.currency == d.currency.value
  }

  // ---- strict narrowing ----

  /** One dimension: what the source allows and what the delegation selects. */
  datatype Dimension = Dimension(allowed: seq<string>, selected: Option<string>)

  predicate Selectable(d: Dimension) { d.selected.Some? && d.allowed != [] ==> d.selected.value in d.allowed }

  predicate Narrows(d: Dimension) { d.selected.Some? && |d.allowed| != 1 }

  function TargetCurrency(d: DelegationScope): Option<string> {
    if d.currency.Some? then d.currency else if d.ceiling.Some? then Some(d.ceiling.value.currency) else None
  }

  /** Branch, unit, document type and method category, then the currency. */
  function Dimensions(source: Scope, target: DelegationScope): seq<Dimension> {
    [Dimension(source.branches, target.branch), Dimension(source.units, target.unit),
     Dimension(source.documentTypes, target.documentType), Dimension(source.methodCategories, target.methodCategory),
     Dimension(EffectiveCurrencies(source), TargetCurrency(target))]
  }

  predicate CeilingFits(source: Option<Ceiling>, target: Option<Ceiling>) {
    target.Some? && source.Some? ==>
      source.value.currency == target.value.currency && target.value.amount <= source.value.amount
  }

  predicate CeilingNarrows(source: Option<Ceiling>, target: Option<Ceiling>) {
    target.Some? && (source.None? || target.value.amount < source.value.amount)
  }

  predicate StrictlyNarrows(source: Scope, target: DelegationScope) {
    var ds := Dimensions(source, target);
    && (forall k :: 0 <= k < |ds| ==> Selectable(ds[k])) && CeilingFits(source.ceiling, target.ceiling)
    && ((exists k :: 0 <= k < |ds| && Narrows(ds[k])) || CeilingNarrows(source.ceiling, target.ceiling))
  }

  /** The loop over the dimensions, as it is written. */
  method CheckNarrows(source: Scope, target: DelegationScope) returns (strict: bool)
    ensures strict == StrictlyNarrows(source, target)
  {
    strict := false;
    var ds := Dimensions(source, target);
    var k := 0;
    while k < |ds|
      invariant k <= |ds|
      invariant forall j :: 0 <= j < k ==> Selectable(ds[j])
      invariant strict <==> exists j :: 0 <= j < k && Narrows(ds[j])
    {
      var d := ds[k];
      if d.selected.Some? {
        if |d.allowed| > 0 && d.selected.value !in d.allowed {
          assert !Selectable(ds[k]);
          return false;
        }
        if |d.allowed| == 0 || |d.allowed| > 1 {
          strict := true;
        }
      }
      k := k + 1;
    }
    if target.ceiling.Some? {
      if source.ceiling.Some? {
        if source.ceiling.value.currency != target.ceiling.value.currency
           || target.ceiling.value.amount > source.ceiling.value.amount {
          return false;
        }
        strict := strict || target.ceiling.value.amount < source.ceiling.value.amount;
      } else {
        strict := true;
      }
    }
  }

  // ---- the effective scope ----

  function Chosen(selected: Option<string>, inherited: seq<string>): seq<string> {
    if selected.Some? then [selected.value] else inherited
  }

  /** The scope views show. */
  function EffectiveScope(source: Scope, d: DelegationScope): Scope {
    Scope(Chosen(d.branch, source.branches), Chosen(d.unit, source.units), source.cashboxes, source.bankAccounts,
      Chosen(d.documentType, source.documentTypes), Chosen(d.methodCategory, source.methodCategories),
      Chosen(TargetCurrency(d), source.currencies),
      if d.ceiling.Some? then d.ceiling else source.ceiling)
  }

  predicate DistinctValues(s: seq<string>) { forall j, k :: 0 <= j < k < |s| ==> s[j] != s[k] }

  predicate DistinctScope(s: Scope) {
    && DistinctValues(s.branches) && DistinctValues(s.units) && DistinctValues(s.documentTypes)
    && DistinctValues(s.methodCategories) && DistinctValues(s.currencies)
  }

  lemma ChosenContained(allowed: seq<string>, selected: Option<string>)
    requires Selectable(Dimension(allowed, selected))
    ensures ContainsValues(allowed, Chosen(selected, allowed))
  {
  }

  /** A single selected value does not contain a list that is open or has several
      values. */
  lemma NarrowedNotContaining(allowed: seq<string>, selected: Option<string>)
    requires DistinctValues(allowed) && Narrows(Dimension(allowed, selected))
    ensures !ContainsValues(Chosen(selected, allowed), allowed)
  {
    if |allowed| > 1 {
      assert allowed[0] != allowed[1];
      assert allowed[0] in allowed && allowed[1] in allowed;
    }
  }

  /** A delegation that is accepted has an effective scope inside its source and
      does not contain it in turn. */
  lemma AcceptedIsStrictlyInside(source: Scope, d: DelegationScope)
    requires StrictlyNarrows(source, d) && DistinctScope(source)
    requires source.ceiling.Some? ==> source.currencies == [] || source.ceiling.value.currency in source.currencies
    ensures ScopeContains(source, EffectiveScope(source, d))
    ensures !ScopeContains(EffectiveScope(source, d), source)
  {
    var ds := Dimensions(source, d);
    var e := EffectiveScope(source, d);
    assert Selectable(ds[0]) && Selectable(ds[1]) && Selectable(ds[2]) && Selectable(ds[3]) && Selectable(ds[4]);
    ChosenContained(source.branches, d.branch);
    ChosenContained(source.units, d.unit);
    ChosenContained(source.documentTypes, d.documentType);
    ChosenContained(source.methodCategories, d.methodCategory);
    CurrenciesChosen(source, d);
    if exists k :: 0 <= k < |ds| && Narrows(ds[k]) {
      var k :| 0 <= k < |ds| && Narrows(ds[k]);
      assert DistinctValues(ds[k].allowed);
      NarrowedNotContaining(ds[k].allowed, ds[k].selected);
    }
  }

  lemma CurrenciesChosen(source: Scope, d: DelegationScope)
    requires Selectable(Dimension(EffectiveCurrencies(source), TargetCurrency(d)))
    ensures ContainsValues(EffectiveCurrencies(source), EffectiveCurrencies(EffectiveScope(source, d)))
    ensures TargetCurrency(d).Some? ==>
        EffectiveCurrencies(EffectiveScope(source, d)) == Chosen(TargetCurrency(d), EffectiveCurrencies(source))
  {
  }

  /** The delegated grant, in its own period. */
  function DelegatedGrant(source: Grant, d: DelegationScope, validFrom: int, validTo: int): Grant {
    Grant(false, EffectiveScope(source.scope, d), validFrom, Some(validTo))
  }

  /** The period check at creation. */
  predicate PeriodFits(source: Grant, validFrom: int, validTo: int) {
    source.validFrom <= validFrom && (source.validTo.Some? ==> validTo <= source.validTo.value)
  }

  /** A period fits exactly when the source is valid at every time of it. */
  lemma PeriodFitsIff(source: Grant, validFrom: int, validTo: int)
    requires validFrom < validTo
    ensures PeriodFits(source, validFrom, validTo)
       <==> forall now :: validFrom <= now < validTo ==> CurrentAt(source, now)
  {
    if forall now :: validFrom <= now < validTo ==> CurrentAt(source, now) {
      assert CurrentAt(source, validFrom) && CurrentAt(source, validTo - 1);
    }
  }

  /** As grants: the delegated grant is contained in its source, and the source is
      not contained in it. */
  lemma DelegatedInsideSource(source: Grant, d: DelegationScope, validFrom: int, validTo: int)
    requires Prepared(source) && DistinctScope(source.scope) && StrictlyNarrows(source.scope, d)
    requires PeriodFits(source, validFrom, validTo)
    ensures GrantContains(source, DelegatedGrant(source, d, validFrom, validTo))
    ensures !GrantContains(DelegatedGrant(source, d, validFrom, validTo), source)
  {
    AcceptedIsStrictlyInside(source.scope, d);
  }

  // ---- the merge in SQL ----

  function LeastCeiling(source: Option<Ceiling>, d: Option<Ceiling>): Option<Ceiling> {
    if source.None? then d
    else if d.None? then source
    else Some(Ceiling(if d.value.amount < source.value.amount then d.value.amount else source.value.amount,
      d.value.currency))
  }

  /** The scope authority is resolved with: a ceiling's currency does not replace
      the currency list, and the smaller ceiling counts. */
  function MergedScope(source: Scope, d: DelegationScope): Scope {
    Scope(Chosen(d.branch, source.branches), Chosen(d.unit, source.units), source.cashboxes, source.bankAccounts,
      Chosen(d.documentType, source.documentTypes), Chosen(d.methodCategory, source.methodCategories),
      Chosen(d.currency, source.currencies), LeastCeiling(source.ceiling, d.ceiling))
  }

  /** What the database function checks again whenever a delegation is used,
      against the source grant as it is then. */
  predicate StillFits(source: Scope, d: DelegationScope) {
    && (d.branch.Some? && source.branches != [] ==> d.branch.value in source.branches)
    && (d.unit.Some? && source.units != [] ==> d.unit.value in source.units)
    && (d.documentType.Some? && source.documentTypes != [] ==> d.documentType.value in source.documentTypes)
    && (d.methodCategory.Some? && source.methodCategories != [] ==> d.methodCategory.value in source.methodCategories)
    && (d.currency.Some? && source.currencies != [] ==> d.currency.value in source.currencies)
    && (d.ceiling.Some? ==>
          && CeilingFits(source.ceiling, d.ceiling)
          && (source.currencies != [] ==> d.ceiling.value.currency in source.currencies))
  }

  /** A delegation accepted at creation passes the check at use on the same scope. */
  lemma AcceptedStillFits(source: Scope, d: DelegationScope)
    requires StrictlyNarrows(source, d) && PreparedDelegation(d)
    ensures StillFits(source, d)
  {
    var ds := Dimensions(source, d);
    assert Selectable(ds[0]) && Selectable(ds[1]) && Selectable(ds[2]) && Selectable(ds[3]) && Selectable(ds[4]);
  }

  /** The database function also repeats that something is narrowed, but counts
      only the listed currencies and only a currency that is selected as such. */
  predicate StillNarrows(source: Scope, d: DelegationScope) {
    || Narrows(Dimension(source.branches, d.branch)) || Narrows(Dimension(source.units, d.unit))
    || Narrows(Dimension(source.documentTypes, d.documentType))
    || Narrows(Dimension(source.methodCategories, d.methodCategory))
    || Narrows(Dimension(source.currencies, d.currency)) || CeilingNarrows(source.ceiling, d.ceiling)
  }

  predicate IsCurrentScope(source: Scope, d: DelegationScope) { StillFits(source, d) && StillNarrows(source, d) }

  /** The source's ceiling taken over unchanged, without selecting its currency. */
  predicate RepeatsCeiling(source: Scope, d: DelegationScope) {
    && d.currency.None? && d.ceiling.Some? && source.ceiling.Some?
    && d.ceiling.value.amount == source.ceiling.value.amount
    && (d.branch.None? || |source.branches| == 1) && (d.unit.None? || |source.units| == 1)
    && (d.documentType.None? || |source.documentTypes| == 1)
    && (d.methodCategory.None? || |source.methodCategories| == 1)
  }

  /** A delegation accepted at creation can be used on the same scope unless all it
      narrows is the list of currencies, through the ceiling it repeats. */
  lemma AcceptedIsCurrentIff(source: Scope, d: DelegationScope)
    requires StrictlyNarrows(source, d) && PreparedDelegation(d)
    ensures IsCurrentScope(source, d) <==> !RepeatsCeiling(source, d)
    ensures RepeatsCeiling(source, d) ==> |source.currencies| > 1
  {
    AcceptedStillFits(source, d);
    var ds := Dimensions(source, d);
    if exists k :: 0 <= k < |ds| && Narrows(ds[k]) {
      var k :| 0 <= k < |ds| && Narrows(ds[k]);
      assert k == 0 || k == 1 || k == 2 || k == 3 || k == 4;
    }
  }

  /** Such a delegation is accepted and can never be used. */
  lemma AcceptedButNeverCurrent()
    ensures var ceiling := Some(Ceiling(100, "USD"));
            var source := UNLIMITED.(currencies := ["USD", "EUR"], ceiling := ceiling);
            var d := DelegationScope(None, None, None, None, None, ceiling);
            StrictlyNarrows(source, d) && PreparedDelegation(d) && !IsCurrentScope(source, d)
  {
    var ceiling := Some(Ceiling(100, "USD"));
    var source := UNLIMITED.(currencies := ["USD", "EUR"], ceiling := ceiling);
    var d := DelegationScope(None, None, None, None, None, ceiling);
    assert Narrows(Dimensions(source, d)[4]);
    AcceptedIsCurrentIff(source, d);
  }

  lemma ChosenCovers(allowed: seq<string>, selected: Option<string>, values: seq<string>)
    requires Selectable(Dimension(allowed, selected)) && Covers(Chosen(selected, allowed), values)
    ensures Covers(allowed, values)
  {
    ChosenContained(allowed, selected);
    CoversThrough(allowed, Chosen(selected, allowed), values);
  }

  /** The merged scope of a current delegation authorizes no payment, in one or
      several currencies and under either scope profile, that its source grant
      would refuse. */
  lemma MergedWithinSource(accounting: bool, source: Scope, d: DelegationScope, c: Context)
    requires StillFits(source, d) && AuthorizesPayment(accounting, MergedScope(source, d), c)
    ensures AuthorizesPayment(accounting, source, c)
  {
    ChosenCovers(source.branches, d.branch, c.branches);
    ChosenCovers(source.units, d.unit, c.units);
    ChosenCovers(source.documentTypes, d.documentType, c.documentTypes);
    if ProfileOf(accounting, c) == FULL {
      ChosenCovers(source.methodCategories, d.methodCategory, c.methodCategories);
    }
    if !accounting {
      ChosenCovers(source.currencies, d.currency, c.currencies);
    }
  }

  lemma MergedWithinSourceSettlement(source: Scope, d: DelegationScope, c: Context)
    requires StillFits(source, d) && AuthorizesSettlement(MergedScope(source, d), c)
    ensures AuthorizesSettlement(source, c)
  {
    ChosenCovers(source.branches, d.branch, c.branches);
    ChosenCovers(source.units, d.unit, c.units);
    ChosenCovers(source.currencies, d.currency, [c.amountCurrency]);
  }

  /** A delegation that goes beyond its source, as that is when it is used, is not
      current: if the merged scope authorizes something the source refuses, the
      database function does not find it. */
  lemma BeyondIsNotCurrent(accounting: bool, source: Scope, d: DelegationScope, c: Context)
    requires || (AuthorizesPayment(accounting, MergedScope(source, d), c) && !AuthorizesPayment(accounting, source, c))
             || (AuthorizesSettlement(MergedScope(source, d), c) && !AuthorizesSettlement(source, c))
    ensures !IsCurrentScope(source, d)
  {
    hide AuthorizesPayment, AuthorizesSettlement, MergedScope, StillFits, StillNarrows;
    if StillFits(source, d) {
      if AuthorizesPayment(accounting, MergedScope(source, d), c) {
        MergedWithinSource(accounting, source, d, c);
      }
      if AuthorizesSettlement(MergedScope(source, d), c) {
        MergedWithinSourceSettlement(source, d, c);
      }
    }
  }

  /** For settlements the merged scope and the effective scope authorize the same,
      although they list different currencies. */
  lemma MergedAgreesWithEffective(source: Scope, d: DelegationScope, c: Context)
    requires StillFits(source, d) && PreparedDelegation(d)
    ensures AuthorizesSettlement(MergedScope(source, d), c) <==> AuthorizesSettlement(EffectiveScope(source, d), c)
  {
    var merged, effective := MergedScope(source, d), EffectiveScope(source, d);
    CoversOne(merged.currencies, c.amountCurrency);
    CoversOne(effective.currencies, c.amountCurrency);
  }

  /** Both scopes list the same currencies, as far as payments can tell. */
  predicate SameCurrencies(source: Scope, d: DelegationScope) {
    || d.currency.Some?
    || d.ceiling.None?
    || (source.currencies != []
        && forall k :: 0 <= k < |source.currencies| ==> source.currencies[k] == d.ceiling.value.currency)
  }

  ghost predicate AgreeOnPayments(accounting: bool, a: Scope, b: Scope) {
    forall c: Context :: AuthorizesPayment(accounting, a, c) <==> AuthorizesPayment(accounting, b, c)
  }

  lemma CurrencyListsAgree(source: Scope, d: DelegationScope, values: seq<string>)
    requires SameCurrencies(source, d)
    ensures Covers(MergedScope(source, d).currencies, values) <==> Covers(EffectiveScope(source, d).currencies, values)
  {
    if d.currency.None? && d.ceiling.Some? {
      var currency := d.ceiling.value.currency;
      assert source.currencies[0] == currency;
      assert forall v :: v in source.currencies <==> v in [currency];
    }
  }

  /** A currency the merged scope still lists and the ceiling is not in. */
  function OtherCurrency(listed: seq<string>, currency: string): (other: string)
    requires listed == [] || exists k :: 0 <= k < |listed| && listed[k] != currency
    ensures other != currency && (listed == [] || other in listed)
  {
    if listed == [] then
      var other := Longer([currency]);
      assert currency in [currency];
      other
    else if listed[0] != currency then listed[0]
    else OtherCurrency(listed[1..], currency)
  }

  lemma SomePaymentDiffers(source: Scope, d: DelegationScope)
    requires StillFits(source, d) && !SameCurrencies(source, d)
    ensures !AgreeOnPayments(false, MergedScope(source, d), EffectiveScope(source, d))
  {
    var merged, effective := MergedScope(source, d), EffectiveScope(source, d);
    var ceiling := merged.ceiling.value;
    var other := OtherCurrency(source.currencies, d.ceiling.value.currency);
    var c := InCurrency(merged, ceiling, other);
    AuthorizedInCurrency(merged, ceiling, other);
    RefusedInCurrency(effective, c, other);
    hide AuthorizesPayment, StillFits;
  }

  /** On payments merged and effective scope agree exactly when the delegation
      selects a currency or has no ceiling, or its source lists the currency of the
      ceiling and no other; in accounting they always agree. */
  lemma MergedAgreesOnPaymentsIff(accounting: bool, source: Scope, d: DelegationScope)
    requires StillFits(source, d) && PreparedDelegation(d)
    ensures AgreeOnPayments(accounting, MergedScope(source, d), EffectiveScope(source, d)) <==>
              || accounting
              || d.currency.Some?
              || d.ceiling.None?
              || (source.currencies != []
                  && forall k :: 0 <= k < |source.currencies| ==> source.currencies[k] == d.ceiling.value.currency)
  {
    if accounting || SameCurrencies(source, d) {
      forall c: Context
        ensures AuthorizesPayment(accounting, MergedScope(source, d), c)
                <==> AuthorizesPayment(accounting, EffectiveScope(source, d), c)
      {
        if !accounting {
          CurrencyListsAgree(source, d, c.currencies);
        }
      }
    } else {
      SomePaymentDiffers(source, d);
    }
  }

  /** The smallest case: a ceiling alone leaves the currency list open in the
      merged scope. */
  lemma MergedDiffersForSeveralCurrencies()
    ensures var d := DelegationScope(None, None, None, None, None, Some(Ceiling(5, "USD")));
            var c := Fullest(UNLIMITED, 5, "USD").(currencies := ["EUR"], documentTypes := ["PAYMENT"]);
            && StillFits(UNLIMITED, d) && AuthorizesPayment(false, MergedScope(UNLIMITED, d), c)
            && !AuthorizesPayment(false, EffectiveScope(UNLIMITED, d), c)
  {
    var d := DelegationScope(None, None, None, None, None, Some(Ceiling(5, "USD")));
    CoversOne(EffectiveScope(UNLIMITED, d).currencies, "EUR");
    assert "EUR"[0] != "USD"[0];
    assert EffectiveScope(UNLIMITED, d).currencies == ["USD"];
  }
}
