/** Containment of access grants and what grants authorize. Scope lists hold ids
    or codes; an empty list is no restriction. Ceilings are integers of 10^-8;
    `Decimals.ComparisonsAgree` ties them to the decimal comparisons in use. */
module Grants {
  import opened Common

  datatype Ceiling = Ceiling(amount: int, currency: string)

  datatype Scope = Scope(
    branches: seq<string>, units: seq<string>, cashboxes: seq<string>, bankAccounts: seq<string>,
    documentTypes: seq<string>, methodCategories: seq<string>, currencies: seq<string>, ceiling: Option<Ceiling>)

  datatype Grant = Grant(organizationWide: bool, scope: Scope, validFrom: int, validTo: Option<int>)

  const UNLIMITED := Scope([], [], [], [], [], [], [], None)

  /** What preparing a grant leaves: an organization-wide grant has no scope, any
      other one restricts something; a ceiling is positive and in one of the
      listed currencies; the period is not empty. */
  predicate Prepared(g: Grant) {
    && (g.organizationWide <==> g.scope == UNLIMITED)
    && (g.scope.ceiling.Some? ==>
          && g.scope.ceiling.value.amount > 0
          && (g.scope.currencies == [] || g.scope.ceiling.value.currency in g.scope.currencies))
    && (g.validTo.Some? ==> g.validTo.value > g.validFrom)
  }

  predicate ContainsValues(source: seq<string>, target: seq<string>) {
    source == [] || (target != [] && forall k :: 0 <= k < |target| ==> target[k] in source)
  }

  function EffectiveCurrencies(s: Scope): seq<string> {
    if s.currencies != [] then s.currencies else if s.ceiling.Some? then [s.ceiling.value.currency] else []
  }

  predicate ScopeContains(source: Scope, target: Scope) {
    && ContainsValues(source.branches, target.branches)
    && ContainsValues(source.units, target.units)
    && ContainsValues(source.cashboxes, target.cashboxes)
    && ContainsValues(source.bankAccounts, target.bankAccounts)
    && ContainsValues(source.documentTypes, target.documentTypes)
    && ContainsValues(source.methodCategories, target.methodCategories)
    && ContainsValues(EffectiveCurrencies(source), EffectiveCurrencies(target))
    && (source.ceiling.Some? ==>
          && target.ceiling.Some?
          && target.ceiling.value.currency == source.ceiling.value.currency
          && target.ceiling.value.amount <= source.ceiling.value.amount)
  }

  predicate GrantContains(source: Grant, target: Grant) {
    if target.validFrom < source.validFrom then false
    else if source.validTo.Some? && (target.validTo.None? || target.validTo.value > source.validTo.value) then false
    else if source.organizationWide then true
    else if target.organizationWide then false
    else ScopeContains(source.scope, target.scope)
  }

  // ---- authorization ----

  /** What an action touches. A payment may touch several currencies; a
      settlement touches one, the currency of its amount. */
  datatype Context = Context(
    branches: seq<string>, units: seq<string>, cashboxes: seq<string>, bankAccounts: seq<string>,
    documentTypes: seq<string>, methodCategories: seq<string>, currencies: seq<string>,
    amount: int, amountCurrency: string)

  predicate Covers(scope: seq<string>, values: seq<string>) {
    scope == [] || (|values| > 0 && forall k :: 0 <= k < |values| ==> values[k] in scope)
  }

  predicate CeilingAllows(ceiling: Option<Ceiling>, amount: int, currency: string) {
    ceiling.None? || (ceiling.value.currency == currency && amount <= ceiling.value.amount)
  }

  /** Which dimensions a payment filter looks at: all of them, those of a payment
      request, which has no source yet, or those of accounting. */
  datatype Profile = FULL | REQUEST | ACCOUNTING

  const PAYMENT_REQUEST := "PAYMENT_REQUEST"

  function ProfileOf(accounting: bool, c: Context): Profile {
    if accounting then ACCOUNTING else if c.documentTypes == [PAYMENT_REQUEST] then REQUEST else FULL
  }

  predicate Authorizes(p: Profile, s: Scope, c: Context) {
    && Covers(s.branches, c.branches) && Covers(s.units, c.units)
    && Covers(s.documentTypes, c.documentTypes)
    && (p == ACCOUNTING || Covers(s.currencies, c.currencies))
    && (p == FULL ==>
          && Covers(s.cashboxes, c.cashboxes) && Covers(s.bankAccounts, c.bankAccounts)
          && Covers(s.methodCategories, c.methodCategories))
    && CeilingAllows(s.ceiling, c.amount, c.amountCurrency)
  }

  /** The filter of payments, for either scope profile a caller may ask for. */
  predicate AuthorizesPayment(accounting: bool, s: Scope, c: Context) {
    Authorizes(ProfileOf(accounting, c), s, c)
  }

  predicate OneCurrency(c: Context) { c.currencies == [c.amountCurrency] }

  /** The filter of settlements looks at fewer dimensions. */
  predicate AuthorizesSettlement(s: Scope, c: Context) {
    && Covers(s.branches, c.branches) && Covers(s.units, c.units) && Covers(s.bankAccounts, c.bankAccounts)
    && Covers(s.currencies, [c.amountCurrency]) && CeilingAllows(s.ceiling, c.amount, c.amountCurrency)
  }

  predicate CurrentAt(g: Grant, now: int) {
    g.validFrom <= now && (g.validTo.Some? ==> now < g.validTo.value)
  }

  // ---- the filters, value by value ----

  /** A list given allows only its values, and then something has to be named. */
  predicate Allows(list: seq<string>, values: seq<string>) {
    list == [] || (values != [] && forall k :: 0 <= k < |values| ==> values[k] in list)
  }

  predicate UnderCeiling(s: Scope, amount: int, currency: string) {
    s.ceiling.Some? ==> currency == s.ceiling.value.currency && amount <= s.ceiling.value.amount
  }

  /** What each filter looks at, and that it looks at nothing else. */
  lemma FiltersOnFields(s: Scope, c: Context, priced: bool)
    ensures AuthorizesSettlement(s, c) <==>
              && Allows(s.branches, c.branches) && Allows(s.units, c.units) && Allows(s.bankAccounts, c.bankAccounts)
              && (s.currencies == [] || c.amountCurrency in s.currencies)
              && UnderCeiling(s, c.amount, c.amountCurrency)
    ensures AuthorizesTransfer(s, c) <==>
              && Allows(s.branches, c.branches) && Allows(s.units, c.units) && Allows(s.cashboxes, c.cashboxes)
              && Allows(s.bankAccounts, c.bankAccounts) && Allows(s.currencies, c.currencies)
              && (s.documentTypes == [] || "TRANSFER" in s.documentTypes)
              && UnderCeiling(s, c.amount, c.amountCurrency)
    ensures AuthorizesCashbox(priced, s, c) <==>
              && Allows(s.branches, c.branches) && Allows(s.units, c.units) && Allows(s.cashboxes, c.cashboxes)
              && Allows(s.bankAccounts, c.bankAccounts) && Allows(s.currencies, c.currencies)
              && s.documentTypes == [] && s.methodCategories == []
              && (s.ceiling.Some? ==> priced) && UnderCeiling(s, c.amount, c.amountCurrency)
    ensures AuthorizesPayment(true, s, c) <==>
              && Allows(s.branches, c.branches) && Allows(s.units, c.units) && Allows(s.documentTypes, c.documentTypes)
              && UnderCeiling(s, c.amount, c.amountCurrency)
    ensures AuthorizesPayment(false, s, c) <==>
              && Allows(s.branches, c.branches) && Allows(s.units, c.units) && Allows(s.documentTypes, c.documentTypes)
              && Allows(s.currencies, c.currencies) && UnderCeiling(s, c.amount, c.amountCurrency)
              && (c.documentTypes == ["PAYMENT_REQUEST"]
                  || (Allows(s.cashboxes, c.cashboxes) && Allows(s.bankAccounts, c.bankAccounts)
                      && Allows(s.methodCategories, c.methodCategories)))
  {
    CoversOne(s.currencies, c.amountCurrency);
    CoversOne(s.documentTypes, TRANSFER);
    SameAsCovers(s.branches, c.branches);
    SameAsCovers(s.units, c.units);
    SameAsCovers(s.cashboxes, c.cashboxes);
    SameAsCovers(s.bankAccounts, c.bankAccounts);
    SameAsCovers(s.documentTypes, c.documentTypes);
    SameAsCovers(s.methodCategories, c.methodCategories);
    SameAsCovers(s.currencies, c.currencies);
    hide Allows, Covers;
  }

  lemma SameAsCovers(list: seq<string>, values: seq<string>)
    ensures Covers(list, values) <==> Allows(list, values)
  {
  }

  // ---- containment is an order ----

  lemma CoversOne(scope: seq<string>, value: string)
    ensures Covers(scope, [value]) <==> scope == [] || value in scope
  {
    assert [value][0] == value;
  }

  /** A list contains another exactly when it covers all that the other covers. */
  lemma ContainsValuesMeaning(source: seq<string>, target: seq<string>)
    ensures ContainsValues(source, target) <==> forall values :: Covers(target, values) ==> Covers(source, values)
  {
    assert Covers(target, target);
    if ContainsValues(source, target) {
      forall values | Covers(target, values)
        ensures Covers(source, values)
      {
        if source != [] {
          assert forall k :: 0 <= k < |values| ==> values[k] in target;
        }
      }
    }
  }

  lemma ContainsValuesTransitive(a: seq<string>, b: seq<string>, c: seq<string>)
    requires ContainsValues(a, b) && ContainsValues(b, c)
    ensures ContainsValues(a, c)
  {
  }

  lemma GrantContainsReflexive(g: Grant)
    ensures GrantContains(g, g)
  {
  }

  lemma GrantContainsTransitive(a: Grant, b: Grant, c: Grant)
    requires GrantContains(a, b) && GrantContains(b, c)
    ensures GrantContains(a, c)
  {
    if !a.organizationWide {
      var x, y, z := a.scope, b.scope, c.scope;
      ContainsValuesTransitive(x.branches, y.branches, z.branches);
      ContainsValuesTransitive(x.units, y.units, z.units);
      ContainsValuesTransitive(x.cashboxes, y.cashboxes, z.cashboxes);
      ContainsValuesTransitive(x.bankAccounts, y.bankAccounts, z.bankAccounts);
      ContainsValuesTransitive(x.documentTypes, y.documentTypes, z.documentTypes);
      ContainsValuesTransitive(x.methodCategories, y.methodCategories, z.methodCategories);
      ContainsValuesTransitive(EffectiveCurrencies(x), EffectiveCurrencies(y), EffectiveCurrencies(z));
    }
  }

  // ---- soundness ----

  lemma CoversThrough(source: seq<string>, target: seq<string>, values: seq<string>)
    requires ContainsValues(source, target) && Covers(target, values)
    ensures Covers(source, values)
  {
    ContainsValuesMeaning(source, target);
  }

  lemma SoundForOneCurrency(source: Scope, target: Scope, currency: string, amount: int)
    requires ContainsValues(EffectiveCurrencies(source), EffectiveCurrencies(target))
    requires source.ceiling.Some? ==>
               && target.ceiling.Some?
               && target.ceiling.value.currency == source.ceiling.value.currency
               && target.ceiling.value.amount <= source.ceiling.value.amount
    requires Covers(target.currencies, [currency]) && CeilingAllows(target.ceiling, amount, currency)
    ensures Covers(source.currencies, [currency]) && CeilingAllows(source.ceiling, amount, currency)
  {
    if source.currencies != [] {
      assert currency in EffectiveCurrencies(target) by {
        if target.currencies == [] {
          assert EffectiveCurrencies(target) == [target.ceiling.value.currency];
        } else {
          assert [currency][0] in target.currencies;
        }
      }
    }
  }

  /** Whatever a contained grant authorizes for a settlement, at any time, its
      container authorizes too. */
  lemma SoundForSettlements(source: Grant, target: Grant, c: Context, now: int)
    requires Prepared(source) && GrantContains(source, target)
    requires CurrentAt(target, now) && AuthorizesSettlement(target.scope, c)
    ensures CurrentAt(source, now) && AuthorizesSettlement(source.scope, c)
  {
    if !source.organizationWide {
      var s, t := source.scope, target.scope;
      CoversThrough(s.branches, t.branches, c.branches);
      CoversThrough(s.units, t.units, c.units);
      CoversThrough(s.bankAccounts, t.bankAccounts, c.bankAccounts);
      SoundForOneCurrency(s, t, c.amountCurrency, c.amount);
    }
  }

  lemma SoundDimensions(p: Profile, source: Scope, target: Scope, c: Context)
    requires ScopeContains(source, target) && Authorizes(p, target, c)
    requires p == ACCOUNTING || Covers(source.currencies, c.currencies)
    ensures Authorizes(p, source, c)
  {
    CoversThrough(source.branches, target.branches, c.branches);
    CoversThrough(source.units, target.units, c.units);
    CoversThrough(source.documentTypes, target.documentTypes, c.documentTypes);
    if p == FULL {
      CoversThrough(source.cashboxes, target.cashboxes, c.cashboxes);
      CoversThrough(source.bankAccounts, target.bankAccounts, c.bankAccounts);
      CoversThrough(source.methodCategories, target.methodCategories, c.methodCategories);
    }
  }

  /** The same for payments in the currency of their amount, under every profile. */
  lemma SoundForOneCurrencyPayments(p: Profile, source: Grant, target: Grant, c: Context, now: int)
    requires Prepared(source) && GrantContains(source, target) && OneCurrency(c)
    requires CurrentAt(target, now) && Authorizes(p, target.scope, c)
    ensures CurrentAt(source, now) && Authorizes(p, source.scope, c)
  {
    if !source.organizationWide {
      if p != ACCOUNTING {
        SoundForOneCurrency(source.scope, target.scope, c.amountCurrency, c.amount);
      }
      SoundDimensions(p, source.scope, target.scope, c);
    }
  }

  /** Payments of accounting are sound in any currencies, none of which it looks at. */
  lemma SoundForAccounting(source: Grant, target: Grant, c: Context, now: int)
    requires Prepared(source) && GrantContains(source, target)
    requires CurrentAt(target, now) && AuthorizesPayment(true, target.scope, c)
    ensures CurrentAt(source, now) && AuthorizesPayment(true, source.scope, c)
  {
    if !source.organizationWide {
      SoundDimensions(ACCOUNTING, source.scope, target.scope, c);
    }
  }

  // ---- when containment decides exactly ----

  /** A code longer than all listed ones. */
  function Longer(codes: seq<string>): (code: string)
    ensures code !in codes && forall k :: 0 <= k < |codes| ==> |codes[k]| < |code|
  {
    if codes == [] then "X"
    else
      var before := Longer(codes[..|codes| - 1]);
      var last := codes[|codes| - 1];
      if |last| < |before| then before else last + "X"
  }

  /** The context that uses a scope to its limits, in currency `currency`. */
  function Fullest(s: Scope, amount: int, currency: string): Context {
    Context(s.branches, s.units, s.cashboxes, s.bankAccounts, s.documentTypes, s.methodCategories, [currency], amount,
      currency)
  }

  ghost predicate AllWithin(source: Grant, target: Grant) {
    forall c: Context, now: int :: OneCurrency(c) && CurrentAt(target, now) && Authorizes(FULL, target.scope, c)
      ==> CurrentAt(source, now) && Authorizes(FULL, source.scope, c)
  }

  lemma Instance(source: Grant, target: Grant, c: Context, now: int)
    requires AllWithin(source, target) && OneCurrency(c) && CurrentAt(target, now) && Authorizes(FULL, target.scope, c)
    ensures CurrentAt(source, now) && Authorizes(FULL, source.scope, c)
  {
  }

  /** An amount and a currency the target allows, the amount above any ceiling of
      the source if the target has none. */
  function Probe(source: Scope, target: Scope, currency: string): Context {
    if target.ceiling.Some? then Fullest(target, target.ceiling.value.amount, target.ceiling.value.currency)
    else Fullest(target, if source.ceiling.Some? then source.ceiling.value.amount + 1 else 0, currency)
  }

  lemma ProbeAuthorized(source: Scope, target: Scope, currency: string)
    requires target.ceiling.Some? ==> target.currencies == [] || target.ceiling.value.currency in target.currencies
    requires target.ceiling.None? ==> target.currencies == [] || currency in target.currencies
    ensures OneCurrency(Probe(source, target, currency)) && Authorizes(FULL, target, Probe(source, target, currency))
  {
  }

  lemma PeriodWithin(source: Grant, target: Grant, c: Context)
    requires AllWithin(source, target) && Prepared(target) && OneCurrency(c) && Authorizes(FULL, target.scope, c)
    ensures source.validFrom <= target.validFrom
    ensures source.validTo.Some? ==> target.validTo.Some? && target.validTo.value <= source.validTo.value
  {
    Instance(source, target, c, target.validFrom);
    if source.validTo.Some? && (target.validTo.None? || target.validTo.value > source.validTo.value) {
      var late := if source.validTo.value < target.validFrom then target.validFrom else source.validTo.value;
      assert !CurrentAt(source, late);
      assert CurrentAt(target, late);
      Instance(source, target, c, late);
    }
  }

  /** The scope restricts an unlimited target. */
  lemma UnlimitedNotWithin(source: Grant, target: Grant)
    requires Prepared(source) && Prepared(target) && AllWithin(source, target) && target.organizationWide
    ensures source.organizationWide
  {
    var c := Probe(source.scope, target.scope, Longer(source.scope.currencies));
    ProbeAuthorized(source.scope, target.scope, Longer(source.scope.currencies));
    CoversOne(source.scope.currencies, c.amountCurrency);
    Instance(source, target, c, target.validFrom);
  }

  /** The guard that compares currencies, for listed ones: the container is open,
      or lists every currency the contained grant lists. */
  predicate ListsCurrencies(source: Grant, target: Grant) {
    var allowed := EffectiveCurrencies(source.scope);
    || source.organizationWide
    || allowed == []
    || forall k :: 0 <= k < |target.scope.currencies| ==> target.scope.currencies[k] in allowed
  }

  lemma CurrenciesWithin(source: Grant, target: Grant)
    requires Prepared(source) && Prepared(target) && AllWithin(source, target)
    requires ListsCurrencies(source, target) && !source.organizationWide
    ensures ContainsValues(EffectiveCurrencies(source.scope), EffectiveCurrencies(target.scope))
  {
    var s, t := source.scope, target.scope;
    var allowed := EffectiveCurrencies(s);
    if allowed != [] && t.currencies == [] {
      var wanted := if t.ceiling.Some? then t.ceiling.value.currency else Longer(allowed);
      ProbeAuthorized(s, t, wanted);
      CoversOne(s.currencies, wanted);
      Instance(source, target, Probe(s, t, wanted), target.validFrom);
    }
  }

  lemma WithinIsContained(source: Grant, target: Grant)
    requires Prepared(source) && Prepared(target) && AllWithin(source, target) && ListsCurrencies(source, target)
    ensures GrantContains(source, target)
  {
    var s, t := source.scope, target.scope;
    var currency := if t.currencies != [] then t.currencies[0] else "USD";
    var c := Probe(s, t, currency);
    ProbeAuthorized(s, t, currency);
    PeriodWithin(source, target, c);
    if !source.organizationWide {
      if target.organizationWide {
        UnlimitedNotWithin(source, target);
      } else {
        CurrenciesWithin(source, target);
        Instance(source, target, c, target.validFrom);
      }
    }
  }

  lemma ContainedLists(source: Grant, target: Grant)
    requires GrantContains(source, target)
    ensures ListsCurrencies(source, target)
  {
  }

  /** Containment of prepared grants is exactly this: at every time the container
      authorizes every payment the contained grant authorizes, and it lists every
      currency that one lists. */
  lemma ContainsIffWithin(source: Grant, target: Grant)
    requires Prepared(source) && Prepared(target)
    ensures GrantContains(source, target) <==> AllWithin(source, target) && ListsCurrencies(source, target)
  {
    if GrantContains(source, target) {
      ContainedLists(source, target);
      forall c: Context, now: int | OneCurrency(c) && CurrentAt(target, now) && Authorizes(FULL, target.scope, c)
        ensures CurrentAt(source, now) && Authorizes(FULL, source.scope, c)
      {
        SoundForOneCurrencyPayments(FULL, source, target, c, now);
      }
    }
    if AllWithin(source, target) && ListsCurrencies(source, target) {
      WithinIsContained(source, target);
    }
  }

  /** So of the grants that are within, exactly those are refused that list a
      currency the container does not: even one that authorizes nothing. */
  lemma WithinIsContainedIff(source: Grant, target: Grant)
    requires Prepared(source) && Prepared(target) && AllWithin(source, target)
    ensures GrantContains(source, target) <==>
              || source.organizationWide
              || EffectiveCurrencies(source.scope) == []
              || forall k :: 0 <= k < |target.scope.currencies| ==>
                   target.scope.currencies[k] in EffectiveCurrencies(source.scope)
  {
    ContainsIffWithin(source, target);
  }

  /** A grant refused although it is within: beside a ceiling in one currency a
      second currency authorizes nothing, but counts. */
  lemma SecondCurrencyCounts()
    ensures var ceiling := Some(Ceiling(1, "USD"));
            var source := Grant(false, UNLIMITED.(currencies := ["USD"], ceiling := ceiling), 0, None);
            var target := Grant(false, UNLIMITED.(currencies := ["USD", "EUR"], ceiling := ceiling), 0, None);
            Prepared(source) && Prepared(target) && AllWithin(source, target) && !GrantContains(source, target)
  {
    var ceiling := Some(Ceiling(1, "USD"));
    var source := Grant(false, UNLIMITED.(currencies := ["USD"], ceiling := ceiling), 0, None);
    var target := Grant(false, UNLIMITED.(currencies := ["USD", "EUR"], ceiling := ceiling), 0, None);
    assert target.scope.currencies[1] == "EUR" && "EUR" !in source.scope.currencies by {
      assert "EUR"[0] != "USD"[0];
    }
  }

  // ---- payments as the service asks about them ----

  /** A payment has one document type and at most one branch and one unit. */
  predicate PaymentShape(c: Context) {
    |c.branches| <= 1 && |c.units| <= 1 && |c.documentTypes| == 1 && OneCurrency(c)
  }

  ghost predicate AllAskedWithin(source: Grant, target: Grant) {
    forall c: Context, now: int ::
      PaymentShape(c) && CurrentAt(target, now) && AuthorizesPayment(false, target.scope, c)
      ==> CurrentAt(source, now) && AuthorizesPayment(false, source.scope, c)
  }

  /** A grant for payment requests alone: nothing looks at its sources of money. */
  predicate RequestsOnly(s: Scope) {
    s.documentTypes != [] && forall k :: 0 <= k < |s.documentTypes| ==> s.documentTypes[k] == PAYMENT_REQUEST
  }

  predicate SourcesContained(source: Scope, target: Scope) {
    && ContainsValues(source.cashboxes, target.cashboxes)
    && ContainsValues(source.bankAccounts, target.bankAccounts)
    && ContainsValues(source.methodCategories, target.methodCategories)
  }

  /** A value a list allows, or none when it is open. */
  function First(list: seq<string>): seq<string> { if list == [] then [] else [list[0]] }

  /** A document type the target allows, another one than payment requests if it can be. */
  ghost function SomeType(source: Scope, target: Scope): (d: string)
    ensures target.documentTypes == [] || d in target.documentTypes
    ensures target.documentTypes == [] ==> d !in source.documentTypes
    ensures !RequestsOnly(target) ==> d != PAYMENT_REQUEST
  {
    if target.documentTypes == [] then
      var d := Longer([PAYMENT_REQUEST] + source.documentTypes);
      assert PAYMENT_REQUEST in [PAYMENT_REQUEST] + source.documentTypes;
      d
    else if RequestsOnly(target) then target.documentTypes[0]
    else
      var k :| 0 <= k < |target.documentTypes| && target.documentTypes[k] != PAYMENT_REQUEST;
      target.documentTypes[k]
  }

  /** A payment at the limits of the target, of one branch, unit and type. */
  function Asked(source: Scope, target: Scope, branch: seq<string>, unit: seq<string>, d: string,
      currency: string): Context {
    Probe(source, target, currency).(branches := branch, units := unit, documentTypes := [d])
  }

  predicate Fits(allowed: seq<string>, values: seq<string>) {
    if allowed == [] then values == [] else |values| == 1 && values[0] in allowed
  }

  lemma AskedAuthorized(
      source: Scope, target: Scope, branch: seq<string>, unit: seq<string>, d: string, currency: string)
    requires target.ceiling.Some? ==> target.currencies == [] || target.ceiling.value.currency in target.currencies
    requires target.ceiling.None? ==> target.currencies == [] || currency in target.currencies
    requires Fits(target.branches, branch) && Fits(target.units, unit)
    requires target.documentTypes == [] || d in target.documentTypes
    ensures var c := Asked(source, target, branch, unit, d, currency);
            PaymentShape(c) && AuthorizesPayment(false, target, c)
  {
    CoversOne(target.documentTypes, d);
    ProbeAuthorized(source, target, currency);
  }

  lemma AskedWithin(
      source: Grant, target: Grant, branch: seq<string>, unit: seq<string>, d: string, currency: string, now: int)
    requires Prepared(target) && AllAskedWithin(source, target) && CurrentAt(target, now)
    requires target.scope.ceiling.None? ==> target.scope.currencies == [] || currency in target.scope.currencies
    requires Fits(target.scope.branches, branch) && Fits(target.scope.units, unit)
    requires target.scope.documentTypes == [] || d in target.scope.documentTypes
    ensures var c := Asked(source.scope, target.scope, branch, unit, d, currency);
            CurrentAt(source, now) && AuthorizesPayment(false, source.scope, c)
  {
    AskedAuthorized(source.scope, target.scope, branch, unit, d, currency);
    hide AuthorizesPayment, Asked, Fits;
  }

  /** A currency the target lists, or any when it lists none. */
  function SomeCurrency(target: Scope): (c: string)
    ensures target.currencies == [] || c in target.currencies
  {
    if target.currencies != [] then target.currencies[0] else "USD"
  }

  lemma BranchesWithin(source: Grant, target: Grant)
    requires Prepared(target) && AllAskedWithin(source, target)
    ensures ContainsValues(source.scope.branches, target.scope.branches)
  {
    var s, t := source.scope, target.scope;
    var d, currency := SomeType(s, t), SomeCurrency(t);
    if s.branches != [] {
      AskedWithin(source, target, First(t.branches), First(t.units), d, currency, target.validFrom);
      forall k | 0 <= k < |t.branches|
        ensures t.branches[k] in s.branches
      {
        AskedWithin(source, target, [t.branches[k]], First(t.units), d, currency, target.validFrom);
        CoversOne(s.branches, t.branches[k]);
      }
    }
  }

  lemma UnitsWithin(source: Grant, target: Grant)
    requires Prepared(target) && AllAskedWithin(source, target)
    ensures ContainsValues(source.scope.units, target.scope.units)
  {
    var s, t := source.scope, target.scope;
    var d, currency := SomeType(s, t), SomeCurrency(t);
    if s.units != [] {
      AskedWithin(source, target, First(t.branches), First(t.units), d, currency, target.validFrom);
      forall k | 0 <= k < |t.units|
        ensures t.units[k] in s.units
      {
        AskedWithin(source, target, First(t.branches), [t.units[k]], d, currency, target.validFrom);
        CoversOne(s.units, t.units[k]);
      }
    }
  }

  lemma TypesWithin(source: Grant, target: Grant)
    requires Prepared(target) && AllAskedWithin(source, target)
    ensures ContainsValues(source.scope.documentTypes, target.scope.documentTypes)
  {
    var s, t := source.scope, target.scope;
    var currency := SomeCurrency(t);
    if s.documentTypes != [] {
      AskedWithin(source, target, First(t.branches), First(t.units), SomeType(s, t), currency, target.validFrom);
      CoversOne(s.documentTypes, SomeType(s, t));
      forall k | 0 <= k < |t.documentTypes|
        ensures t.documentTypes[k] in s.documentTypes
      {
        AskedWithin(source, target, First(t.branches), First(t.units), t.documentTypes[k], currency, target.validFrom);
        CoversOne(s.documentTypes, t.documentTypes[k]);
      }
    }
  }

  lemma SourcesWithin(source: Grant, target: Grant)
    requires Prepared(target) && AllAskedWithin(source, target) && !RequestsOnly(target.scope)
    ensures SourcesContained(source.scope, target.scope)
  {
    var s, t := source.scope, target.scope;
    var d := SomeType(s, t);
    AskedWithin(source, target, First(t.branches), First(t.units), d, SomeCurrency(t), target.validFrom);
    assert [d][0] == d && [PAYMENT_REQUEST][0] == PAYMENT_REQUEST;
  }

  lemma CeilingWithin(source: Grant, target: Grant)
    requires Prepared(source) && Prepared(target) && AllAskedWithin(source, target)
    ensures source.scope.ceiling.Some? ==>
              && target.scope.ceiling.Some?
              && target.scope.ceiling.value.currency == source.scope.ceiling.value.currency
              && target.scope.ceiling.value.amount <= source.scope.ceiling.value.amount
  {
    var s, t := source.scope, target.scope;
    AskedWithin(source, target, First(t.branches), First(t.units), SomeType(s, t), SomeCurrency(t), target.validFrom);
  }

  lemma AskedCurrenciesWithin(source: Grant, target: Grant)
    requires Prepared(source) && Prepared(target) && AllAskedWithin(source, target)
    requires ListsCurrencies(source, target) && !source.organizationWide
    ensures ContainsValues(EffectiveCurrencies(source.scope), EffectiveCurrencies(target.scope))
  {
    var s, t := source.scope, target.scope;
    var allowed := EffectiveCurrencies(s);
    if allowed != [] && t.currencies == [] {
      var wanted := if t.ceiling.Some? then t.ceiling.value.currency else Longer(allowed);
      AskedWithin(source, target, First(t.branches), First(t.units), SomeType(s, t), wanted, target.validFrom);
      CoversOne(s.currencies, wanted);
    }
  }

  lemma AskedPeriodWithin(source: Grant, target: Grant)
    requires Prepared(target) && AllAskedWithin(source, target)
    ensures source.validFrom <= target.validFrom
    ensures source.validTo.Some? ==> target.validTo.Some? && target.validTo.value <= source.validTo.value
  {
    var s, t := source.scope, target.scope;
    var d, currency := SomeType(s, t), SomeCurrency(t);
    AskedWithin(source, target, First(t.branches), First(t.units), d, currency, target.validFrom);
    if source.validTo.Some? && (target.validTo.None? || target.validTo.value > source.validTo.value) {
      var late := if source.validTo.value < target.validFrom then target.validFrom else source.validTo.value;
      AskedWithin(source, target, First(t.branches), First(t.units), d, currency, late);
    }
  }

  lemma AskedWithinIsContained(source: Grant, target: Grant)
    requires Prepared(source) && Prepared(target) && AllAskedWithin(source, target) && ListsCurrencies(source, target)
    requires source.organizationWide || !RequestsOnly(target.scope) || SourcesContained(source.scope, target.scope)
    ensures GrantContains(source, target)
  {
    AskedPeriodWithin(source, target);
    if !source.organizationWide {
      BranchesWithin(source, target);
      UnitsWithin(source, target);
      TypesWithin(source, target);
      CeilingWithin(source, target);
      AskedCurrenciesWithin(source, target);
      if !RequestsOnly(target.scope) {
        SourcesWithin(source, target);
      }
      hide AllAskedWithin, ListsCurrencies;
    }
  }

  lemma ContainedSources(source: Grant, target: Grant)
    requires Prepared(source) && Prepared(target) && GrantContains(source, target)
    ensures source.organizationWide || SourcesContained(source.scope, target.scope)
  {
  }

  /** The same over the payments the service asks about, each of one document type:
      containment says that the container authorizes all of them at every time,
      lists the currencies the contained grant lists, and, of a grant for payment
      requests alone, contains also the sources of money nothing looks at. */
  lemma ContainsIffAskedWithin(source: Grant, target: Grant)
    requires Prepared(source) && Prepared(target)
    ensures GrantContains(source, target) <==>
              && AllAskedWithin(source, target) && ListsCurrencies(source, target)
              && (source.organizationWide || !RequestsOnly(target.scope)
                 || SourcesContained(source.scope, target.scope))
  {
    if GrantContains(source, target) {
      ContainedLists(source, target);
      ContainedSources(source, target);
      forall c: Context, now: int |
        PaymentShape(c) && CurrentAt(target, now) && AuthorizesPayment(false, target.scope, c)
        ensures CurrentAt(source, now) && AuthorizesPayment(false, source.scope, c)
      {
        SoundForOneCurrencyPayments(ProfileOf(false, c), source, target, c, now);
      }
    }
    hide GrantContains, AllAskedWithin, ListsCurrencies, RequestsOnly, SourcesContained;
    if AllAskedWithin(source, target) && ListsCurrencies(source, target)
       && (source.organizationWide || !RequestsOnly(target.scope) || SourcesContained(source.scope, target.scope)) {
      AskedWithinIsContained(source, target);
    }
  }

  // ---- payments in several currencies ----

  /** A payment that uses a scope to its limits, its ceiling included, in currency
      `currency`. */
  function InCurrency(s: Scope, ceiling: Ceiling, currency: string): Context {
    Fullest(s, ceiling.amount, ceiling.currency).(currencies := [currency])
  }

  lemma AuthorizedInCurrency(s: Scope, ceiling: Ceiling, currency: string)
    requires s.ceiling == Some(ceiling) && (s.currencies == [] || currency in s.currencies)
    ensures AuthorizesPayment(false, s, InCurrency(s, ceiling, currency))
  {
    CoversOne(s.currencies, currency);
  }

  lemma RefusedInCurrency(s: Scope, c: Context, currency: string)
    requires c.currencies == [currency] && s.currencies != [] && currency !in s.currencies
    ensures !AuthorizesPayment(false, s, c)
  {
    CoversOne(s.currencies, currency);
  }

  ghost predicate AllPaymentsWithin(accounting: bool, source: Scope, target: Scope) {
    forall c: Context :: AuthorizesPayment(accounting, target, c) ==> AuthorizesPayment(accounting, source, c)
  }

  lemma SoundWithCurrencies(accounting: bool, source: Scope, target: Scope, c: Context)
    requires ScopeContains(source, target) && AuthorizesPayment(accounting, target, c)
    requires accounting || !(target.currencies == [] && target.ceiling.Some? && source.currencies != [])
    ensures AuthorizesPayment(accounting, source, c)
  {
    if !accounting && source.currencies != [] {
      CoversThrough(source.currencies, target.currencies, c.currencies);
    }
    SoundDimensions(ProfileOf(accounting, c), source, target, c);
  }

  /** For payments that touch several currencies containment is sound except when
      the contained scope names no currency but has a ceiling, and the container
      names currencies: the ceiling is taken for a currency restriction that the
      payment check does not make. Accounting looks at no currency at all. */
  lemma SoundForPaymentsIff(accounting: bool, source: Scope, target: Scope)
    requires ScopeContains(source, target)
    ensures AllPaymentsWithin(accounting, source, target) <==>
            accounting || !(target.currencies == [] && target.ceiling.Some? && source.currencies != [])
  {
    if !accounting && target.currencies == [] && target.ceiling.Some? && source.currencies != [] {
      var other := Longer(source.currencies);
      var c := InCurrency(target, target.ceiling.value, other);
      AuthorizedInCurrency(target, target.ceiling.value, other);
      RefusedInCurrency(source, c, other);
      assert !AllPaymentsWithin(accounting, source, target);
    } else {
      forall c: Context | AuthorizesPayment(accounting, target, c)
        ensures AuthorizesPayment(accounting, source, c)
      {
        SoundWithCurrencies(accounting, source, target, c);
      }
    }
  }

  /** Two grants as the service prepares them, and a payment it can receive, of one
      document type and without branch or unit: contained, but not sound. */
  lemma CeilingIsNoRestriction()
    ensures var source := Grant(false, UNLIMITED.(currencies := ["USD"]), 0, None);
            var target := Grant(false, UNLIMITED.(ceiling := Some(Ceiling(5, "USD"))), 0, None);
            var c := Context([], [], ["box"], [], ["PAYMENT"], ["CASH"], ["USD", "EUR"], 5, "USD");
            && Prepared(source) && Prepared(target) && GrantContains(source, target)
            && AuthorizesPayment(false, target.scope, c) && !AuthorizesPayment(false, source.scope, c)
  {
    var c := Context([], [], ["box"], [], ["PAYMENT"], ["CASH"], ["USD", "EUR"], 5, "USD");
    assert c.currencies[1] == "EUR" && "EUR"[0] != "USD"[0];
  }

  // ---- transfers and cashboxes ----

  const TRANSFER := "TRANSFER"

  /** The filter of transfers looks at no method category. */
  predicate AuthorizesTransfer(s: Scope, c: Context) {
    && Covers(s.branches, c.branches) && Covers(s.units, c.units) && Covers(s.cashboxes, c.cashboxes)
    && Covers(s.bankAccounts, c.bankAccounts) && Covers(s.currencies, c.currencies)
    && Covers(s.documentTypes, [TRANSFER]) && CeilingAllows(s.ceiling, c.amount, c.amountCurrency)
  }

  /** The filter of cashbox operations takes only grants without document types and
      method categories, and with a ceiling only for an operation with an amount. */
  predicate AuthorizesCashbox(priced: bool, s: Scope, c: Context) {
    && Covers(s.branches, c.branches) && Covers(s.units, c.units) && Covers(s.cashboxes, c.cashboxes)
    && Covers(s.bankAccounts, c.bankAccounts) && Covers(s.currencies, c.currencies)
    && s.documentTypes == [] && s.methodCategories == []
    && (s.ceiling.Some? ==> priced && CeilingAllows(s.ceiling, c.amount, c.amountCurrency))
  }

  lemma SoundPlaces(source: Scope, target: Scope, c: Context)
    requires ScopeContains(source, target)
    requires Covers(target.branches, c.branches) && Covers(target.units, c.units)
    requires Covers(target.cashboxes, c.cashboxes) && Covers(target.bankAccounts, c.bankAccounts)
    ensures Covers(source.branches, c.branches) && Covers(source.units, c.units)
    ensures Covers(source.cashboxes, c.cashboxes) && Covers(source.bankAccounts, c.bankAccounts)
  {
    CoversThrough(source.branches, target.branches, c.branches);
    CoversThrough(source.units, target.units, c.units);
    CoversThrough(source.cashboxes, target.cashboxes, c.cashboxes);
    CoversThrough(source.bankAccounts, target.bankAccounts, c.bankAccounts);
  }

  /** Transfers in the currency of their amount. */
  lemma SoundForOneCurrencyTransfers(source: Grant, target: Grant, c: Context, now: int)
    requires Prepared(source) && GrantContains(source, target) && OneCurrency(c)
    requires CurrentAt(target, now) && AuthorizesTransfer(target.scope, c)
    ensures CurrentAt(source, now) && AuthorizesTransfer(source.scope, c)
  {
    hide Covers, CeilingAllows, ContainsValues;
    if source.organizationWide {
      OpenCovers(c);
    } else {
      var s, t := source.scope, target.scope;
      SoundPlaces(s, t, c);
      CoversThrough(s.documentTypes, t.documentTypes, [TRANSFER]);
      SoundForOneCurrency(s, t, c.amountCurrency, c.amount);
    }
  }

  lemma OpenCovers(c: Context)
    ensures AuthorizesTransfer(UNLIMITED, c) && forall priced :: AuthorizesCashbox(priced, UNLIMITED, c)
  {
  }

  /** Cashbox operations as the service asks about them: with an amount in the one
      currency they name, or without an amount and in any currencies. */
  lemma SoundForCashboxes(priced: bool, source: Grant, target: Grant, c: Context, now: int)
    requires Prepared(source) && GrantContains(source, target) && (priced ==> OneCurrency(c))
    requires CurrentAt(target, now) && AuthorizesCashbox(priced, target.scope, c)
    ensures CurrentAt(source, now) && AuthorizesCashbox(priced, source.scope, c)
  {
    if source.organizationWide {
      OpenCovers(c);
    } else {
      var s, t := source.scope, target.scope;
      SoundPlaces(s, t, c);
      if priced {
        SoundForOneCurrency(s, t, c.amountCurrency, c.amount);
      } else {
        CoversThrough(EffectiveCurrencies(s), EffectiveCurrencies(t), c.currencies);
      }
    }
  }

  /** A scope that some transfer passes. */
  predicate ForTransfers(s: Scope) { s.documentTypes == [] || TRANSFER in s.documentTypes }

  /** A scope that some cashbox operation passes. */
  predicate ForCashboxes(s: Scope) { s.documentTypes == [] && s.methodCategories == [] }

  /** The ceiling of the contained scope is taken for a currency restriction. */
  predicate CeilingForCurrency(source: Scope, target: Scope) {
    target.currencies == [] && target.ceiling.Some? && source.currencies != []
  }

  ghost predicate AllTransfersWithin(source: Scope, target: Scope) {
    forall c: Context :: AuthorizesTransfer(target, c) ==> AuthorizesTransfer(source, c)
  }

  ghost predicate AllCashboxesWithin(source: Scope, target: Scope) {
    forall c: Context, priced: bool :: AuthorizesCashbox(priced, target, c) ==> AuthorizesCashbox(priced, source, c)
  }

  lemma OtherCurrency(source: Scope, target: Scope)
    requires CeilingForCurrency(source, target)
    ensures var c := InCurrency(target, target.ceiling.value, Longer(source.currencies));
            && !Covers(source.currencies, c.currencies)
            && (ForTransfers(target) ==> AuthorizesTransfer(target, c))
            && (ForCashboxes(target) ==> AuthorizesCashbox(true, target, c))
  {
    CoversOne(source.currencies, Longer(source.currencies));
    CoversOne(target.documentTypes, TRANSFER);
  }

  lemma CoversCurrencies(source: Scope, target: Scope, currencies: seq<string>)
    requires ScopeContains(source, target) && !CeilingForCurrency(source, target)
        && Covers(target.currencies, currencies)
    ensures Covers(source.currencies, currencies)
  {
    if source.currencies != [] {
      CoversThrough(source.currencies, target.currencies, currencies);
    }
  }

  /** For transfers that touch several currencies containment is sound with the same
      exception as for payments, provided the contained scope is for transfers. */
  lemma SoundForTransfersIff(source: Scope, target: Scope)
    requires ScopeContains(source, target)
    ensures AllTransfersWithin(source, target) <==> !(CeilingForCurrency(source, target) && ForTransfers(target))
  {
    if CeilingForCurrency(source, target) && ForTransfers(target) {
      OtherCurrency(source, target);
      assert !AllTransfersWithin(source, target);
    } else {
      forall c: Context | AuthorizesTransfer(target, c)
        ensures AuthorizesTransfer(source, c)
      {
        CoversOne(target.documentTypes, TRANSFER);
        SoundPlaces(source, target, c);
        CoversThrough(source.documentTypes, target.documentTypes, [TRANSFER]);
        CoversCurrencies(source, target, c.currencies);
      }
    }
  }

  /** And for cashbox operations in any currencies, provided the contained scope is
      for cashboxes. */
  lemma SoundForCashboxesIff(source: Scope, target: Scope)
    requires ScopeContains(source, target)
    ensures AllCashboxesWithin(source, target) <==> !(CeilingForCurrency(source, target) && ForCashboxes(target))
  {
    if CeilingForCurrency(source, target) && ForCashboxes(target) {
      OtherCurrency(source, target);
      assert !AllCashboxesWithin(source, target);
    } else {
      forall c: Context, priced: bool | AuthorizesCashbox(priced, target, c)
        ensures AuthorizesCashbox(priced, source, c)
      {
        SoundPlaces(source, target, c);
        CoversCurrencies(source, target, c.currencies);
      }
    }
  }

  // ---- resolving an authority ----

  /** A grant as it applies to an actor: his own, or delegated by a grantor. */
  datatype Applied = Applied(scope: Scope, delegatedFrom: Option<string>)

  datatype Authority = Own | DelegatedFrom(user: string) | NoAuthority

  function Eligible(grants: seq<Applied>, c: Context): seq<Applied> {
    if grants == [] then []
    else
      var last := grants[|grants| - 1];
      var before := Eligible(grants[..|grants| - 1], c);
      if AuthorizesSettlement(last.scope, c) then before + [last] else before
  }

  predicate HasOwn(grants: seq<Applied>) {
    exists k :: 0 <= k < |grants| && grants[k].delegatedFrom.None?
  }

  /** The users delegations come from, each once. */
  function Grantors(grants: seq<Applied>): (r: seq<string>)
    ensures forall j, k :: 0 <= j < k < |r| ==> r[j] != r[k]
  {
    if grants == [] then []
    else
      var last := grants[|grants| - 1].delegatedFrom;
      var before := Grantors(grants[..|grants| - 1]);
      if last.Some? && last.value !in before then before + [last.value] else before
  }

  function ResolveSettlement(grants: seq<Applied>, c: Context): Authority {
    var eligible := Eligible(grants, c);
    if HasOwn(eligible) then Own
    else
      var grantors := Grantors(eligible);
      if |grantors| == 1 then DelegatedFrom(grantors[0]) else NoAuthority
  }

  predicate Applies(g: Applied, user: Option<string>, c: Context) {
    AuthorizesSettlement(g.scope, c) && g.delegatedFrom == user
  }

  lemma {:induction false} EligibleMeaning(grants: seq<Applied>, c: Context, g: Applied)
    ensures g in Eligible(grants, c) <==> g in grants && AuthorizesSettlement(g.scope, c)
  {
    if grants != [] {
      EligibleMeaning(grants[..|grants| - 1], c, g);
      assert grants == grants[..|grants| - 1] + [grants[|grants| - 1]];
    }
  }

  lemma {:induction false} GrantorsMeaning(grants: seq<Applied>, user: string)
    ensures user in Grantors(grants) <==> exists g :: g in grants && g.delegatedFrom == Some(user)
  {
    if grants != [] {
      var n := |grants| - 1;
      GrantorsMeaning(grants[..n], user);
      assert grants == grants[..n] + [grants[n]];
      assert grants[n] in grants;
    }
  }

  /** An own grant that applies wins; otherwise the applying delegations must all
      come from one user, and that user's authority is used. */
  lemma ResolveMeaning(grants: seq<Applied>, c: Context)
    ensures ResolveSettlement(grants, c) == Own <==> exists g :: g in grants && Applies(g, None, c)
    ensures forall user :: ResolveSettlement(grants, c) == DelegatedFrom(user) <==>
              && (exists g :: g in grants && Applies(g, Some(user), c))
              && forall g :: g in grants && AuthorizesSettlement(g.scope, c) ==> g.delegatedFrom == Some(user)
  {
    var eligible := Eligible(grants, c);
    forall g: Applied
      ensures g in eligible <==> g in grants && AuthorizesSettlement(g.scope, c)
    {
      EligibleMeaning(grants, c, g);
    }
    assert HasOwn(eligible) <==> exists g :: g in grants && Applies(g, None, c) by {
      OwnMeaning(eligible);
    }
    forall user: string
      ensures user in Grantors(eligible) <==> exists g :: g in eligible && g.delegatedFrom == Some(user)
    {
      GrantorsMeaning(eligible, user);
    }
    forall user: string
      ensures ResolveSettlement(grants, c) == DelegatedFrom(user) <==>
                && (exists g :: g in grants && Applies(g, Some(user), c))
                && forall g :: g in grants && AuthorizesSettlement(g.scope, c) ==> g.delegatedFrom == Some(user)
    {
      OneGrantor(eligible, user);
    }
  }

  lemma OwnMeaning(eligible: seq<Applied>)
    ensures HasOwn(eligible) <==> exists g :: g in eligible && g.delegatedFrom.None?
  {
  }

  lemma OneGrantor(eligible: seq<Applied>, user: string)
    ensures !HasOwn(eligible) && Grantors(eligible) == [user] <==>
            && (exists g :: g in eligible && g.delegatedFrom == Some(user))
            && forall g :: g in eligible ==> g.delegatedFrom == Some(user)
  {
    var grantors := Grantors(eligible);
    GrantorsMeaning(eligible, user);
    OwnMeaning(eligible);
    if !HasOwn(eligible) && grantors == [user] {
      forall g | g in eligible
        ensures g.delegatedFrom == Some(user)
      {
        GrantorsMeaning(eligible, g.delegatedFrom.value);
      }
    }
    if (exists g :: g in eligible && g.delegatedFrom == Some(user))
       && forall g :: g in eligible ==> g.delegatedFrom == Some(user) {
      forall k | 0 <= k < |grantors|
        ensures grantors[k] == user
      {
        GrantorsMeaning(eligible, grantors[k]);
      }
      assert |grantors| <= 1;
    }
  }
}
