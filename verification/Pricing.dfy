/** The one authority on offer prices. Money is in whole cents, percentages in
    basis points. `Offer` says what an offer costs; `PriceOffer` computes it in
    one pass over the selections. */
module Pricing {
  import opened Numbers
  import opened Options
  import opened Seqs

  datatype Category = MachineType | Syrup | Consumable | Purchase
  datatype BillingMode = Fixed | Commission | Included
  datatype LineKind = MachineLine | SyrupLine | ConsumableLine | PurchaseLine | DeliveryLine
  datatype PriceSource = List | Special | Manual | Inclusive
  datatype Role = Free | Extra
  datatype Fulfillment = Pickup | Delivery

  datatype Product = Product(id: string, slug: string, name: string, category: Category, saleUnit: string,
                             defaultBillingMode: BillingMode, listPriceCents: int, containerCount: Option<int>)

  datatype Selection = Selection(product: Product, role: Role, quantity: Number)

  datatype Booking = Booking(product: Product, quantity: Number)

  datatype SpecialPrice = SpecialPrice(lineKey: string, unitPriceCents: Number, byUserId: string, at: string)

  datatype DiscountType = Percent | FixedAmount

  datatype Discount = Discount(kind: DiscountType, value: Number)

  datatype PricingInput = PricingInput(
    machine: Option<Booking>,
    cupsProduct: Option<Product>,
    strawsProduct: Option<Product>,
    selections: seq<Selection>,
    fulfillment: Fulfillment,
    deliveryPriceCents: Option<Number>,
    discount: Option<Discount>,
    specialPrices: seq<SpecialPrice>,
    voucherPercent: Option<int>)

  datatype LineItem = LineItem(
    lineKey: string, kind: LineKind, billingMode: BillingMode, quantity: int, saleUnit: string,
    standardUnitPriceCents: int, agreedUnitPriceCents: int, totalCents: int, priceSource: PriceSource,
    productId: Option<string>, specialPriceBy: Option<string>, specialPriceAt: Option<string>)

  datatype PricingResult = PricingResult(
    lineItems: seq<LineItem>,
    machineSubtotalCents: int,
    fixedSubtotalCents: int,
    discountCents: int,
    discountEffectiveBp: int,
    voucherDiscountCents: int,
    machineSubtotalAfterVoucherCents: int,
    fixedTotalCents: int,
    commissionMaxCents: int,
    freeSyrupBudgetLiters: int)

  datatype ErrorCode = FreeSyrupBudgetExceeded | CanisterLimitExceeded | PricingInvalid

  datatype Outcome = Priced(result: PricingResult) | Rejected(code: ErrorCode)

  const CANISTERS_PER_CONTAINER_LIMIT := 2
  const CANISTER_SLUG := "mischkanister-6l"
  const FREE_PACKS_PER_RENTAL := 1
  const FREE_SYRUP_LITERS_PER_CONTAINER := 1
  const VOUCHER_DISCOUNT_PERCENT := 20
  const MACHINE_KEY := "machine"
  const PACK_UNIT := "25er-Pack"

  // ---- small rules ----

  function FreeSyrupBudgetFor(containersTotal: int): int { containersTotal * FREE_SYRUP_LITERS_PER_CONTAINER }

  function CanisterLimitFor(containersTotal: int): int { containersTotal * CANISTERS_PER_CONTAINER_LIMIT }

  /** `Math.floor((numerator + denominator / 2) / denominator)` */
  function DivRound(numerator: int, denominator: int): int
    requires denominator > 0
  {
    (2 * numerator + denominator) / (2 * denominator)
  }

  /** `Math.ceil(a / b)` */
  function CeilDiv(a: int, b: int): int
    requires b > 0
  {
    -((-a) / b)
  }

  function VoucherDiscount(machineSubtotalCents: int): int {
    (machineSubtotalCents * VOUCHER_DISCOUNT_PERCENT + 50) / 100
  }

  predicate NonNegativeCents(x: Number) { x.Whole? && x.n >= 0 }

  predicate HasMachineSpecialPrice(lineItems: seq<LineItem>) {
    exists i :: 0 <= i < |lineItems| && lineItems[i].kind.MachineLine? && lineItems[i].priceSource.Special?
  }

  // ---- special prices ----

  /** The entry that counts for a line: the last one with its key. */
  function SpecialFor(entries: seq<SpecialPrice>, key: string): Option<SpecialPrice> {
    if entries == [] then None
    else
      var last := entries[|entries| - 1];
      if last.lineKey == key then Some(last) else SpecialFor(entries[..|entries| - 1], key)
  }

  datatype Agreement = Agreement(agreed: int, source: PriceSource, grantedBy: Option<string>, grantedAt: Option<string>)

  function Agree(special: Option<SpecialPrice>, standardCents: int): Agreement {
    match special
    case None => Agreement(standardCents, List, None, None)
    case Some(entry) => Agreement(Amount(entry.unitPriceCents), Special, Some(entry.byUserId), Some(entry.at))
  }

  // ---- lines ----

  function ExtraKey(p: Product): string { "extra:" + p.id }

  function ExtraKind(c: Category): LineKind {
    match c
    case MachineType => MachineLine
    case Syrup => SyrupLine
    case Consumable => ConsumableLine
    case Purchase => PurchaseLine
  }

  function MachineItem(p: Product, quantity: int, a: Agreement): LineItem {
    LineItem(MACHINE_KEY, MachineLine, Fixed, quantity, p.saleUnit, p.listPriceCents, a.agreed, a.agreed * quantity,
             a.source, Some(p.id), a.grantedBy, a.grantedAt)
  }

  function FreeItem(s: Selection): LineItem {
    LineItem("free:" + s.product.id, SyrupLine, Included, Amount(s.quantity), s.product.saleUnit,
             s.product.listPriceCents, 0, 0, Inclusive, Some(s.product.id), None, None)
  }

  function PackItem(key: string, product: Option<Product>): LineItem {
    match product
    case None => LineItem(key, ConsumableLine, Included, FREE_PACKS_PER_RENTAL, PACK_UNIT, 0, 0, 0, Inclusive,
                          None, None, None)
    case Some(p) => LineItem(key, ConsumableLine, Included, FREE_PACKS_PER_RENTAL, p.saleUnit, p.listPriceCents, 0, 0,
                             Inclusive, Some(p.id), None, None)
  }

  function ExtraItem(s: Selection, a: Agreement): LineItem {
    LineItem(ExtraKey(s.product), ExtraKind(s.product.category), s.product.defaultBillingMode, Amount(s.quantity),
             s.product.saleUnit, s.product.listPriceCents, a.agreed, a.agreed * Amount(s.quantity),
             a.source, Some(s.product.id), a.grantedBy, a.grantedAt)
  }

  function DeliveryItem(cents: int): LineItem {
    LineItem("delivery", DeliveryLine, Fixed, 1, "pauschal", cents, cents, cents, Manual, None, None, None)
  }

  predicate IsFree(s: Selection) { s.role.Free? }

  predicate IsExtra(s: Selection) { s.role.Extra? }

  predicate GoodFree(s: Selection) { s.role.Free? ==> s.product.category.Syrup? && PositiveInt(s.quantity) }

  predicate GoodExtra(s: Selection) { s.role.Extra? ==> PositiveInt(s.quantity) && !s.product.category.MachineType? }

  predicate GoodSpecial(e: SpecialPrice) { NonNegativeCents(e.unitPriceCents) }

  // ---- what an offer is made of ----

  function FreeLiters(s: Selection): int { if s.role.Free? then Amount(s.quantity) else 0 }

  function Canisters(s: Selection): int {
    if s.role.Extra? && s.product.slug == CANISTER_SLUG then Amount(s.quantity) else 0
  }

  function ExtraItemWith(specials: seq<SpecialPrice>): Selection -> LineItem {
    (s: Selection) => ExtraItem(s, Agree(SpecialFor(specials, ExtraKey(s.product)), s.product.listPriceCents))
  }

  function FixedExtra(specials: seq<SpecialPrice>): Selection -> int {
    (s: Selection) =>
      if s.role.Extra? && !s.product.defaultBillingMode.Commission? then ExtraItemWith(specials)(s).totalCents else 0
  }

  function CommissionExtra(specials: seq<SpecialPrice>): Selection -> int {
    (s: Selection) =>
      if s.role.Extra? && s.product.defaultBillingMode.Commission? then ExtraItemWith(specials)(s).totalCents else 0
  }

  function MachineItems(input: PricingInput): seq<LineItem> {
    match input.machine
    case None => []
    case Some(b) =>
      [MachineItem(b.product, Amount(b.quantity),
                   Agree(SpecialFor(input.specialPrices, MACHINE_KEY), b.product.listPriceCents))]
  }

  function PackItems(input: PricingInput): seq<LineItem> {
    if input.machine.None? then []
    else [PackItem("included:cups", input.cupsProduct), PackItem("included:straws", input.strawsProduct)]
  }

  function DeliveryCents(input: PricingInput): Option<Number> {
    if input.fulfillment.Delivery? then input.deliveryPriceCents else None
  }

  function DeliveryItems(input: PricingInput): seq<LineItem> {
    match DeliveryCents(input)
    case None => []
    case Some(cents) => [DeliveryItem(Amount(cents))]
  }

  function FreeItems(s: seq<Selection>): seq<LineItem> { Map(FreeItem, Filter(IsFree, s)) }

  function ExtraItems(specials: seq<SpecialPrice>, s: seq<Selection>): seq<LineItem> {
    Map(ExtraItemWith(specials), Filter(IsExtra, s))
  }

  function Lines(input: PricingInput): seq<LineItem> {
    MachineItems(input) + FreeItems(input.selections) + PackItems(input)
      + ExtraItems(input.specialPrices, input.selections) + DeliveryItems(input)
  }

  function MachineSubtotal(input: PricingInput): int {
    if input.machine.None? then 0 else MachineItems(input)[0].totalCents
  }

  function ContainersTotal(input: PricingInput): int {
    match input.machine
    case None => 0
    case Some(b) => if b.product.containerCount.None? then 0 else b.product.containerCount.value * Amount(b.quantity)
  }

  function FixedSubtotal(input: PricingInput): int {
    MachineSubtotal(input) + Sum(FixedExtra(input.specialPrices), input.selections)
      + (if DeliveryCents(input).None? then 0 else Amount(DeliveryCents(input).value))
  }

  // ---- the checks, in the order of the original ----

  predicate MachineOk(input: PricingInput) {
    match input.machine
    case None => true
    case Some(b) =>
      && b.product.category.MachineType?
      && PositiveInt(b.quantity)
      && b.product.containerCount.Some? && b.product.containerCount.value > 0
  }

  ghost predicate BaseOk(input: PricingInput) {
    All(GoodSpecial, input.specialPrices) && MachineOk(input) && All(GoodFree, input.selections)
  }

  predicate FreeWithinBudget(input: PricingInput) {
    Sum(FreeLiters, input.selections) <= FreeSyrupBudgetFor(ContainersTotal(input))
  }

  predicate CanistersWithinLimit(input: PricingInput) {
    Sum(Canisters, input.selections) <= CanisterLimitFor(ContainersTotal(input))
  }

  predicate DeliveryOk(input: PricingInput) {
    DeliveryCents(input).Some? ==> NonNegativeCents(DeliveryCents(input).value)
  }

  /** Cents and basis points of a discount that is allowed on a machine subtotal. */
  function DiscountOn(subtotal: int, discount: Discount): (int, int)
    requires subtotal > 0
  {
    var value := Amount(discount.value);
    if discount.kind.Percent? then (DivRound(subtotal * value, 10_000), value)
    else (value, CeilDiv(value * 10_000, subtotal))
  }

  predicate DiscountAllowed(subtotal: int, discount: Option<Discount>) {
    discount.Some? ==>
      var d := discount.value;
      && subtotal > 0
      && PositiveInt(d.value)
      && (d.kind.Percent? ==> d.value.n <= 10_000)
      && DiscountOn(subtotal, d).0 <= subtotal
  }

  function DiscountTaken(subtotal: int, discount: Option<Discount>): (int, int) {
    if discount.Some? && subtotal > 0 then DiscountOn(subtotal, discount.value) else (0, 0)
  }

  predicate DiscountOk(input: PricingInput) { DiscountAllowed(MachineSubtotal(input), input.discount) }

  function DiscountCents(input: PricingInput): int { DiscountTaken(MachineSubtotal(input), input.discount).0 }

  function DiscountBp(input: PricingInput): int { DiscountTaken(MachineSubtotal(input), input.discount).1 }

  predicate VoucherOk(input: PricingInput) {
    input.voucherPercent.Some? ==>
      && input.voucherPercent.value == VOUCHER_DISCOUNT_PERCENT
      && input.discount.None?
      && !HasMachineSpecialPrice(Lines(input))
      && MachineSubtotal(input) > 0
  }

  function VoucherCents(input: PricingInput): int {
    if input.voucherPercent.Some? then VoucherDiscount(MachineSubtotal(input)) else 0
  }

  function FixedTotal(input: PricingInput): int {
    FixedSubtotal(input) - DiscountCents(input) - VoucherCents(input)
  }

  function ResultOf(input: PricingInput): PricingResult {
    PricingResult(
      Lines(input), MachineSubtotal(input), FixedSubtotal(input), DiscountCents(input), DiscountBp(input),
      VoucherCents(input), MachineSubtotal(input) - VoucherCents(input), FixedTotal(input),
      Sum(CommissionExtra(input.specialPrices), input.selections), FreeSyrupBudgetFor(ContainersTotal(input)))
  }

  /** Every check before the one that no total falls below 0. */
  ghost predicate ChecksPass(input: PricingInput) {
    && BaseOk(input) && FreeWithinBudget(input)
    && All(GoodExtra, input.selections) && CanistersWithinLimit(input)
    && DeliveryOk(input) && DiscountOk(input) && VoucherOk(input)
  }

  /** What an offer costs, or the code of the first check it fails. */
  ghost function Offer(input: PricingInput): Outcome {
    if !BaseOk(input) then Rejected(PricingInvalid)
    else if !FreeWithinBudget(input) then Rejected(FreeSyrupBudgetExceeded)
    else if !All(GoodExtra, input.selections) then Rejected(PricingInvalid)
    else if !CanistersWithinLimit(input) then Rejected(CanisterLimitExceeded)
    else if !ChecksPass(input) || FixedTotal(input) < 0 then Rejected(PricingInvalid)
    else Priced(ResultOf(input))
  }

  // ---- the computation ----

  /** A map that answers every key as the last-wins list does. */
  ghost predicate IndexedBy(specials: map<string, SpecialPrice>, entries: seq<SpecialPrice>) {
    forall key: string :: SpecialFor(entries, key) == if key in specials then Some(specials[key]) else None
  }

  /** Fills the map of special prices; a later entry with the same key replaces an earlier one. */
  method SpecialsByKey(entries: seq<SpecialPrice>) returns (ok: bool, specials: map<string, SpecialPrice>)
    ensures ok <==> All(GoodSpecial, entries)
    ensures ok ==> IndexedBy(specials, entries)
  {
    specials := map[];
    for i := 0 to |entries|
      invariant All(GoodSpecial, entries[..i])
      invariant IndexedBy(specials, entries[..i])
    {
      var entry := entries[i];
      if !NonNegativeCents(entry.unitPriceCents) {
        assert entry in entries && !GoodSpecial(entry);
        return false, map[];
      }
      specials := specials[entry.lineKey := entry];
      assert entries[..i + 1][..i] == entries[..i];
    }
    assert entries[..|entries|] == entries;
    return true, specials;
  }

  function ApplySpecial(specials: map<string, SpecialPrice>, key: string, standardCents: int): Agreement {
    Agree(if key in specials then Some(specials[key]) else None, standardCents)
  }

  /** Liters of the free selections, and whether each is a syrup in a positive whole amount. */
  method CountFree(selections: seq<Selection>) returns (ok: bool, liters: int)
    ensures ok <==> All(GoodFree, selections)
    ensures ok ==> liters == Sum(FreeLiters, selections)
  {
    liters := 0;
    for i := 0 to |selections|
      invariant All(GoodFree, selections[..i])
      invariant liters == Sum(FreeLiters, selections[..i])
    {
      var selection := selections[i];
      SumSnoc(FreeLiters, selections, i);
      if selection.role.Free? {
        if !selection.product.category.Syrup? || !PositiveInt(selection.quantity) {
          assert selection in selections && !GoodFree(selection);
          return false, 0;
        }
        liters := liters + selection.quantity.n;
      }
    }
    assert selections[..|selections|] == selections;
    return true, liters;
  }

  /** The lines and sums of some extras. */
  ghost predicate ExtrasOf(entries: seq<SpecialPrice>, s: seq<Selection>, lines: seq<LineItem>, fixedCents: int,
                           commissionCents: int, canisters: int)
  {
    && lines == ExtraItems(entries, s)
    && fixedCents == Sum(FixedExtra(entries), s)
    && commissionCents == Sum(CommissionExtra(entries), s)
    && canisters == Sum(Canisters, s)
  }

  /** What one more selection adds to them. */
  lemma OneMoreExtra(entries: seq<SpecialPrice>, s: seq<Selection>, i: int, lines: seq<LineItem>, fixedCents: int,
                     commissionCents: int, canisters: int)
    requires 0 <= i < |s| && ExtrasOf(entries, s[..i], lines, fixedCents, commissionCents, canisters)
    ensures ExtrasOf(entries, s[..i + 1],
              lines + (if s[i].role.Extra? then [ExtraItemWith(entries)(s[i])] else []),
              fixedCents + FixedExtra(entries)(s[i]), commissionCents + CommissionExtra(entries)(s[i]),
              canisters + Canisters(s[i]))
  {
    MapFilterSnoc(ExtraItemWith(entries), IsExtra, s, i);
    SumSnoc(FixedExtra(entries), s, i);
    SumSnoc(CommissionExtra(entries), s, i);
    SumSnoc(Canisters, s, i);
  }

  /** The one pass over the additional articles: lines, sums and canisters. */
  method PriceExtras(selections: seq<Selection>, specials: map<string, SpecialPrice>, ghost entries: seq<SpecialPrice>)
    returns (ok: bool, lines: seq<LineItem>, fixedCents: int, commissionCents: int, canisters: int)
    requires IndexedBy(specials, entries)
    ensures ok <==> All(GoodExtra, selections)
    ensures ok ==> lines == ExtraItems(entries, selections)
    ensures ok ==> fixedCents == Sum(FixedExtra(entries), selections)
    ensures ok ==> commissionCents == Sum(CommissionExtra(entries), selections)
    ensures ok ==> canisters == Sum(Canisters, selections)
  {
    lines, fixedCents, commissionCents, canisters := [], 0, 0, 0;
    hide ExtraItem, SpecialFor, Agree;
    for i := 0 to |selections|
      invariant All(GoodExtra, selections[..i])
      invariant ExtrasOf(entries, selections[..i], lines, fixedCents, commissionCents, canisters)
    {
      hide ExtrasOf;
      var selection := selections[i];
      OneMoreExtra(entries, selections, i, lines, fixedCents, commissionCents, canisters);
      if selection.role.Extra? {
        var product := selection.product;
        if !PositiveInt(selection.quantity) || product.category.MachineType? {
          assert selection in selections && !GoodExtra(selection);
          return false, [], 0, 0, 0;
        }
        var quantity := selection.quantity.n;
        if product.slug == CANISTER_SLUG {
          canisters := canisters + quantity;
        }
        var line := ExtraItem(selection, ApplySpecial(specials, ExtraKey(product), product.listPriceCents));
        assert line == ExtraItemWith(entries)(selection);
        if product.defaultBillingMode.Commission? {
          commissionCents := commissionCents + line.totalCents;
        } else {
          fixedCents := fixedCents + line.totalCents;
        }
        lines := lines + [line];
      } else {
        assert lines + [] == lines;
      }
    }
    assert selections[..|selections|] == selections;
    ok := true;
  }

  /** The lines of the free selections. */
  method FreeLines(selections: seq<Selection>) returns (lines: seq<LineItem>)
    ensures lines == FreeItems(selections)
  {
    lines := [];
    for i := 0 to |selections|
      invariant lines == FreeItems(selections[..i])
    {
      MapFilterSnoc(FreeItem, IsFree, selections, i);
      if selections[i].role.Free? {
        lines := lines + [FreeItem(selections[i])];
      }
    }
    assert selections[..|selections|] == selections;
  }

  /** The machine line, its total and the booked containers. */
  method BookMachine(input: PricingInput, specials: map<string, SpecialPrice>)
    returns (ok: bool, lines: seq<LineItem>, subtotal: int, containersTotal: int)
    requires IndexedBy(specials, input.specialPrices)
    ensures ok <==> MachineOk(input)
    ensures ok ==>
      lines == MachineItems(input) && subtotal == MachineSubtotal(input) && containersTotal == ContainersTotal(input)
  {
    lines, subtotal, containersTotal := [], 0, 0;
    if input.machine.Some? {
      var Booking(product, quantity) := input.machine.value;
      if !product.category.MachineType? || !PositiveInt(quantity) { return false, [], 0, 0; }
      var containers := if product.containerCount.Some? then product.containerCount.value else 0;
      if containers <= 0 { return false, [], 0, 0; }
      containersTotal := containers * quantity.n;
      var line := MachineItem(product, quantity.n, ApplySpecial(specials, MACHINE_KEY, product.listPriceCents));
      subtotal := line.totalCents;
      lines := [line];
    }
    ok := true;
  }

  /** Manual discount on the machine subtotal, with its effective basis points. */
  method TakeDiscount(subtotal: int, discount: Option<Discount>) returns (ok: bool, cents: int, effectiveBp: int)
    ensures ok <==> DiscountAllowed(subtotal, discount)
    ensures ok ==> (cents, effectiveBp) == DiscountTaken(subtotal, discount)
  {
    cents, effectiveBp := 0, 0;
    if discount.Some? {
      var Discount(kind, value) := discount.value;
      if subtotal <= 0 { return false, 0, 0; }
      if kind.Percent? {
        if !value.Whole? || value.n <= 0 || value.n > 10_000 { return false, 0, 0; }
        effectiveBp := value.n;
        cents := DivRound(subtotal * value.n, 10_000);
      } else {
        if !NonNegativeCents(value) || value.n <= 0 { return false, 0, 0; }
        cents := value.n;
        effectiveBp := CeilDiv(value.n * 10_000, subtotal);
      }
      if cents > subtotal { return false, 0, 0; }
    }
    ok := true;
  }

  lemma NoDiscountNothingTaken(subtotal: int, discount: Option<Discount>)
    ensures DiscountTaken(subtotal, discount).0 > 0 ==> discount.Some?
  {
  }

  /** `priceOffer` */
  method PriceOffer(input: PricingInput) returns (outcome: Outcome)
    ensures outcome == Offer(input)
    ensures outcome.Priced? <==> ChecksPass(input) && FixedTotal(input) >= 0
    ensures outcome == Rejected(FreeSyrupBudgetExceeded)
       <==> BaseOk(input) && Sum(FreeLiters, input.selections) > ContainersTotal(input)
    ensures outcome == Rejected(CanisterLimitExceeded)
       <==> (BaseOk(input) && FreeWithinBudget(input) && All(GoodExtra, input.selections)
             && Sum(Canisters, input.selections) > 2 * ContainersTotal(input))
  {
    hide ExtraItems, FreeItems, FixedExtra, CommissionExtra, MachineItems, MachineSubtotal, ContainersTotal, All,
      MachineOk,
      DiscountAllowed, DiscountTaken, VoucherDiscount, HasMachineSpecialPrice, Sum;
    var ok, specials := SpecialsByKey(input.specialPrices);
    if !ok { return Rejected(PricingInvalid); }

    var machineOk, lineItems, machineSubtotalCents, containersTotal := BookMachine(input, specials);
    if !machineOk { return Rejected(PricingInvalid); }

    var freeSyrupBudgetLiters := FreeSyrupBudgetFor(containersTotal);
    var freeOk, freeLitersUsed := CountFree(input.selections);
    if !freeOk { return Rejected(PricingInvalid); }
    if freeLitersUsed > freeSyrupBudgetLiters { return Rejected(FreeSyrupBudgetExceeded); }
    var freeLines := FreeLines(input.selections);
    lineItems := lineItems + freeLines;
    if input.machine.Some? {
      lineItems := lineItems
        + [PackItem("included:cups", input.cupsProduct), PackItem("included:straws", input.strawsProduct)];
    }
    assert lineItems == MachineItems(input) + FreeItems(input.selections) + PackItems(input);

    var extrasOk, extraLines, fixedExtrasCents, commissionMaxCents, canisterCount :=
      PriceExtras(input.selections, specials, input.specialPrices);
    if !extrasOk { return Rejected(PricingInvalid); }
    lineItems := lineItems + extraLines;
    if canisterCount > CanisterLimitFor(containersTotal) { return Rejected(CanisterLimitExceeded); }

    var deliveryCents := 0;
    if input.fulfillment.Delivery? && input.deliveryPriceCents.Some? {
      if !NonNegativeCents(input.deliveryPriceCents.value) { return Rejected(PricingInvalid); }
      deliveryCents := input.deliveryPriceCents.value.n;
      lineItems := lineItems + [DeliveryItem(deliveryCents)];
    }
    assert lineItems == Lines(input);

    var fixedSubtotalCents := machineSubtotalCents + fixedExtrasCents + deliveryCents;
    var discountOk, discountCents, discountEffectiveBp := TakeDiscount(machineSubtotalCents, input.discount);
    if !discountOk { return Rejected(PricingInvalid); }

    var voucherDiscountCents := 0;
    if input.voucherPercent.Some? {
      if input.voucherPercent.value != VOUCHER_DISCOUNT_PERCENT { return Rejected(PricingInvalid); }
      if discountCents > 0 || input.discount.Some? {
        assert discountCents > 0 ==> input.discount.Some? by {
          NoDiscountNothingTaken(machineSubtotalCents, input.discount);
        }
        return Rejected(PricingInvalid);
      }
      if HasMachineSpecialPrice(lineItems) { return Rejected(PricingInvalid); }
      if machineSubtotalCents <= 0 { return Rejected(PricingInvalid); }
      voucherDiscountCents := VoucherDiscount(machineSubtotalCents);
    }

    var fixedTotalCents := fixedSubtotalCents - discountCents - voucherDiscountCents;
    if fixedTotalCents < 0 { return Rejected(PricingInvalid); }
    return Priced(PricingResult(
      lineItems, machineSubtotalCents, fixedSubtotalCents, discountCents, discountEffectiveBp, voucherDiscountCents,
      machineSubtotalCents - voucherDiscountCents, fixedTotalCents, commissionMaxCents, freeSyrupBudgetLiters));
  }
}
