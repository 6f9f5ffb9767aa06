/** What an offer holds and when it is given, in terms of the input alone. */
module OfferContents {
  import opened Numbers
  import opened Options
  import opened Seqs
  import opened Pricing
  import opened PricingRules

  // ---- what is counted ----

  /** Free litres, canisters (known by their slug) and booked containers. */
  lemma CountedQuantities(s: Selection, n: int, input: PricingInput)
    requires s.quantity == Whole(n)
    ensures IsFree(s) <==> s.role == Free
    ensures IsExtra(s) <==> s.role == Extra
    ensures FreeLiters(s) == if s.role == Free then n else 0
    ensures Canisters(s) == if s.role == Extra && s.product.slug == "mischkanister-6l" then n else 0
    ensures input.machine.None? ==> ContainersTotal(input) == 0
    ensures input.machine.Some? ==>
      var Booking(product, quantity) := input.machine.value;
      product.containerCount.Some? && quantity.Whole? ==>
        ContainersTotal(input) == product.containerCount.value * quantity.n
  {
  }

  /** The machine subtotal, which reductions are taken from: the quantity times the last special price recorded for
      the machine, or the list price. */
  lemma MachineSubtotalIs(input: PricingInput, b: Booking, i: int)
    requires input.machine == Some(b) && b.quantity.Whole?
    ensures (forall e :: e in input.specialPrices ==> e.lineKey != "machine") ==>
      MachineSubtotal(input) == b.product.listPriceCents * b.quantity.n
    ensures (0 <= i < |input.specialPrices| && input.specialPrices[i].lineKey == "machine"
        && input.specialPrices[i].unitPriceCents.Whole?
        && forall j :: i < j < |input.specialPrices| ==> input.specialPrices[j].lineKey != "machine") ==>
      MachineSubtotal(input) == input.specialPrices[i].unitPriceCents.n * b.quantity.n
  {
    LastEntryWins(input.specialPrices, "machine");
    hide SpecialFor;
  }

  // ---- when an offer is given ----

  predicate IsCents(x: Number) { x.Whole? && x.n >= 0 }

  predicate IsCount(x: Number) { x.Whole? && x.n >= 1 }

  /** The terms on what is ordered. */
  ghost predicate OrderTerms(input: PricingInput) {
    && (input.machine.Some? ==>
        var b := input.machine.value;
        b.product.category == MachineType && IsCount(b.quantity)
        && b.product.containerCount.Some? && b.product.containerCount.value >= 1)
    && (forall s :: s in input.selections ==>
        && IsCount(s.quantity)
        && if s.role == Free then s.product.category == Syrup else s.product.category != MachineType)
    && Sum(FreeLiters, input.selections) <= ContainersTotal(input)
    && Sum(Canisters, input.selections) <= 2 * ContainersTotal(input)
  }

  /** The terms on prices and reductions. */
  ghost predicate PriceTerms(input: PricingInput) {
    && (forall e :: e in input.specialPrices ==> IsCents(e.unitPriceCents))
    && (input.fulfillment == Delivery && input.deliveryPriceCents.Some? ==> IsCents(input.deliveryPriceCents.value))
    && (input.discount.Some? ==>
        var d := input.discount.value;
        MachineSubtotal(input) > 0 && IsCount(d.value)
        && d.value.n <= if d.kind == Percent then 10_000 else MachineSubtotal(input))
    && (input.voucherPercent.Some? ==>
        input.voucherPercent.value == 20 && input.discount.None? && MachineSubtotal(input) > 0
        && forall e :: e in input.specialPrices ==> e.lineKey != "machine")
  }

  lemma DiscountTerms(subtotal: int, d: Discount)
    ensures DiscountAllowed(subtotal, Some(d)) <==>
      subtotal > 0 && IsCount(d.value) && d.value.n <= if d.kind == Percent then 10_000 else subtotal
  {
    if subtotal > 0 && d.kind == Percent && IsCount(d.value) && d.value.n <= 10_000 {
      PercentStaysWithinSubtotal(subtotal, d.value.n);
    }
  }

  lemma OrderTermsMean(input: PricingInput)
    ensures OrderTerms(input) <==>
      MachineOk(input) && All(GoodFree, input.selections) && All(GoodExtra, input.selections)
      && FreeWithinBudget(input) && CanistersWithinLimit(input)
  {
    hide Sum, ContainersTotal;
    forall s | s in input.selections
      ensures (IsCount(s.quantity)
          && if s.role == Free then s.product.category == Syrup else s.product.category != MachineType)
        <==> (GoodFree(s) && GoodExtra(s))
    {
    }
  }

  lemma PriceTermsMean(input: PricingInput)
    requires All(GoodExtra, input.selections)
    ensures PriceTerms(input) <==>
      All(GoodSpecial, input.specialPrices) && DeliveryOk(input) && DiscountOk(input) && VoucherOk(input)
  {
    MachineSpecialMeansKey(input);
    if input.discount.Some? { DiscountTerms(MachineSubtotal(input), input.discount.value); }
    hide MachineItems, HasMachineSpecialPrice, Lines, DiscountAllowed, GoodExtra;
  }

  /** An offer is given exactly when both hold and its total is not negative. */
  lemma GivenExactly(input: PricingInput)
    ensures Offer(input).Priced? <==> OrderTerms(input) && PriceTerms(input) && FixedTotal(input) >= 0
  {
    OrderTermsMean(input);
    if All(GoodExtra, input.selections) { PriceTermsMean(input); }
    hide OrderTerms, PriceTerms, All, MachineOk, FreeWithinBudget, CanistersWithinLimit, DeliveryOk, DiscountOk,
      VoucherOk, FixedTotal;
  }

  // ---- the lines ----

  predicate DescribesMachine(l: LineItem, b: Booking) {
    && l.lineKey == "machine" && l.kind == MachineLine && l.billingMode == Fixed
    && Whole(l.quantity) == b.quantity && l.saleUnit == b.product.saleUnit
    && l.standardUnitPriceCents == b.product.listPriceCents && l.productId == Some(b.product.id)
  }

  predicate DescribesFree(l: LineItem, s: Selection) {
    && l.lineKey == "free:" + s.product.id && l.kind == SyrupLine && l.billingMode == Included
    && Whole(l.quantity) == s.quantity && l.saleUnit == s.product.saleUnit
    && l.standardUnitPriceCents == s.product.listPriceCents && l.agreedUnitPriceCents == 0 == l.totalCents
    && l.productId == Some(s.product.id)
  }

  predicate DescribesPack(l: LineItem, key: string, product: Option<Product>) {
    && l.lineKey == key && l.kind == ConsumableLine && l.billingMode == Included && l.quantity == 1
    && l.agreedUnitPriceCents == 0 == l.totalCents
    && l.saleUnit == (if product.Some? then product.value.saleUnit else "25er-Pack")
    && l.standardUnitPriceCents == (if product.Some? then product.value.listPriceCents else 0)
    && l.productId == (if product.Some? then Some(product.value.id) else None)
  }

  predicate DescribesExtra(l: LineItem, s: Selection) {
    && l.lineKey == "extra:" + s.product.id && l.billingMode == s.product.defaultBillingMode
    && (s.product.category == Syrup <==> l.kind == SyrupLine)
    && (s.product.category == Consumable <==> l.kind == ConsumableLine)
    && (s.product.category == Purchase <==> l.kind == PurchaseLine)
    && Whole(l.quantity) == s.quantity && l.saleUnit == s.product.saleUnit
    && l.standardUnitPriceCents == s.product.listPriceCents && l.productId == Some(s.product.id)
  }

  predicate DescribesDelivery(l: LineItem, price: Number) {
    && l.lineKey == "delivery" && l.kind == DeliveryLine && l.billingMode == Fixed && l.quantity == 1
    && l.saleUnit == "pauschal" && Whole(l.totalCents) == price && l.standardUnitPriceCents == l.totalCents
    && l.productId == None
  }

  lemma OneFreeLine(s: Selection)
    requires GoodFree(s) && IsFree(s)
    ensures DescribesFree(FreeItem(s), s)
  {
  }

  lemma FreeLinesDescribe(s: seq<Selection>)
    requires All(GoodFree, s)
    ensures var frees := Filter(IsFree, s);
      |FreeItems(s)| == |frees| && forall k :: 0 <= k < |frees| ==> DescribesFree(FreeItems(s)[k], frees[k])
  {
    var frees := Filter(IsFree, s);
    MapAt(FreeItem, frees, 0);
    hide Map, Filter, DescribesFree;
    forall k | 0 <= k < |frees| ensures DescribesFree(FreeItems(s)[k], frees[k]) {
      MapAt(FreeItem, frees, k);
      FilterHas(IsFree, s, frees[k]);
      OneFreeLine(frees[k]);
    }
  }

  lemma OneExtraLine(sp: seq<SpecialPrice>, s: Selection)
    requires GoodExtra(s) && IsExtra(s)
    ensures DescribesExtra(ExtraItemWith(sp)(s), s)
  {
    hide SpecialFor, Agree;
  }

  lemma ExtraLinesDescribe(sp: seq<SpecialPrice>, s: seq<Selection>)
    requires All(GoodExtra, s)
    ensures var extras := Filter(IsExtra, s);
      |ExtraItems(sp, s)| == |extras|
      && forall k :: 0 <= k < |extras| ==> DescribesExtra(ExtraItems(sp, s)[k], extras[k])
  {
    var extras := Filter(IsExtra, s);
    MapAt(ExtraItemWith(sp), extras, 0);
    hide Map, Filter, DescribesExtra, ExtraItemWith;
    forall k | 0 <= k < |extras| ensures DescribesExtra(ExtraItems(sp, s)[k], extras[k]) {
      MapAt(ExtraItemWith(sp), extras, k);
      FilterHas(IsExtra, s, extras[k]);
      OneExtraLine(sp, extras[k]);
    }
  }

  /** The lines of an accepted offer: the machine, the free syrups, cups and straws, the extras and the delivery,
      each as it was chosen and in the order it was chosen. */
  lemma LinesDescribeTheOrder(input: PricingInput)
      returns (machine: seq<LineItem>, frees: seq<LineItem>, packs: seq<LineItem>, extras: seq<LineItem>,
               delivery: seq<LineItem>)
    requires Offer(input).Priced?
    ensures Offer(input).result.lineItems == machine + frees + packs + extras + delivery
    ensures if input.machine.None? then machine == [] && packs == []
      else
        && |machine| == 1 && DescribesMachine(machine[0], input.machine.value)
        && |packs| == 2 && DescribesPack(packs[0], "included:cups", input.cupsProduct)
        && DescribesPack(packs[1], "included:straws", input.strawsProduct)
    ensures var chosen := Filter(IsFree, input.selections);
      |frees| == |chosen| && forall k :: 0 <= k < |chosen| ==> DescribesFree(frees[k], chosen[k])
    ensures var chosen := Filter(IsExtra, input.selections);
      |extras| == |chosen| && forall k :: 0 <= k < |chosen| ==> DescribesExtra(extras[k], chosen[k])
    ensures if input.fulfillment == Delivery && input.deliveryPriceCents.Some?
      then |delivery| == 1 && DescribesDelivery(delivery[0], input.deliveryPriceCents.value)
      else delivery == []
  {
    machine, packs, delivery := MachineItems(input), PackItems(input), DeliveryItems(input);
    assert All(GoodFree, input.selections) && All(GoodExtra, input.selections) && DeliveryOk(input) && MachineOk(input);
    assert Offer(input).result.lineItems == Lines(input);
    hide Offer, All, Filter, FreeItems, ExtraItems, SpecialFor, Agree, Sum;
    frees, extras := FreeItems(input.selections), ExtraItems(input.specialPrices, input.selections);
    FreeLinesDescribe(input.selections);
    ExtraLinesDescribe(input.specialPrices, input.selections);
  }

  // ---- delivery and budget ----

  function DeliveryPart(l: LineItem): int { if l.kind.DeliveryLine? then l.totalCents else 0 }

  lemma {:induction false} OthersDeliverNothing(lines: seq<LineItem>)
    requires forall l :: l in lines ==> !l.kind.DeliveryLine?
    ensures Sum(DeliveryPart, lines) == 0
  {
    if lines == [] {
    } else {
      assert lines[0] in lines;
      OthersDeliverNothing(lines[1..]);
    }
  }

  lemma NoDeliveryAmong(sp: seq<SpecialPrice>, s: seq<Selection>, l: LineItem)
    ensures l in ExtraItems(sp, s) ==> !l.kind.DeliveryLine?
    ensures l in FreeItems(s) ==> !l.kind.DeliveryLine?
  {
    if l in ExtraItems(sp, s) { var x := ExtraOrigin(sp, s, l); }
    if l in FreeItems(s) { var x := FreeOrigin(s, l); }
  }

  lemma DeliveryLinesSum(input: PricingInput)
    ensures Sum(DeliveryPart, Lines(input)) == Sum(DeliveryPart, DeliveryItems(input))
  {
    var sp, s := input.specialPrices, input.selections;
    forall l: LineItem ensures (l in ExtraItems(sp, s) || l in FreeItems(s)) ==> !l.kind.DeliveryLine? {
      NoDeliveryAmong(sp, s, l);
    }
    hide Sum, ExtraItems, FreeItems, Lines;
    OthersDeliverNothing(ExtraItems(sp, s));
    OthersDeliverNothing(FreeItems(s));
    OthersDeliverNothing(MachineItems(input));
    OthersDeliverNothing(PackItems(input));
    LinesSum(input, DeliveryPart);
  }

  /** An agreed delivery price is charged and listed, once and as entered; without delivery or without a price
      nothing is. */
  lemma DeliveryIsCharged(input: PricingInput)
    requires Offer(input).Priced?
    ensures var agreed := input.fulfillment == Delivery && input.deliveryPriceCents.Some?;
      && (agreed ==> IsCents(input.deliveryPriceCents.value))
      && Sum(DeliveryPart, Offer(input).result.lineItems) == if agreed then input.deliveryPriceCents.value.n else 0
  {
    assert DeliveryOk(input) && Offer(input).result.lineItems == Lines(input);
    DeliveryLinesSum(input);
    hide Offer, Lines;
    if DeliveryItems(input) != [] {
      SumOne(DeliveryPart, DeliveryItems(input)[0]);
      assert DeliveryItems(input) == [DeliveryItems(input)[0]];
    } else {
      assert Sum(DeliveryPart, DeliveryItems(input)) == 0;
    }
  }

  /** The free budget is a litre for each booked container. */
  lemma BudgetIsALiterPerContainer(input: PricingInput)
    requires Offer(input).Priced?
    ensures Offer(input).result.freeSyrupBudgetLiters ==
      if input.machine.None? then 0
      else input.machine.value.product.containerCount.value * input.machine.value.quantity.n
  {
    hide Sum, Lines;
  }

  /** Nothing is taken off that was not asked for. */
  lemma NoReductionUnasked(input: PricingInput)
    requires Offer(input).Priced?
    ensures input.discount.None? ==> Offer(input).result.discountCents == 0 == Offer(input).result.discountEffectiveBp
    ensures input.voucherPercent.None? ==> Offer(input).result.voucherDiscountCents == 0
  {
    hide Sum, Lines;
  }
}
