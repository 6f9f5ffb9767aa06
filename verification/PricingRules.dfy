/** What every offer of `priceOffer` promises. */
module PricingRules {
  import opened Division
  import opened Numbers
  import opened Options
  import opened Seqs
  import opened Pricing

  // ---- an accepted offer adds up ----

  function FixedPart(l: LineItem): int { if l.billingMode.Commission? then 0 else l.totalCents }

  function CommissionPart(l: LineItem): int { if l.billingMode.Commission? then l.totalCents else 0 }

  function MachinePart(l: LineItem): int { if l.kind.MachineLine? then l.totalCents else 0 }

  predicate Multiplied(l: LineItem) { l.totalCents == l.agreedUnitPriceCents * l.quantity }

  lemma {:induction false} FreeLinesCostNothing(s: seq<Selection>)
    ensures Sum(FixedPart, FreeItems(s)) == Sum(CommissionPart, FreeItems(s)) == Sum(MachinePart, FreeItems(s)) == 0
    ensures All(Multiplied, FreeItems(s))
  {
    if s == [] {
    } else {
      FreeLinesCostNothing(s[1..]);
      if s[0].role.Free? {
        assert FreeItems(s) == [FreeItem(s[0])] + FreeItems(s[1..]);
      } else {
        assert FreeItems(s) == FreeItems(s[1..]);
      }
    }
  }

  lemma {:induction false} ExtraLinesSum(sp: seq<SpecialPrice>, s: seq<Selection>)
    requires All(GoodExtra, s)
    ensures Sum(FixedPart, ExtraItems(sp, s)) == Sum(FixedExtra(sp), s)
    ensures Sum(CommissionPart, ExtraItems(sp, s)) == Sum(CommissionExtra(sp), s)
    ensures Sum(MachinePart, ExtraItems(sp, s)) == 0
    ensures All(Multiplied, ExtraItems(sp, s))
  {
    if s == [] {
    } else {
      var rest := ExtraItems(sp, s[1..]);
      ExtraLinesSum(sp, s[1..]);
      if s[0].role.Extra? {
        assert s[0] in s;
        var line := ExtraItemWith(sp)(s[0]);
        assert ExtraItems(sp, s) == [line] + rest;
        assert ([line] + rest)[1..] == rest;
      } else {
        assert ExtraItems(sp, s) == rest;
      }
    }
  }

  lemma FivePieces(f: LineItem -> int, a: seq<LineItem>, b: seq<LineItem>, c: seq<LineItem>, d: seq<LineItem>,
                   e: seq<LineItem>)
    ensures Sum(f, a + b + c + d + e) == Sum(f, a) + Sum(f, b) + Sum(f, c) + Sum(f, d) + Sum(f, e)
  {
    SumConcat(f, a + b + c + d, e);
    SumConcat(f, a + b + c, d);
    SumConcat(f, a + b, c);
    SumConcat(f, a, b);
  }

  lemma SumTwo(f: LineItem -> int, x: LineItem, y: LineItem)
    ensures Sum(f, [x]) == f(x) && Sum(f, [x, y]) == f(x) + f(y)
  {
    assert [x, y][1..] == [y] && [y][1..] == [] && [x][1..] == [];
  }

  lemma SingleLinesSum(input: PricingInput, f: LineItem -> int)
    ensures Sum(f, MachineItems(input)) == if input.machine.None? then 0 else f(MachineItems(input)[0])
    ensures Sum(f, DeliveryItems(input)) == if DeliveryItems(input) == [] then 0 else f(DeliveryItems(input)[0])
    ensures Sum(f, PackItems(input)) ==
      if input.machine.None? then 0 else f(PackItems(input)[0]) + f(PackItems(input)[1])
  {
    if input.machine.Some? {
      SumOne(f, MachineItems(input)[0]);
      SumTwo(f, PackItems(input)[0], PackItems(input)[1]);
    }
    if DeliveryItems(input) != [] { SumOne(f, DeliveryItems(input)[0]); }
  }

  lemma LinesSum(input: PricingInput, f: LineItem -> int)
    ensures Sum(f, Lines(input)) ==
      Sum(f, MachineItems(input)) + Sum(f, FreeItems(input.selections)) + Sum(f, PackItems(input))
      + Sum(f, ExtraItems(input.specialPrices, input.selections)) + Sum(f, DeliveryItems(input))
  {
    FivePieces(f, MachineItems(input), FreeItems(input.selections), PackItems(input),
      ExtraItems(input.specialPrices, input.selections), DeliveryItems(input));
  }

  lemma SubtotalsAreLineSums(input: PricingInput)
    requires All(GoodExtra, input.selections)
    ensures Sum(MachinePart, Lines(input)) == MachineSubtotal(input)
    ensures Sum(FixedPart, Lines(input)) == FixedSubtotal(input)
    ensures Sum(CommissionPart, Lines(input)) == Sum(CommissionExtra(input.specialPrices), input.selections)
  {
    FreeLinesCostNothing(input.selections);
    ExtraLinesSum(input.specialPrices, input.selections);
    hide Sum, ExtraItems, FreeItems, FixedExtra, CommissionExtra, All, Lines;
    LinesSum(input, FixedPart);
    LinesSum(input, CommissionPart);
    LinesSum(input, MachinePart);
    SingleLinesSum(input, FixedPart);
    SingleLinesSum(input, CommissionPart);
    SingleLinesSum(input, MachinePart);
  }

  lemma EveryLineIsMultiplied(input: PricingInput)
    requires All(GoodExtra, input.selections)
    ensures All(Multiplied, Lines(input))
  {
    FreeLinesCostNothing(input.selections);
    ExtraLinesSum(input.specialPrices, input.selections);
    hide Sum, ExtraItems, FreeItems;
  }

  /** Every accepted offer adds up: each line is agreed price times quantity, the subtotals are the
      sums over the lines they name, and the total is the subtotal less discount and voucher. */
  lemma AcceptedOfferAddsUp(input: PricingInput)
    requires Offer(input).Priced?
    ensures var r := Offer(input).result;
      && All(Multiplied, r.lineItems)
      && r.machineSubtotalCents == Sum(MachinePart, r.lineItems)
      && r.fixedSubtotalCents == Sum(FixedPart, r.lineItems)
      && r.commissionMaxCents == Sum(CommissionPart, r.lineItems)
      && r.fixedTotalCents == r.fixedSubtotalCents - r.discountCents - r.voucherDiscountCents >= 0
      && r.machineSubtotalAfterVoucherCents + r.voucherDiscountCents == r.machineSubtotalCents
      && (r.discountCents == 0 || r.voucherDiscountCents == 0)
  {
    hide Sum, All, Lines, FixedSubtotal, MachineSubtotal;
    SubtotalsAreLineSums(input);
    EveryLineIsMultiplied(input);
  }

  // ---- special prices ----

  /** The last entry with a key. */
  ghost predicate LastWith(sp: seq<SpecialPrice>, key: string, i: int) {
    0 <= i < |sp| && sp[i].lineKey == key && forall j :: i < j < |sp| ==> sp[j].lineKey != key
  }

  /** A key is answered by the last entry that carries it. */
  lemma {:induction false} LastEntryWins(sp: seq<SpecialPrice>, key: string)
    ensures match SpecialFor(sp, key)
      case None => forall e :: e in sp ==> e.lineKey != key
      case Some(e) => exists i :: LastWith(sp, key, i) && sp[i] == e
  {
    if sp == [] {
    } else {
      var n := |sp| - 1;
      var init, last := sp[..n], sp[n];
      LastEntryWins(init, key);
      assert sp == init + [last];
      if last.lineKey == key {
        assert LastWith(sp, key, n);
      } else if SpecialFor(init, key).Some? {
        var i :| LastWith(init, key, i) && init[i] == SpecialFor(init, key).value;
        assert forall j :: i < j < |sp| ==> sp[j] == (if j < n then init[j] else last);
        assert LastWith(sp, key, i);
      }
    }
  }

  // ---- the total never falls below zero ----

  /** An article charged at a fixed price has a non-negative list price. */
  predicate ListPriced(s: Selection) {
    s.role.Extra? && !s.product.defaultBillingMode.Commission? ==> s.product.listPriceCents >= 0
  }

  lemma {:induction false} SpecialsAreGood(sp: seq<SpecialPrice>, key: string)
    requires All(GoodSpecial, sp)
    ensures SpecialFor(sp, key).Some? ==>
      SpecialFor(sp, key).value in sp && Amount(SpecialFor(sp, key).value.unitPriceCents) >= 0
  {
    if sp == [] {
    } else {
      SpecialsAreGood(sp[..|sp| - 1], key);
    }
  }

  lemma ProductNotNegative(a: int, b: int)
    requires a >= 0 && b >= 0
    ensures a * b >= 0
  {
  }

  lemma {:induction false} ExtrasNotNegative(sp: seq<SpecialPrice>, s: seq<Selection>)
    requires All(GoodSpecial, sp) && All(GoodExtra, s) && All(ListPriced, s)
    ensures Sum(FixedExtra(sp), s) >= 0
  {
    if s == [] {
    } else {
      ExtrasNotNegative(sp, s[1..]);
      assert s[0] in s;
      SpecialsAreGood(sp, ExtraKey(s[0].product));
      if s[0].role.Extra? && !s[0].product.defaultBillingMode.Commission? {
        ProductNotNegative(ExtraItemWith(sp)(s[0]).agreedUnitPriceCents, s[0].quantity.n);
      }
    }
  }

  lemma VoucherWithinSubtotal(subtotal: int)
    requires subtotal >= 0
    ensures 0 <= VoucherDiscount(subtotal) <= subtotal
  {
  }

  /** Where what is charged has a non-negative list price, the closing check on the total cannot fail:
      an offer that passes every other check is accepted. */
  lemma TotalNeverBelowZero(input: PricingInput)
    requires ChecksPass(input) && All(ListPriced, input.selections)
    requires input.machine.Some? ==> input.machine.value.product.listPriceCents >= 0
    ensures FixedTotal(input) >= 0 && Offer(input).Priced?
  {
    ExtrasNotNegative(input.specialPrices, input.selections);
    SpecialsAreGood(input.specialPrices, MACHINE_KEY);
    assert MachineSubtotal(input) >= 0;
    VoucherWithinSubtotal(MachineSubtotal(input));
    hide Sum, FixedExtra, VoucherDiscount;
  }

  /** A negative list price can reach that check. */
  lemma NegativeListPriceReachesTheGuard(input: PricingInput)
    requires input == PricingInput(None, None, None,
      [Selection(Product("p", "p", "P", Purchase, "unit", Fixed, -1, None), Extra, Whole(1))],
      Pickup, None, None, [], None)
    ensures ChecksPass(input) && FixedTotal(input) == -1 && Offer(input) == Rejected(PricingInvalid)
  {
    var s := input.selections[0];
    assert input.selections == [s];
    SumOne(FixedExtra([]), s);
    SumOne(FreeLiters, s);
    SumOne(Canisters, s);
    assert s.product.slug != CANISTER_SLUG by { assert |s.product.slug| != |CANISTER_SLUG|; }
    assert SpecialFor([], ExtraKey(s.product)) == None;
    assert ExtraItemWith([])(s).totalCents == -1;
    assert FixedExtra([])(s) == -1;
    assert Lines(input) == ExtraItems([], [s]);
  }

  /** A machine type that can be booked. */
  predicate Bookable(p: Product) {
    p.category.MachineType? && p.containerCount.Some? && p.containerCount.value > 0
  }

  /** An article whose list price can count towards the fixed total: a bookable machine, or an article that is
      not sold on commission - canisters only along with a bookable machine. */
  ghost predicate Chargeable(p: Product, catalogue: set<Product>) {
    if p.category.MachineType? then Bookable(p)
    else !p.defaultBillingMode.Commission? && (p.slug == CANISTER_SLUG ==> exists m :: m in catalogue && Bookable(m))
  }

  ghost predicate FromCatalogue(input: PricingInput, catalogue: set<Product>) {
    && (input.machine.Some? ==> input.machine.value.product in catalogue)
    && forall s :: s in input.selections ==> s.product in catalogue
  }

  /** Every other check passes, and the total is below zero. */
  ghost predicate ReachesTheGuard(input: PricingInput) { ChecksPass(input) && FixedTotal(input) < 0 }

  lemma {:induction false} CanistersCount(s: seq<Selection>, x: Selection)
    requires All(GoodExtra, s)
    ensures Sum(Canisters, s) >= 0
    ensures x in s && x.role.Extra? && x.product.slug == CANISTER_SLUG ==> Sum(Canisters, s) > 0
  {
    if s == [] {
    } else {
      CanistersCount(s[1..], x);
      assert s[0] in s;
      assert s == [s[0]] + s[1..];
    }
  }

  lemma OnlyChargeableCount(input: PricingInput, catalogue: set<Product>)
    requires FromCatalogue(input, catalogue) && ChecksPass(input)
    requires forall p :: p in catalogue && Chargeable(p, catalogue) ==> p.listPriceCents >= 0
    ensures FixedTotal(input) >= 0
  {
    forall s | s in input.selections ensures ListPriced(s) {
      assert GoodExtra(s);
      CanistersCount(input.selections, s);
      assert input.machine.Some? ==> Bookable(input.machine.value.product);
    }
    assert input.machine.Some? ==> Chargeable(input.machine.value.product, catalogue);
    hide Sum, FixedTotal, Chargeable;
    TotalNeverBelowZero(input);
  }

  /** A machine alone, at list price. */
  function MachineOnly(p: Product): PricingInput {
    PricingInput(Some(Booking(p, Whole(1))), None, None, [], Pickup, None, None, [], None)
  }

  lemma MachineOnlyTotal(p: Product)
    requires Bookable(p) && p.listPriceCents < 0
    ensures ReachesTheGuard(MachineOnly(p))
  {
  }

  /** One article, with a machine that costs nothing where one is given. */
  function ArticleOnly(p: Product, machine: Option<Product>): PricingInput {
    PricingInput(if machine.Some? then Some(Booking(machine.value, Whole(1))) else None, None, None,
      [Selection(p, Extra, Whole(1))], Pickup, None, None,
      if machine.Some? then [SpecialPrice(MACHINE_KEY, Whole(0), "", "")] else [], None)
  }

  lemma ArticleOnlyTotal(p: Product, machine: Option<Product>)
    requires !p.category.MachineType? && !p.defaultBillingMode.Commission?
    requires machine.Some? ==> Bookable(machine.value)
    ensures FixedTotal(ArticleOnly(p, machine)) == p.listPriceCents
  {
    var input := ArticleOnly(p, machine);
    var s := input.selections[0];
    SumOne(FixedExtra(input.specialPrices), s);
    assert ExtraKey(p) != MACHINE_KEY by { assert ExtraKey(p)[0] == 'e' && MACHINE_KEY[0] == 'm'; }
    LastEntryWins(input.specialPrices, ExtraKey(p));
    LastEntryWins(input.specialPrices, MACHINE_KEY);
    hide Sum, SpecialFor;
    assert ExtraItemWith(input.specialPrices)(s).totalCents == p.listPriceCents;
    assert MachineSubtotal(input) == 0;
  }

  lemma ArticleOnlyPasses(p: Product, machine: Option<Product>)
    requires !p.category.MachineType?
    requires machine.Some? ==> Bookable(machine.value)
    requires p.slug == CANISTER_SLUG ==> machine.Some?
    ensures ChecksPass(ArticleOnly(p, machine))
  {
    var s := ArticleOnly(p, machine).selections[0];
    SumOne(FreeLiters, s);
    SumOne(Canisters, s);
    hide Sum, HasMachineSpecialPrice, Lines, MachineSubtotal;
  }

  /** The closing check can fail for some offer from a catalogue exactly when the catalogue holds an article
      with a negative list price that can be charged. */
  lemma GuardReachableExactly(catalogue: set<Product>)
    ensures (exists input :: FromCatalogue(input, catalogue) && ReachesTheGuard(input))
       <==> (exists p :: p in catalogue && p.listPriceCents < 0 && Chargeable(p, catalogue))
  {
    hide ChecksPass, FixedTotal;
    if p :| p in catalogue && p.listPriceCents < 0 && Chargeable(p, catalogue) {
      if p.category.MachineType? {
        MachineOnlyTotal(p);
        assert FromCatalogue(MachineOnly(p), catalogue);
      } else if p.slug == CANISTER_SLUG {
        var m :| m in catalogue && Bookable(m);
        ArticleOnlyTotal(p, Some(m));
        ArticleOnlyPasses(p, Some(m));
        assert FromCatalogue(ArticleOnly(p, Some(m)), catalogue);
      } else {
        ArticleOnlyTotal(p, None);
        ArticleOnlyPasses(p, None);
        assert FromCatalogue(ArticleOnly(p, None), catalogue);
      }
    }
    if input :| FromCatalogue(input, catalogue) && ReachesTheGuard(input) {
      if forall p :: p in catalogue && Chargeable(p, catalogue) ==> p.listPriceCents >= 0 {
        OnlyChargeableCount(input, catalogue);
      }
    }
  }

  // ---- the order of the selections does not matter ----

  /** The same acceptance, error code and totals; the lines may be in another order. */
  ghost predicate SameButForLineOrder(a: Outcome, b: Outcome) {
    match (a, b)
    case (Rejected(c), Rejected(d)) => c == d
    case (Priced(r), Priced(s)) => r.(lineItems := []) == s.(lineItems := []) && Permutation(r.lineItems, s.lineItems)
    case _ => false
  }

  lemma HasSpecialIn(a: seq<LineItem>)
    ensures HasMachineSpecialPrice(a) <==> exists l :: l in a && l.kind.MachineLine? && l.priceSource.Special?
  {
    if l :| l in a && l.kind.MachineLine? && l.priceSource.Special? {
      var i :| 0 <= i < |a| && a[i] == l;
    }
  }

  lemma PiecesPermuted<T>(m: seq<T>, f: seq<T>, f': seq<T>, p: seq<T>, e: seq<T>, e': seq<T>, d: seq<T>)
    requires Permutation(f, f') && Permutation(e, e')
    ensures Permutation(m + f + p + e + d, m + f' + p + e' + d)
  {
  }

  lemma LinesPermuted(a: PricingInput, b: PricingInput)
    requires b == a.(selections := b.selections) && Permutation(a.selections, b.selections)
    ensures Permutation(Lines(a), Lines(b))
  {
    var sp := a.specialPrices;
    FilterPermuted(IsFree, a.selections, b.selections);
    FilterPermuted(IsExtra, a.selections, b.selections);
    MapPermuted(FreeItem, Filter(IsFree, a.selections), Filter(IsFree, b.selections));
    MapPermuted(ExtraItemWith(sp), Filter(IsExtra, a.selections), Filter(IsExtra, b.selections));
    assert MachineItems(a) == MachineItems(b) && PackItems(a) == PackItems(b) && DeliveryItems(a) == DeliveryItems(b);
    hide FreeItem, ExtraItemWith, Filter, Map, MachineItems, PackItems, DeliveryItems;
    PiecesPermuted(MachineItems(a), FreeItems(a.selections), FreeItems(b.selections), PackItems(a),
      ExtraItems(sp, a.selections), ExtraItems(sp, b.selections), DeliveryItems(a));
  }

  lemma SumsPermuted(sp: seq<SpecialPrice>, a: seq<Selection>, b: seq<Selection>)
    requires Permutation(a, b)
    ensures Sum(FreeLiters, a) == Sum(FreeLiters, b) && Sum(Canisters, a) == Sum(Canisters, b)
    ensures Sum(FixedExtra(sp), a) == Sum(FixedExtra(sp), b)
    ensures Sum(CommissionExtra(sp), a) == Sum(CommissionExtra(sp), b)
    ensures All(GoodFree, a) == All(GoodFree, b) && All(GoodExtra, a) == All(GoodExtra, b)
  {
    SumPermuted(FreeLiters, a, b);
    SumPermuted(Canisters, a, b);
    SumPermuted(FixedExtra(sp), a, b);
    SumPermuted(CommissionExtra(sp), a, b);
    SameElements(a, b);
  }

  /** What an outcome is made of, apart from the lines. */
  lemma SameIngredients(a: PricingInput, b: PricingInput)
    requires b == a.(selections := b.selections)
    requires Sum(FreeLiters, a.selections) == Sum(FreeLiters, b.selections)
    requires Sum(Canisters, a.selections) == Sum(Canisters, b.selections)
    requires Sum(FixedExtra(a.specialPrices), a.selections) == Sum(FixedExtra(a.specialPrices), b.selections)
    requires Sum(CommissionExtra(a.specialPrices), a.selections) == Sum(CommissionExtra(a.specialPrices), b.selections)
    requires All(GoodFree, a.selections) == All(GoodFree, b.selections)
    requires All(GoodExtra, a.selections) == All(GoodExtra, b.selections)
    requires All(GoodExtra, a.selections) ==> HasMachineSpecialPrice(Lines(a)) == HasMachineSpecialPrice(Lines(b))
    ensures match (Offer(a), Offer(b))
      case (Rejected(c), Rejected(d)) => c == d
      case (Priced(r), Priced(s)) =>
        r.(lineItems := []) == s.(lineItems := []) && r.lineItems == Lines(a) && s.lineItems == Lines(b)
      case _ => false
  {
    hide Sum, FixedExtra, CommissionExtra, HasMachineSpecialPrice, Lines, DiscountTaken, DiscountAllowed,
      VoucherDiscount, All;
    assert MachineSubtotal(a) == MachineSubtotal(b) && ContainersTotal(a) == ContainersTotal(b);
    hide MachineItems, MachineSubtotal, ContainersTotal;
  }

  /** Reordering the selections keeps acceptance, error code and every total, and permutes the lines. */
  lemma OrderOfSelections(a: PricingInput, b: PricingInput)
    requires b == a.(selections := b.selections) && Permutation(a.selections, b.selections)
    ensures SameButForLineOrder(Offer(a), Offer(b))
  {
    LinesPermuted(a, b);
    SumsPermuted(a.specialPrices, a.selections, b.selections);
    HasSpecialIn(Lines(a));
    HasSpecialIn(Lines(b));
    SameElements(Lines(a), Lines(b));
    hide Sum, FixedExtra, CommissionExtra, Lines, Offer, HasMachineSpecialPrice;
    SameIngredients(a, b);
  }

  // ---- splitting a selection does not matter ----

  /** The same acceptance, error code and totals, whatever the lines. */
  ghost predicate SameTotals(a: Outcome, b: Outcome) {
    match (a, b)
    case (Rejected(c), Rejected(d)) => c == d
    case (Priced(r), Priced(s)) => r.(lineItems := []) == s.(lineItems := [])
    case _ => false
  }

  function Quantity(s: Selection, n: int): Selection { s.(quantity := Whole(n)) }

  lemma SplitSum(f: Selection -> int, pre: seq<Selection>, x: Selection, y: Selection, z: Selection,
                 post: seq<Selection>)
    requires f(x) == f(y) + f(z)
    ensures Sum(f, pre + [x] + post) == Sum(f, pre + [y, z] + post)
  {
    SumConcat(f, pre + [x], post);
    SumConcat(f, pre, [x]);
    SumConcat(f, pre + [y, z], post);
    SumConcat(f, pre, [y, z]);
    SumConcat(f, [y], [z]);
    assert [y, z] == [y] + [z];
    SumOne(f, x);
    SumOne(f, y);
    SumOne(f, z);
  }

  lemma SplitAll(p: Selection -> bool, pre: seq<Selection>, x: Selection, y: Selection, z: Selection,
                 post: seq<Selection>)
    requires p(x) == p(y) == p(z)
    ensures All(p, pre + [x] + post) == All(p, pre + [y, z] + post)
  {
    var s, t := pre + [x] + post, pre + [y, z] + post;
    assert forall e :: e in s <==> e in pre || e == x || e in post;
    assert forall e :: e in t <==> e in pre || e == y || e == z || e in post;
  }

  lemma LineTotal(sp: seq<SpecialPrice>, s: Selection, k: int)
    ensures ExtraItemWith(sp)(Quantity(s, k)).totalCents
         == Agree(SpecialFor(sp, ExtraKey(s.product)), s.product.listPriceCents).agreed * k
  {
    hide SpecialFor, Agree;
  }

  lemma SplitPrices(sp: seq<SpecialPrice>, s: Selection, m: int, n: int)
    ensures FixedExtra(sp)(Quantity(s, m + n)) == FixedExtra(sp)(Quantity(s, m)) + FixedExtra(sp)(Quantity(s, n))
    ensures CommissionExtra(sp)(Quantity(s, m + n))
      == CommissionExtra(sp)(Quantity(s, m)) + CommissionExtra(sp)(Quantity(s, n))
  {
    var agreed := Agree(SpecialFor(sp, ExtraKey(s.product)), s.product.listPriceCents).agreed;
    LineTotal(sp, s, m + n);
    LineTotal(sp, s, m);
    LineTotal(sp, s, n);
    hide SpecialFor, Agree, ExtraItemWith;
    assert agreed * (m + n) == agreed * m + agreed * n;
  }

  lemma {:induction false} ExtrasAreNoMachines(sp: seq<SpecialPrice>, s: seq<Selection>, l: LineItem)
    requires All(GoodExtra, s)
    ensures l in ExtraItems(sp, s) ==> !l.kind.MachineLine?
    ensures l in FreeItems(s) ==> !l.kind.MachineLine?
  {
    if s == [] {
    } else {
      ExtrasAreNoMachines(sp, s[1..], l);
      assert s[0] in s;
      assert ExtraItems(sp, s) == (if s[0].role.Extra? then [ExtraItemWith(sp)(s[0])] else []) + ExtraItems(sp, s[1..]);
      assert FreeItems(s) == (if s[0].role.Free? then [FreeItem(s[0])] else []) + FreeItems(s[1..]);
    }
  }

  /** A machine special price appears among the lines exactly when a machine is booked and a special
      price is recorded under the key "machine". */
  lemma MachineSpecialMeansKey(input: PricingInput)
    requires All(GoodExtra, input.selections)
    ensures HasMachineSpecialPrice(Lines(input))
       <==> input.machine.Some? && exists e :: e in input.specialPrices && e.lineKey == MACHINE_KEY
  {
    LastEntryWins(input.specialPrices, MACHINE_KEY);
    HasSpecialIn(Lines(input));
    forall l | l in Lines(input) && l.kind.MachineLine? ensures l in MachineItems(input) {
      ExtrasAreNoMachines(input.specialPrices, input.selections, l);
    }
    hide ExtraItems, FreeItems, HasMachineSpecialPrice;
    if input.machine.Some? {
      assert MachineItems(input)[0] in Lines(input);
    }
  }

  /** Splitting one selection into two of the same product and role keeps acceptance, error code and
      every total; with `OrderOfSelections` the two parts may stand anywhere. */
  lemma SplittingASelection(a: PricingInput, b: PricingInput, pre: seq<Selection>, s: Selection, post: seq<Selection>,
                            m: int, n: int)
    requires m > 0 && n > 0
    requires a.selections == pre + [Quantity(s, m + n)] + post
    requires b == a.(selections := pre + [Quantity(s, m), Quantity(s, n)] + post)
    ensures SameTotals(Offer(a), Offer(b))
  {
    var sp, x, y, z := a.specialPrices, Quantity(s, m + n), Quantity(s, m), Quantity(s, n);
    SplitPrices(sp, s, m, n);
    SplitSum(FreeLiters, pre, x, y, z, post);
    SplitSum(Canisters, pre, x, y, z, post);
    SplitSum(FixedExtra(sp), pre, x, y, z, post);
    SplitSum(CommissionExtra(sp), pre, x, y, z, post);
    SplitAll(GoodFree, pre, x, y, z, post);
    SplitAll(GoodExtra, pre, x, y, z, post);
    if All(GoodExtra, a.selections) {
      MachineSpecialMeansKey(a);
      MachineSpecialMeansKey(b);
    }
    hide Sum, FixedExtra, CommissionExtra, Lines, Offer, HasMachineSpecialPrice, All, Canisters, FreeLiters, Quantity;
    SameIngredients(a, b);
  }

  // ---- machine special prices and vouchers ----

  /** An accepted voucher offer is based on list price times quantity of the machine alone, and its
      amount is a fifth of that, rounded half up. */
  lemma VoucherIsAFifthOfTheListPrice(input: PricingInput)
    requires Offer(input).Priced? && input.voucherPercent.Some?
    ensures input.machine.Some?
    ensures var r, b := Offer(input).result, input.machine.value;
      && r.machineSubtotalCents == b.product.listPriceCents * b.quantity.n > 0
      && 10 * r.voucherDiscountCents - 5 <= 2 * r.machineSubtotalCents < 10 * r.voucherDiscountCents + 5
      && r.discountCents == 0 && r.discountEffectiveBp == 0
  {
    MachineSpecialMeansKey(input);
    LastEntryWins(input.specialPrices, MACHINE_KEY);
    hide Sum, Lines, HasMachineSpecialPrice;
  }

  /** So extras, their special prices and the delivery price never change a voucher amount. */
  lemma VoucherIgnoresEverythingElse(a: PricingInput, b: PricingInput)
    requires Offer(a).Priced? && Offer(b).Priced? && a.voucherPercent.Some? && b.voucherPercent.Some?
    requires a.machine == b.machine
    ensures Offer(a).result.voucherDiscountCents == Offer(b).result.voucherDiscountCents
  {
    hide Offer, Sum, Lines;
    VoucherIsAFifthOfTheListPrice(a);
    VoucherIsAFifthOfTheListPrice(b);
  }

  // ---- rounding and thresholds ----

  const DISCOUNT_REASON_THRESHOLD_BP := 1000
  const DISCOUNT_APPROVAL_THRESHOLD_BP := 2000

  predicate DiscountNeedsReason(effectiveBp: int) { effectiveBp > DISCOUNT_REASON_THRESHOLD_BP }

  predicate DiscountNeedsApproval(effectiveBp: int) { effectiveBp > DISCOUNT_APPROVAL_THRESHOLD_BP }

  lemma FloorIs(a: int, b: int, q: int)
    requires b > 0
    ensures q == a / b <==> b * q <= a < b * (q + 1)
  {
    QuotientFacts(a, b);
    assert b * (q + 1) == b * q + b;
    if b * q <= a < b * (q + 1) { QuotientIs(a, b, q, a - b * q); }
  }

  /** `divRound` is the nearest integer, ties upwards. */
  lemma DivRoundIsNearest(n: int, d: int, r: int)
    requires d > 0
    ensures r == DivRound(n, d) <==> d * (2 * r - 1) <= 2 * n < d * (2 * r + 1)
  {
    FloorIs(2 * n + d, 2 * d, r);
    assert 2 * d * r == d * (2 * r - 1) + d;
    assert 2 * d * (r + 1) == d * (2 * r + 1) + d;
  }

  /** `Math.ceil(a / b)` is the least integer not below the quotient. */
  lemma CeilIs(a: int, b: int)
    requires b > 0
    ensures a <= b * CeilDiv(a, b) < a + b
  {
    var f := (-a) / b;
    FloorIs(-a, b, f);
    assert b * CeilDiv(a, b) == -(b * f);
    assert b * (f + 1) == b * f + b;
  }

  /** Comparing basis points is comparing the products. */
  lemma Bracket(subtotal: int, bp: int, bound: int, product: int)
    requires subtotal > 0 && product == subtotal * bp
    ensures bp > bound ==> product >= subtotal * bound + subtotal
    ensures bp <= bound ==> product <= subtotal * bound
  {
    if bp > bound { MulApart(subtotal, bound, bp); } else { MulOrder(subtotal, bp, bound); }
  }

  /** A fixed discount on a machine subtotal: its effective basis points round up, so reading them
      back as a percentage never gives less and at most a rounding step more; thresholds are exact. */
  lemma FixedDiscountBasisPoints(value: int, subtotal: int)
    requires 0 < value <= subtotal
    ensures var bp := CeilDiv(value * 10_000, subtotal);
      && 1 <= bp <= 10_000
      && value <= DivRound(subtotal * bp, 10_000) <= value + DivRound(subtotal - 1, 10_000)
      && (subtotal <= 5000 ==> DivRound(subtotal * bp, 10_000) == value)
      && (DiscountNeedsReason(bp) <==> 10 * value > subtotal)
      && (DiscountNeedsApproval(bp) <==> 5 * value > subtotal)
  {
    var bp := CeilDiv(value * 10_000, subtotal);
    CeilIs(value * 10_000, subtotal);
    var product := subtotal * bp;
    Bracket(subtotal, bp, 0, product);
    Bracket(subtotal, bp, 10_000, product);
    Bracket(subtotal, bp, 1000, product);
    Bracket(subtotal, bp, 2000, product);
  }

  /** A percentage of at most 100 % never exceeds the subtotal it is taken from. */
  lemma PercentStaysWithinSubtotal(subtotal: int, bp: int)
    requires subtotal > 0 && 0 < bp <= 10_000
    ensures 0 <= DivRound(subtotal * bp, 10_000) <= subtotal
  {
    Bracket(subtotal, bp, 10_000, subtotal * bp);
    Bracket(subtotal, bp, 0, subtotal * bp);
  }

  /** What a discount of `cents` at `bp` effective basis points means for a machine subtotal. */
  ghost predicate FaithfulDiscount(subtotal: int, d: Discount, cents: int, bp: int) {
    && 0 <= cents <= subtotal && 1 <= bp <= 10_000
    && (d.kind.Percent? ==>
        bp == Amount(d.value) && 10_000 * (2 * cents - 1) <= 2 * (subtotal * bp) < 10_000 * (2 * cents + 1))
    && (d.kind.FixedAmount? ==>
        && cents == Amount(d.value)
        && cents <= DivRound(subtotal * bp, 10_000) <= cents + DivRound(subtotal - 1, 10_000)
        && (subtotal <= 5000 ==> DivRound(subtotal * bp, 10_000) == cents)
        && (DiscountNeedsReason(bp) <==> 10 * cents > subtotal)
        && (DiscountNeedsApproval(bp) <==> 5 * cents > subtotal))
  }

  lemma DiscountTakenIsFaithful(subtotal: int, d: Discount)
    requires DiscountAllowed(subtotal, Some(d))
    ensures FaithfulDiscount(subtotal, d, DiscountTaken(subtotal, Some(d)).0, DiscountTaken(subtotal, Some(d)).1)
  {
    var value := Amount(d.value);
    hide DivRound, CeilDiv;
    if d.kind.Percent? {
      DivRoundIsNearest(subtotal * value, 10_000, DivRound(subtotal * value, 10_000));
      PercentStaysWithinSubtotal(subtotal, value);
    } else {
      FixedDiscountBasisPoints(value, subtotal);
    }
  }

  /** The discount of an accepted offer. A percentage is taken to the nearest cent; a fixed amount is taken
      as it is, and its effective basis points are just high enough to give it back. Whether a reason or an
      approval is due is exactly a matter of a tenth and a fifth of the machine subtotal. */
  lemma AcceptedDiscount(input: PricingInput)
    requires Offer(input).Priced? && input.discount.Some?
    ensures var r := Offer(input).result;
      r.machineSubtotalCents > 0
      && FaithfulDiscount(r.machineSubtotalCents, input.discount.value, r.discountCents, r.discountEffectiveBp)
  {
    hide MachineSubtotal, FaithfulDiscount, DiscountTaken, Sum, Lines;
    DiscountTakenIsFaithful(MachineSubtotal(input), input.discount.value);
  }

  // ---- every chosen article is on the offer ----

  function FreeKey(p: Product): string { "free:" + p.id }

  function QuantityUnder(key: string): LineItem -> int {
    (l: LineItem) => if l.lineKey == key then l.quantity else 0
  }

  /** The quantity a selection adds under a line key. */
  function ChosenUnder(key: string): Selection -> int {
    (s: Selection) =>
      if (if s.role.Free? then FreeKey(s.product) else ExtraKey(s.product)) == key then Amount(s.quantity) else 0
  }

  lemma {:induction false} ChosenLines(sp: seq<SpecialPrice>, s: seq<Selection>, key: string)
    ensures Sum(QuantityUnder(key), FreeItems(s)) + Sum(QuantityUnder(key), ExtraItems(sp, s))
      == Sum(ChosenUnder(key), s)
  {
    if s == [] {
    } else {
      var frees, extras := FreeItems(s[1..]), ExtraItems(sp, s[1..]);
      ChosenLines(sp, s[1..], key);
      if s[0].role.Free? {
        var line := FreeItem(s[0]);
        assert FreeItems(s) == [line] + frees && ExtraItems(sp, s) == extras;
        assert ([line] + frees)[1..] == frees;
      } else {
        var line := ExtraItemWith(sp)(s[0]);
        assert ExtraItems(sp, s) == [line] + extras && FreeItems(s) == frees;
        assert ([line] + extras)[1..] == extras;
      }
    }
  }

  lemma OtherKeys(input: PricingInput, p: Product, key: string)
    requires key == FreeKey(p) || key == ExtraKey(p)
    ensures input.machine.Some? ==> QuantityUnder(key)(MachineItems(input)[0]) == 0
    ensures input.machine.Some? ==>
      QuantityUnder(key)(PackItems(input)[0]) == 0 == QuantityUnder(key)(PackItems(input)[1])
    ensures DeliveryItems(input) != [] ==> QuantityUnder(key)(DeliveryItems(input)[0]) == 0
  {
    assert key[0] in {'f', 'e'};
    assert MACHINE_KEY[0] == 'm' && "included:cups"[0] == 'i' && "included:straws"[0] == 'i' && "delivery"[0] == 'd';
  }

  /** No quantity is lost or invented: under every article key the lines of an accepted offer hold exactly
      what was chosen under it. */
  lemma ChosenQuantitiesAreListed(input: PricingInput, p: Product, key: string)
    requires Offer(input).Priced?
    requires key == FreeKey(p) || key == ExtraKey(p)
    ensures Sum(QuantityUnder(key), Offer(input).result.lineItems) == Sum(ChosenUnder(key), input.selections)
  {
    ChosenLines(input.specialPrices, input.selections, key);
    OtherKeys(input, p, key);
    assert Offer(input).result.lineItems == Lines(input);
    hide Sum, Lines, Offer, FreeItems, ExtraItems, QuantityUnder;
    LinesSum(input, QuantityUnder(key));
    SingleLinesSum(input, QuantityUnder(key));
  }

  lemma {:induction false} NothingChosenUnder(s: seq<Selection>, key: string)
    requires key != "" && key[0] == 'i'
    ensures Sum(ChosenUnder(key), s) == 0
  {
    if s == [] {
    } else {
      NothingChosenUnder(s[1..], key);
      assert FreeKey(s[0].product)[0] == 'f' && ExtraKey(s[0].product)[0] == 'e';
    }
  }

  lemma PackQuantities(input: PricingInput, key: string)
    requires key in {"included:cups", "included:straws"}
    ensures input.machine.Some? ==>
      QuantityUnder(key)(MachineItems(input)[0]) == 0
      && QuantityUnder(key)(PackItems(input)[0]) + QuantityUnder(key)(PackItems(input)[1]) == 1
    ensures DeliveryItems(input) != [] ==> QuantityUnder(key)(DeliveryItems(input)[0]) == 0
    ensures key[0] == 'i'
  {
    assert |"included:cups"| != |"included:straws"|;
    assert key[0] == 'i' && MACHINE_KEY[0] == 'm' && "delivery"[0] == 'd';
  }

  /** Cups and straws are included once per rental, however many machines are booked, and never without one. */
  lemma PacksOncePerRental(input: PricingInput, key: string)
    requires Offer(input).Priced? && key in {"included:cups", "included:straws"}
    ensures Sum(QuantityUnder(key), Offer(input).result.lineItems) == if input.machine.Some? then 1 else 0
  {
    ChosenLines(input.specialPrices, input.selections, key);
    PackQuantities(input, key);
    assert Offer(input).result.lineItems == Lines(input);
    hide Sum, Lines, Offer, FreeItems, ExtraItems, QuantityUnder;
    NothingChosenUnder(input.selections, key);
    LinesSum(input, QuantityUnder(key));
    SingleLinesSum(input, QuantityUnder(key));
  }

  // ---- where the prices come from ----

  /** The last special price recorded for a line, as its agreed price. */
  ghost predicate AgreedByLastEntry(sp: seq<SpecialPrice>, l: LineItem, i: int) {
    && 0 <= i < |sp| && sp[i].lineKey == l.lineKey
    && (forall j :: i < j < |sp| ==> sp[j].lineKey != l.lineKey)
    && sp[i].unitPriceCents == Whole(l.agreedUnitPriceCents)
    && l.specialPriceBy == Some(sp[i].byUserId) && l.specialPriceAt == Some(sp[i].at)
  }

  ghost predicate PriceHasSource(input: PricingInput, l: LineItem) {
    match l.priceSource
    case List =>
      l.agreedUnitPriceCents == l.standardUnitPriceCents && forall e :: e in input.specialPrices ==>
        e.lineKey != l.lineKey
    case Special => exists i :: AgreedByLastEntry(input.specialPrices, l, i)
    case Manual =>
      l.kind.DeliveryLine? && input.fulfillment.Delivery?
        && input.deliveryPriceCents == Some(Whole(l.agreedUnitPriceCents))
    case Inclusive => l.billingMode.Included? && l.agreedUnitPriceCents == 0
  }

  lemma AgreementHasSource(input: PricingInput, l: LineItem)
    requires All(GoodSpecial, input.specialPrices)
    requires var a := Agree(SpecialFor(input.specialPrices, l.lineKey), l.standardUnitPriceCents);
      && l.agreedUnitPriceCents == a.agreed && l.priceSource == a.source
      && l.specialPriceBy == a.grantedBy && l.specialPriceAt == a.grantedAt
    ensures PriceHasSource(input, l)
  {
    var sp := input.specialPrices;
    LastEntryWins(sp, l.lineKey);
    if SpecialFor(sp, l.lineKey).Some? {
      var e := SpecialFor(sp, l.lineKey).value;
      var i :| LastWith(sp, l.lineKey, i) && sp[i] == e;
      assert GoodSpecial(sp[i]);
      assert AgreedByLastEntry(sp, l, i);
    }
  }

  lemma ExtraOrigin(sp: seq<SpecialPrice>, s: seq<Selection>, l: LineItem) returns (x: Selection)
    requires l in ExtraItems(sp, s)
    ensures l == ExtraItemWith(sp)(x)
  {
    var extras := Filter(IsExtra, s);
    MapAt(ExtraItemWith(sp), extras, 0);
    var i :| 0 <= i < |ExtraItems(sp, s)| && ExtraItems(sp, s)[i] == l;
    MapAt(ExtraItemWith(sp), extras, i);
    x := extras[i];
  }

  lemma FreeOrigin(s: seq<Selection>, l: LineItem) returns (x: Selection)
    requires l in FreeItems(s)
    ensures l == FreeItem(x)
  {
    var frees := Filter(IsFree, s);
    MapAt(FreeItem, frees, 0);
    var i :| 0 <= i < |FreeItems(s)| && FreeItems(s)[i] == l;
    MapAt(FreeItem, frees, i);
    x := frees[i];
  }

  lemma IncludedOrDelivered(input: PricingInput, l: LineItem)
    requires DeliveryOk(input)
    requires l in PackItems(input) || l in DeliveryItems(input) || (exists x :: l == FreeItem(x))
    ensures PriceHasSource(input, l)
  {
  }

  /** Every line of an accepted offer shows where its price comes from: the list price where no special price is
      recorded for the line, otherwise the last one recorded, with who granted it and when; the delivery price
      entered by hand; or nothing for what is included. */
  lemma EveryPriceHasItsSource(input: PricingInput, l: LineItem)
    requires Offer(input).Priced? && l in Offer(input).result.lineItems
    ensures PriceHasSource(input, l)
  {
    assert l in Lines(input);
    hide ExtraItems, FreeItems, SpecialFor, Agree, PriceHasSource, Sum, FixedTotal;
    if l in MachineItems(input) {
      AgreementHasSource(input, l);
    } else if l in ExtraItems(input.specialPrices, input.selections) {
      var x := ExtraOrigin(input.specialPrices, input.selections, l);
      AgreementHasSource(input, l);
    } else {
      if l in FreeItems(input.selections) { var x := FreeOrigin(input.selections, l); }
      IncludedOrDelivered(input, l);
    }
  }
}
