/** From a selection by reference (product ID or slug) to the input of the
    pricing authority. The caller's resolver answers with a product or fails. */
module ResolveInput {
  import opened Numbers
  import opened Options
  import opened Seqs
  import opened Pricing
  import opened PricingRules

  datatype MachineRequest<Ref> = MachineRequest(ref: Ref, quantity: Number)

  datatype SelectionRequest<Ref> = SelectionRequest(ref: Ref, role: Role, quantity: Number)

  datatype Request<Ref> = Request(
    machine: Option<MachineRequest<Ref>>,
    selections: seq<SelectionRequest<Ref>>,
    fulfillment: Fulfillment,
    deliveryPriceCents: Option<Number>,
    discount: Option<Discount>,
    specialPrices: seq<SpecialPrice>,
    voucherPercent: Option<int>)

  /** `product(ref)`, where `None` is a resolver that throws, and `includedPack(slug)`. */
  datatype Resolver<!Ref> = Resolver(product: Ref -> Option<Product>, includedPack: string -> Option<Product>)

  const CUPS_PACK_SLUG := "becher-25"
  const STRAWS_PACK_SLUG := "strohhalme-25"

  /** Every reference of the request has a product. */
  ghost predicate Resolvable<Ref>(request: Request<Ref>, resolver: Resolver<Ref>) {
    && (request.machine.Some? ==> resolver.product(request.machine.value.ref).Some?)
    && forall i :: 0 <= i < |request.selections| ==> resolver.product(request.selections[i].ref).Some?
  }

  /** `input` is the request with every reference replaced by its product, in the order of the request. */
  ghost predicate Resolves<Ref>(request: Request<Ref>, resolver: Resolver<Ref>, input: PricingInput) {
    && input.machine.Some? == request.machine.Some?
    && (request.machine.Some? ==>
        && resolver.product(request.machine.value.ref) == Some(input.machine.value.product)
        && input.machine.value.quantity == request.machine.value.quantity)
    && |input.selections| == |request.selections|
    && (forall i :: 0 <= i < |request.selections| ==>
        && resolver.product(request.selections[i].ref) == Some(input.selections[i].product)
        && input.selections[i].role == request.selections[i].role
        && input.selections[i].quantity == request.selections[i].quantity)
    && input.cupsProduct == resolver.includedPack("becher-25")
    && input.strawsProduct == resolver.includedPack("strohhalme-25")
    && input.fulfillment == request.fulfillment
    && input.deliveryPriceCents == request.deliveryPriceCents
    && input.discount == request.discount
    && input.specialPrices == request.specialPrices
    && input.voucherPercent == request.voucherPercent
  }

  /** `resolvePricingInput` */
  method ResolvePricingInput<Ref>(request: Request<Ref>, resolver: Resolver<Ref>) returns (input: Option<PricingInput>)
    ensures input.Some? <==> Resolvable(request, resolver)
    ensures input.Some? ==> Resolves(request, resolver, input.value)
  {
    var machine := None;
    if request.machine.Some? {
      var product := resolver.product(request.machine.value.ref);
      if product.None? { return None; }
      machine := Some(Booking(product.value, request.machine.value.quantity));
    }
    var selections: seq<Selection> := [];
    for i := 0 to |request.selections|
      invariant |selections| == i
      invariant forall j :: 0 <= j < i ==>
        && resolver.product(request.selections[j].ref) == Some(selections[j].product)
        && selections[j].role == request.selections[j].role
        && selections[j].quantity == request.selections[j].quantity
    {
      var selection := request.selections[i];
      var product := resolver.product(selection.ref);
      if product.None? { return None; }
      selections := selections + [Selection(product.value, selection.role, selection.quantity)];
    }
    var cups := resolver.includedPack(CUPS_PACK_SLUG);
    var straws := resolver.includedPack(STRAWS_PACK_SLUG);
    return Some(PricingInput(machine, cups, straws, selections, request.fulfillment, request.deliveryPriceCents,
                             request.discount, request.specialPrices, request.voucherPercent));
  }

  /** Two requests that ask for the same products under different references. */
  ghost predicate SameProducts<A, B>(a: Request<A>, ra: Resolver<A>, b: Request<B>, rb: Resolver<B>) {
    && a.machine.Some? == b.machine.Some?
    && (a.machine.Some? ==>
        && ra.product(a.machine.value.ref) == rb.product(b.machine.value.ref)
        && a.machine.value.quantity == b.machine.value.quantity)
    && |a.selections| == |b.selections|
    && (forall i :: 0 <= i < |a.selections| ==>
        && ra.product(a.selections[i].ref) == rb.product(b.selections[i].ref)
        && a.selections[i].role == b.selections[i].role
        && a.selections[i].quantity == b.selections[i].quantity)
    && ra.includedPack("becher-25") == rb.includedPack("becher-25")
    && ra.includedPack("strohhalme-25") == rb.includedPack("strohhalme-25")
    && a.fulfillment == b.fulfillment && a.deliveryPriceCents == b.deliveryPriceCents
    && a.discount == b.discount && a.specialPrices == b.specialPrices && a.voucherPercent == b.voucherPercent
  }

  /** A staff offer by product ID and a public preview by slug get the same price, line by line,
      when their references stand for the same products. */
  lemma SameProductsSameOffer<A, B>(a: Request<A>, ra: Resolver<A>, x: PricingInput,
                                    b: Request<B>, rb: Resolver<B>, y: PricingInput)
    requires SameProducts(a, ra, b, rb)
    requires Resolves(a, ra, x) && Resolves(b, rb, y)
    ensures x == y && Offer(x) == Offer(y)
  {
    assert forall i :: 0 <= i < |x.selections| ==> x.selections[i] == y.selections[i];
  }

  function SelectionOf<Ref>(resolver: Resolver<Ref>, fallback: Selection): SelectionRequest<Ref> -> Selection {
    (r: SelectionRequest<Ref>) =>
      match resolver.product(r.ref)
      case None => fallback
      case Some(product) => Selection(product, r.role, r.quantity)
  }

  lemma ResolvedByMap<Ref>(a: Request<Ref>, resolver: Resolver<Ref>, x: PricingInput, fallback: Selection)
    requires Resolves(a, resolver, x)
    ensures Map(SelectionOf(resolver, fallback), a.selections) == x.selections
  {
    var f := SelectionOf(resolver, fallback);
    MapAt(f, a.selections, 0);
    forall i | 0 <= i < |a.selections| ensures Map(f, a.selections)[i] == x.selections[i] {
      MapAt(f, a.selections, i);
    }
  }

  /** Reordering the asked selections only reorders the lines of the offer. */
  lemma ReorderedRequest<Ref>(a: Request<Ref>, x: PricingInput, b: Request<Ref>, y: PricingInput,
                              resolver: Resolver<Ref>)
    requires b == a.(selections := b.selections) && Permutation(a.selections, b.selections)
    requires Resolves(a, resolver, x) && Resolves(b, resolver, y)
    ensures SameButForLineOrder(Offer(x), Offer(y))
  {
    SameElements(a.selections, b.selections);
    if a.selections == [] {
      assert x.selections == [] && y.selections == [];
    } else {
      var f := SelectionOf(resolver, x.selections[0]);
      MapPermuted(f, a.selections, b.selections);
      ResolvedByMap(a, resolver, x, x.selections[0]);
      ResolvedByMap(b, resolver, y, x.selections[0]);
    }
    hide Offer;
    OrderOfSelections(x, y);
  }
}
