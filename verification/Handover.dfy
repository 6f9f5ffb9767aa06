/** What still blocks the finalisation of a handover, as tagged values instead of
    message texts; an empty list means it may be finalised. */
module Handover {
  import opened Numbers
  import opened Options
  import opened Seqs
  import opened Pricing
  import opened PricingRules

  datatype Problem = Problem(code: string, detail: string)

  datatype AssignedMachine = AssignedMachine(id: string, machineCode: string)

  datatype Slot = Slot(id: string, slotNo: int, productName: string, status: string, machine: Option<AssignedMachine>,
                       currentProblems: seq<Problem>, overrideStale: bool)

  datatype MachineCheck = MachineCheck(assignmentId: string, checked: bool, photoCount: int)

  datatype Item = Item(kind: string, description: string, measure: string, plannedQuantity: int, actualQuantity: int)

  datatype Stock = Stock(productName: string, systemStock: Option<int>, required: int, sufficient: bool)

  datatype HandoverInput = HandoverInput(
    processStatus: string,
    bookingCancelled: bool,
    handoverStatus: string,
    recipientKind: Option<string>,
    recipientName: Option<string>,
    slots: seq<Slot>,
    machines: seq<MachineCheck>,
    items: seq<Item>,
    stock: seq<Stock>,
    customerSigned: bool,
    staffSigned: bool,
    containersTotal: int)

  datatype Blocker =
    | ProcessCancelled
    | BookingCancelled
    | ProcessCompleted
    | IncludedExceeded(description: string, planned: int, measure: string)
    | NoMachineBooked
    | NoConcreteMachine(slotNo: int, productName: string)
    | NotPrepared(machineCode: string)
    | HardProblem(machineCode: string, detail: string)
    | StaleOverride(machineCode: string)
    | NotChecked(machineCode: string)
    | PhotoMissing(machineCode: string)
    | SameMachineTwice
    | CanisterLimit(limit: int)
    | StockShort(productName: string, systemStock: Option<int>, required: int)
    | NoRecipient
    | CustomerSignatureMissing
    | StaffSignatureMissing

  // ---- one part of the list after the other ----

  predicate IsHard(p: Problem) { p.code == "issued_elsewhere" || p.code == "status_rented" }

  function FirstHard(problems: seq<Problem>): Option<Problem> {
    if problems == [] then None
    else if IsHard(problems[0]) then Some(problems[0])
    else FirstHard(problems[1..])
  }

  function CheckOf(machines: seq<MachineCheck>, slotId: string): Option<MachineCheck> {
    if machines == [] then None
    else if machines[0].assignmentId == slotId then Some(machines[0])
    else CheckOf(machines[1..], slotId)
  }

  function StatusBlockers(input: HandoverInput): seq<Blocker> {
    (if input.processStatus == "cancelled" then [ProcessCancelled] else When(input.bookingCancelled, BookingCancelled))
      + When(input.processStatus == "completed", ProcessCompleted)
  }

  function ItemBlockers(items: seq<Item>): seq<Blocker> {
    if items == [] then []
    else
      var item := items[|items| - 1];
      ItemBlockers(items[..|items| - 1])
        + When(item.kind == "included" && item.actualQuantity > item.plannedQuantity,
             IncludedExceeded(item.description, item.plannedQuantity, item.measure))
  }

  function SlotBlockers(slot: Slot, machines: seq<MachineCheck>): seq<Blocker> {
    match slot.machine
    case None => [NoConcreteMachine(slot.slotNo, slot.productName)]
    case Some(machine) =>
      var hard := FirstHard(slot.currentProblems);
      var check := CheckOf(machines, slot.id);
      When(slot.status != "prepared" && slot.status != "issued", NotPrepared(machine.machineCode))
        + (if hard.Some? then [HardProblem(machine.machineCode, hard.value.detail)]
           else When(slot.overrideStale, StaleOverride(machine.machineCode)))
        + When(check.None? || !check.value.checked, NotChecked(machine.machineCode))
        + When(check.None? || check.value.photoCount == 0, PhotoMissing(machine.machineCode))
  }

  function AllSlotBlockers(slots: seq<Slot>, machines: seq<MachineCheck>): seq<Blocker> {
    if slots == [] then []
    else AllSlotBlockers(slots[..|slots| - 1], machines) + SlotBlockers(slots[|slots| - 1], machines)
  }

  /** The machine IDs of the slots that have one. */
  function MachineIds(slots: seq<Slot>): seq<string> {
    if slots == [] then []
    else
      var machine := slots[|slots| - 1].machine;
      MachineIds(slots[..|slots| - 1]) + (if machine.Some? then [machine.value.id] else [])
  }

  /** `new Set(ids).size !== ids.length` */
  predicate HasRepeats(ids: seq<string>) { |set id | id in ids| != |ids| }

  function PurchaseQuantity(item: Item): int { if item.kind == "purchase" then item.actualQuantity else 0 }

  function StockBlockers(stock: seq<Stock>): seq<Blocker> {
    if stock == [] then []
    else
      var entry := stock[|stock| - 1];
      StockBlockers(stock[..|stock| - 1])
        + When(!entry.sufficient, StockShort(entry.productName, entry.systemStock, entry.required))
  }

  function CanisterBlockers(input: HandoverInput): seq<Blocker> {
    var limit := input.containersTotal * CANISTERS_PER_CONTAINER_LIMIT;
    When(Sum(PurchaseQuantity, input.items) > limit, CanisterLimit(limit))
  }

  function ClosingBlockers(input: HandoverInput): seq<Blocker> {
    When(input.recipientKind.None? || input.recipientName.None? || input.recipientName.value == "", NoRecipient)
      + When(!input.customerSigned, CustomerSignatureMissing)
      + When(!input.staffSigned, StaffSignatureMissing)
  }

  /** The whole list of a handover that is not yet finalised. */
  function OpenBlockers(input: HandoverInput): seq<Blocker> {
    StatusBlockers(input) + ItemBlockers(input.items) + When(input.slots == [], NoMachineBooked)
      + AllSlotBlockers(input.slots, input.machines) + When(HasRepeats(MachineIds(input.slots)), SameMachineTwice)
      + CanisterBlockers(input) + StockBlockers(input.stock) + ClosingBlockers(input)
  }

  // ---- when a handover may be finalised ----

  predicate SlotReady(slot: Slot, machines: seq<MachineCheck>) {
    && slot.machine.Some?
    && slot.status in {"prepared", "issued"}
    && (forall p :: p in slot.currentProblems ==> !IsHard(p))
    && !slot.overrideStale
    && CheckOf(machines, slot.id).Some?
    && CheckOf(machines, slot.id).value.checked
    && CheckOf(machines, slot.id).value.photoCount != 0
  }

  /** Different slots have different machines. */
  ghost predicate OneMachinePerSlot(slots: seq<Slot>)
    requires forall slot :: slot in slots ==> slot.machine.Some?
  {
    forall i, j :: 0 <= i < j < |slots| ==> slots[i].machine.value.id != slots[j].machine.value.id
  }

  /** Everything the finalisation of an open handover asks for. */
  ghost predicate Ready(input: HandoverInput) {
    && input.processStatus != "cancelled" && input.processStatus != "completed" && !input.bookingCancelled
    && (forall item :: item in input.items && item.kind == "included" ==> item.actualQuantity <= item.plannedQuantity)
    && input.slots != []
    && (forall slot :: slot in input.slots ==> SlotReady(slot, input.machines))
    && OneMachinePerSlot(input.slots)
    && Sum(PurchaseQuantity, input.items) <= 2 * input.containersTotal
    && (forall entry :: entry in input.stock ==> entry.sufficient)
    && input.recipientKind.Some? && input.recipientName.Some? && input.recipientName.value != ""
    && input.customerSigned && input.staffSigned
  }

  lemma {:induction false} NoItemBlockers(items: seq<Item>)
    ensures ItemBlockers(items) == [] <==>
      forall item :: item in items && item.kind == "included" ==> item.actualQuantity <= item.plannedQuantity
  {
    if items == [] {
    } else {
      var last := items[|items| - 1];
      NoItemBlockers(items[..|items| - 1]);
      assert items == items[..|items| - 1] + [last];
    }
  }

  lemma {:induction false} NoStockBlockers(stock: seq<Stock>)
    ensures StockBlockers(stock) == [] <==> forall entry :: entry in stock ==> entry.sufficient
  {
    if stock == [] {
    } else {
      var last := stock[|stock| - 1];
      NoStockBlockers(stock[..|stock| - 1]);
      assert stock == stock[..|stock| - 1] + [last];
    }
  }

  lemma {:induction false} FirstHardFinds(problems: seq<Problem>)
    ensures FirstHard(problems).None? <==> forall p :: p in problems ==> !IsHard(p)
  {
    if problems == [] {
    } else {
      FirstHardFinds(problems[1..]);
      assert problems == [problems[0]] + problems[1..];
    }
  }

  lemma NoSlotBlocker(slot: Slot, machines: seq<MachineCheck>)
    ensures SlotBlockers(slot, machines) == [] <==> SlotReady(slot, machines)
  {
    FirstHardFinds(slot.currentProblems);
  }

  lemma {:induction false} NoSlotBlockers(slots: seq<Slot>, machines: seq<MachineCheck>)
    ensures AllSlotBlockers(slots, machines) == [] <==> forall slot :: slot in slots ==> SlotReady(slot, machines)
  {
    if slots == [] {
    } else {
      hide SlotBlockers, SlotReady;
      var init, last := slots[..|slots| - 1], slots[|slots| - 1];
      assert slots == init + [last];
      if (forall slot :: slot in init ==> SlotReady(slot, machines)) && SlotReady(last, machines) {
        assert forall slot :: slot in slots ==> SlotReady(slot, machines);
      } else if !SlotReady(last, machines) {
        assert last in slots;
      } else {
        var slot :| slot in init && !SlotReady(slot, machines);
        assert slot in slots;
      }
      NoSlotBlockers(init, machines);
      NoSlotBlocker(last, machines);
    }
  }

  /** Set size against list length: the size is smaller exactly when an element repeats. */
  lemma {:induction false} RepeatsAreCounted(ids: seq<string>)
    ensures |set id | id in ids| <= |ids|
    ensures !HasRepeats(ids) <==> forall i, j :: 0 <= i < j < |ids| ==> ids[i] != ids[j]
  {
    if ids == [] {
    } else {
      var init, last := ids[..|ids| - 1], ids[|ids| - 1];
      RepeatsAreCounted(init);
      assert ids == init + [last];
      assert (set id | id in ids) == (set id | id in init) + {last};
      if last in init {
        var i :| 0 <= i < |init| && init[i] == last;
        assert ids[i] == ids[|ids| - 1];
      } else {
        assert forall i :: 0 <= i < |init| ==> ids[i] == init[i] && ids[i] != last;
      }
      if i, j :| 0 <= i < j < |init| && init[i] == init[j] {
        assert ids[i] == ids[j];
      }
    }
  }

  lemma {:induction false} IdsOfFullSlots(slots: seq<Slot>)
    requires forall slot :: slot in slots ==> slot.machine.Some?
    ensures |MachineIds(slots)| == |slots|
    ensures forall i :: 0 <= i < |slots| ==> MachineIds(slots)[i] == slots[i].machine.value.id
  {
    if slots == [] {
    } else {
      var last := slots[|slots| - 1];
      assert last in slots;
      IdsOfFullSlots(slots[..|slots| - 1]);
    }
  }

  lemma NoRepeatedMachine(slots: seq<Slot>, machines: seq<MachineCheck>)
    ensures (forall slot :: slot in slots ==> SlotReady(slot, machines)) ==>
      (forall slot :: slot in slots ==> slot.machine.Some?)
        && (!HasRepeats(MachineIds(slots)) <==> OneMachinePerSlot(slots))
  {
    if forall slot :: slot in slots ==> SlotReady(slot, machines) {
      RepeatsAreCounted(MachineIds(slots));
      IdsOfFullSlots(slots);
    }
  }

  /** No blocker is open exactly when the handover is ready. */
  lemma NothingOpenMeansReady(input: HandoverInput)
    ensures OpenBlockers(input) == [] <==> Ready(input)
  {
    hide ItemBlockers, AllSlotBlockers, StockBlockers, MachineIds, HasRepeats, CheckOf, SlotReady, Sum,
      OneMachinePerSlot;
    NoItemBlockers(input.items);
    NoSlotBlockers(input.slots, input.machines);
    NoStockBlockers(input.stock);
    NoRepeatedMachine(input.slots, input.machines);
  }

  // ---- what each blocker says ----

  ghost predicate FirstHardAt(problems: seq<Problem>, k: int) {
    && 0 <= k < |problems| && problems[k].code in {"issued_elsewhere", "status_rented"}
    && forall j :: 0 <= j < k ==> problems[j].code !in {"issued_elsewhere", "status_rented"}
  }

  ghost predicate FirstCheckAt(machines: seq<MachineCheck>, slotId: string, k: int) {
    && 0 <= k < |machines| && machines[k].assignmentId == slotId
    && forall j :: 0 <= j < k ==> machines[j].assignmentId != slotId
  }

  /** Why a slot raises a blocker. */
  ghost predicate SlotReason(b: Blocker, slot: Slot, machines: seq<MachineCheck>) {
    match b
    case NoConcreteMachine(slotNo, productName) =>
      slot.machine.None? && slotNo == slot.slotNo && productName == slot.productName
    case NotPrepared(code) =>
      slot.machine.Some? && code == slot.machine.value.machineCode && slot.status !in {"prepared", "issued"}
    case HardProblem(code, detail) =>
      slot.machine.Some? && code == slot.machine.value.machineCode
      && exists k :: FirstHardAt(slot.currentProblems, k) && detail == slot.currentProblems[k].detail
    case StaleOverride(code) =>
      slot.machine.Some? && code == slot.machine.value.machineCode && slot.overrideStale
      && forall p :: p in slot.currentProblems ==> p.code !in {"issued_elsewhere", "status_rented"}
    case NotChecked(code) =>
      slot.machine.Some? && code == slot.machine.value.machineCode
      && forall k :: FirstCheckAt(machines, slot.id, k) ==> !machines[k].checked
    case PhotoMissing(code) =>
      slot.machine.Some? && code == slot.machine.value.machineCode
      && forall k :: FirstCheckAt(machines, slot.id, k) ==> machines[k].photoCount == 0
    case _ => false
  }

  predicate Exceeds(item: Item) { item.kind == "included" && item.actualQuantity > item.plannedQuantity }

  function ExceededBy(item: Item): Blocker { IncludedExceeded(item.description, item.plannedQuantity, item.measure) }

  function ShortOf(entry: Stock): Blocker { StockShort(entry.productName, entry.systemStock, entry.required) }

  predicate SameMachine(a: Slot, b: Slot) {
    a.machine.Some? && b.machine.Some? && a.machine.value.id == b.machine.value.id
  }

  /** Two of the slots have the same machine. */
  ghost predicate MachineRepeats(slots: seq<Slot>) {
    exists i, j :: 0 <= i < j < |slots| && SameMachine(slots[i], slots[j])
  }

  /** Why a handover raises a blocker. */
  ghost predicate Reason(b: Blocker, input: HandoverInput) {
    match b
    case ProcessCancelled => input.processStatus == "cancelled"
    case BookingCancelled => input.processStatus != "cancelled" && input.bookingCancelled
    case ProcessCompleted => input.processStatus == "completed"
    case IncludedExceeded(_, _, _) =>
      exists item :: item in input.items && Exceeds(item) && b == ExceededBy(item)
    case NoMachineBooked => input.slots == []
    case SameMachineTwice =>
      MachineRepeats(input.slots)
    case CanisterLimit(limit) =>
      limit == 2 * input.containersTotal && Sum(PurchaseQuantity, input.items) > limit
    case StockShort(_, _, _) =>
      exists entry :: entry in input.stock && !entry.sufficient && b == ShortOf(entry)
    case NoRecipient =>
      input.recipientKind.None? || input.recipientName.None? || input.recipientName == Some("")
    case CustomerSignatureMissing => !input.customerSigned
    case StaffSignatureMissing => !input.staffSigned
    case _ => exists slot :: slot in input.slots && SlotReason(b, slot, input.machines)
  }

  lemma {:induction false} FirstHardIs(problems: seq<Problem>)
    ensures match FirstHard(problems)
      case None => forall p :: p in problems ==> p.code !in {"issued_elsewhere", "status_rented"}
      case Some(p) => exists k :: FirstHardAt(problems, k) && problems[k] == p
  {
    if problems == [] {
    } else {
      FirstHardIs(problems[1..]);
      assert problems == [problems[0]] + problems[1..];
      if IsHard(problems[0]) {
        assert FirstHardAt(problems, 0);
      } else if FirstHard(problems[1..]).Some? {
        var k :| FirstHardAt(problems[1..], k) && problems[1..][k] == FirstHard(problems[1..]).value;
        assert FirstHardAt(problems, k + 1);
      }
    }
  }

  lemma {:induction false} CheckOfIs(machines: seq<MachineCheck>, slotId: string)
    ensures match CheckOf(machines, slotId)
      case None => forall k :: !FirstCheckAt(machines, slotId, k)
      case Some(c) => exists k :: FirstCheckAt(machines, slotId, k) && machines[k] == c
  {
    if machines == [] {
    } else {
      var rest := machines[1..];
      CheckOfIs(rest, slotId);
      if machines[0].assignmentId == slotId {
        assert FirstCheckAt(machines, slotId, 0);
      } else if CheckOf(rest, slotId).Some? {
        var k :| FirstCheckAt(rest, slotId, k) && rest[k] == CheckOf(rest, slotId).value;
        assert FirstCheckAt(machines, slotId, k + 1);
      } else {
        forall k ensures !FirstCheckAt(machines, slotId, k) {
          if FirstCheckAt(machines, slotId, k) { assert FirstCheckAt(rest, slotId, k - 1); }
        }
      }
    }
  }

  lemma HardOrStale(slot: Slot, machines: seq<MachineCheck>, b: Blocker)
    requires slot.machine.Some?
    ensures var code, hard := slot.machine.value.machineCode, FirstHard(slot.currentProblems);
      (b in if hard.Some? then [HardProblem(code, hard.value.detail)]
            else When(slot.overrideStale, StaleOverride(code)))
      <==> (b.HardProblem? || b.StaleOverride?) && SlotReason(b, slot, machines)
  {
    FirstHardIs(slot.currentProblems);
    hide FirstHard;
  }

  lemma CheckAndPhoto(slot: Slot, machines: seq<MachineCheck>, b: Blocker)
    requires slot.machine.Some?
    ensures var code, check := slot.machine.value.machineCode, CheckOf(machines, slot.id);
      (b in When(check.None? || !check.value.checked, NotChecked(code))
          + When(check.None? || check.value.photoCount == 0, PhotoMissing(code)))
      <==> (b.NotChecked? || b.PhotoMissing?) && SlotReason(b, slot, machines)
  {
    CheckOfIs(machines, slot.id);
    hide CheckOf;
  }

  lemma SlotBlockersMean(slot: Slot, machines: seq<MachineCheck>, b: Blocker)
    ensures b in SlotBlockers(slot, machines) <==> SlotReason(b, slot, machines)
  {
    if slot.machine.Some? {
      HardOrStale(slot, machines, b);
      CheckAndPhoto(slot, machines, b);
    }
    hide FirstHard, CheckOf, FirstCheckAt, FirstHardAt;
  }

  lemma {:induction false} AllSlotBlockersMean(slots: seq<Slot>, machines: seq<MachineCheck>, b: Blocker)
    ensures b in AllSlotBlockers(slots, machines) <==> exists slot :: slot in slots && SlotReason(b, slot, machines)
  {
    if slots == [] {
    } else {
      var init, last := slots[..|slots| - 1], slots[|slots| - 1];
      hide SlotReason, SlotBlockers;
      AllSlotBlockersMean(init, machines, b);
      SlotBlockersMean(last, machines, b);
      assert slots == init + [last];
      if slot :| slot in slots && SlotReason(b, slot, machines) {
        assert slot in init || slot == last;
      }
      if slot :| slot in init && SlotReason(b, slot, machines) {
        assert slot in slots;
      }
      assert last in slots;
    }
  }

  lemma {:induction false} ItemBlockersMean(items: seq<Item>, b: Blocker)
    ensures b in ItemBlockers(items) <==> exists item :: item in items && Exceeds(item) && b == ExceededBy(item)
  {
    if items == [] {
    } else {
      var init, last := items[..|items| - 1], items[|items| - 1];
      ItemBlockersMean(init, b);
      assert items == init + [last];
      assert last in items;
    }
  }

  lemma {:induction false} StockBlockersMean(stock: seq<Stock>, b: Blocker)
    ensures b in StockBlockers(stock) <==> exists entry :: entry in stock && !entry.sufficient && b == ShortOf(entry)
  {
    if stock == [] {
    } else {
      var init, last := stock[..|stock| - 1], stock[|stock| - 1];
      StockBlockersMean(init, b);
      assert stock == init + [last];
      assert last in stock;
    }
  }

  lemma RepeatsSnoc(ids: seq<string>, x: string)
    ensures HasRepeats(ids + [x]) <==> HasRepeats(ids) || x in ids
  {
    RepeatsAreCounted(ids);
    assert (set id | id in ids + [x]) == (set id | id in ids) + {x};
  }

  lemma {:induction false} IdsHave(slots: seq<Slot>, id: string)
    ensures id in MachineIds(slots) <==>
      exists slot :: slot in slots && slot.machine.Some? && slot.machine.value.id == id
  {
    if slots == [] {
    } else {
      var init, last := slots[..|slots| - 1], slots[|slots| - 1];
      IdsHave(init, id);
      assert slots == init + [last];
      assert last in slots;
    }
  }

  lemma MachineRepeatsSnoc(init: seq<Slot>, last: Slot)
    ensures MachineRepeats(init + [last]) <==>
      MachineRepeats(init) || exists slot :: slot in init && SameMachine(slot, last)
  {
    hide SameMachine;
    var slots := init + [last];
    if i, j :| 0 <= i < j < |slots| && SameMachine(slots[i], slots[j]) {
      assert slots[i] in init;
      if j < |init| { assert SameMachine(init[i], init[j]); }
    }
    if i, j :| 0 <= i < j < |init| && SameMachine(init[i], init[j]) {
      assert SameMachine(slots[i], slots[j]);
    }
    if slot :| slot in init && SameMachine(slot, last) {
      var i :| 0 <= i < |init| && init[i] == slot;
      assert SameMachine(slots[i], slots[|init|]);
    }
  }

  lemma {:induction false} RepeatedMachine(slots: seq<Slot>)
    ensures HasRepeats(MachineIds(slots)) <==> MachineRepeats(slots)
  {
    if slots == [] {
      RepeatsAreCounted([]);
    } else {
      var init, last := slots[..|slots| - 1], slots[|slots| - 1];
      RepeatedMachine(init);
      assert slots == init + [last];
      MachineRepeatsSnoc(init, last);
      if last.machine.Some? {
        var id := last.machine.value.id;
        assert MachineIds(slots) == MachineIds(init) + [id];
        RepeatsSnoc(MachineIds(init), id);
        IdsHave(init, id);
      } else {
        assert MachineIds(slots) == MachineIds(init) + [] == MachineIds(init);
      }
    }
  }

  lemma InParts(input: HandoverInput, b: Blocker)
    ensures b in OpenBlockers(input) <==>
      || b in StatusBlockers(input) || b in ItemBlockers(input.items) || b in When(input.slots == [], NoMachineBooked)
      || b in AllSlotBlockers(input.slots, input.machines)
      || b in When(HasRepeats(MachineIds(input.slots)), SameMachineTwice)
      || b in CanisterBlockers(input) || b in StockBlockers(input.stock) || b in ClosingBlockers(input)
  {
    hide StatusBlockers, ItemBlockers, AllSlotBlockers, HasRepeats, MachineIds, CanisterBlockers, StockBlockers,
      ClosingBlockers, When;
  }

  lemma SmallPartsMean(input: HandoverInput, b: Blocker)
    ensures b in StatusBlockers(input) <==>
      (b.ProcessCancelled? || b.BookingCancelled? || b.ProcessCompleted?) && Reason(b, input)
    ensures b in When(input.slots == [], NoMachineBooked) <==> b.NoMachineBooked? && Reason(b, input)
    ensures b in CanisterBlockers(input) <==> b.CanisterLimit? && Reason(b, input)
    ensures b in ClosingBlockers(input) <==>
      (b.NoRecipient? || b.CustomerSignatureMissing? || b.StaffSignatureMissing?) && Reason(b, input)
  {
    hide Sum;
  }

  lemma ListPartsMean(input: HandoverInput, b: Blocker)
    ensures b in ItemBlockers(input.items) <==> b.IncludedExceeded? && Reason(b, input)
    ensures b in When(HasRepeats(MachineIds(input.slots)), SameMachineTwice) <==>
      b.SameMachineTwice? && Reason(b, input)
    ensures b in StockBlockers(input.stock) <==> b.StockShort? && Reason(b, input)
  {
    ItemBlockersMean(input.items, b);
    RepeatedMachine(input.slots);
    StockBlockersMean(input.stock, b);
    hide ItemBlockers, HasRepeats, MachineIds, StockBlockers, MachineRepeats, Exceeds;
  }

  predicate OfSlot(b: Blocker) {
    b.NoConcreteMachine? || b.NotPrepared? || b.HardProblem? || b.StaleOverride? || b.NotChecked? || b.PhotoMissing?
  }

  lemma SlotPartMeans(input: HandoverInput, b: Blocker)
    ensures b in AllSlotBlockers(input.slots, input.machines) <==> OfSlot(b) && Reason(b, input)
  {
    AllSlotBlockersMean(input.slots, input.machines, b);
    if !OfSlot(b) { assert forall slot :: !SlotReason(b, slot, input.machines); }
    hide SlotReason, AllSlotBlockers;
  }

  /** Every blocker stands in the list exactly when its reason holds. */
  lemma BlockersMean(input: HandoverInput, b: Blocker)
    ensures b in OpenBlockers(input) <==> Reason(b, input)
  {
    hide OpenBlockers, Reason, StatusBlockers, ItemBlockers, AllSlotBlockers, HasRepeats, MachineIds, CanisterBlockers,
      StockBlockers, ClosingBlockers, When;
    InParts(input, b);
    SmallPartsMean(input, b);
    ListPartsMean(input, b);
    SlotPartMeans(input, b);
  }

  // ---- in which order the blockers stand ----

  function Section(b: Blocker): nat {
    match b
    case ProcessCancelled => 0
    case BookingCancelled => 0
    case ProcessCompleted => 1
    case IncludedExceeded(_, _, _) => 2
    case NoMachineBooked => 3
    case SameMachineTwice => 5
    case CanisterLimit(_) => 6
    case StockShort(_, _, _) => 7
    case NoRecipient => 8
    case CustomerSignatureMissing => 9
    case StaffSignatureMissing => 10
    case _ => 4
  }

  /** Sections from `lo` to `hi`, none before an earlier one. */
  ghost predicate Sectioned(s: seq<Blocker>, lo: int, hi: int) {
    && (forall i :: 0 <= i < |s| ==> lo <= Section(s[i]) <= hi)
    && forall i, j :: 0 <= i < j < |s| ==> Section(s[i]) <= Section(s[j])
  }

  lemma SectionsJoin(a: seq<Blocker>, b: seq<Blocker>, lo: int, mid: int, hi: int)
    requires Sectioned(a, lo, mid) && Sectioned(b, mid, hi) && lo <= mid <= hi
    ensures Sectioned(a + b, lo, hi)
  {
    hide Section;
  }

  lemma OneSection(s: seq<Blocker>, n: int)
    requires forall b :: b in s ==> Section(b) == n
    ensures Sectioned(s, n, n)
  {
    hide Section;
    assert forall i :: 0 <= i < |s| ==> s[i] in s;
  }

  lemma ListSections(input: HandoverInput)
    ensures Sectioned(ItemBlockers(input.items), 2, 2) && Sectioned(StockBlockers(input.stock), 7, 7)
    ensures Sectioned(AllSlotBlockers(input.slots, input.machines), 4, 4)
  {
    hide ItemBlockers, StockBlockers, AllSlotBlockers, Reason, HasRepeats, MachineIds, When;
    forall b: Blocker
      ensures b in ItemBlockers(input.items) ==> Section(b) == 2
      ensures b in StockBlockers(input.stock) ==> Section(b) == 7
      ensures b in AllSlotBlockers(input.slots, input.machines) ==> Section(b) == 4
    {
      ListPartsMean(input, b);
      SlotPartMeans(input, b);
    }
    OneSection(ItemBlockers(input.items), 2);
    OneSection(StockBlockers(input.stock), 7);
    OneSection(AllSlotBlockers(input.slots, input.machines), 4);
  }

  lemma OneOrNone(condition: bool, b: Blocker)
    ensures Sectioned(When(condition, b), Section(b), Section(b))
  {
  }

  lemma StatusSections(input: HandoverInput)
    ensures Sectioned(StatusBlockers(input), 0, 1)
  {
  }

  lemma ClosingSections(input: HandoverInput)
    ensures Sectioned(ClosingBlockers(input), 8, 10)
  {
  }

  lemma SmallSections(input: HandoverInput)
    ensures Sectioned(When(input.slots == [], NoMachineBooked), 3, 3)
    ensures Sectioned(When(HasRepeats(MachineIds(input.slots)), SameMachineTwice), 5, 5)
    ensures Sectioned(CanisterBlockers(input), 6, 6)
  {
    var limit := input.containersTotal * CANISTERS_PER_CONTAINER_LIMIT;
    OneOrNone(input.slots == [], NoMachineBooked);
    OneOrNone(HasRepeats(MachineIds(input.slots)), SameMachineTwice);
    OneOrNone(Sum(PurchaseQuantity, input.items) > limit, CanisterLimit(limit));
    hide Sum, HasRepeats, MachineIds, When, Sectioned;
  }

  lemma Widened(s: seq<Blocker>, lo: int, hi: int, from: int)
    requires Sectioned(s, lo, hi) && from <= lo
    ensures Sectioned(s, from, hi)
  {
    hide Section;
  }

  /** The blockers stand in the order of the checks: the process, exceeded items, missing machine, slots, repeated
      machine, canisters, stock, recipient, signatures. */
  lemma BlockersInOrder(input: HandoverInput)
    ensures Sectioned(OpenBlockers(input), 0, 10)
  {
    hide Sectioned, StatusBlockers, ItemBlockers, When, AllSlotBlockers, HasRepeats, MachineIds, CanisterBlockers,
      StockBlockers, ClosingBlockers;
    ListSections(input);
    StatusSections(input);
    SmallSections(input);
    ClosingSections(input);
    var a, b, c := StatusBlockers(input), ItemBlockers(input.items), When(input.slots == [], NoMachineBooked);
    var d := AllSlotBlockers(input.slots, input.machines);
    var e := When(HasRepeats(MachineIds(input.slots)), SameMachineTwice);
    var f, g, h := CanisterBlockers(input), StockBlockers(input.stock), ClosingBlockers(input);
    Widened(b, 2, 2, 1);
    SectionsJoin(a, b, 0, 1, 2);
    Widened(c, 3, 3, 2);
    SectionsJoin(a + b, c, 0, 2, 3);
    Widened(d, 4, 4, 3);
    SectionsJoin(a + b + c, d, 0, 3, 4);
    Widened(e, 5, 5, 4);
    SectionsJoin(a + b + c + d, e, 0, 4, 5);
    Widened(f, 6, 6, 5);
    SectionsJoin(a + b + c + d + e, f, 0, 5, 6);
    Widened(g, 7, 7, 6);
    SectionsJoin(a + b + c + d + e + f, g, 0, 6, 7);
    Widened(h, 8, 10, 7);
    SectionsJoin(a + b + c + d + e + f + g, h, 0, 7, 10);
  }

  function SlotRank(b: Blocker): nat {
    match b
    case NotPrepared(_) => 0
    case HardProblem(_, _) => 1
    case StaleOverride(_) => 1
    case NotChecked(_) => 2
    case _ => 3
  }

  lemma SlotInTurn(slots: seq<Slot>, slot: Slot, machines: seq<MachineCheck>)
    ensures AllSlotBlockers(slots + [slot], machines) == AllSlotBlockers(slots, machines) + SlotBlockers(slot, machines)
  {
    hide SlotBlockers;
    var all := slots + [slot];
    assert all[..|all| - 1] == slots && all[|all| - 1] == slot;
  }

  lemma ItemInTurn(items: seq<Item>, item: Item)
    ensures ItemBlockers(items + [item]) == ItemBlockers(items) + When(Exceeds(item), ExceededBy(item))
  {
    var all := items + [item];
    assert all[..|all| - 1] == items && all[|all| - 1] == item;
  }

  lemma StockInTurn(stock: seq<Stock>, entry: Stock)
    ensures StockBlockers(stock + [entry]) == StockBlockers(stock) + When(!entry.sufficient, ShortOf(entry))
  {
    var all := stock + [entry];
    assert all[..|all| - 1] == stock && all[|all| - 1] == entry;
  }

  lemma RankedInTurn(slot: Slot, machines: seq<MachineCheck>, i: int, j: int)
    requires 0 <= i < j < |SlotBlockers(slot, machines)|
    ensures SlotRank(SlotBlockers(slot, machines)[i]) < SlotRank(SlotBlockers(slot, machines)[j])
  {
    hide FirstHard, CheckOf;
  }

  /** Items, slots and stock are reported one after the other in their order, and each slot as preparation,
      problems, check and photo. */
  lemma ReportedInTurn(items: seq<Item>, item: Item, slots: seq<Slot>, slot: Slot, machines: seq<MachineCheck>,
                       stock: seq<Stock>, entry: Stock, i: int, j: int)
    ensures ItemBlockers(items + [item]) == ItemBlockers(items) + When(Exceeds(item), ExceededBy(item))
    ensures AllSlotBlockers(slots + [slot], machines) == AllSlotBlockers(slots, machines) + SlotBlockers(slot, machines)
    ensures StockBlockers(stock + [entry]) == StockBlockers(stock) + When(!entry.sufficient, ShortOf(entry))
    ensures 0 <= i < j < |SlotBlockers(slot, machines)| ==>
      SlotRank(SlotBlockers(slot, machines)[i]) < SlotRank(SlotBlockers(slot, machines)[j])
  {
    hide *;
    ItemInTurn(items, item);
    SlotInTurn(slots, slot, machines);
    StockInTurn(stock, entry);
    if 0 <= i < j < |SlotBlockers(slot, machines)| { RankedInTurn(slot, machines, i, j); }
  }

  // ---- the computation ----

  method ItemChecks(items: seq<Item>) returns (blockers: seq<Blocker>)
    ensures blockers == ItemBlockers(items)
  {
    blockers := [];
    for i := 0 to |items|
      invariant blockers == ItemBlockers(items[..i])
    {
      var item := items[i];
      assert items[..i + 1][..i] == items[..i];
      if item.kind == "included" && item.actualQuantity > item.plannedQuantity {
        blockers := blockers + [IncludedExceeded(item.description, item.plannedQuantity, item.measure)];
      }
    }
    assert items[..|items|] == items;
  }

  method SlotCheck(slot: Slot, machines: seq<MachineCheck>) returns (blockers: seq<Blocker>)
    ensures blockers == SlotBlockers(slot, machines)
  {
    hide FirstHard, CheckOf;
    if slot.machine.None? { return [NoConcreteMachine(slot.slotNo, slot.productName)]; }
    var code := slot.machine.value.machineCode;
    blockers := [];
    if slot.status != "prepared" && slot.status != "issued" {
      blockers := blockers + [NotPrepared(code)];
    }
    var hard := FirstHard(slot.currentProblems);
    if hard.Some? {
      blockers := blockers + [HardProblem(code, hard.value.detail)];
    } else if slot.overrideStale {
      blockers := blockers + [StaleOverride(code)];
    }
    var check := CheckOf(machines, slot.id);
    if check.None? || !check.value.checked {
      blockers := blockers + [NotChecked(code)];
    }
    if check.None? || check.value.photoCount == 0 {
      blockers := blockers + [PhotoMissing(code)];
    }
  }

  method SlotChecks(slots: seq<Slot>, machines: seq<MachineCheck>) returns (blockers: seq<Blocker>)
    ensures blockers == AllSlotBlockers(slots, machines)
  {
    blockers := [];
    for i := 0 to |slots|
      invariant blockers == AllSlotBlockers(slots[..i], machines)
    {
      assert slots[..i + 1][..i] == slots[..i];
      var found := SlotCheck(slots[i], machines);
      blockers := blockers + found;
    }
    assert slots[..|slots|] == slots;
  }

  method IssuedPurchases(items: seq<Item>) returns (total: int)
    ensures total == Sum(PurchaseQuantity, items)
  {
    total := 0;
    for i := 0 to |items|
      invariant total == Sum(PurchaseQuantity, items[..i])
    {
      SumSnoc(PurchaseQuantity, items, i);
      if items[i].kind == "purchase" {
        total := total + items[i].actualQuantity;
      }
    }
    assert items[..|items|] == items;
  }

  method StockChecks(stock: seq<Stock>) returns (blockers: seq<Blocker>)
    ensures blockers == StockBlockers(stock)
  {
    blockers := [];
    for i := 0 to |stock|
      invariant blockers == StockBlockers(stock[..i])
    {
      var entry := stock[i];
      assert stock[..i + 1][..i] == stock[..i];
      if !entry.sufficient {
        blockers := blockers + [StockShort(entry.productName, entry.systemStock, entry.required)];
      }
    }
    assert stock[..|stock|] == stock;
  }

  method StatusChecks(input: HandoverInput) returns (blockers: seq<Blocker>)
    ensures blockers == StatusBlockers(input)
  {
    blockers := [];
    if input.processStatus == "cancelled" {
      blockers := blockers + [ProcessCancelled];
    } else if input.bookingCancelled {
      blockers := blockers + [BookingCancelled];
    }
    if input.processStatus == "completed" {
      blockers := blockers + [ProcessCompleted];
    }
  }

  method ClosingChecks(input: HandoverInput) returns (blockers: seq<Blocker>)
    ensures blockers == ClosingBlockers(input)
  {
    blockers := [];
    if input.recipientKind.None? || input.recipientName.None? || input.recipientName.value == "" {
      blockers := blockers + [NoRecipient];
    }
    if !input.customerSigned {
      blockers := blockers + [CustomerSignatureMissing];
    }
    if !input.staffSigned {
      blockers := blockers + [StaffSignatureMissing];
    }
  }

  /** `handoverBlockers` */
  method HandoverBlockers(input: HandoverInput) returns (blockers: seq<Blocker>)
    ensures blockers == if input.handoverStatus == "finalized" then [] else OpenBlockers(input)
    ensures blockers == [] <==> input.handoverStatus == "finalized" || Ready(input)
  {
    hide Ready, StatusBlockers, ItemBlockers, AllSlotBlockers, StockBlockers, ClosingBlockers, MachineIds, HasRepeats,
      Sum;
    if input.handoverStatus == "finalized" { return []; }
    blockers := StatusChecks(input);
    var itemBlockers := ItemChecks(input.items);
    blockers := blockers + itemBlockers;
    if input.slots == [] {
      blockers := blockers + [NoMachineBooked];
    }
    var slotBlockers := SlotChecks(input.slots, input.machines);
    blockers := blockers + slotBlockers;
    if HasRepeats(MachineIds(input.slots)) {
      blockers := blockers + [SameMachineTwice];
    }
    var canisterActual := IssuedPurchases(input.items);
    var canisterLimit := input.containersTotal * CANISTERS_PER_CONTAINER_LIMIT;
    if canisterActual > canisterLimit {
      blockers := blockers + [CanisterLimit(canisterLimit)];
    }
    var stockBlockers := StockChecks(input.stock);
    blockers := blockers + stockBlockers;
    var closing := ClosingChecks(input);
    blockers := blockers + closing;
    NothingOpenMeansReady(input);
  }

  // ---- from an accepted offer to its delivery note ----

  /** The delivery note line made of an offer line: planned and issued as offered. */
  function NoteItem(l: LineItem): Item {
    var quantity := if l.quantity >= 0 then l.quantity else 0;
    Item(if l.billingMode.Included? then "included" else if l.kind.PurchaseLine? then "purchase" else "commission",
         l.lineKey, l.saleUnit, quantity, quantity)
  }

  predicate OnNote(l: LineItem) { !l.kind.MachineLine? && !l.kind.DeliveryLine? }

  function DeliveryNote(lines: seq<LineItem>): seq<Item> { Map(NoteItem, Filter(OnNote, lines)) }

  /** The quantity of a purchase article that is charged, canister or not. */
  function Bought(s: Selection): int {
    if s.role.Extra? && s.product.category.Purchase? && !s.product.defaultBillingMode.Included?
    then Amount(s.quantity) else 0
  }

  /** A row of the note by its offer line: included where the line is, a purchase where a purchase article is
      charged, on commission otherwise. */
  lemma NoteItemIs(l: LineItem, s: Selection, n: int)
    ensures var item := NoteItem(l);
      && (item.kind == if l.billingMode == Included then "included"
                       else if l.kind == PurchaseLine then "purchase" else "commission")
      && item.measure == l.saleUnit && item.actualQuantity == item.plannedQuantity
      && (l.quantity >= 0 ==> item.plannedQuantity == l.quantity) && (l.quantity < 0 ==> item.plannedQuantity == 0)
    ensures OnNote(l) <==> l.kind != MachineLine && l.kind != DeliveryLine
    ensures s.quantity == Whole(n) && s.role == Extra && s.product.category == Purchase ==>
      Bought(s) == if s.product.defaultBillingMode == Included then 0 else n
    ensures s.role == Free || s.product.category != Purchase ==> Bought(s) == 0
  {
  }

  datatype NoteRow = NoteRow(position: int, item: Item)

  /** The delivery note as it is written, row by row. */
  method WriteNote(lines: seq<LineItem>) returns (rows: seq<NoteRow>)
    ensures |rows| == |DeliveryNote(lines)|
    ensures forall k :: 0 <= k < |rows| ==> rows[k] == NoteRow(k + 1, DeliveryNote(lines)[k])
  {
    rows := [];
    var position := 1;
    for i := 0 to |lines|
      invariant position == |rows| + 1 && |rows| == |DeliveryNote(lines[..i])|
      invariant forall k :: 0 <= k < |rows| ==> rows[k] == NoteRow(k + 1, DeliveryNote(lines[..i])[k])
    {
      MapFilterSnoc(NoteItem, OnNote, lines, i);
      hide NoteItem, Map, Filter;
      if !lines[i].kind.MachineLine? && !lines[i].kind.DeliveryLine? {
        rows := rows + [NoteRow(position, NoteItem(lines[i]))];
        position := position + 1;
      }
    }
    assert lines[..|lines|] == lines;
  }

  /** The note holds the offer lines other than machine and delivery, each once and in their order. */
  lemma NoteListsTheLines(lines: seq<LineItem>)
    ensures var note, kept := DeliveryNote(lines), Picked(OnNote, lines, |lines|);
      && |note| == |kept|
      && (forall k :: 0 <= k < |note| ==> kept[k] < |lines| && note[k] == NoteItem(lines[kept[k]]))
      && (forall k, l :: 0 <= k < l < |kept| ==> kept[k] < kept[l])
      && (forall i: nat :: i in kept <==> i < |lines| && OnNote(lines[i]))
  {
    var kept, items := Picked(OnNote, lines, |lines|), Filter(OnNote, lines);
    PickedPositions(OnNote, lines, |lines|);
    FilterAtPicked(OnNote, lines, |lines|);
    assert lines[..|lines|] == lines;
    hide NoteItem, OnNote, Filter, Map, Picked;
    MapAt(NoteItem, items, 0);
    forall k | 0 <= k < |items| ensures DeliveryNote(lines)[k] == NoteItem(lines[kept[k]]) {
      MapAt(NoteItem, items, k);
    }
  }

  function PurchaseOf(l: LineItem): int { if OnNote(l) then PurchaseQuantity(NoteItem(l)) else 0 }

  lemma {:induction false} NotePurchases(lines: seq<LineItem>)
    ensures Sum(PurchaseQuantity, DeliveryNote(lines)) == Sum(PurchaseOf, lines)
    ensures forall item :: item in DeliveryNote(lines) ==> item.actualQuantity == item.plannedQuantity
  {
    if lines == [] {
    } else {
      var rest := DeliveryNote(lines[1..]);
      NotePurchases(lines[1..]);
      if OnNote(lines[0]) {
        assert DeliveryNote(lines) == [NoteItem(lines[0])] + rest;
        assert ([NoteItem(lines[0])] + rest)[1..] == rest;
      } else {
        assert DeliveryNote(lines) == rest;
      }
    }
  }

  lemma {:induction false} PurchasesAreBought(sp: seq<SpecialPrice>, s: seq<Selection>)
    requires All(GoodExtra, s)
    ensures Sum(PurchaseOf, ExtraItems(sp, s)) == Sum(Bought, s)
    ensures Sum(PurchaseOf, FreeItems(s)) == 0
  {
    if s == [] {
    } else {
      assert s[0] in s;
      PurchasesAreBought(sp, s[1..]);
      var extras, frees := ExtraItems(sp, s[1..]), FreeItems(s[1..]);
      if s[0].role.Extra? {
        var line := ExtraItemWith(sp)(s[0]);
        assert ExtraItems(sp, s) == [line] + extras && FreeItems(s) == frees;
        assert ([line] + extras)[1..] == extras;
      } else {
        var line := FreeItem(s[0]);
        assert FreeItems(s) == [line] + frees && ExtraItems(sp, s) == extras;
        assert ([line] + frees)[1..] == frees;
      }
    }
  }

  lemma PurchasesOfLines(offer: PricingInput)
    requires All(GoodExtra, offer.selections)
    ensures Sum(PurchaseOf, Lines(offer)) == Sum(Bought, offer.selections)
  {
    PurchasesAreBought(offer.specialPrices, offer.selections);
    hide Sum, ExtraItems, FreeItems, All, Lines;
    LinesSum(offer, PurchaseOf);
    SingleLinesSum(offer, PurchaseOf);
  }

  /** An accepted offer, issued as offered for the booked containers, raises the canister blocker exactly when
      its purchase articles of every kind exceed twice the containers; the offer itself counts only canisters.
      An included-quantity blocker is never raised. */
  lemma CanisterBlockerExactly(offer: PricingInput, input: HandoverInput)
    requires Offer(offer).Priced?
    requires input.items == DeliveryNote(Offer(offer).result.lineItems)
    requires input.containersTotal == ContainersTotal(offer)
    ensures CanisterBlockers(input) == [] <==> Sum(Bought, offer.selections) <= 2 * ContainersTotal(offer)
    ensures ItemBlockers(input.items) == []
  {
    hide Sum, ExtraItems, FreeItems, All, Lines, DeliveryNote, ItemBlockers;
    assert All(GoodExtra, offer.selections);
    hide Offer;
    NotePurchases(Lines(offer));
    PurchasesOfLines(offer);
    NoItemBlockers(input.items);
  }

  /** Canisters are the only articles for purchase. */
  predicate OnlyCanistersAreBought(s: Selection) {
    s.role.Extra? && s.product.category.Purchase? ==> s.product.slug == CANISTER_SLUG
  }

  lemma {:induction false} BoughtAreCanisters(s: seq<Selection>)
    requires All(GoodExtra, s) && All(OnlyCanistersAreBought, s)
    ensures Sum(Bought, s) <= Sum(Canisters, s)
  {
    if s == [] {
    } else {
      assert s[0] in s;
      BoughtAreCanisters(s[1..]);
    }
  }

  /** So with canisters as the only purchase articles no accepted offer is held up by its quantities. */
  lemma AcceptedOfferRaisesNoQuantityBlocker(offer: PricingInput, input: HandoverInput)
    requires Offer(offer).Priced? && All(OnlyCanistersAreBought, offer.selections)
    requires input.items == DeliveryNote(Offer(offer).result.lineItems)
    requires input.containersTotal == ContainersTotal(offer)
    ensures CanisterBlockers(input) == [] && ItemBlockers(input.items) == []
  {
    CanisterBlockerExactly(offer, input);
    hide Sum, All, Lines, CanisterBlockers;
    assert All(GoodExtra, offer.selections) && Sum(Canisters, offer.selections) <= 2 * ContainersTotal(offer);
    BoughtAreCanisters(offer.selections);
  }

  /** Another purchase article is: one machine with one container and three articles that are no canisters. */
  lemma OtherPurchasesAreRefused(offer: PricingInput, input: HandoverInput)
    requires offer == PricingInput(
      Some(Booking(Product("m", "m", "M", MachineType, "unit", Fixed, 100, Some(1)), Whole(1))), None, None,
      [Selection(Product("p", "p", "P", Purchase, "unit", Fixed, 100, None), Extra, Whole(3))],
      Pickup, None, None, [], None)
    requires Offer(offer).Priced? ==> input.items == DeliveryNote(Offer(offer).result.lineItems)
    requires input.containersTotal == ContainersTotal(offer)
    ensures Offer(offer).Priced? && CanisterBlockers(input) == [CanisterLimit(2)]
  {
    var s := offer.selections[0];
    assert s.product.slug != CANISTER_SLUG by { assert |s.product.slug| != |CANISTER_SLUG|; }
    SumOne(FreeLiters, s);
    SumOne(Canisters, s);
    SumOne(Bought, s);
    assert ContainersTotal(offer) == 1;
    assert ChecksPass(offer) by { hide Sum, Lines; }
    hide Sum, Lines, DeliveryNote;
    TotalNeverBelowZero(offer);
    CanisterBlockerExactly(offer, input);
  }
}
