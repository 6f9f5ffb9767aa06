/** What still blocks the finalisation of a return; an empty list means it may be finalised. */
module ReturnCheck {
  import opened Options
  import opened Seqs
  import Money

  datatype Damage = Damage(description: string, photoCount: int, markerCount: int)

  datatype Machine = Machine(machineCode: string, accessoryComplete: Option<bool>, cleanlinessCheckedAt: Option<string>,
                             cleanupRequired: bool, cleanupPhotoCount: int, damages: seq<Damage>)

  datatype ReturnInput = ReturnInput(returnStatus: string, returnerKind: Option<string>, returnerName: Option<string>,
                                     machines: seq<Machine>, customerSigned: bool, staffSigned: bool)

  datatype Blocker =
    | NothingIssued
    | NoReturner
    | AccessoriesOpen(machineCode: string)
    | CleanlinessOpen(machineCode: string)
    | CleanupPhotoMissing(machineCode: string)
    | DamagePhotoMissing(machineCode: string, description: string)
    | DamageMarkerMissing(machineCode: string, description: string)
    | CustomerSignatureMissing
    | StaffSignatureMissing

  // ---- one part of the list after the other ----

  function DamageBlockers(code: string, damages: seq<Damage>): seq<Blocker> {
    if damages == [] then []
    else
      var d := damages[|damages| - 1];
      DamageBlockers(code, damages[..|damages| - 1])
        + When(d.photoCount == 0, DamagePhotoMissing(code, d.description))
        + When(d.markerCount == 0, DamageMarkerMissing(code, d.description))
  }

  function MachineBlockers(m: Machine): seq<Blocker> {
    When(m.accessoryComplete.None?, AccessoriesOpen(m.machineCode))
      + When(m.cleanlinessCheckedAt.None?, CleanlinessOpen(m.machineCode))
      + When(m.cleanupRequired && m.cleanupPhotoCount == 0, CleanupPhotoMissing(m.machineCode))
      + DamageBlockers(m.machineCode, m.damages)
  }

  function AllMachineBlockers(machines: seq<Machine>): seq<Blocker> {
    if machines == [] then []
    else AllMachineBlockers(machines[..|machines| - 1]) + MachineBlockers(machines[|machines| - 1])
  }

  predicate NobodyReturns(input: ReturnInput) {
    input.returnerKind.None? || input.returnerName.None? || Money.Trim(input.returnerName.value) == ""
  }

  /** The whole list of a return that is not yet finalised. */
  function OpenBlockers(input: ReturnInput): seq<Blocker> {
    When(input.machines == [], NothingIssued) + When(NobodyReturns(input), NoReturner)
      + AllMachineBlockers(input.machines)
      + When(!input.customerSigned, CustomerSignatureMissing) + When(!input.staffSigned, StaffSignatureMissing)
  }

  // ---- when a return may be finalised ----

  predicate DamageDocumented(d: Damage) { d.photoCount != 0 && d.markerCount != 0 }

  predicate MachineReady(m: Machine) {
    && m.accessoryComplete.Some?
    && m.cleanlinessCheckedAt.Some?
    && (m.cleanupRequired ==> m.cleanupPhotoCount != 0)
    && forall d :: d in m.damages ==> DamageDocumented(d)
  }

  /** Everything the finalisation of an open return asks for. */
  predicate Ready(input: ReturnInput) {
    && input.machines != []
    && input.returnerKind.Some? && input.returnerName.Some? && Money.Trim(input.returnerName.value) != ""
    && (forall m :: m in input.machines ==> MachineReady(m))
    && input.customerSigned && input.staffSigned
  }

  lemma {:induction false} NoDamageBlockers(code: string, damages: seq<Damage>)
    ensures DamageBlockers(code, damages) == [] <==> forall d :: d in damages ==> DamageDocumented(d)
  {
    if damages == [] {
    } else {
      var init, last := damages[..|damages| - 1], damages[|damages| - 1];
      NoDamageBlockers(code, init);
      var photo := When(last.photoCount == 0, DamagePhotoMissing(code, last.description));
      var marker := When(last.markerCount == 0, DamageMarkerMissing(code, last.description));
      assert DamageBlockers(code, damages) == DamageBlockers(code, init) + photo + marker;
      assert photo == [] && marker == [] <==> DamageDocumented(last);
      assert damages == init + [last];
      assert forall d :: d in damages <==> d in init || d == last;
    }
  }

  lemma NoMachineBlocker(m: Machine)
    ensures MachineBlockers(m) == [] <==> MachineReady(m)
  {
    NoDamageBlockers(m.machineCode, m.damages);
    hide DamageDocumented, DamageBlockers;
  }

  lemma {:induction false} NoMachineBlockers(machines: seq<Machine>)
    ensures AllMachineBlockers(machines) == [] <==> forall m :: m in machines ==> MachineReady(m)
  {
    if machines == [] {
    } else {
      hide MachineReady, MachineBlockers;
      var init, last := machines[..|machines| - 1], machines[|machines| - 1];
      assert machines == init + [last];
      if (forall m :: m in init ==> MachineReady(m)) && MachineReady(last) {
        assert forall m :: m in machines ==> MachineReady(m);
      } else if !MachineReady(last) {
        assert last in machines;
      } else {
        var m :| m in init && !MachineReady(m);
        assert m in machines;
      }
      NoMachineBlockers(init);
      NoMachineBlocker(last);
    }
  }

  /** No blocker is open exactly when the return is ready: every damage of every machine documented,
      every machine checked, somebody named and both signatures given. */
  lemma NothingOpenMeansReady(input: ReturnInput)
    ensures OpenBlockers(input) == [] <==> Ready(input)
  {
    NoMachineBlockers(input.machines);
    hide Money.Trim, MachineReady, AllMachineBlockers;
  }

  // ---- what each blocker says, and in which order ----

  ghost predicate DamageReason(b: Blocker, code: string, d: Damage) {
    match b
    case DamagePhotoMissing(c, description) => c == code && description == d.description && d.photoCount == 0
    case DamageMarkerMissing(c, description) => c == code && description == d.description && d.markerCount == 0
    case _ => false
  }

  /** Why a returned machine raises a blocker. */
  ghost predicate MachineReason(b: Blocker, m: Machine) {
    match b
    case AccessoriesOpen(code) => code == m.machineCode && m.accessoryComplete == None
    case CleanlinessOpen(code) => code == m.machineCode && m.cleanlinessCheckedAt == None
    case CleanupPhotoMissing(code) => code == m.machineCode && m.cleanupRequired && m.cleanupPhotoCount == 0
    case _ => exists d :: d in m.damages && DamageReason(b, m.machineCode, d)
  }

  /** Why a return raises a blocker. A name of white space alone names nobody. */
  ghost predicate Reason(b: Blocker, input: ReturnInput) {
    match b
    case NothingIssued => input.machines == []
    case NoReturner =>
      input.returnerKind == None || input.returnerName == None
      || forall i :: 0 <= i < |input.returnerName.value| ==> Money.IsSpace(input.returnerName.value[i])
    case CustomerSignatureMissing => !input.customerSigned
    case StaffSignatureMissing => !input.staffSigned
    case _ => exists m :: m in input.machines && MachineReason(b, m)
  }

  lemma DamageSnoc(code: string, damages: seq<Damage>, d: Damage)
    ensures DamageBlockers(code, damages + [d]) == DamageBlockers(code, damages)
      + (When(d.photoCount == 0, DamagePhotoMissing(code, d.description))
      + When(d.markerCount == 0, DamageMarkerMissing(code, d.description)))
  {
    var all := damages + [d];
    assert all[..|all| - 1] == damages && all[|all| - 1] == d;
  }

  lemma OneDamageMeans(code: string, d: Damage, b: Blocker)
    ensures DamageReason(b, code, d) <==>
      b in When(d.photoCount == 0, DamagePhotoMissing(code, d.description))
        + When(d.markerCount == 0, DamageMarkerMissing(code, d.description))
  {
  }

  lemma {:induction false} DamageBlockersMean(code: string, damages: seq<Damage>, b: Blocker)
    ensures b in DamageBlockers(code, damages) <==> exists d :: d in damages && DamageReason(b, code, d)
  {
    if damages == [] {
    } else {
      var init, last := damages[..|damages| - 1], damages[|damages| - 1];
      DamageBlockersMean(code, init, b);
      assert damages == init + [last];
      DamageSnoc(code, init, last);
      OneDamageMeans(code, last, b);
      hide DamageBlockers, DamageReason, When;
      assert last in damages;
      if d :| d in damages && DamageReason(b, code, d) { assert d in init || d == last; }
      if d :| d in init && DamageReason(b, code, d) { assert d in damages; }
    }
  }

  lemma MachineBlockersMean(m: Machine, b: Blocker)
    ensures b in MachineBlockers(m) <==> MachineReason(b, m)
  {
    DamageBlockersMean(m.machineCode, m.damages, b);
    hide DamageBlockers;
  }

  lemma MachineSnoc(machines: seq<Machine>, m: Machine)
    ensures AllMachineBlockers(machines + [m]) == AllMachineBlockers(machines) + MachineBlockers(m)
  {
    hide MachineBlockers;
    var all := machines + [m];
    assert all[..|all| - 1] == machines && all[|all| - 1] == m;
  }

  lemma {:induction false} AllMachineBlockersMean(machines: seq<Machine>, b: Blocker)
    ensures b in AllMachineBlockers(machines) <==> exists m :: m in machines && MachineReason(b, m)
  {
    if machines == [] {
    } else {
      var init, last := machines[..|machines| - 1], machines[|machines| - 1];
      assert machines == init + [last];
      MachineSnoc(init, last);
      hide AllMachineBlockers, MachineBlockers, MachineReason;
      AllMachineBlockersMean(init, b);
      MachineBlockersMean(last, b);
      assert last in machines;
      if m :| m in machines && MachineReason(b, m) { assert m in init || m == last; }
      if m :| m in init && MachineReason(b, m) { assert m in machines; }
    }
  }

  lemma InParts(input: ReturnInput, b: Blocker)
    ensures b in OpenBlockers(input) <==>
      || (b == NothingIssued && input.machines == []) || (b == NoReturner && NobodyReturns(input))
      || b in AllMachineBlockers(input.machines)
      || (b == CustomerSignatureMissing && !input.customerSigned) || (b == StaffSignatureMissing && !input.staffSigned)
  {
    hide AllMachineBlockers, NobodyReturns;
  }

  lemma MachinesGiveOtherReasons(input: ReturnInput, b: Blocker)
    requires b.NothingIssued? || b.NoReturner? || b.CustomerSignatureMissing? || b.StaffSignatureMissing?
    ensures !exists m :: m in input.machines && MachineReason(b, m)
  {
  }

  /** Every blocker stands in the list exactly when its reason holds. */
  lemma BlockersMean(input: ReturnInput, b: Blocker)
    ensures b in OpenBlockers(input) <==> Reason(b, input)
  {
    InParts(input, b);
    AllMachineBlockersMean(input.machines, b);
    if input.returnerName.Some? { Money.TrimsToNothing(input.returnerName.value); }
    if b.NothingIssued? || b.NoReturner? || b.CustomerSignatureMissing? || b.StaffSignatureMissing? {
      MachinesGiveOtherReasons(input, b);
    }
    hide OpenBlockers, AllMachineBlockers, MachineReason, Money.Trim, Money.IsSpace;
  }

  /** Nothing issued and nobody named come first, the signatures last; machines and their damages are reported one
      after the other in their order, a photo before a marker. */
  lemma ReportedInTurn(input: ReturnInput, machines: seq<Machine>, m: Machine, code: string, damages: seq<Damage>,
                       d: Damage)
    ensures OpenBlockers(input) ==
      (if input.machines == [] then [NothingIssued] else []) + (if NobodyReturns(input) then [NoReturner] else [])
      + AllMachineBlockers(input.machines) + (if input.customerSigned then [] else [CustomerSignatureMissing])
      + (if input.staffSigned then [] else [StaffSignatureMissing])
    ensures AllMachineBlockers(machines + [m]) == AllMachineBlockers(machines) + MachineBlockers(m)
    ensures DamageBlockers(code, damages + [d]) == DamageBlockers(code, damages)
      + (if d.photoCount == 0 then [DamagePhotoMissing(code, d.description)] else [])
      + (if d.markerCount == 0 then [DamageMarkerMissing(code, d.description)] else [])
  {
    MachineSnoc(machines, m);
    DamageSnoc(code, damages, d);
    hide AllMachineBlockers, MachineBlockers, DamageBlockers, NobodyReturns;
  }

  // ---- the computation ----

  method DamageChecks(code: string, damages: seq<Damage>) returns (blockers: seq<Blocker>)
    ensures blockers == DamageBlockers(code, damages)
  {
    blockers := [];
    for i := 0 to |damages|
      invariant blockers == DamageBlockers(code, damages[..i])
    {
      var damage := damages[i];
      assert damages[..i + 1][..i] == damages[..i];
      if damage.photoCount == 0 {
        blockers := blockers + [DamagePhotoMissing(code, damage.description)];
      }
      if damage.markerCount == 0 {
        blockers := blockers + [DamageMarkerMissing(code, damage.description)];
      }
    }
    assert damages[..|damages|] == damages;
  }

  method MachineChecks(m: Machine) returns (blockers: seq<Blocker>)
    ensures blockers == MachineBlockers(m)
  {
    blockers := [];
    if m.accessoryComplete.None? {
      blockers := blockers + [AccessoriesOpen(m.machineCode)];
    }
    if m.cleanlinessCheckedAt.None? {
      blockers := blockers + [CleanlinessOpen(m.machineCode)];
    }
    if m.cleanupRequired && m.cleanupPhotoCount == 0 {
      blockers := blockers + [CleanupPhotoMissing(m.machineCode)];
    }
    var damages := DamageChecks(m.machineCode, m.damages);
    blockers := blockers + damages;
  }

  method AllMachineChecks(machines: seq<Machine>) returns (blockers: seq<Blocker>)
    ensures blockers == AllMachineBlockers(machines)
  {
    blockers := [];
    for i := 0 to |machines|
      invariant blockers == AllMachineBlockers(machines[..i])
    {
      assert machines[..i + 1][..i] == machines[..i];
      var found := MachineChecks(machines[i]);
      blockers := blockers + found;
    }
    assert machines[..|machines|] == machines;
  }

  /** `returnBlockers` */
  method ReturnBlockers(input: ReturnInput) returns (blockers: seq<Blocker>)
    ensures blockers == if input.returnStatus == "finalized" then [] else OpenBlockers(input)
    ensures blockers == [] <==> input.returnStatus == "finalized" || Ready(input)
  {
    hide NobodyReturns, Ready;
    blockers := [];
    if input.returnStatus == "finalized" { return; }
    if input.machines == [] {
      blockers := blockers + [NothingIssued];
    }
    if NobodyReturns(input) {
      blockers := blockers + [NoReturner];
    }
    var machineBlockers := AllMachineChecks(input.machines);
    blockers := blockers + machineBlockers;
    if !input.customerSigned {
      blockers := blockers + [CustomerSignatureMissing];
    }
    if !input.staffSigned {
      blockers := blockers + [StaffSignatureMissing];
    }
    NothingOpenMeansReady(input);
  }
}
