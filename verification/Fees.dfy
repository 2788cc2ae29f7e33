/** What a payout spends and what it costs (src/payout.rs, `zip317_fee` and the fee
    loop of `build`). The bundle itself is put together by a library. */
module Fees {
  import opened Prelude
  import opened Ordered
  import opened Wire
  import opened Notes

  datatype Payment = Payment(shielded: bool, zatoshi: u64)

  /** A selection, the change it leaves and the fee it was made for. */
  datatype Plan = Plan(spent: seq<HeldNote>, change: nat, fee: nat)

  /** `Overflow`: a total that does not fit a u64. */
  datatype BuildError = NothingToPay | NotPayableHere | Short(cause: NoteError) | NotConverged | Overflow

  /** What is asked for: the total, the outputs of each kind, and whether spends
      and outputs may share an action. */
  datatype Order = Order(owed: nat, shielded: nat, transparent: nat, crossAddress: bool)

  function Larger(a: nat, b: nat): nat { if a < b then b else a }

  /** ZIP 317: a flat fee per logical action, at least two of them. */
  function Zip317Fee(actions: nat, outputs: nat): nat {
    5_000 * Larger(actions + outputs, 2)
  }

  function Actions(notes: nat, change: nat, o: Order): nat {
    var outputs := o.shielded + if change > 0 then 1 else 0;
    if o.crossAddress then Larger(notes, outputs) else notes + outputs
  }

  /** The fee of the payout these notes make. */
  function FeeNeeded(notes: nat, change: nat, o: Order): nat {
    Zip317Fee(Larger(Actions(notes, change, o), 2), o.transparent)
  }

  /** The fee the loop tries first. */
  function LeastFee(o: Order): nat {
    Zip317Fee(2, o.transparent)
  }

  /** What a turn of the loop comes to, and the loop itself: how many of the notes
      in order are spent, the change they leave and the fee they were chosen for. */
  datatype Outcome = Made(count: nat, change: nat, fee: nat) | Lacking(needed: nat) | Beyond | Unsettled

  /** One turn of the loop, for the total with a fee, over the notes in the order
      they are taken. */
  function Pass(notes: seq<HeldNote>, amount: nat, fee: nat): (r: Outcome)
    ensures r.Made? ==> r.fee == fee && r.count <= |notes| && Total(notes, r.count) == amount + r.change
  {
    if amount > U64_MAX then Beyond else
      match Cover(notes, amount)
      case None => Lacking(amount)
      case Some(k) => if Total(notes, k) > U64_MAX then Beyond else Made(k, Total(notes, k) - amount, fee)
  }

  function Needs(p: Outcome, o: Order): nat
    requires p.Made?
  {
    FeeNeeded(p.count, p.change, o)
  }

  /** The turn fits its own fee, or there is nothing to go on with. */
  predicate Ends(p: Outcome, o: Order) {
    p.Made? ==> Needs(p, o) == p.fee
  }

  /** The fee loop. */
  function PlanSpec(notes: seq<HeldNote>, o: Order): Outcome {
    var first := Pass(notes, o.owed + LeastFee(o), LeastFee(o));
    if Ends(first, o) then first else
      var f1 := Needs(first, o);
      var second := Pass(notes, o.owed + f1, f1);
      if Ends(second, o) then second else Unsettled
  }

  function Owed(payments: seq<Payment>): nat {
    if payments == [] then 0 else Owed(payments[..|payments| - 1]) + payments[|payments| - 1].zatoshi
  }

  function ShieldedCount(payments: seq<Payment>): (n: nat)
    ensures n <= |payments|
  {
    if payments == [] then 0 else
      ShieldedCount(payments[..|payments| - 1]) + if payments[|payments| - 1].shielded then 1 else 0
  }

  function OrderOf(payments: seq<Payment>, crossAddress: bool): Order {
    var s := ShieldedCount(payments);
    Order(Owed(payments), s, |payments| - s, crossAddress)
  }

  /** What is refused before any note is looked at. */
  function Refusal(payments: seq<Payment>, o: Order): Option<BuildError> {
    if payments == [] then Some(NothingToPay)
    else if o.owed > U64_MAX then Some(Overflow)
    else if o.shielded > 0 && !o.crossAddress then Some(NotPayableHere)
    else None
  }

  ghost function BuildSpec(held: map<nat, HeldNote>, payments: seq<Payment>, crossAddress: bool)
    : Result<Plan, BuildError>
  {
    var o := OrderOf(payments, crossAddress);
    match Refusal(payments, o)
    case Some(e) => Err(e)
    case None => Answer(held, Candidates(held), o)
  }

  /** What `build` makes of how the loop ended. */
  ghost function Answer(held: map<nat, HeldNote>, notes: seq<HeldNote>, o: Order): Result<Plan, BuildError> {
    Told(PlanSpec(notes, o), notes, Worth(held, held.Keys))
  }

  function Told(end: Outcome, notes: seq<HeldNote>, worth: nat): Result<Plan, BuildError> {
    match end
    case Made(k, change, fee) => Ok(Plan(if k <= |notes| then notes[..k] else notes, change, fee))
    case Lacking(needed) => Err(Short(Insufficient(worth, needed)))
    case Beyond => Err(Overflow)
    case Unsettled => Err(NotConverged)
  }

  // ------------------------------------------------------------ the method

  /** What `select` answers for an amount, from the notes in the order they are taken. */
  ghost predicate Chosen(r: Result<seq<HeldNote>, NoteError>, notes: seq<HeldNote>, amount: nat, worth: nat) {
    match Cover(notes, amount)
    case None => r == Err(Insufficient(worth, amount))
    case Some(k) => r == Ok(notes[..k]) && SumOf(notes[..k]) == Total(notes, k)
  }

  lemma SelectionIs(held: map<nat, HeldNote>, amount: nat, worth: nat)
    ensures Chosen(match Selection(held, amount) case None => Err(Insufficient(worth, amount)) case Some(s) => Ok(s),
                   Candidates(held), amount, worth)
  {
    CoverSum(Candidates(held), amount);
  }

  lemma CoverSum(notes: seq<HeldNote>, amount: nat)
    ensures var k := Cover(notes, amount); k.Some? ==> SumOf(notes[..k.value]) == Total(notes, k.value)
  {
    var k := Cover(notes, amount);
    if k.Some? {
      TotalOfPrefix(notes, k.value, k.value);
    }
  }

  /** A turn, from what `select` answered. */
  lemma TurnIs(r: Result<seq<HeldNote>, NoteError>, notes: seq<HeldNote>, amount: nat, fee: nat, worth: nat)
    requires amount <= U64_MAX && Chosen(r, notes, amount, worth)
    ensures r.Err? ==> r.error == Insufficient(worth, amount) && Pass(notes, amount, fee) == Lacking(amount)
    ensures r.Ok? ==>
              && SumOf(r.value) >= amount
              && Pass(notes, amount, fee) == Taken(r.value, amount, fee)
              && Told(Pass(notes, amount, fee), notes, worth) == Charged(r.value, amount, fee)
  {
  }

  /** A turn that took these notes, and the answer it would make. */
  function Taken(spent: seq<HeldNote>, amount: nat, fee: nat): Outcome
    requires SumOf(spent) >= amount
  {
    if SumOf(spent) > U64_MAX then Beyond else Made(|spent|, SumOf(spent) - amount, fee)
  }

  function Charged(spent: seq<HeldNote>, amount: nat, fee: nat): Result<Plan, BuildError>
    requires SumOf(spent) >= amount
  {
    if SumOf(spent) > U64_MAX then Err(Overflow) else Ok(Plan(spent, SumOf(spent) - amount, fee))
  }

  /** Where the loop goes after a turn. */
  lemma TurnGoes(
      notes: seq<HeldNote>, o: Order, turn: nat, amount: nat, fee: nat, t: Outcome, r: Result<Plan, BuildError>,
      worth: nat)
    requires turn < 2 && amount == o.owed + fee && GoneRound(notes, o, turn, fee)
    requires t == Pass(notes, amount, fee) && r == Told(t, notes, worth)
    ensures if Ends(t, o) then r == Told(PlanSpec(notes, o), notes, worth)
            else GoneRound(notes, o, turn + 1, Needs(t, o))
  {
    if turn == 0 {
      FirstTurnGoes(notes, o, t, fee);
    } else {
      SecondTurnGoes(notes, o, t, fee);
    }
  }

  lemma FirstTurnGoes(notes: seq<HeldNote>, o: Order, t: Outcome, fee: nat)
    requires fee == LeastFee(o) && t == Pass(notes, o.owed + fee, fee)
    ensures if Ends(t, o) then PlanSpec(notes, o) == t else GoneRound(notes, o, 1, Needs(t, o))
  {
  }

  lemma SecondTurnGoes(notes: seq<HeldNote>, o: Order, t: Outcome, fee: nat)
    requires GoneRound(notes, o, 1, fee) && t == Pass(notes, o.owed + fee, fee)
    ensures if Ends(t, o) then PlanSpec(notes, o) == t else GoneRound(notes, o, 2, Needs(t, o))
  {
  }

  /** Asking the store for the notes of a turn. */
  method Ask(store: NoteStore, amount: nat, fee: nat, ghost notes: seq<HeldNote>, ghost worth: nat)
    returns (r: Result<seq<HeldNote>, NoteError>)
    requires Keyed(store.held) && notes == Candidates(store.held) && worth == Worth(store.held, store.held.Keys)
    requires amount <= U64_MAX
    ensures r.Err? ==> r.error == Insufficient(worth, amount) && Pass(notes, amount, fee) == Lacking(amount)
    ensures r.Ok? ==>
              && SumOf(r.value) >= amount
              && Pass(notes, amount, fee) == Taken(r.value, amount, fee)
              && Told(Pass(notes, amount, fee), notes, worth) == Charged(r.value, amount, fee)
  {
    SelectionIs(store.held, amount, worth);
    r := store.Select(amount);
    TurnIs(r, notes, amount, fee, worth);
  }

  /** What a turn comes to once the notes are chosen, and the answer it would make. */
  method Charge(spent: seq<HeldNote>, amount: nat, fee: nat) returns (t: Outcome, r: Result<Plan, BuildError>)
    requires SumOf(spent) >= amount
    ensures t == Taken(spent, amount, fee) && r == Charged(spent, amount, fee)
  {
    var sum := SumOf(spent);
    if sum > U64_MAX {
      return Beyond, Err(Overflow);
    }
    var change := sum - amount;
    t, r := Made(|spent|, change, fee), Ok(Plan(spent, change, fee));
  }

  /** One turn: what it comes to, and the answer it would make. */
  method Turn(store: NoteStore, amount: nat, fee: nat, ghost notes: seq<HeldNote>, ghost worth: nat)
    returns (t: Outcome, r: Result<Plan, BuildError>)
    requires Keyed(store.held) && notes == Candidates(store.held) && worth == Worth(store.held, store.held.Keys)
    ensures t == Pass(notes, amount, fee) && r == Told(t, notes, worth)
  {
    if amount > U64_MAX {
      return Beyond, Err(Overflow);
    }
    var chosen := Ask(store, amount, fee, notes, worth);
    if chosen.Err? {
      return Lacking(amount), Err(Short(chosen.error));
    }
    t, r := Charge(chosen.value, amount, fee);
  }

  /** The loop of `build`. */
  method Settle(store: NoteStore, o: Order, ghost notes: seq<HeldNote>, ghost worth: nat)
    returns (r: Result<Plan, BuildError>)
    requires Keyed(store.held) && notes == Candidates(store.held) && worth == Worth(store.held, store.held.Keys)
    ensures r == Told(PlanSpec(notes, o), notes, worth)
  {
    var fee: nat := LeastFee(o);
    var turn := 0;
    while turn < 2
      invariant 0 <= turn <= 2 && GoneRound(notes, o, turn, fee)
    {
      var t;
      var amount := o.owed + fee;
      t, r := Turn(store, amount, fee, notes, worth);
      TurnGoes(notes, o, turn, amount, fee, t, r, worth);
      if !t.Made? || Needs(t, o) == fee {
        return;
      }
      fee := Needs(t, o);
      turn := turn + 1;
    }
    r := Err(NotConverged);
  }

  /** Where the loop stands after some turns that each wanted another fee. */
  ghost predicate GoneRound(notes: seq<HeldNote>, o: Order, turn: nat, fee: nat) {
    var first := Pass(notes, o.owed + LeastFee(o), LeastFee(o));
    if turn == 0 then fee == LeastFee(o)
    else if turn == 1 then !Ends(first, o) && fee == Needs(first, o)
    else PlanSpec(notes, o) == Unsettled
  }

  /** `build`, up to the plan it assembles. What it returns balances: the notes
      are the store's, they are worth exactly the payments, the change and the
      fee, and the fee is the ZIP 317 fee of that very selection. */
  method Build(store: NoteStore, payments: seq<Payment>, crossAddress: bool) returns (r: Result<Plan, BuildError>)
    requires Keyed(store.held)
    ensures r == BuildSpec(store.held, payments, crossAddress)
    ensures r.Ok? ==> Balanced(store.held, r.value, OrderOf(payments, crossAddress))
    ensures r.Ok? ==> PaysItsWay(r.value, payments, crossAddress)
  {
    if payments == [] {
      return Err(NothingToPay);
    }
    var o := Tally(payments, crossAddress);
    if o.owed > U64_MAX {
      return Err(Overflow);
    }
    if o.shielded > 0 && !crossAddress {
      return Err(NotPayableHere);
    }
    r := Settle(store, o, Candidates(store.held), Worth(store.held, store.held.Keys));
    if r.Ok? {
      PlanBalances(store.held, payments, crossAddress, r.value);
      PlanPaysItsWay(store.held, payments, crossAddress, r.value);
    }
  }

  method Tally(payments: seq<Payment>, crossAddress: bool) returns (o: Order)
    ensures o == OrderOf(payments, crossAddress)
  {
    var owed, shielded := 0, 0;
    var k := 0;
    while k < |payments|
      invariant 0 <= k <= |payments|
      invariant owed == Owed(payments[..k]) && shielded == ShieldedCount(payments[..k])
    {
      assert payments[..k + 1][..k] == payments[..k];
      owed := owed + payments[k].zatoshi;
      if payments[k].shielded {
        shielded := shielded + 1;
      }
      k := k + 1;
    }
    assert payments[..k] == payments;
    o := Order(owed, shielded, |payments| - shielded, crossAddress);
  }

  // ------------------------------------------------------------ value and fee

  /** The notes are the store's, they are worth exactly the payments, the change
      and the fee, and the fee is theirs. */
  ghost predicate Balanced(held: map<nat, HeldNote>, p: Plan, o: Order) {
    && FromStore(p.spent, held)
    && SumOf(p.spent) == o.owed + p.change + p.fee
    && p.fee == FeeNeeded(|p.spent|, p.change, o)
  }

  ghost function TransparentPlaces(payments: seq<Payment>): set<nat> {
    set i | 0 <= i < |payments| && !payments[i].shielded
  }

  ghost function ShieldedPlaces(payments: seq<Payment>): set<nat> {
    set i | 0 <= i < |payments| && payments[i].shielded
  }

  /** Five thousand for each transparent payment and each action, of which two are
      charged at least. With cross-address outputs a note and an output share an
      action, without they do not; the outputs are the shielded payments and the
      change, if any. */
  ghost function FeeOf(notes: nat, change: nat, payments: seq<Payment>, crossAddress: bool): nat {
    var outputs := |ShieldedPlaces(payments)| + if change > 0 then 1 else 0;
    var actions :=
      if !crossAddress then notes + outputs else if notes > outputs then notes else outputs;
    5_000 * ((if actions > 2 then actions else 2) + |TransparentPlaces(payments)|)
  }

  /** The notes are worth the payments, the change and that fee. */
  ghost predicate PaysItsWay(p: Plan, payments: seq<Payment>, crossAddress: bool) {
    && p.fee == FeeOf(|p.spent|, p.change, payments, crossAddress)
    && SumOf(p.spent) == Owed(payments) + p.change + p.fee
  }

  lemma {:induction false} PlacesCounted(payments: seq<Payment>)
    ensures |ShieldedPlaces(payments)| == ShieldedCount(payments)
    ensures |TransparentPlaces(payments)| == |payments| - ShieldedCount(payments)
  {
    if payments != [] {
      var n := |payments| - 1;
      PlacesCounted(payments[..n]);
      if payments[n].shielded {
        assert ShieldedPlaces(payments) == ShieldedPlaces(payments[..n]) + {n};
        assert TransparentPlaces(payments) == TransparentPlaces(payments[..n]);
      } else {
        assert ShieldedPlaces(payments) == ShieldedPlaces(payments[..n]);
        assert TransparentPlaces(payments) == TransparentPlaces(payments[..n]) + {n};
      }
    } else {
      assert ShieldedPlaces(payments) == {} && TransparentPlaces(payments) == {};
    }
  }

  lemma FeeIsZip317(notes: nat, change: nat, payments: seq<Payment>, crossAddress: bool)
    ensures FeeNeeded(notes, change, OrderOf(payments, crossAddress)) == FeeOf(notes, change, payments, crossAddress)
    ensures LeastFee(OrderOf(payments, crossAddress)) == 5_000 * (2 + |TransparentPlaces(payments)|)
  {
    PlacesCounted(payments);
  }

  lemma PlanPaysItsWay(held: map<nat, HeldNote>, payments: seq<Payment>, crossAddress: bool, p: Plan)
    requires Keyed(held) && BuildSpec(held, payments, crossAddress) == Ok(p)
    ensures PaysItsWay(p, payments, crossAddress)
  {
    PlanBalances(held, payments, crossAddress, p);
    FeeIsZip317(|p.spent|, p.change, payments, crossAddress);
  }

  /** The total of the payments, by their places. */
  lemma {:induction false} OwedAdds(payments: seq<Payment>, more: seq<Payment>)
    ensures Owed(payments + more) == Owed(payments) + Owed(more)
    ensures |more| == 1 ==> Owed(more) == more[0].zatoshi
  {
    if more == [] {
      assert payments + more == payments;
    } else {
      var n := |more| - 1;
      OwedAdds(payments, more[..n]);
      assert (payments + more)[..|payments| + n] == payments + more[..n];
    }
  }

  lemma ToldAtLast(end: Outcome, notes: seq<HeldNote>, worth: nat)
    ensures Told(end, notes, worth) != Err(NothingToPay) && Told(end, notes, worth) != Err(NotPayableHere)
  {
  }

  lemma AnyShielded(payments: seq<Payment>)
    ensures ShieldedCount(payments) > 0 <==> exists i :: 0 <= i < |payments| && payments[i].shielded
  {
    PlacesCounted(payments);
    if i :| 0 <= i < |payments| && payments[i].shielded {
      assert i in ShieldedPlaces(payments);
    }
    if ShieldedCount(payments) > 0 {
      var i :| i in ShieldedPlaces(payments);
    }
  }

  lemma RefusalIs(held: map<nat, HeldNote>, payments: seq<Payment>, crossAddress: bool, o: Order)
    requires o == OrderOf(payments, crossAddress)
    ensures var r := BuildSpec(held, payments, crossAddress);
            if payments == [] then r == Err(NothingToPay)
            else if o.owed > 0xFFFF_FFFF_FFFF_FFFF then r == Err(Overflow)
            else if !crossAddress && o.shielded > 0 then r == Err(NotPayableHere)
            else r != Err(NothingToPay) && r != Err(NotPayableHere)
  {
    ToldAtLast(PlanSpec(Candidates(held), o), Candidates(held), Worth(held, held.Keys));
  }

  /** What is refused before any note is looked at. */
  lemma RefusedOutright(held: map<nat, HeldNote>, payments: seq<Payment>, crossAddress: bool)
    ensures var r := BuildSpec(held, payments, crossAddress);
            && (r == Err(NothingToPay) <==> payments == [])
            && (payments != [] && Owed(payments) > 0xFFFF_FFFF_FFFF_FFFF ==> r == Err(Overflow))
            && (r == Err(NotPayableHere) <==>
                  && !crossAddress && Owed(payments) <= 0xFFFF_FFFF_FFFF_FFFF
                  && exists i :: 0 <= i < |payments| && payments[i].shielded)
  {
    RefusalIs(held, payments, crossAddress, OrderOf(payments, crossAddress));
    AnyShielded(payments);
  }

  /** A turn that made its own fee its end, or the next turn's beginning. */
  ghost predicate WantedFee(fee: nat, notes: seq<HeldNote>, payments: seq<Payment>, crossAddress: bool) {
    var least := 5_000 * (2 + |TransparentPlaces(payments)|);
    || fee == least
    || exists k :: 0 <= k <= |notes| && Cover(notes, Owed(payments) + least) == Some(k)
         && fee == FeeOf(k, Total(notes, k) - (Owed(payments) + least), payments, crossAddress)
  }

  /** It is short exactly of what the payments and the fee then tried come to. */
  lemma ShortOf(held: map<nat, HeldNote>, payments: seq<Payment>, crossAddress: bool, cause: NoteError)
    requires BuildSpec(held, payments, crossAddress) == Err(Short(cause))
    ensures cause.held == Worth(held, held.Keys) && cause.needed >= Owed(payments)
    ensures Cover(Candidates(held), cause.needed).None?
    ensures WantedFee(cause.needed - Owed(payments), Candidates(held), payments, crossAddress)
  {
    var notes, o := Candidates(held), OrderOf(payments, crossAddress);
    ShortAnswer(held, payments, crossAddress, o, notes, cause);
    AnswerIsShort(held, notes, o, cause);
    LoopIsShort(notes, payments, crossAddress, o, cause.needed);
  }

  lemma LoopIsShort(notes: seq<HeldNote>, payments: seq<Payment>, crossAddress: bool, o: Order, needed: nat)
    requires o == OrderOf(payments, crossAddress) && PlanSpec(notes, o) == Lacking(needed)
    ensures needed >= Owed(payments) && Cover(notes, needed).None?
    ensures WantedFee(needed - Owed(payments), notes, payments, crossAddress)
  {
    var least := LeastFee(o);
    ShortIs(notes, o, least, needed);
    WantedIs(notes, payments, crossAddress, o, least, Pass(notes, o.owed + least, least), needed);
  }

  lemma ShortAnswer(
      held: map<nat, HeldNote>, payments: seq<Payment>, crossAddress: bool, o: Order, notes: seq<HeldNote>,
      cause: NoteError)
    requires o == OrderOf(payments, crossAddress) && notes == Candidates(held)
    requires BuildSpec(held, payments, crossAddress) == Err(Short(cause))
    ensures Answer(held, notes, o) == Err(Short(cause))
  {
  }

  lemma AnswerIsShort(held: map<nat, HeldNote>, notes: seq<HeldNote>, o: Order, cause: NoteError)
    requires Answer(held, notes, o) == Err(Short(cause))
    ensures PlanSpec(notes, o) == Lacking(cause.needed) && cause.held == Worth(held, held.Keys)
  {
  }

  lemma WantedIs(
      notes: seq<HeldNote>, payments: seq<Payment>, crossAddress: bool, o: Order, least: nat, first: Outcome,
      needed: nat)
    requires o == OrderOf(payments, crossAddress) && least == LeastFee(o) && first == Pass(notes, o.owed + least, least)
    requires needed == o.owed + least || (first.Made? && needed == o.owed + Needs(first, o))
    ensures needed >= o.owed && WantedFee(needed - o.owed, notes, payments, crossAddress)
  {
    FeeIsZip317(0, 0, payments, crossAddress);
    if needed != o.owed + least {
      FeeIsZip317(first.count, first.change, payments, crossAddress);
      MadeIs(notes, o.owed + least, least, first);
      WantedNext(notes, payments, crossAddress, o.owed + least, first.count, needed - o.owed);
    }
  }

  lemma MadeIs(notes: seq<HeldNote>, amount: nat, fee: nat, p: Outcome)
    requires p == Pass(notes, amount, fee) && p.Made?
    ensures Cover(notes, amount) == Some(p.count) && p.count <= |notes|
    ensures Total(notes, p.count) >= amount && p.change == Total(notes, p.count) - amount
  {
  }

  lemma WantedNext(
      notes: seq<HeldNote>, payments: seq<Payment>, crossAddress: bool, amount: nat, k: nat, fee: nat)
    requires amount == Owed(payments) + 5_000 * (2 + |TransparentPlaces(payments)|)
    requires k <= |notes| && Cover(notes, amount) == Some(k) && Total(notes, k) >= amount
    requires fee == FeeOf(k, Total(notes, k) - amount, payments, crossAddress)
    ensures WantedFee(fee, notes, payments, crossAddress)
  {
  }

  lemma ShortIs(notes: seq<HeldNote>, o: Order, least: nat, needed: nat)
    requires least == LeastFee(o) && PlanSpec(notes, o) == Lacking(needed)
    ensures Cover(notes, needed).None?
    ensures var first := Pass(notes, o.owed + least, least);
            needed == o.owed + least || (first.Made? && needed == o.owed + Needs(first, o))
  {
  }

  /** A plan is a fixed point of the fee. */
  lemma PlanIsAFixedPoint(notes: seq<HeldNote>, o: Order)
    ensures var p := PlanSpec(notes, o);
            p.Made? ==> p == Pass(notes, o.owed + p.fee, p.fee) && p.fee == Needs(p, o) >= LeastFee(o)
  {
  }

  lemma PlanBalances(held: map<nat, HeldNote>, payments: seq<Payment>, crossAddress: bool, p: Plan)
    requires Keyed(held) && BuildSpec(held, payments, crossAddress) == Ok(p)
    ensures Balanced(held, p, OrderOf(payments, crossAddress))
  {
    CandidatesAreTheHeldNotes(held);
    AnswerBalances(held, Candidates(held), OrderOf(payments, crossAddress), p);
  }

  lemma AnswerBalances(held: map<nat, HeldNote>, notes: seq<HeldNote>, o: Order, p: Plan)
    requires FromStore(notes, held) && Answer(held, notes, o) == Ok(p)
    ensures Balanced(held, p, o)
  {
    var k := PlanSpec(notes, o).count;
    PlanIsAFixedPoint(notes, o);
    TotalOfPrefix(notes, k, k);
    PrefixFromStore(notes, held, k);
  }

  lemma PrefixFromStore(notes: seq<HeldNote>, held: map<nat, HeldNote>, k: nat)
    requires FromStore(notes, held) && k <= |notes|
    ensures FromStore(notes[..k], held)
  {
  }

  /** And they are what `select` chooses for the total with this fee. */
  lemma PlanIsSelected(
      held: map<nat, HeldNote>, payments: seq<Payment>, crossAddress: bool, p: Plan, amount: nat)
    requires BuildSpec(held, payments, crossAddress) == Ok(p) && amount == Owed(payments) + p.fee
    ensures Selection(held, amount) == Some(p.spent)
  {
    AnswerIsSelected(held, Candidates(held), OrderOf(payments, crossAddress), p, amount);
  }

  lemma AnswerIsSelected(held: map<nat, HeldNote>, notes: seq<HeldNote>, o: Order, p: Plan, amount: nat)
    requires notes == Candidates(held) && Answer(held, notes, o) == Ok(p) && amount == o.owed + p.fee
    ensures Selection(held, amount) == Some(p.spent)
  {
    PlanIsAFixedPoint(notes, o);
    SelectionOf(held, notes, amount, PlanSpec(notes, o).count);
  }

  lemma SelectionOf(held: map<nat, HeldNote>, notes: seq<HeldNote>, amount: nat, k: nat)
    requires notes == Candidates(held) && Cover(notes, amount) == Some(k)
    ensures Selection(held, amount) == Some(notes[..k])
  {
  }

  /** No fee below the one charged fits its own selection, but that of a payout
      made from the same kind of selection without change, one action cheaper. */
  lemma ChargesTheLeast(notes: seq<HeldNote>, o: Order, amount: nat, fee: nat)
    requires PlanSpec(notes, o).Made? && amount == o.owed + fee
    requires Pass(notes, amount, fee).Made? && Needs(Pass(notes, amount, fee), o) == fee
    ensures PlanSpec(notes, o).fee <= fee
            || (PlanSpec(notes, o).fee == fee + 5_000 && Pass(notes, amount, fee).change == 0)
  {
    var least := o.owed + LeastFee(o);
    var p, first := Pass(notes, amount, fee), Pass(notes, least, LeastFee(o));
    FeesCountActions(p.count, p.change, p.count, p.change, o);
    CoverAtMost(notes, least, p.count);
    PlanIsFirstOrSecond(notes, o, least);
    if PlanSpec(notes, o).fee != LeastFee(o) {
      MoreNotesCostMore(first, p, o);
    }
  }

  lemma PlanIsFirstOrSecond(notes: seq<HeldNote>, o: Order, least: nat)
    requires PlanSpec(notes, o).Made? && least == o.owed + LeastFee(o)
    ensures var first := Pass(notes, least, LeastFee(o));
            PlanSpec(notes, o).fee == LeastFee(o) || (first.Made? && PlanSpec(notes, o).fee == Needs(first, o))
  {
  }

  lemma MoreNotesCostMore(p: Outcome, q: Outcome, o: Order)
    requires p.Made? && q.Made? && p.count <= q.count
    ensures Needs(q, o) >= Needs(p, o) || (Needs(p, o) == Needs(q, o) + 5_000 && q.change == 0)
  {
  }

  // ------------------------------------------------------------ two passes

  /** The second selection for `n1` notes with or without change pays the fee the
      first one asked for with `n` fewer notes. */
  predicate Repays(n: nat, change: bool, n1: nat, change1: bool, o: Order) {
    if !o.crossAddress then
      n1 == n + 1 && change && !change1
    else if change == change1 then
      n1 <= o.shielded + if change1 then 1 else 0
    else
      change && n1 == o.shielded + 1
  }

  /** When the loop gives up, from the notes in the order they are taken: paying
      for the first selection costs more than was allowed for, and the larger fee
      is stuck. */
  ghost predicate GivesUp(notes: seq<HeldNote>, o: Order) {
    var least := o.owed + LeastFee(o);
    match Cover(notes, least)
    case None => false
    case Some(n) => StuckFor(notes, n, Total(notes, n) > least, FeeNeeded(n, Total(notes, n) - least, o), o)
  }

  ghost predicate StuckFor(notes: seq<HeldNote>, n: nat, change: bool, f1: nat, o: Order)
    requires n <= |notes|
  {
    f1 != LeastFee(o) && StuckAt(notes, n, change, o.owed + f1, o)
  }

  /** There is money for `amount`, but no settling on it after `n` notes with or
      without change. */
  ghost predicate StuckAt(notes: seq<HeldNote>, n: nat, change: bool, amount: nat, o: Order)
    requires n <= |notes|
  {
    && amount <= SumOf(notes)
    && var n1 := Cover(notes, amount).value;
       Stuck(n, Total(notes, n), change, n1, Total(notes, n1), amount, o)
  }

  /** The first selection leaves no change of `amount`. Either it is worth it to the
      last unit, and the change it swallows was an action of its own; or it takes
      `n1` notes, and they do not make as many actions as the first did. */
  predicate Stuck(n: nat, worth: nat, change: bool, n1: nat, worth1: nat, amount: nat, o: Order) {
    && worth <= amount <= U64_MAX
    && if worth == amount then o.crossAddress ==> n <= o.shielded
       else worth1 <= U64_MAX && !Repays(n, change, n1, worth1 > amount, o)
  }

  /** The actions a selection pays for. */
  function Paid(notes: nat, change: nat, o: Order): nat {
    Larger(Actions(notes, change, o), 2)
  }

  lemma FeesCountActions(n: nat, c: nat, n1: nat, c1: nat, o: Order)
    ensures FeeNeeded(n, c, o) == FeeNeeded(n1, c1, o) <==> Paid(n, c, o) == Paid(n1, c1, o)
    ensures FeeNeeded(n, c, o) == LeastFee(o) <==> Paid(n, c, o) == 2
    ensures FeeNeeded(n, c, o) >= LeastFee(o)
  {
  }

  lemma SameNotes(n: nat, c: nat, c1: nat, o: Order)
    requires Paid(n, c, o) > 2 && c > c1
    ensures Paid(n, c, o) == Paid(n, c1, o) <==> c1 > 0 || (o.crossAddress && n > o.shielded)
  {
  }

  lemma MoreNotes(n: nat, c: nat, n1: nat, c1: nat, o: Order)
    requires Paid(n, c, o) > 2 && n < n1
    ensures Paid(n, c, o) == Paid(n1, c1, o) <==> Repays(n, c > 0, n1, c1 > 0, o)
  {
  }

  /** The first selection still covers a larger amount it is worth; otherwise more notes are taken. */
  lemma CoverNext(notes: seq<HeldNote>, amount: nat, more: nat)
    requires amount <= more && Cover(notes, amount).Some?
    ensures var n := Cover(notes, amount).value; var k := Cover(notes, more);
            if more <= Total(notes, n) then k == Some(n) else k.Some? ==> k.value > n
    ensures Cover(notes, more).Some? <==> more <= SumOf(notes)
  {
    var n := Cover(notes, amount).value;
    CoverIs(notes, more, n);
    var k := Cover(notes, more);
    if k.Some? {
      TotalMonotone(notes, k.value, |notes|);
      if k.value <= n {
        TotalMonotone(notes, k.value, n);
      }
    }
  }

  /** The first selection, and the fee `f1` it asks for in its place. */
  ghost predicate Asks(notes: seq<HeldNote>, o: Order, least: nat, n: nat, f1: nat, amount: nat) {
    && least == o.owed + LeastFee(o) && Cover(notes, least) == Some(n)
    && f1 == FeeNeeded(n, Total(notes, n) - least, o) && amount == o.owed + f1
  }

  lemma PlanAfter(notes: seq<HeldNote>, o: Order, least: nat, n: nat, f1: nat, amount: nat)
    requires Asks(notes, o, least, n, f1, amount)
    ensures PlanSpec(notes, o) == Unsettled <==>
              && f1 != LeastFee(o) && least <= U64_MAX && Total(notes, n) <= U64_MAX
              && var p := Pass(notes, amount, f1); p.Made? && Needs(p, o) != f1
  {
    PassIs(notes, least, LeastFee(o), n);
    PlanAfterTurn(notes, o, Pass(notes, least, LeastFee(o)), f1, amount);
  }

  lemma PassIs(notes: seq<HeldNote>, amount: nat, fee: nat, k: nat)
    requires Cover(notes, amount) == Some(k)
    ensures Pass(notes, amount, fee)
         == if amount > U64_MAX || Total(notes, k) > U64_MAX then Beyond else Made(k, Total(notes, k) - amount, fee)
  {
  }

  lemma PlanAfterTurn(notes: seq<HeldNote>, o: Order, first: Outcome, f1: nat, amount: nat)
    requires first == Pass(notes, o.owed + LeastFee(o), LeastFee(o)) && amount == o.owed + f1
    requires first.Made? ==> f1 == Needs(first, o)
    ensures PlanSpec(notes, o) == Unsettled <==>
              first.Made? && f1 != LeastFee(o) && !Ends(Pass(notes, amount, f1), o)
  {
  }

  lemma GivesUpIs(notes: seq<HeldNote>, o: Order, least: nat, n: nat, f1: nat, amount: nat)
    requires Asks(notes, o, least, n, f1, amount)
    ensures GivesUp(notes, o) <==> f1 != LeastFee(o) && StuckAt(notes, n, Total(notes, n) > least, amount, o)
  {
    GivesUpFrom(notes, o, least, n, f1);
  }

  lemma GivesUpFrom(notes: seq<HeldNote>, o: Order, least: nat, n: nat, f1: nat)
    requires least == o.owed + LeastFee(o) && Cover(notes, least) == Some(n)
    requires f1 == FeeNeeded(n, Total(notes, n) - least, o)
    ensures GivesUp(notes, o) <==> StuckFor(notes, n, Total(notes, n) > least, f1, o)
  {
  }

  /** The second turn, told from the first selection. */
  lemma SecondAfter(notes: seq<HeldNote>, o: Order, least: nat, n: nat, f1: nat, amount: nat)
    requires Asks(notes, o, least, n, f1, amount) && f1 != LeastFee(o)
    ensures (least <= U64_MAX && Total(notes, n) <= U64_MAX
             && var p := Pass(notes, amount, f1); p.Made? && Needs(p, o) != f1)
       <==> StuckAt(notes, n, Total(notes, n) > least, amount, o)
  {
    FeesCountActions(n, Total(notes, n) - least, 0, 0, o);
    CoverNext(notes, least, amount);
    if amount <= SumOf(notes) {
      var n1 := Cover(notes, amount).value;
      InNumbers(n, Total(notes, n), least, f1, amount, n1, Total(notes, n1), o);
    }
  }

  lemma InNumbers(n: nat, w: nat, least: nat, f1: nat, amount: nat, n1: nat, w1: nat, o: Order)
    requires o.owed + LeastFee(o) == least <= w && f1 == FeeNeeded(n, w - least, o) != LeastFee(o)
    requires o.owed + f1 == amount <= w1 && if amount <= w then n1 == n && w1 == w else n1 > n
    ensures (least <= U64_MAX && w <= U64_MAX && amount <= U64_MAX && w1 <= U64_MAX
             && FeeNeeded(n1, w1 - amount, o) != f1)
       <==> Stuck(n, w, w > least, n1, w1, amount, o)
  {
    FeesCountActions(n, w - least, n1, w1 - amount, o);
    SecondTurn(n, w - least, n1, w1 - amount, o);
  }

  /** Two passes settle the fee or run out of notes, except exactly then. */
  lemma GivesUpExactlyWhen(notes: seq<HeldNote>, o: Order)
    ensures PlanSpec(notes, o) == Unsettled <==> GivesUp(notes, o)
  {
    var least := o.owed + LeastFee(o);
    if Cover(notes, least).None? {
      NoFirst(notes, o, least);
    } else {
      var n := Cover(notes, least).value;
      var f1 := FeeNeeded(n, Total(notes, n) - least, o);
      var amount := o.owed + f1;
      PlanAfter(notes, o, least, n, f1, amount);
      GivesUpIs(notes, o, least, n, f1, amount);
      if f1 != LeastFee(o) {
        SecondAfter(notes, o, least, n, f1, amount);
      }
    }
  }

  lemma NoFirst(notes: seq<HeldNote>, o: Order, least: nat)
    requires least == o.owed + LeastFee(o) && Cover(notes, least) == None
    ensures PlanSpec(notes, o) != Unsettled && !GivesUp(notes, o)
  {
  }

  lemma SecondTurn(n: nat, c: nat, n1: nat, c1: nat, o: Order)
    requires Paid(n, c, o) > 2 && n <= n1 && (n == n1 ==> c > c1)
    ensures FeeNeeded(n1, c1, o) != FeeNeeded(n, c, o) <==>
              if n == n1 then c1 == 0 && (o.crossAddress ==> n <= o.shielded)
              else !Repays(n, c > 0, n1, c1 > 0, o)
  {
    FeesCountActions(n, c, n1, c1, o);
    if n == n1 {
      SameNotes(n, c, c1, o);
    } else {
      MoreNotes(n, c, n1, c1, o);
    }
  }

  /** `build` gives up on the fee exactly when the vault's notes, in the order they
      are taken, and the order placed meet `GivesUp`. */
  lemma NotConvergedExactlyWhen(held: map<nat, HeldNote>, payments: seq<Payment>, crossAddress: bool)
    ensures BuildSpec(held, payments, crossAddress) == Err(NotConverged) <==>
              && payments != [] && (crossAddress || ShieldedCount(payments) == 0)
              && GivesUp(Candidates(held), OrderOf(payments, crossAddress))
  {
    var o := OrderOf(payments, crossAddress);
    BuildAsTold(held, payments, crossAddress, o, Candidates(held));
    TooMuchOwed(Candidates(held), o);
    GivesUpExactlyWhen(Candidates(held), o);
  }

  lemma BuildAsTold(
      held: map<nat, HeldNote>, payments: seq<Payment>, crossAddress: bool, o: Order, notes: seq<HeldNote>)
    requires o == OrderOf(payments, crossAddress) && notes == Candidates(held)
    ensures BuildSpec(held, payments, crossAddress) == Err(NotConverged) <==>
              Refusal(payments, o) == None && PlanSpec(notes, o) == Unsettled
  {
  }

  lemma TooMuchOwed(notes: seq<HeldNote>, o: Order)
    ensures o.owed > U64_MAX ==> PlanSpec(notes, o) == Beyond
  {
  }

  /** And then the larger fee kept the first selection whole in front: it needs
      another note, or the notes are the same and it has swallowed the change to
      the last unit. */
  lemma WhyUnsettled(held: map<nat, HeldNote>, payments: seq<Payment>, crossAddress: bool)
    returns (first: seq<HeldNote>, second: seq<HeldNote>, least: nat, f1: nat, amount: nat)
    requires Keyed(held) && BuildSpec(held, payments, crossAddress) == Err(NotConverged)
    ensures Selection(held, least) == Some(first) && Selection(held, amount) == Some(second)
    ensures Outgrown(first, second, least, f1, amount, OrderOf(payments, crossAddress))
  {
    NotConvergedExactlyWhen(held, payments, crossAddress);
    first, second, least, f1, amount := WhyFromStore(held, Candidates(held), OrderOf(payments, crossAddress));
  }

  lemma WhyFromStore(held: map<nat, HeldNote>, notes: seq<HeldNote>, o: Order)
    returns (first: seq<HeldNote>, second: seq<HeldNote>, least: nat, f1: nat, amount: nat)
    requires notes == Candidates(held) && GivesUp(notes, o)
    ensures Selection(held, least) == Some(first) && Selection(held, amount) == Some(second)
    ensures Outgrown(first, second, least, f1, amount, o)
  {
    least := o.owed + LeastFee(o);
    var n, n1;
    n, n1, f1, amount := WhyOnNotes(notes, o, least);
    first, second := notes[..n], notes[..n1];
    SelectionOf(held, notes, least, n);
    SelectionOf(held, notes, amount, n1);
  }

  lemma WhyOnNotes(notes: seq<HeldNote>, o: Order, least: nat) returns (n: nat, n1: nat, f1: nat, amount: nat)
    requires GivesUp(notes, o) && least == o.owed + LeastFee(o)
    ensures Cover(notes, least) == Some(n) && Cover(notes, amount) == Some(n1)
    ensures Outgrown(notes[..n], notes[..n1], least, f1, amount, o)
  {
    n, n1, f1, amount := WhyGivenUp(notes, o, least);
    TotalOfPrefix(notes, n, n);
    OutgrownPrefix(notes, o, n, n1, least, f1, amount);
  }

  /** In place of `first` for the total `least`, the fee `f1` takes `second`. */
  ghost predicate Outgrown(
      first: seq<HeldNote>, second: seq<HeldNote>, least: nat, f1: nat, amount: nat, o: Order)
  {
    && o.owed + LeastFee(o) == least <= SumOf(first)
    && f1 == FeeNeeded(|first|, SumOf(first) - least, o) > LeastFee(o) && amount == o.owed + f1
    && first <= second
    && if SumOf(first) == amount then second == first else SumOf(first) < amount && |second| > |first|
  }

  lemma WhyGivenUp(notes: seq<HeldNote>, o: Order, least: nat) returns (n: nat, n1: nat, f1: nat, amount: nat)
    requires GivesUp(notes, o) && least == o.owed + LeastFee(o)
    ensures Asks(notes, o, least, n, f1, amount) && f1 > LeastFee(o) && Cover(notes, amount) == Some(n1)
    ensures if Total(notes, n) == amount then n1 == n else Total(notes, n) < amount && n1 > n
  {
    n := Cover(notes, least).value;
    f1 := FeeNeeded(n, Total(notes, n) - least, o);
    amount := o.owed + f1;
    FeesCountActions(n, Total(notes, n) - least, 0, 0, o);
    GivesUpIs(notes, o, least, n, f1, amount);
    CoverNext(notes, least, amount);
    n1 := Cover(notes, amount).value;
  }

  lemma OutgrownPrefix(notes: seq<HeldNote>, o: Order, n: nat, n1: nat, least: nat, f1: nat, amount: nat)
    requires n <= n1 <= |notes| && SumOf(notes[..n]) == Total(notes, n)
    requires Asks(notes, o, least, n, f1, amount) && f1 > LeastFee(o)
    requires if Total(notes, n) == amount then n1 == n else Total(notes, n) < amount && n1 > n
    ensures Outgrown(notes[..n], notes[..n1], least, f1, amount, o)
  {
    assert notes[..n1][..n] == notes[..n];
  }

  // ------------------------------------------------------------ a payout two passes do not settle

  lemma {:induction false} IncreasingIsUnique(xs: seq<nat>, ys: seq<nat>)
    requires Increasing(xs) && Increasing(ys) && forall x :: x in xs <==> x in ys
    ensures xs == ys
  {
    assert ys != [] ==> ys[0] in ys;
    assert xs != [] ==> xs[0] in xs;
    if xs != [] {
      assert xs[0] == ys[0];
      forall x ensures x in xs[1..] <==> x in ys[1..] {
        assert x in xs[1..] ==> x in xs && x != xs[0];
        assert x in ys[1..] ==> x in ys && x != ys[0];
      }
      IncreasingIsUnique(xs[1..], ys[1..]);
    }
  }

  /** Notes whose positions rise as their values fall. */
  ghost predicate Falling(notes: seq<HeldNote>) {
    forall i, j :: 0 <= i < j < |notes| ==> notes[i].position < notes[j].position && Before(notes[i], notes[j])
  }

  function PositionsOf(notes: seq<HeldNote>): (ps: seq<nat>)
    ensures |ps| == |notes| && forall i :: 0 <= i < |ps| ==> ps[i] == notes[i].position
  {
    if notes == [] then [] else [notes[0].position] + PositionsOf(notes[1..])
  }

  lemma {:induction false} FallingIsSorted(notes: seq<HeldNote>, held: map<nat, HeldNote>)
    requires Falling(notes) && forall n :: n in notes ==> n.position in held && held[n.position] == n
    ensures (forall p :: p in PositionsOf(notes) ==> p in held) && Sorted(PositionsOf(notes), held) == notes
  {
    if notes != [] {
      assert notes[0] in notes;
      FallingIsSorted(notes[1..], held);
      assert PositionsOf(notes)[1..] == PositionsOf(notes[1..]);
    }
  }

  lemma CandidatesInOrder(notes: seq<HeldNote>, held: map<nat, HeldNote>)
    requires Falling(notes) && forall n :: n in notes ==> n.position in held && held[n.position] == n
    requires forall p :: p in held ==> held[p] in notes && held[p].position == p
    ensures Candidates(held) == notes
  {
    FallingIsSorted(notes, held);
    forall p ensures p in Ascending(held.Keys) <==> p in PositionsOf(notes) {
      if p in held {
        var i :| 0 <= i < |notes| && notes[i] == held[p];
        assert PositionsOf(notes)[i] == p;
      }
    }
    IncreasingIsUnique(Ascending(held.Keys), PositionsOf(notes));
  }

  lemma ThreeNotes() returns (a: HeldNote, b: HeldNote, c: HeldNote)
    ensures a.Value() == 60_000 && b.Value() == 56_000 && c.Value() == 50_000
    ensures a.position < b.position < c.position
  {
    a := HeldNote(Note(0, 60_000, 0, 0, V2), 0, 0, 0);
    b := HeldNote(Note(0, 56_000, 0, 0, V2), 1, 0, 0);
    c := HeldNote(Note(0, 50_000, 0, 0, V2), 2, 0, 0);
  }

  lemma StoreOf(a: HeldNote, b: HeldNote, c: HeldNote) returns (held: map<nat, HeldNote>)
    requires a.Value() >= b.Value() >= c.Value() && a.position < b.position < c.position
    ensures Keyed(held) && Candidates(held) == [a, b, c]
  {
    held := map[a.position := a, b.position := b, c.position := c];
    CandidatesInOrder([a, b, c], held);
  }

  lemma TotalsOf(a: HeldNote, b: HeldNote, c: HeldNote)
    ensures var n := [a, b, c];
            && Total(n, 1) == a.Value() && Total(n, 2) == a.Value() + b.Value()
            && Total(n, 3) == a.Value() + b.Value() + c.Value()
  {
    var n := [a, b, c];
    assert Total(n, 0) == 0;
    assert Total(n, 1) == Total(n, 0) + n[0].Value();
    assert Total(n, 2) == Total(n, 1) + n[1].Value();
  }

  /** Two passes do not always settle it: there is a vault, and a payout of one
      transparent output it could make at a fee that fits itself, for which the
      loop gives up. The first pass asks for one more action, paying for it takes
      a third note, and that note is one action more again. */
  lemma TwoPassesCanFail() returns (held: map<nat, HeldNote>, payments: seq<Payment>, fee: nat)
    ensures Keyed(held) && BuildSpec(held, payments, false) == Err(NotConverged)
    ensures var p := Pass(Candidates(held), Owed(payments) + fee, fee);
            p.Made? && Needs(p, OrderOf(payments, false)) == fee
  {
    var a, b, c := ThreeNotes();
    held := StoreOf(a, b, c);
    payments := [Payment(false, 100_000)];
    fee := 25_000;
    OneOrder(payments);
    TotalsOf(a, b, c);
    Fails([a, b, c]);
    GivesUpExactlyWhen([a, b, c], OrderOf(payments, false));
    NotConvergedExactlyWhen(held, payments, false);
  }

  lemma OneOrder(payments: seq<Payment>)
    requires payments == [Payment(false, 100_000)]
    ensures OrderOf(payments, false) == Order(100_000, 0, 1, false)
  {
    assert payments[..|payments| - 1] == [];
    assert Owed(payments) == Owed(payments[..|payments| - 1]) + 100_000;
    assert ShieldedCount(payments) == ShieldedCount(payments[..|payments| - 1]);
  }

  lemma Fails(notes: seq<HeldNote>)
    requires |notes| == 3 && Total(notes, 1) == 60_000 && Total(notes, 2) == 116_000 && Total(notes, 3) == 166_000
    ensures var o := Order(100_000, 0, 1, false);
            && GivesUp(notes, o)
            && Pass(notes, 125_000, 25_000).Made? && Needs(Pass(notes, 125_000, 25_000), o) == 25_000
  {
    CoverIs(notes, 115_000, 2);
    CoverIs(notes, 120_000, 3);
    CoverIs(notes, 125_000, 3);
  }
}
