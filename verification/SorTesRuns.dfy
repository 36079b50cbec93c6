/** The SorTES tank over whole runs of market slots: within a slot the bid is re-posted at every
    update and filled piece by piece; at the next cycle the slot is settled in the tank. */
module SorTesRuns {
  import opened Numeric
  import opened SorTes

  // ----- performance maps -----

  // The extrapolated charging power falls through zero at 47.5 degrees, the discharging power at
  // -25 degrees.
  lemma PowerSigns(temperature: real)
    ensures ChargingPower(temperature) >= 0.0 <==> temperature <= 47.5
    ensures DischargingPower(temperature) >= 0.0 <==> temperature >= -25.0
  {
    hide Power;
    ChargingMapFalls();
    ChargingSign(CHARGING_MAP, temperature);
    DischargingSign(temperature);
  }

  lemma ChargingMapFalls()
    ensures Rising(CHARGING_MAP) && Falling(CHARGING_MAP)
    ensures CHARGING_MAP[|CHARGING_MAP| - 2..] == [(40.0, 1.5), (45.0, 0.5)]
  {
    ChargingMapPowers();
  }

  lemma ChargingMapPowers()
    ensures Falling(CHARGING_MAP)
  {
  }

  predicate Falling(table: seq<(real, real)>) {
    && (forall i :: 0 <= i < |table| - 1 ==> table[i].1 > table[i + 1].1)
    && (forall i :: 0 <= i < |table| ==> table[i].1 > 0.0)
  }

  // A falling map is positive up to its last entry.
  lemma {:induction false} ChargingSign(table: seq<(real, real)>, temperature: real)
    requires Rising(table) && table[|table| - 2..] == [(40.0, 1.5), (45.0, 0.5)]
    requires Falling(table)
    ensures Power(table, temperature) >= 0.0 <==> temperature <= 47.5
    decreases |table|
  {
    if |table| == 2 {
      assert table[0] == table[|table| - 2..][0] && table[1] == table[|table| - 2..][1];
    } else if temperature <= table[1].0 {
      FallingLine(table[0], table[1], temperature);
      LastIsHighest(table, 1);
    } else {
      assert table[1..][|table[1..]| - 2..] == table[|table| - 2..];
      ChargingSign(table[1..], temperature);
    }
  }

  lemma {:induction false} LastIsHighest(table: seq<(real, real)>, i: nat)
    requires Rising(table) && i < |table|
    ensures table[i].0 <= table[|table| - 1].0
    decreases |table| - i
  {
    if i < |table| - 1 {
      LastIsHighest(table, i + 1);
    }
  }

  lemma FallingLine(a: (real, real), b: (real, real), x: real)
    requires a.0 < b.0 && a.1 > b.1 > 0.0 && x <= b.0
    ensures OnLine(a, b, x) > 0.0
  {
    var slope := Slope(a, b);
    assert slope * (b.0 - a.0) == b.1 - a.1;
    assert slope <= 0.0;
    assert OnLine(a, b, x) == b.1 + slope * (x - b.0);
    assert slope * (x - b.0) >= 0.0;
  }

  lemma DischargingSign(temperature: real)
    ensures DischargingPower(temperature) >= 0.0 <==> temperature >= -25.0
  {
    var m := DISCHARGING_MAP;
    assert Growing(m);
    hide Power;
    if temperature <= 10.0 {
      PowerBelow(temperature);
    } else {
      GrowingSign(m, temperature);
    }
  }

  predicate Growing(table: seq<(real, real)>) {
    && (forall i :: 0 <= i < |table| - 1 ==> table[i].1 < table[i + 1].1)
    && (forall i :: 0 <= i < |table| ==> table[i].1 > 0.0)
  }

  // A growing map is positive from its first entry on.
  lemma {:induction false} GrowingSign(table: seq<(real, real)>, temperature: real)
    requires Rising(table) && Growing(table) && temperature >= table[0].0
    ensures Power(table, temperature) > 0.0
    decreases |table|
  {
    GrowingLine(table[0], table[1], temperature);
    if |table| > 2 && temperature > table[1].0 {
      GrowingSign(table[1..], temperature);
    }
  }

  lemma SlopeSign(a: (real, real), b: (real, real))
    requires a.0 < b.0 && a.1 < b.1
    ensures Slope(a, b) > 0.0
  {
    var slope, width := Slope(a, b), b.0 - a.0;
    assert slope * width == b.1 - a.1;
    SignOfFactor(slope, width);
  }

  lemma RiseIsPositive(slope: real, width: real)
    requires slope > 0.0 && width >= 0.0
    ensures Rise(slope, width) >= 0.0
  {
  }

  lemma SignOfFactor(x: real, y: real)
    requires y > 0.0 && x * y > 0.0
    ensures x > 0.0
  {
  }

  lemma GrowingLine(a: (real, real), b: (real, real), x: real)
    requires a.0 < b.0 && 0.0 < a.1 < b.1 && x >= a.0
    ensures OnLine(a, b, x) > 0.0
  {
    hide Slope, Rise;
    SlopeSign(a, b);
    RiseIsPositive(Slope(a, b), x - a.0);
  }

  // ----- calculate is idempotent within a slot; a switch is held -----

  // A second call in the same slot stores and buys for the same mode.
  lemma DecidingAgainChangesNothing(w: Switch, affordable: bool, soc: real, t: int)
    ensures var (w1, target) := Decided(w, affordable, soc, t); Decided(w1, affordable, soc, t) == (w1, target)
  {
  }

  datatype Call = Call(time: int, affordable: bool, soc: real)

  function AfterCalls(w: Switch, calls: seq<Call>): Switch
    decreases |calls|
  {
    if calls == [] then w
    else AfterCalls(Decided(w, calls[0].affordable, calls[0].soc, calls[0].time).0, calls[1..])
  }

  // Once a call has switched the stored mode to charging or discharging, no call of the next
  // hour changes it, whatever the prices and the state of charge do.
  lemma SwitchIsHeld(w: Switch, call: Call, later: seq<Call>)
    requires var w1 := Decided(w, call.affordable, call.soc, call.time).0; w1.mode != w.mode && w1.mode != MaintainSoc
    requires forall c :: c in later ==> c.time < call.time + MINUTES_BEFORE_SWITCH_ALLOWED
    ensures var w1 := Decided(w, call.affordable, call.soc, call.time).0;
            w1.lastSwitch == Some(call.time) && AfterCalls(w1, later) == w1
  {
    HeldUntil(Decided(w, call.affordable, call.soc, call.time).0, later);
  }

  lemma {:induction false} HeldUntil(w: Switch, later: seq<Call>)
    requires w.mode != MaintainSoc && w.lastSwitch.Some?
    requires forall c :: c in later ==> c.time < w.lastSwitch.value + MINUTES_BEFORE_SWITCH_ALLOWED
    ensures AfterCalls(w, later) == w
    decreases |later|
  {
    if later != [] {
      assert later[0] in later;
      HeldUntil(w, later[1..]);
    }
  }

  // ----- one slot -----

  datatype Slot = Slot(tank: Tank, switch: Switch, open: real)

  // An update takes the open bid back and posts the energy that is still to be bought; a fill is
  // a trade of the open bid or of a part of it. Neither leaves a bid of TOL or less.
  datatype Move = Updates | Fills(energy: real)

  function Bid(energy: real): real {
    if energy <= TOL then 0.0 else energy
  }

  function Updated(p: Profiles, s: Slot, t: int): Slot {
    var (w, target) := Decided(s.switch, p.affordable(t), Get(s.tank.soc, t), t);
    Slot(s.tank, w, Bid(EnergyFor(s.tank, target, t)))
  }

  function Moved(p: Profiles, s: Slot, t: int, move: Move): Slot {
    match move
    case Updates => Updated(p, s, t)
    case Fills(energy) => Slot(Traded(s.tank, t, energy), s.switch, Bid(s.open - energy))
  }

  function AfterMoves(p: Profiles, s: Slot, t: int, moves: seq<Move>): Slot
    decreases |moves|
  {
    if moves == [] then s else AfterMoves(p, Moved(p, s, t, moves[0]), t, moves[1..])
  }

  predicate Possible(p: Profiles, s: Slot, t: int, moves: seq<Move>)
    decreases |moves|
  {
    moves == [] ||
    ((moves[0].Fills? ==> 0.0 < moves[0].energy <= s.open) && Possible(p, Moved(p, s, t, moves[0]), t, moves[1..]))
  }

  // The slot from its first posting on.
  function SlotStart(p: Profiles, tank: Tank, switch: Switch, t: int): Slot {
    Updated(p, Slot(tank, switch, 0.0), t)
  }

  // The mode the slot buys for, and how much it sets out to buy.
  function TargetOf(p: Profiles, tank: Tank, switch: Switch, t: int): Mode {
    Decided(switch, p.affordable(t), Get(tank.soc, t), t).1
  }

  function Planned(p: Profiles, tank: Tank, switch: Switch, t: int): real {
    EnergyFor(tank, TargetOf(p, tank, switch, t), t)
  }

  function Left(planned: real, bought: real): real {
    if bought == 0.0 then planned else Max(0.0, planned - bought)
  }

  // Only what was bought, and what is left to buy, changes within a slot; open is, at any time, the
  // bid for what is left of the plan.
  ghost predicate WithinSlot(p: Profiles, tank: Tank, switch: Switch, t: int, s: Slot) {
    var planned := Planned(p, tank, switch, t);
    && s.tank.soc == tank.soc && s.tank.cop == tank.cop && s.tank.heatDemandKJ == tank.heatDemandKJ
    && s.switch == Decided(switch, p.affordable(t), Get(tank.soc, t), t).0
    && Get(s.tank.demand, t) == Left(Get(tank.demand, t), s.tank.bought)
    && Get(s.tank.minDemand, t) == Left(Get(tank.minDemand, t), s.tank.bought)
    && Get(s.tank.maxDemand, t) == Left(Get(tank.maxDemand, t), s.tank.bought)
    && 0.0 <= s.tank.bought && s.open == Bid(planned - s.tank.bought)
    && (planned <= TOL ==> s.tank.bought == 0.0)
    && (planned > TOL ==> s.tank.bought <= planned)
  }

  lemma MoveStaysWithin(p: Profiles, tank: Tank, switch: Switch, t: int, s: Slot, move: Move)
    requires WithinSlot(p, tank, switch, t, s) && (move.Fills? ==> 0.0 < move.energy <= s.open)
    ensures WithinSlot(p, tank, switch, t, Moved(p, s, t, move))
  {
    match move
    case Updates => UpdateStaysWithin(p, tank, switch, t, s);
    case Fills(energy) => FillStaysWithin(p, tank, switch, t, s, energy);
  }

  lemma UpdateStaysWithin(p: Profiles, tank: Tank, switch: Switch, t: int, s: Slot)
    requires WithinSlot(p, tank, switch, t, s)
    ensures WithinSlot(p, tank, switch, t, Updated(p, s, t))
  {
    hide Decided;
    DecidingAgainChangesNothing(switch, p.affordable(t), Get(tank.soc, t), t);
  }

  lemma FillStaysWithin(p: Profiles, tank: Tank, switch: Switch, t: int, s: Slot, energy: real)
    requires WithinSlot(p, tank, switch, t, s) && 0.0 < energy <= s.open
    ensures WithinSlot(p, tank, switch, t, Moved(p, s, t, Fills(energy)))
  {
    hide Decided, EnergyFor;
  }

  lemma {:induction false} MovesStayWithin(p: Profiles, tank: Tank, switch: Switch, t: int, s: Slot, moves: seq<Move>)
    requires WithinSlot(p, tank, switch, t, s) && Possible(p, s, t, moves)
    ensures WithinSlot(p, tank, switch, t, AfterMoves(p, s, t, moves))
    decreases |moves|
  {
    hide WithinSlot, Moved;
    if moves != [] {
      MoveStaysWithin(p, tank, switch, t, s, moves[0]);
      MovesStayWithin(p, tank, switch, t, Moved(p, s, t, moves[0]), moves[1..]);
    }
  }

  // However often the bid is updated and in whatever pieces it is filled, a slot never buys more
  // than the first posting set out to buy, and keeps the mode of the first posting.
  lemma SlotBuysWhatItPlanned(p: Profiles, tank: Tank, switch: Switch, t: int, moves: seq<Move>)
    requires tank.bought == 0.0 && Possible(p, SlotStart(p, tank, switch, t), t, moves)
    ensures WithinSlot(p, tank, switch, t, AfterMoves(p, SlotStart(p, tank, switch, t), t, moves))
  {
    MovesStayWithin(p, tank, switch, t, SlotStart(p, tank, switch, t), moves);
  }

  // ----- settling a slot -----

  // A slot that begins: nothing is bought yet and the demands have been set.
  ghost predicate Begun(p: Profiles, s: Tank, t: int) {
    && s.bought == 0.0 && t in s.soc && p.cop(t) > 0.0 && p.heatDemandJ(t) >= 0.0
    && t in s.cop && s.cop[t] == p.cop(t)
    && t in s.heatDemandKJ && s.heatDemandKJ[t] == p.heatDemandJ(t) / 1000.0
    && var d := ElectricityDemand(s, t);
       && Get(s.demand, t) == d
       && Get(s.minDemand, t) == BuyMinimum(d, s.soc[t], DischargeEnergy(p, t))
       && Get(s.maxDemand, t) == BuyMaximum(d, s.soc[t], ChargeEnergy(p, t))
  }

  // What settling a slot does to the heat in the tank, by the stored mode.
  function HeatMoved(mode: Mode, demand: real, bought: real, charge: real, discharge: real): real {
    if Abs(bought - demand) <= TOL then 0.0
    else match mode
      case Charge => charge
      case Discharge => -discharge
      case MaintainSoc => 0.0
  }

  // The tests of the settlement.
  predicate Passes(mode: Mode, net: real, charge: real, discharge: real) {
    || Abs(net) <= TOL
    || (mode == Charge && net > TOL && Abs(CondenserEnergy(charge) + charge - net * COP_HEAT_SOURCE) < TOL)
    || (mode == Discharge && net < TOL && net - EvaporatorEnergy(discharge) < TOL)
  }

  // Which purchases serve a slot: the demand was met, or the tank discharges, or it charges and less
  // than TOL of the plan is missing.
  predicate Serves(mode: Mode, target: Mode, demand: real, planned: real, bought: real) {
    || Abs(bought - demand) <= TOL
    || mode == Discharge
    || (target == Charge && bought > demand && planned - bought < TOL)
  }

  // What was planned for the slot's mode, and what may have been bought of it.
  ghost predicate PlannedFor(soc: real, demand: real, charge: real, discharge: real, mode: Mode, target: Mode,
                             planned: real, bought: real) {
    && demand >= 0.0 && charge >= 0.0 && discharge >= 0.0
    && (target == mode || target == MaintainSoc)
    && (target == Charge ==> soc < MAX_SOC && planned == BuyMaximum(demand, soc, charge))
    && (target == Discharge ==> soc > MIN_SOC && planned == BuyMinimum(demand, soc, discharge))
    && (target == MaintainSoc ==> planned == demand)
    && 0.0 <= bought <= Max(0.0, planned) && (planned <= TOL ==> bought == 0.0)
  }

  // The heart of the arithmetic, for every purchase up to the plan: the surplus over the demand is
  // the charged energy and its condenser share, the shortfall of a discharging slot is at most what
  // discharging saves.
  lemma PlannedEnergySettlesIff(soc: real, demand: real, charge: real, discharge: real, mode: Mode, target: Mode,
                                planned: real, bought: real)
    requires PlannedFor(soc, demand, charge, discharge, mode, target, planned, bought)
    ensures Passes(mode, bought - demand, charge, discharge) <==> Serves(mode, target, demand, planned, bought)
  {
    if target == Charge {
      assert FreeStorage(soc, charge) == charge;
    }
    if target == Discharge {
      assert StoredHeat(soc, discharge) == discharge;
    }
  }

  // A bid of which nothing is left open serves its slot unless the slot charges: then the missing
  // energy, which no bid can carry, has to be below TOL, or so little was planned that the demand is met.
  predicate CoversCharge(target: Mode, demand: real, planned: real, bought: real) {
    target == Charge ==> planned - bought < TOL || Abs(bought - demand) <= TOL
  }

  lemma FilledServesIff(soc: real, demand: real, charge: real, discharge: real, mode: Mode, target: Mode,
                        planned: real, bought: real)
    requires PlannedFor(soc, demand, charge, discharge, mode, target, planned, bought)
    requires Bid(planned - bought) == 0.0
    ensures Serves(mode, target, demand, planned, bought) <==> CoversCharge(target, demand, planned, bought)
    ensures HeatMoved(mode, demand, bought, charge, discharge) == HeatMoved(target, demand, bought, charge, discharge)
  {
    if target == Charge {
      assert FreeStorage(soc, charge) == charge;
    }
  }

  // With bids filled exactly, precisely these slots pass, whatever the sign of the powers: a
  // caller can tell before posting, from the energies on the performance maps and the demand.
  predicate WillSettle(target: Mode, demand: real, charge: real, discharge: real, planned: real) {
    match target
    case MaintainSoc => true
    case Charge => if planned <= TOL then demand <= TOL else 43.0 * charge >= -42.0 * TOL
    case Discharge => planned <= TOL || discharge >= -6.0 * TOL
  }

  lemma ExactlyFilledSettlesIff(s: Tank, p: Profiles, t: int, mode: Mode, target: Mode, planned: real)
    requires s.cop.Keys >= {LastSlot(p, t)} && s.cop[LastSlot(p, t)] != 0.0
    requires var last := LastSlot(p, t);
             var demand := ElectricityDemand(s, last);
             && demand >= 0.0 && (target == mode || target == MaintainSoc)
             && s.bought == Bid(planned)
             && (target == MaintainSoc ==> planned == demand)
             && (target == Charge ==>
                   (Get(s.soc, last) < MAX_SOC &&
                    planned == BuyMaximum(demand, Get(s.soc, last), ChargeEnergy(p, last))))
             && (target == Discharge ==>
                   (Get(s.soc, last) > MIN_SOC &&
                    planned == BuyMinimum(demand, Get(s.soc, last), DischargeEnergy(p, last))))
    ensures var last := LastSlot(p, t);
            ChargedOrDischarged(s, mode, p, t).Some? <==>
            WillSettle(target, ElectricityDemand(s, last), ChargeEnergy(p, last), DischargeEnergy(p, last), planned)
  {
    hide ElectricityDemand, ChargeEnergy, DischargeEnergy;
  }

  // ----- from slot to slot -----

  // The tank of a slot that is over, before the next one settles it.
  function SlotEnd(p: Profiles, tank: Tank, switch: Switch, t: int, moves: seq<Move>): Slot {
    AfterMoves(p, SlotStart(p, tank, switch, t), t, moves)
  }

  // The profiles a simulation needs: slots have a length, the COP is positive, heat demands are not
  // negative, and the outside temperature stays where both maps give a power that is not negative.
  ghost predicate Sensible(p: Profiles) {
    && p.slotMinutes > 0
    && (forall t :: p.cop(t) > 0.0)
    && (forall t :: p.heatDemandJ(t) >= 0.0)
    && (forall t :: -20.0 <= p.ambientC(t) <= 42.5)
  }

  // No slot charges or discharges more than these steps.
  ghost predicate Bounded(p: Profiles, charge: real, discharge: real) {
    forall t :: ChargeEnergy(p, t) <= charge && DischargeEnergy(p, t) <= discharge
  }

  // A step of energy, in percent of the capacity.
  function Percent(energy: real): real {
    energy / CAPACITY * 100.0
  }

  ghost predicate SocWithin(soc: real, charge: real, discharge: real) {
    MIN_SOC - Percent(discharge) <= soc <= MAX_SOC + Percent(charge)
  }

  // At the slot's temperature both maps give a power that is not negative.
  ghost predicate MapsCover(p: Profiles, t: int) {
    p.slotMinutes > 0 && ChargeEnergy(p, t) >= 0.0 && DischargeEnergy(p, t) >= 0.0
  }

  lemma SensibleIsCovered(p: Profiles, t: int)
    requires Sensible(p)
    ensures MapsCover(p, t)
  {
    PowerSigns(p.ambientC(t) + AMBIENT_CORRECTION);
    PowerSigns(p.ambientC(t) - AMBIENT_CORRECTION);
  }

  lemma DemandSign(s: Tank, t: int)
    requires Get(s.cop, t) > 0.0 && Get(s.heatDemandKJ, t) >= 0.0
    ensures ElectricityDemand(s, t) >= 0.0
  {
  }

  // What the moves of a slot come to is a purchase up to the plan.
  lemma SlotIsPlanned(p: Profiles, tank: Tank, switch: Switch, t: int, moves: seq<Move>)
    requires MapsCover(p, t) && Begun(p, tank, t) && Possible(p, SlotStart(p, tank, switch, t), t, moves)
    ensures var end := SlotEnd(p, tank, switch, t, moves);
            && PlannedFor(tank.soc[t], ElectricityDemand(tank, t), ChargeEnergy(p, t), DischargeEnergy(p, t),
                          end.switch.mode, TargetOf(p, tank, switch, t), Planned(p, tank, switch, t), end.tank.bought)
            && end.open == Bid(Planned(p, tank, switch, t) - end.tank.bought)
            && Get(end.tank.cop, t) != 0.0 && ElectricityDemand(end.tank, t) == ElectricityDemand(tank, t)
            && end.tank.soc == tank.soc
  {
    SlotBuysWhatItPlanned(p, tank, switch, t, moves);
    DemandSign(tank, t);
    SameDemand(tank, SlotEnd(p, tank, switch, t, moves).tank, t);
    hide ElectricityDemand, ChargeEnergy, DischargeEnergy, BuyMaximum, BuyMinimum, AfterMoves, SlotEnd, Possible;
  }

  // Whatever was bought in it, a slot is settled without a failing assertion if and only if the
  // purchase serves it, and then it moves exactly the heat its mode stands for.
  lemma SlotSettlesIff(p: Profiles, tank: Tank, switch: Switch, t: int, moves: seq<Move>)
    requires MapsCover(p, t) && Begun(p, tank, t) && Possible(p, SlotStart(p, tank, switch, t), t, moves)
    ensures var end := SlotEnd(p, tank, switch, t, moves);
            var demand := ElectricityDemand(tank, t);
            && LastSlot(p, t + p.slotMinutes) == t && Get(end.tank.cop, t) != 0.0
            && var r := ChargedOrDischarged(end.tank, end.switch.mode, p, t + p.slotMinutes);
            && (r.Some? <==> Serves(end.switch.mode, TargetOf(p, tank, switch, t), demand,
                                    Planned(p, tank, switch, t), end.tank.bought))
            && (r.Some? ==>
                  && t + p.slotMinutes in r.value.soc
                  && r.value.soc[t + p.slotMinutes] ==
                     tank.soc[t] + Percent(HeatMoved(end.switch.mode, demand, end.tank.bought,
                                                     ChargeEnergy(p, t), DischargeEnergy(p, t))))
  {
    SlotIsPlanned(p, tank, switch, t, moves);
    var end := SlotEnd(p, tank, switch, t, moves);
    var demand := ElectricityDemand(tank, t);
    hide Decided, ElectricityDemand, ChargeEnergy, DischargeEnergy, AfterMoves, SlotEnd, Planned, TargetOf, PlannedFor,
         Passes, Serves, Possible;
    PlannedEnergySettlesIff(tank.soc[t], demand, ChargeEnergy(p, t), DischargeEnergy(p, t), end.switch.mode,
                            TargetOf(p, tank, switch, t), Planned(p, tank, switch, t), end.tank.bought);
    SettledHeat(end.tank, end.switch.mode, p, t, demand);
  }

  lemma SettledHeat(s: Tank, mode: Mode, p: Profiles, t: int, demand: real)
    requires LastSlot(p, t + p.slotMinutes) == t && Get(s.cop, t) != 0.0 && t in s.soc
    requires demand == ElectricityDemand(s, t)
    ensures var next := t + p.slotMinutes;
            var r := ChargedOrDischarged(s, mode, p, next);
            && (r.Some? <==> Passes(mode, s.bought - demand, ChargeEnergy(p, t), DischargeEnergy(p, t)))
            && (r.Some? ==>
                  && next in r.value.soc
                  && r.value.soc[next] ==
                     s.soc[t] + Percent(HeatMoved(mode, demand, s.bought, ChargeEnergy(p, t), DischargeEnergy(p, t))))
  {
    hide ElectricityDemand, ChargeEnergy, DischargeEnergy, CondenserEnergy, EvaporatorEnergy;
    assert IsClose(s.bought - demand, 0.0, TOL) <==> Abs(s.bought - demand) <= TOL;
  }

  lemma SameDemand(s: Tank, s': Tank, t: int)
    requires Get(s.cop, t) == Get(s'.cop, t) != 0.0 && Get(s.heatDemandKJ, t) == Get(s'.heatDemandKJ, t)
    ensures ElectricityDemand(s, t) == ElectricityDemand(s', t)
  {
  }

  // The next slot of a run: the moves of this one, and the cycle that settles it.
  function NextTank(p: Profiles, tank: Tank, switch: Switch, t: int, moves: seq<Move>): Option<Tank>
    requires p.known(t) ==> Get(SlotEnd(p, tank, switch, t, moves).tank.cop, t) != 0.0
    requires p.cop(t + p.slotMinutes) != 0.0
  {
    var end := SlotEnd(p, tank, switch, t, moves);
    Cycled(end.tank, end.switch.mode, p, t + p.slotMinutes)
  }

  // A bid of which nothing is left open moves the tank from within its limits only.
  lemma SlotStaysWithin(p: Profiles, tank: Tank, switch: Switch, t: int, moves: seq<Move>, maxCharge: real,
                        maxDischarge: real)
    requires MapsCover(p, t) && Bounded(p, maxCharge, maxDischarge)
    requires Begun(p, tank, t) && SocWithin(tank.soc[t], maxCharge, maxDischarge)
    requires Possible(p, SlotStart(p, tank, switch, t), t, moves) && SlotEnd(p, tank, switch, t, moves).open == 0.0
    ensures var end := SlotEnd(p, tank, switch, t, moves);
            var heat := HeatMoved(end.switch.mode, ElectricityDemand(tank, t), end.tank.bought, ChargeEnergy(p, t),
                                  DischargeEnergy(p, t));
            SocWithin(tank.soc[t] + Percent(heat), maxCharge, maxDischarge)
  {
    SlotIsPlanned(p, tank, switch, t, moves);
    var end := SlotEnd(p, tank, switch, t, moves);
    FilledServesIff(tank.soc[t], ElectricityDemand(tank, t), ChargeEnergy(p, t), DischargeEnergy(p, t), end.switch.mode,
                    TargetOf(p, tank, switch, t), Planned(p, tank, switch, t), end.tank.bought);
    hide Decided, ElectricityDemand, ChargeEnergy, DischargeEnergy, BuyMaximum, BuyMinimum, AfterMoves, SlotEnd,
         Planned, TargetOf, Possible, EnergyFor, SlotStart;
  }

  // The cycle after a slot goes through if and only if the slot's purchase served it; the next slot
  // then begins with the charge the settlement came to.
  lemma SlotLeadsToNextIff(p: Profiles, tank: Tank, switch: Switch, t: int, moves: seq<Move>)
    requires MapsCover(p, t) && p.known(t) && p.cop(t + p.slotMinutes) > 0.0 && p.heatDemandJ(t + p.slotMinutes) >= 0.0
    requires Begun(p, tank, t) && Possible(p, SlotStart(p, tank, switch, t), t, moves)
    ensures var end := SlotEnd(p, tank, switch, t, moves);
            var demand := ElectricityDemand(tank, t);
            && Get(end.tank.cop, t) != 0.0
            && var r := NextTank(p, tank, switch, t, moves);
            && (r.Some? <==> Serves(end.switch.mode, TargetOf(p, tank, switch, t), demand,
                                    Planned(p, tank, switch, t), end.tank.bought))
            && (r.Some? ==>
                  && Begun(p, r.value, t + p.slotMinutes)
                  && r.value.soc[t + p.slotMinutes] ==
                     tank.soc[t] + Percent(HeatMoved(end.switch.mode, demand, end.tank.bought,
                                                     ChargeEnergy(p, t), DischargeEnergy(p, t))))
  {
    hide Decided, ElectricityDemand, ChargeEnergy, DischargeEnergy, BuyMaximum, BuyMinimum, AfterMoves, SlotEnd,
         Planned, TargetOf, Possible, ChargedOrDischarged, HeatMoved, Cycled, Percent, EnergyFor, SlotStart, Begun,
         Serves;
    SlotSettlesIff(p, tank, switch, t, moves);
    var end := SlotEnd(p, tank, switch, t, moves);
    CycleBegins(p, end.tank, end.switch.mode, t);
  }

  // A cycle that starts the slot with the charge its settlement came to, if it came to one.
  ghost predicate Continues(p: Profiles, settled: Option<Tank>, r: Option<Tank>, t: int) {
    (settled.Some? <==> r.Some?) &&
    (r.Some? ==> Begun(p, r.value, t) && t in settled.value.soc && r.value.soc[t] == settled.value.soc[t])
  }

  lemma SensibleAt(p: Profiles, t: int)
    requires Sensible(p)
    ensures p.slotMinutes > 0 && p.cop(t) > 0.0 && p.heatDemandJ(t) >= 0.0
  {
  }

  // Forgetting the slots before the last one does not touch the settlement, and the cycle leaves a
  // slot that begins.
  lemma CycleBegins(p: Profiles, s: Tank, mode: Mode, t: int)
    requires p.slotMinutes > 0 && p.known(t) && Get(s.cop, t) != 0.0
    requires p.cop(t + p.slotMinutes) > 0.0 && p.heatDemandJ(t + p.slotMinutes) >= 0.0
    requires LastSlot(p, t + p.slotMinutes) == t
    ensures Continues(p, ChargedOrDischarged(s, mode, p, t + p.slotMinutes), Cycled(s, mode, p, t + p.slotMinutes),
                      t + p.slotMinutes)
  {
    hide ElectricityDemand, ChargedOrDischarged, Begun, WithDemands;
    var next := t + p.slotMinutes;
    SettlementDependsOn(s, Rotated(s, p, next), mode, p, next);
    var settled := ChargedOrDischarged(Rotated(s, p, next), mode, p, next);
    if settled.Some? {
      DemandsBegin(p, settled.value.(bought := 0.0), next);
    }
  }

  lemma DemandsBegin(p: Profiles, s: Tank, t: int)
    requires s.bought == 0.0 && t in s.soc && p.cop(t) > 0.0 && p.heatDemandJ(t) >= 0.0
    ensures var r := WithDemands(s, p, t); Begun(p, r, t) && r.soc == s.soc
  {
    hide ElectricityDemand, ChargeEnergy, DischargeEnergy, BuyMaximum, BuyMinimum;
    SameDemand(s.(cop := s.cop[t := p.cop(t)], heatDemandKJ := s.heatDemandKJ[t := p.heatDemandJ(t) / 1000.0]),
               WithDemands(s, p, t), t);
  }

  // Two settlements agree on whether they fail and on the state of charge.
  predicate SameSettlement(r: Option<Tank>, r': Option<Tank>, t: int) {
    (r.Some? <==> r'.Some?) &&
    (r.Some? ==> t in r.value.soc && t in r'.value.soc && r.value.soc[t] == r'.value.soc[t])
  }

  lemma SettlementDependsOn(s: Tank, s': Tank, mode: Mode, p: Profiles, t: int)
    requires var last := LastSlot(p, t);
             && Get(s.cop, last) == Get(s'.cop, last) != 0.0 && Get(s.heatDemandKJ, last) == Get(s'.heatDemandKJ, last)
             && Get(s.soc, last) == Get(s'.soc, last) && s.bought == s'.bought
    ensures SameSettlement(ChargedOrDischarged(s, mode, p, t), ChargedOrDischarged(s', mode, p, t), t)
  {
    hide ElectricityDemand, Charged, Discharged, IsClose, SameSettlement;
    SameDemand(s, s', LastSlot(p, t));
    StepDependsOn(s, s', p, t, s.bought - ElectricityDemand(s, LastSlot(p, t)));
    IdleDependsOn(s, s', p, t);
  }

  lemma IdleDependsOn(s: Tank, s': Tank, p: Profiles, t: int)
    requires Get(s.soc, LastSlot(p, t)) == Get(s'.soc, LastSlot(p, t))
    ensures SameSettlement(Some(s.(soc := s.soc[t := Get(s.soc, LastSlot(p, t))])),
                           Some(s'.(soc := s'.soc[t := Get(s'.soc, LastSlot(p, t))])), t)
    ensures SameSettlement(None, None, t)
  {
  }

  lemma StepDependsOn(s: Tank, s': Tank, p: Profiles, t: int, net: real)
    requires Get(s.soc, LastSlot(p, t)) == Get(s'.soc, LastSlot(p, t))
    ensures SameSettlement(Charged(s, p, t, net), Charged(s', p, t, net), t)
    ensures SameSettlement(Discharged(s, p, t, net), Discharged(s', p, t, net), t)
  {
    hide ChargeEnergy, DischargeEnergy, CondenserEnergy, EvaporatorEnergy, WithSoc;
    SocOnlyFromSoc(s, s', p, t, ChargeEnergy(p, LastSlot(p, t)));
    SocOnlyFromSoc(s, s', p, t, -DischargeEnergy(p, LastSlot(p, t)));
  }

  lemma SocOnlyFromSoc(s: Tank, s': Tank, p: Profiles, t: int, heat: real)
    requires Get(s.soc, LastSlot(p, t)) == Get(s'.soc, LastSlot(p, t))
    ensures var r, r' := WithSoc(s, p, t, heat), WithSoc(s', p, t, heat);
            t in r.soc && t in r'.soc && r.soc[t] == r'.soc[t]
  {
    hide SocAfter;
  }

  // ----- whole runs -----

  datatype Position = Position(tank: Tank, switch: Switch, slot: int)

  function EndOf(p: Profiles, at: Position, moves: seq<Move>): Slot {
    SlotEnd(p, at.tank, at.switch, at.slot, moves)
  }

  // Where the cycle after the slot leads to, if it goes through.
  function NextPosition(p: Profiles, at: Position, moves: seq<Move>): Option<Position> {
    var end := EndOf(p, at, moves);
    if Get(end.tank.cop, at.slot) == 0.0 || p.cop(at.slot + p.slotMinutes) == 0.0 then None
    else match NextTank(p, at.tank, at.switch, at.slot, moves)
      case None => None
      case Some(tank) => Some(Position(tank, end.switch, at.slot + p.slotMinutes))
  }

  predicate GoesOn(p: Profiles, at: Position, moves: seq<Move>) {
    NextPosition(p, at, moves).Some?
  }

  function Next(p: Profiles, at: Position, moves: seq<Move>): Position
    requires GoesOn(p, at, moves)
  {
    NextPosition(p, at, moves).value
  }

  // Something about every slot a run gets to.
  ghost predicate EverySlot(p: Profiles, at: Position, slots: seq<seq<Move>>, ok: (Position, seq<Move>) -> bool)
    decreases |slots|
  {
    slots == [] ||
    (ok(at, slots[0]) && (GoesOn(p, at, slots[0]) ==> EverySlot(p, Next(p, at, slots[0]), slots[1..], ok)))
  }

  predicate PossibleAt(p: Profiles, at: Position, moves: seq<Move>) {
    Possible(p, SlotStart(p, at.tank, at.switch, at.slot), at.slot, moves)
  }

  // Nothing of the slot's bid is left open.
  predicate FilledAt(p: Profiles, at: Position, moves: seq<Move>) {
    EndOf(p, at, moves).open == 0.0
  }

  predicate ServedAt(p: Profiles, at: Position, moves: seq<Move>) {
    Get(at.tank.cop, at.slot) != 0.0 &&
    Serves(EndOf(p, at, moves).switch.mode, TargetOf(p, at.tank, at.switch, at.slot),
           ElectricityDemand(at.tank, at.slot), Planned(p, at.tank, at.switch, at.slot),
           EndOf(p, at, moves).tank.bought)
  }

  predicate CoveredAt(p: Profiles, at: Position, moves: seq<Move>) {
    Get(at.tank.cop, at.slot) != 0.0 &&
    CoversCharge(TargetOf(p, at.tank, at.switch, at.slot), ElectricityDemand(at.tank, at.slot),
                 Planned(p, at.tank, at.switch, at.slot), EndOf(p, at, moves).tank.bought)
  }

  ghost predicate PossibleRun(p: Profiles, at: Position, slots: seq<seq<Move>>) {
    EverySlot(p, at, slots, (at: Position, moves: seq<Move>) => PossibleAt(p, at, moves))
  }

  ghost predicate FilledRun(p: Profiles, at: Position, slots: seq<seq<Move>>) {
    EverySlot(p, at, slots, (at: Position, moves: seq<Move>) => FilledAt(p, at, moves))
  }

  ghost predicate ServedRun(p: Profiles, at: Position, slots: seq<seq<Move>>) {
    EverySlot(p, at, slots, (at: Position, moves: seq<Move>) => ServedAt(p, at, moves))
  }

  ghost predicate CoveredRun(p: Profiles, at: Position, slots: seq<seq<Move>>) {
    EverySlot(p, at, slots, (at: Position, moves: seq<Move>) => CoveredAt(p, at, moves))
  }

  // No settlement fails.
  predicate GoesThrough(p: Profiles, at: Position, slots: seq<seq<Move>>)
    decreases |slots|
  {
    slots == [] || (GoesOn(p, at, slots[0]) && GoesThrough(p, Next(p, at, slots[0]), slots[1..]))
  }

  // The state of charge is within the bounds at the start of every slot the run gets to.
  ghost predicate StaysWithin(p: Profiles, at: Position, slots: seq<seq<Move>>, maxCharge: real, maxDischarge: real)
    decreases |slots|
  {
    && at.slot in at.tank.soc && SocWithin(at.tank.soc[at.slot], maxCharge, maxDischarge)
    && (slots != [] && GoesOn(p, at, slots[0]) ==>
          StaysWithin(p, Next(p, at, slots[0]), slots[1..], maxCharge, maxDischarge))
  }

  // A position a run can be in.
  ghost predicate Ready(p: Profiles, at: Position) {
    Sensible(p) && Begun(p, at.tank, at.slot) && forall t :: t >= at.slot ==> p.known(t)
  }

  // One slot of a run: it goes on exactly if the purchase served it.
  lemma SlotOfRun(p: Profiles, at: Position, moves: seq<Move>)
    requires Ready(p, at) && PossibleAt(p, at, moves)
    ensures GoesOn(p, at, moves) <==> ServedAt(p, at, moves)
    ensures GoesOn(p, at, moves) ==> Ready(p, Next(p, at, moves))
    ensures FilledAt(p, at, moves) ==> (ServedAt(p, at, moves) <==> CoveredAt(p, at, moves))
  {
    hide Decided, ElectricityDemand, AfterMoves, SlotEnd, Planned, TargetOf, Possible, HeatMoved, Cycled, Percent,
         SlotStart, Serves, CoversCharge, NextTank, PlannedFor, ChargeEnergy, DischargeEnergy;
    SensibleIsCovered(p, at.slot);
    SensibleAt(p, at.slot + p.slotMinutes);
    SlotLeadsToNextIff(p, at.tank, at.switch, at.slot, moves);
    SlotIsPlanned(p, at.tank, at.switch, at.slot, moves);
    if FilledAt(p, at, moves) {
      FilledServesIff(at.tank.soc[at.slot], ElectricityDemand(at.tank, at.slot), ChargeEnergy(p, at.slot),
                      DischargeEnergy(p, at.slot), EndOf(p, at, moves).switch.mode,
                      TargetOf(p, at.tank, at.switch, at.slot), Planned(p, at.tank, at.switch, at.slot),
                      EndOf(p, at, moves).tank.bought);
    }
  }

  lemma FilledSlotStaysWithin(p: Profiles, at: Position, moves: seq<Move>, maxCharge: real, maxDischarge: real)
    requires Ready(p, at) && Bounded(p, maxCharge, maxDischarge)
    requires SocWithin(at.tank.soc[at.slot], maxCharge, maxDischarge)
    requires PossibleAt(p, at, moves) && FilledAt(p, at, moves) && GoesOn(p, at, moves)
    ensures var next := Next(p, at, moves);
            Begun(p, next.tank, next.slot) && SocWithin(next.tank.soc[next.slot], maxCharge, maxDischarge)
  {
    hide Decided, ElectricityDemand, AfterMoves, SlotEnd, Planned, TargetOf, Possible, HeatMoved, Percent, SlotStart,
         Serves, NextTank, SocWithin, ChargeEnergy, DischargeEnergy, Bounded;
    SensibleIsCovered(p, at.slot);
    SensibleAt(p, at.slot + p.slotMinutes);
    SlotLeadsToNextIff(p, at.tank, at.switch, at.slot, moves);
    SlotStaysWithin(p, at.tank, at.switch, at.slot, moves, maxCharge, maxDischarge);
  }

  // Whatever is bought in its slots, a run goes through exactly if every slot is served.
  lemma {:induction false} RunGoesThroughIff(p: Profiles, at: Position, slots: seq<seq<Move>>)
    requires Ready(p, at) && PossibleRun(p, at, slots)
    ensures GoesThrough(p, at, slots) <==> ServedRun(p, at, slots)
    ensures FilledRun(p, at, slots) ==> (ServedRun(p, at, slots) <==> CoveredRun(p, at, slots))
    decreases |slots|
  {
    hide GoesOn, PossibleAt, ServedAt, FilledAt, CoveredAt, Ready, Next;
    if slots != [] {
      SlotOfRun(p, at, slots[0]);
      if GoesOn(p, at, slots[0]) {
        RunGoesThroughIff(p, Next(p, at, slots[0]), slots[1..]);
      }
    }
  }

  lemma {:induction false} FilledRunStaysWithin(p: Profiles, at: Position, slots: seq<seq<Move>>, maxCharge: real,
                                                maxDischarge: real)
    requires Ready(p, at) && Bounded(p, maxCharge, maxDischarge)
    requires SocWithin(at.tank.soc[at.slot], maxCharge, maxDischarge)
    requires PossibleRun(p, at, slots) && FilledRun(p, at, slots)
    ensures StaysWithin(p, at, slots, maxCharge, maxDischarge)
    decreases |slots|
  {
    hide GoesOn, PossibleAt, FilledAt, SocWithin, Bounded, Next;
    if slots != [] && GoesOn(p, at, slots[0]) {
      SlotOfRun(p, at, slots[0]);
      FilledSlotStaysWithin(p, at, slots[0], maxCharge, maxDischarge);
      FilledRunStaysWithin(p, Next(p, at, slots[0]), slots[1..], maxCharge, maxDischarge);
    }
  }

  // A strategy that has just been activated.
  function FirstTank(p: Profiles, startDate: int): Option<Tank>
    requires p.cop(startDate) != 0.0 && !p.known(LastSlot(p, startDate))
  {
    Cycled(Activated(startDate), MaintainSoc, p, startDate)
  }

  lemma ActivationBegins(p: Profiles, startDate: int)
    requires p.slotMinutes > 0 && p.cop(startDate) > 0.0 && p.heatDemandJ(startDate) >= 0.0
    requires forall t :: p.known(t) <==> t >= startDate
    ensures var first := FirstTank(p, startDate);
            first.Some? && Begun(p, first.value, startDate) && first.value.soc[startDate] == MIN_SOC
  {
    hide ElectricityDemand, WithDemands, Begun;
    var s := Rotated(Activated(startDate), p, startDate);
    assert startDate in s.soc && s.soc[startDate] == MIN_SOC;
    DemandsBegin(p, s, startDate);
  }

  // From activation on, in a temperature range the maps cover: whatever part of its bids is filled, a
  // run goes through without a failing assertion if and only if every slot's purchase serves it. If no
  // bid is left open at the end of its slot, that is so if and only if every charging slot is covered,
  // and the state of charge never leaves its limits by more than one charging or discharging step.
  lemma TankIsSafeInEveryRun(p: Profiles, startDate: int, slots: seq<seq<Move>>, maxCharge: real, maxDischarge: real)
    requires Sensible(p) && Bounded(p, maxCharge, maxDischarge)
    requires forall t :: p.known(t) <==> t >= startDate
    ensures var first := FirstTank(p, startDate);
            && first.Some?
            && var at := Position(first.value, Switch(MaintainSoc, None), startDate);
            && (PossibleRun(p, at, slots) ==> (GoesThrough(p, at, slots) <==> ServedRun(p, at, slots)))
            && (PossibleRun(p, at, slots) && FilledRun(p, at, slots) ==>
                  && (GoesThrough(p, at, slots) <==> CoveredRun(p, at, slots))
                  && StaysWithin(p, at, slots, maxCharge, maxDischarge))
  {
    hide Begun, PossibleRun, FilledRun, ServedRun, CoveredRun, GoesThrough, StaysWithin, FirstTank;
    SensibleAt(p, startDate);
    ActivationBegins(p, startDate);
    SensibleIsCovered(p, startDate);
    var at := Position(FirstTank(p, startDate).value, Switch(MaintainSoc, None), startDate);
    BoundsAreSteps(p, startDate, maxCharge, maxDischarge);
    if PossibleRun(p, at, slots) {
      RunGoesThroughIff(p, at, slots);
      if FilledRun(p, at, slots) {
        FilledRunStaysWithin(p, at, slots, maxCharge, maxDischarge);
      }
    }
  }

  lemma BoundsAreSteps(p: Profiles, t: int, maxCharge: real, maxDischarge: real)
    requires MapsCover(p, t) && Bounded(p, maxCharge, maxDischarge)
    ensures SocWithin(MIN_SOC, maxCharge, maxDischarge)
  {
    hide ChargeEnergy, DischargeEnergy;
  }

  // ----- assertions fail -----

  // Nothing is left open, and yet the settlement fails: in every slot that charges, if a trade leaves
  // exactly TOL of the bid, which is too little to stay open.
  lemma ShortOfToleranceFails(p: Profiles, at: Position)
    requires Ready(p, at) && TargetOf(p, at.tank, at.switch, at.slot) == Charge
    requires ChargeEnergy(p, at.slot) > 3.0 * TOL
    ensures var planned := Planned(p, at.tank, at.switch, at.slot);
            var moves := [Fills(planned - TOL), Updates];
            && PossibleAt(p, at, moves) && FilledAt(p, at, moves)
            && planned - EndOf(p, at, moves).tank.bought == TOL
            && !GoesOn(p, at, moves)
  {
    hide Decided, ElectricityDemand, AfterMoves, EndOf, SlotEnd, Planned, TargetOf, Possible, SlotStart, ChargeEnergy,
         DischargeEnergy, GoesOn, Begun, Sensible, MapsCover, PlannedFor;
    var moves := [Fills(Planned(p, at.tank, at.switch, at.slot) - TOL), Updates];
    ChargingPlan(p, at);
    BidIsLeftBehind(p, at);
    SensibleIsCovered(p, at.slot);
    SlotIsPlanned(p, at.tank, at.switch, at.slot, moves);
    EndIsSlotEnd(p, at, moves);
    SlotOfRun(p, at, moves);
  }

  lemma EndIsSlotEnd(p: Profiles, at: Position, moves: seq<Move>)
    ensures EndOf(p, at, moves) == SlotEnd(p, at.tank, at.switch, at.slot, moves)
  {
  }

  lemma BidIsLeftBehind(p: Profiles, at: Position)
    requires at.tank.bought == 0.0 && Planned(p, at.tank, at.switch, at.slot) > 3.0 * TOL
    ensures var planned := Planned(p, at.tank, at.switch, at.slot);
            var moves := [Fills(planned - TOL), Updates];
            PossibleAt(p, at, moves) && EndOf(p, at, moves).tank.bought == planned - TOL
  {
    hide Decided;
    var t, planned := at.slot, Planned(p, at.tank, at.switch, at.slot);
    var start := SlotStart(p, at.tank, at.switch, t);
    var moves := [Fills(planned - TOL), Updates];
    assert moves[1..] == [Updates] && [Updates][1..] == [];
    var filled := Moved(p, start, t, moves[0]);
    assert AfterMoves(p, filled, t, [Updates]) == Moved(p, filled, t, Updates);
    assert Possible(p, Moved(p, filled, t, Updates), t, []) && Possible(p, filled, t, [Updates]);
  }

  lemma ChargingPlan(p: Profiles, at: Position)
    requires Ready(p, at) && TargetOf(p, at.tank, at.switch, at.slot) == Charge
    requires ChargeEnergy(p, at.slot) > 3.0 * TOL
    ensures Planned(p, at.tank, at.switch, at.slot) > ElectricityDemand(at.tank, at.slot) + 3.0 * TOL
    ensures ElectricityDemand(at.tank, at.slot) >= 0.0 && at.tank.bought == 0.0
  {
    hide ElectricityDemand, ChargeEnergy, DischargeEnergy;
    DemandSign(at.tank, at.slot);
    assert FreeStorage(at.tank.soc[at.slot], ChargeEnergy(p, at.slot)) == ChargeEnergy(p, at.slot);
  }

  // One trade of the whole bid.
  lemma WholeBidIsFilled(p: Profiles, at: Position)
    requires at.tank.bought == 0.0 && Planned(p, at.tank, at.switch, at.slot) > TOL
    ensures var planned := Planned(p, at.tank, at.switch, at.slot);
            var moves := [Fills(planned)];
            && PossibleAt(p, at, moves) && FilledAt(p, at, moves) && EndOf(p, at, moves).tank.bought == planned
            && var end := EndOf(p, at, moves);
            && end.switch == Decided(at.switch, p.affordable(at.slot), Get(at.tank.soc, at.slot), at.slot).0
            && end.tank.cop == at.tank.cop && end.tank.soc == at.tank.soc
            && end.tank.heatDemandKJ == at.tank.heatDemandKJ
  {
    hide Decided;
    var t, planned := at.slot, Planned(p, at.tank, at.switch, at.slot);
    var start := SlotStart(p, at.tank, at.switch, t);
    var moves := [Fills(planned)];
    assert moves[1..] == [];
    assert AfterMoves(p, Moved(p, start, t, moves[0]), t, []) == Moved(p, start, t, moves[0]);
    assert Possible(p, Moved(p, start, t, moves[0]), t, []);
  }

  // An hour at 20 degrees in which the tank charges, and one at -25 degrees in which it discharges; 10 kWh of
  // demand in each.
  function ColdSnap(): Profiles {
    Profiles(t => 36000000.0, t => if t < 60 then 20.0 else -25.0, t => 1.0, t => t < 60, t => t >= 0, 60)
  }

  lemma ColdSnapEnergies()
    ensures ChargeEnergy(ColdSnap(), 0) == 2.6 && DischargeEnergy(ColdSnap(), 0) == 4.0
    ensures DischargeEnergy(ColdSnap(), 60) == -0.5
  {
    ColdSnapPowers();
    hide Power;
  }

  lemma ColdSnapPowers()
    ensures ChargingPower(25.0) == 2.6 && DischargingPower(15.0) == 4.0 && DischargingPower(-30.0) == -0.5
  {
    var c, d := CHARGING_MAP, DISCHARGING_MAP;
    hide Power, Rising, OnLine;
    PowerAtNext(c, 25.0);
    PowerAtNext(c[1..], 25.0);
    PowerAtNext(c[1..][1..], 25.0);
    PowerAtSecond(c[1..][1..][1..]);
    PowerAtNext(d, 15.0);
    PowerAtSecond(d[1..]);
    PowerBelow(-30.0);
  }

  lemma PowerAtNext(table: seq<(real, real)>, x: real)
    requires |table| > 2 && Rising(table) && x > table[1].0
    ensures Rising(table[1..]) && Power(table, x) == Power(table[1..], x)
  {
  }

  lemma PowerAtSecond(table: seq<(real, real)>)
    requires Rising(table)
    ensures Power(table, table[1].0) == table[1].1
  {
    var slope := Slope(table[0], table[1]);
    assert slope * (table[1].0 - table[0].0) == table[1].1 - table[0].1;
  }

  lemma PowerBelow(x: real)
    requires x <= 10.0
    ensures DischargingPower(x) == 2.5 + 0.1 * x
  {
    assert Power(DISCHARGING_MAP, x) == OnLine((5.0, 3.0), (10.0, 3.5), x) == 2.5 + 0.1 * x;
  }

  // The first hour charges by 2.6 kWh, and its bid is filled.
  lemma WarmHour(at: Position)
    requires Begun(ColdSnap(), at.tank, 0) && at.tank.soc[0] == MIN_SOC
    requires at.switch == Switch(MaintainSoc, None) && at.slot == 0
    ensures var moves := [Fills(Planned(ColdSnap(), at.tank, at.switch, 0))];
            && PossibleAt(ColdSnap(), at, moves) && FilledAt(ColdSnap(), at, moves) && GoesOn(ColdSnap(), at, moves)
            && var next := Next(ColdSnap(), at, moves);
            && Begun(ColdSnap(), next.tank, 60) && next.tank.soc[60] == 20.4
            && next.switch == Switch(Charge, Some(0)) && next.slot == 60
  {
    var p := ColdSnap();
    ColdSnapEnergies();
    assert ElectricityDemand(at.tank, 0) == 10.0;
    hide ChargeEnergy, DischargeEnergy, SlotEnd, AfterMoves, NextTank, Possible, SlotStart, ElectricityDemand;
    assert FreeStorage(MIN_SOC, 2.6) == 2.6;
    assert TargetOf(p, at.tank, at.switch, 0) == Charge;
    WholeBidIsFilled(p, at);
    var moves := [Fills(Planned(p, at.tank, at.switch, 0))];
    SlotLeadsToNextIff(p, at.tank, at.switch, 0, moves);
  }

  // The second one discharges with a negative power, so filling its bid exactly buys more than the demand.
  lemma ColdHour(at: Position)
    requires Begun(ColdSnap(), at.tank, 60) && at.tank.soc[60] == 20.4
    requires at.switch == Switch(Charge, Some(0)) && at.slot == 60
    ensures var moves := [Fills(Planned(ColdSnap(), at.tank, at.switch, 60))];
            && PossibleAt(ColdSnap(), at, moves) && FilledAt(ColdSnap(), at, moves)
            && EndOf(ColdSnap(), at, moves).tank.bought == Planned(ColdSnap(), at.tank, at.switch, 60)
            && !GoesOn(ColdSnap(), at, moves)
  {
    var p := ColdSnap();
    ColdSnapEnergies();
    assert ElectricityDemand(at.tank, 60) == 10.0;
    hide ChargeEnergy, DischargeEnergy, SlotEnd, AfterMoves, Possible, SlotStart, ElectricityDemand, Cycled,
         ChargedOrDischarged;
    assert StoredHeat(20.4, -0.5) == -0.5;
    assert TargetOf(p, at.tank, at.switch, 60) == Discharge;
    var planned := Planned(p, at.tank, at.switch, 60);
    assert planned - 10.0 > TOL;
    WholeBidIsFilled(p, at);
    var end := EndOf(p, at, [Fills(planned)]);
    SameDemand(at.tank, end.tank, 60);
    SettledHeat(end.tank, end.switch.mode, p, 60, 10.0);
    CycleBegins(p, end.tank, end.switch.mode, 60);
  }

  // From activation on, ...
  function ColdStart(): Position {
    Position(FirstTank(ColdSnap(), 0).value, Switch(MaintainSoc, None), 0)
  }

  lemma ColdStartBegins()
    ensures FirstTank(ColdSnap(), 0).Some?
    ensures Begun(ColdSnap(), ColdStart().tank, 0) && ColdStart().tank.soc[0] == MIN_SOC
    ensures ColdStart().switch == Switch(MaintainSoc, None) && ColdStart().slot == 0
  {
    hide Begun, FirstTank;
    ActivationBegins(ColdSnap(), 0);
  }

  // ... and with every bid filled exactly, an assertion fails at the end of the cold hour.
  lemma ColdSnapFails() returns (slots: seq<seq<Move>>)
    ensures FirstTank(ColdSnap(), 0).Some?
    ensures PossibleRun(ColdSnap(), ColdStart(), slots) && FilledRun(ColdSnap(), ColdStart(), slots)
    ensures !GoesThrough(ColdSnap(), ColdStart(), slots)
  {
    hide ColdSnap, ColdStart, FirstTank, Begun, GoesOn, Next, PossibleAt, FilledAt, Planned, PossibleRun, FilledRun,
         GoesThrough;
    ColdStartBegins();
    WarmHour(ColdStart());
    var warm := [Fills(Planned(ColdSnap(), ColdStart().tank, ColdStart().switch, 0))];
    var next := Next(ColdSnap(), ColdStart(), warm);
    ColdHour(next);
    var cold := [Fills(Planned(ColdSnap(), next.tank, next.switch, 60))];
    slots := [warm, cold];
    EndsInSecondSlot(ColdSnap(), ColdStart(), warm, cold);
  }

  lemma EndsInSecondSlot(p: Profiles, at: Position, first: seq<Move>, second: seq<Move>)
    requires PossibleAt(p, at, first) && FilledAt(p, at, first) && GoesOn(p, at, first)
    requires var next := Next(p, at, first);
             PossibleAt(p, next, second) && FilledAt(p, next, second) && !GoesOn(p, next, second)
    ensures var slots := [first, second];
            PossibleRun(p, at, slots) && FilledRun(p, at, slots) && !GoesThrough(p, at, slots)
  {
    hide GoesOn, Next, PossibleAt, FilledAt;
    var next := Next(p, at, first);
    assert [first, second][1..] == [second];
    assert PossibleRun(p, next, [second]) && FilledRun(p, next, [second]) && !GoesThrough(p, next, [second]);
  }
}
