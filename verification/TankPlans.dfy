/** The tank in figures: what a slot demands and what is bought in it, from the heat demand, the COP and the
    performance maps; what a settlement records; which mode is decided on. */
module TankPlans {
  import opened Numeric
  import opened SorTes
  import opened SorTesRuns

  // ----- performance maps -----

  // Between two entries, and beyond the outer ones, the power lies on the line through the two.
  ghost predicate OnLineThrough(a: (real, real), b: (real, real), x: real, y: real) {
    (y - a.1) * (b.0 - a.0) == (b.1 - a.1) * (x - a.0)
  }

  lemma LineIsThrough(a: (real, real), b: (real, real), x: real)
    requires a.0 < b.0
    ensures OnLineThrough(a, b, x, OnLine(a, b, x))
  {
    var slope, dx, dy := Slope(a, b), b.0 - a.0, x - a.0;
    assert slope * dx == b.1 - a.1;
    Regrouped(slope, dy, dx);
  }

  lemma Regrouped(x: real, y: real, z: real)
    ensures (x * y) * z == (x * z) * y
  {
  }

  lemma {:induction false} PowerLiesOnLine(table: seq<(real, real)>, i: nat, x: real)
    requires Rising(table) && i < |table| - 1
    requires i > 0 ==> x > table[i].0
    requires i < |table| - 2 ==> x <= table[i + 1].0
    ensures OnLineThrough(table[i], table[i + 1], x, Power(table, x))
  {
    hide OnLineThrough, OnLine;
    if i == 0 {
      LineIsThrough(table[0], table[1], x);
    } else {
      EntriesRise(table, 1, i);
      PowerLiesOnLine(table[1..], i - 1, x);
    }
  }

  lemma {:induction false} EntriesRise(table: seq<(real, real)>, i: nat, j: nat)
    requires Rising(table) && i <= j < |table|
    ensures table[i].0 <= table[j].0
    decreases j
  {
    if i < j {
      EntriesRise(table, i, j - 1);
    }
  }

  // Charging is 5 degrees above the outside temperature, discharging 5 below; energies are over a slot.
  lemma EnergiesOfSlot(p: Profiles, t: int)
    ensures ChargeEnergy(p, t) * 60.0 == ChargingPower(p.ambientC(t) + 5.0) * p.slotMinutes as real
    ensures DischargeEnergy(p, t) * 60.0 == DischargingPower(p.ambientC(t) - 5.0) * p.slotMinutes as real
  {
    hide ChargingPower, DischargingPower;
    var hours := p.slotMinutes as real / 60.0;
    assert hours * 60.0 == p.slotMinutes as real;
    Regrouped(ChargingPower(p.ambientC(t) + 5.0), hours, 60.0);
    Regrouped(DischargingPower(p.ambientC(t) - 5.0), hours, 60.0);
  }

  // ----- what a slot demands -----

  // The electricity for the slot's heat; the most that is bought adds what the tank takes and the
  // condenser's share of it, the least saves what the tank gives, less the evaporator's share.
  ghost predicate DemandsOf(p: Profiles, r: Tank, t: int) {
    var demand, soc := Get(r.demand, t), Get(r.soc, t);
    var taken := if soc > 90.0 then 0.0 else ChargeEnergy(p, t);
    var given := if soc < 10.0 then 0.0 else DischargeEnergy(p, t);
    && demand * p.cop(t) * 3600000.0 == p.heatDemandJ(t)
    && (Get(r.maxDemand, t) - demand) * 42.0 == taken * 43.0
    && (if demand - given < TOL < given then Get(r.minDemand, t) == demand
        else (demand - Get(r.minDemand, t)) * 6.0 == given)
  }

  lemma DemandOfHeat(s: Tank, t: int)
    requires Get(s.cop, t) != 0.0
    ensures ElectricityDemand(s, t) * Get(s.cop, t) * 3600.0 == Get(s.heatDemandKJ, t)
  {
    var perHour := Get(s.heatDemandKJ, t) / 3600.0;
    assert perHour / Get(s.cop, t) * Get(s.cop, t) == perHour;
  }

  lemma DemandsAreSet(s: Tank, p: Profiles, t: int)
    requires p.cop(t) != 0.0
    ensures DemandsOf(p, WithDemands(s, p, t), t)
  {
    hide ElectricityDemand, ChargeEnergy, DischargeEnergy, BuyMinimum, BuyMaximum;
    var s1 := s.(cop := s.cop[t := p.cop(t)], heatDemandKJ := s.heatDemandKJ[t := p.heatDemandJ(t) / 1000.0]);
    DemandOfHeat(s1, t);
    var d := ElectricityDemand(s1, t);
    InJoules(d * p.cop(t), p.heatDemandJ(t));
    MostBought(d, Get(s.soc, t), ChargeEnergy(p, t));
    LeastBought(d, Get(s.soc, t), DischargeEnergy(p, t));
  }

  lemma InJoules(heat: real, joules: real)
    requires heat * 3600.0 == joules / 1000.0
    ensures heat * 3600000.0 == joules
  {
  }

  lemma MostBought(demand: real, soc: real, charge: real)
    ensures (BuyMaximum(demand, soc, charge) - demand) * 42.0 == (if soc > 90.0 then 0.0 else charge) * 43.0
  {
  }

  lemma LeastBought(demand: real, soc: real, discharge: real)
    ensures var given := if soc < 10.0 then 0.0 else discharge;
            if demand - given < TOL < given then BuyMinimum(demand, soc, discharge) == demand
            else (demand - BuyMinimum(demand, soc, discharge)) * 6.0 == given
  {
  }

  // After every cycle that goes through, the demands of the new slot are those of its heat, its COP and
  // the tank.
  lemma DemandsAfterCycle(s: Tank, mode: Mode, p: Profiles, t: int)
    requires p.known(LastSlot(p, t)) ==> Get(s.cop, LastSlot(p, t)) != 0.0
    requires p.cop(t) != 0.0 && Cycled(s, mode, p, t).Some?
    ensures DemandsOf(p, Cycled(s, mode, p, t).value, t)
  {
    hide WithDemands, Settled, DemandsOf;
    DemandsAreSet(Settled(Rotated(s, p, t), mode, p, t).value, p, t);
  }

  // ----- what is bought in it -----

  // The mode by the state of charge and the rates; a switch to charging or discharging is held for an
  // hour, in which a limit that is reached only stops it from buying for that mode.
  ghost predicate ModeFor(w: Switch, affordable: bool, soc: real, t: int, target: Mode) {
    var held := w.mode != MaintainSoc && w.lastSwitch.Some? && t < w.lastSwitch.value + 60;
    && (target == Charge <==> soc < 90.0 && if held then w.mode == Charge else affordable)
    && (target == Discharge <==> soc > 10.0 && if held then w.mode == Discharge else !affordable)
  }

  lemma DecisionIs(w: Switch, affordable: bool, soc: real, t: int)
    ensures var (w', target) := Decided(w, affordable, soc, t);
            var held := w.mode != MaintainSoc && w.lastSwitch.Some? && t < w.lastSwitch.value + 60;
            && ModeFor(w, affordable, soc, t, target)
            && (held ==> w' == w) && (!held ==> w'.mode == target)
            && (!held ==> w'.lastSwitch == if target != w.mode || w.lastSwitch.None? then Some(t) else w.lastSwitch)
  {
  }

  // A bid for so much, if it is more than TOL.
  ghost predicate BidFor(open: real, planned: real) {
    open == if planned > TOL then planned else 0.0
  }

  // The bid a slot starts with: the demand, and with it the charge and the condenser's share when the
  // tank charges, or less what discharging saves when it discharges.
  lemma FirstBidOfSlot(p: Profiles, tank: Tank, switch: Switch, t: int)
    requires DemandsOf(p, tank, t)
    ensures var (start, target) := (SlotStart(p, tank, switch, t), TargetOf(p, tank, switch, t));
            var demand, given := Get(tank.demand, t), DischargeEnergy(p, t);
            && ModeFor(switch, p.affordable(t), Get(tank.soc, t), t, target)
            && (target == MaintainSoc ==> BidFor(start.open, demand))
            && (target == Charge ==> BidFor(start.open, demand + ChargeEnergy(p, t) * 43.0 / 42.0))
            && (target == Discharge ==>
                  BidFor(start.open, if demand - given < TOL < given then demand else demand - given / 6.0))
  {
    DecisionIs(switch, p.affordable(t), Get(tank.soc, t), t);
    hide Decided, ChargeEnergy, DischargeEnergy;
  }

  // ----- what a settlement records -----

  // The electricity a slot's heat took.
  ghost predicate TookForHeat(s: Tank, t: int, demand: real) {
    demand * Get(s.cop, t) * 3600.0 == Get(s.heatDemandKJ, t)
  }

  ghost predicate Recorded(s: Tank, r: Tank, t: int, last: int, heat: real, share: real) {
    && t in r.soc && (r.soc[t] - Get(s.soc, last)) * 25.0 == heat * 100.0
    && r.disCharging == s.disCharging[t := heat] && r.auxiliary == s.auxiliary[t := share]
  }

  ghost predicate SettledBy(s: Tank, r: Tank, mode: Mode, p: Profiles, t: int, demand: real) {
    var last, idle := t - p.slotMinutes, Abs(s.bought - demand) <= TOL;
    && r.bought == 0.0 && r.totalTraded == s.totalTraded
    && (idle ==> t in r.soc && r.soc[t] == Get(s.soc, last) &&
                 r.disCharging == s.disCharging && r.auxiliary == s.auxiliary)
    && (!idle ==> mode != MaintainSoc)
    && (!idle && mode == Charge ==>
          var charge := ChargeEnergy(p, last);
          Recorded(s, r, t, last, charge, charge / 42.0) && Abs(charge * 43.0 / 42.0 - (s.bought - demand)) < TOL)
    && (!idle && mode == Discharge ==>
          var discharge := DischargeEnergy(p, last);
          Recorded(s, r, t, last, -discharge, discharge / 1.2) && s.bought - demand < TOL)
  }

  lemma ChargedIs(s: Tank, p: Profiles, t: int, net: real)
    requires Charged(s, p, t, net).Some?
    ensures var r, charge := Charged(s, p, t, net).value, ChargeEnergy(p, LastSlot(p, t));
            && Recorded(s, r, t, LastSlot(p, t), charge, charge / 42.0) && Abs(charge * 43.0 / 42.0 - net) < TOL
            && r.totalTraded == s.totalTraded && r.bought == s.bought
  {
    hide ChargeEnergy;
  }

  lemma DischargedIs(s: Tank, p: Profiles, t: int, net: real)
    requires Discharged(s, p, t, net).Some?
    ensures var r, discharge := Discharged(s, p, t, net).value, DischargeEnergy(p, LastSlot(p, t));
            && Recorded(s, r, t, LastSlot(p, t), -discharge, discharge / 1.2) && net < TOL
            && r.totalTraded == s.totalTraded && r.bought == s.bought
  {
    hide DischargeEnergy;
  }

  lemma SettledIs(s: Tank, mode: Mode, p: Profiles, t: int)
    requires p.known(LastSlot(p, t)) && Get(s.cop, LastSlot(p, t)) != 0.0 && Settled(s, mode, p, t).Some?
    ensures SettledBy(s, Settled(s, mode, p, t).value, mode, p, t, ElectricityDemand(s, LastSlot(p, t)))
  {
    hide ElectricityDemand, ChargeEnergy, DischargeEnergy, Charged, Discharged;
    var net := s.bought - ElectricityDemand(s, LastSlot(p, t));
    assert IsClose(net, 0.0, TOL) <==> Abs(net) <= TOL;
    if Charged(s, p, t, net).Some? {
      ChargedIs(s, p, t, net);
    }
    if Discharged(s, p, t, net).Some? {
      DischargedIs(s, p, t, net);
    }
  }

  // A cycle settles the last slot by what was bought beyond the demand: within TOL nothing moves, otherwise
  // the mode's energy does, and the condenser's or evaporator's share is recorded with it.
  lemma CycleSettles(s: Tank, mode: Mode, p: Profiles, t: int) returns (demand: real)
    requires p.slotMinutes > 0 && p.known(t - p.slotMinutes) && Get(s.cop, t - p.slotMinutes) != 0.0
    requires p.cop(t) != 0.0 && Cycled(s, mode, p, t).Some?
    ensures TookForHeat(s, t - p.slotMinutes, demand) && SettledBy(s, Cycled(s, mode, p, t).value, mode, p, t, demand)
  {
    var last, rotated := t - p.slotMinutes, Rotated(s, p, t);
    hide ElectricityDemand, ChargeEnergy, DischargeEnergy, BuyMinimum, BuyMaximum, Settled, SettledBy;
    demand := ElectricityDemand(rotated, last);
    DemandOfHeat(rotated, last);
    SettledIs(rotated, mode, p, t);
    var settled := Settled(rotated, mode, p, t).value;
    SettledAlike(s, rotated, settled, WithDemands(settled, p, t), mode, p, t, demand);
  }

  // Neither what the cycle forgets nor the demands it sets concern the settlement.
  lemma SettledAlike(s: Tank, s': Tank, r: Tank, r': Tank, mode: Mode, p: Profiles, t: int, demand: real)
    requires SettledBy(s', r, mode, p, t, demand)
    requires s'.bought == s.bought && s'.totalTraded == s.totalTraded && s'.disCharging == s.disCharging
    requires s'.auxiliary == s.auxiliary && Get(s'.soc, t - p.slotMinutes) == Get(s.soc, t - p.slotMinutes)
    requires r'.bought == r.bought && r'.totalTraded == r.totalTraded && r'.disCharging == r.disCharging
    requires r'.auxiliary == r.auxiliary && r'.soc == r.soc
    ensures SettledBy(s, r', mode, p, t, demand)
  {
    hide ChargeEnergy, DischargeEnergy;
  }

  // A trade counts in full as bought and as traded, and lowers what is still to be bought in each mode.
  lemma TradeCounts(s: Tank, t: int, energy: real)
    ensures var r := Traded(s, t, energy);
            && r.bought == s.bought + energy && r.totalTraded == s.totalTraded + energy
            && Get(r.demand, t) == (if Get(s.demand, t) > energy then Get(s.demand, t) - energy else 0.0)
            && Get(r.minDemand, t) == (if Get(s.minDemand, t) > energy then Get(s.minDemand, t) - energy else 0.0)
            && Get(r.maxDemand, t) == (if Get(s.maxDemand, t) > energy then Get(s.maxDemand, t) - energy else 0.0)
            && r.soc == s.soc
  {
  }
}
