/** The SorTES tank: its performance maps, the arithmetic of what to buy, the settlement of a slot
    in the tank, and the state machine that decides between charging, discharging and neither.
    Energies are in kWh, temperatures in degrees Celsius, times in minutes. */
module SorTes {
  import opened Numeric

  const MINUTES_BEFORE_SWITCH_ALLOWED := 60
  const MIN_SOC := 10.0
  const MAX_SOC := 90.0
  const CAPACITY := 25.0
  const COP_HEAT_SOURCE := 1.0
  const COP_CONDENSER := 35.0
  const COP_EVAPORATOR := 1.0
  const CONVERSION := 1.0 / 1.2
  const AMBIENT_CORRECTION := 5.0
  const DEFAULT_COP := 3.0

  // ----- performance maps -----

  // (temperature, power in kW), by rising temperature.
  const CHARGING_MAP: seq<(real, real)> := [
    (5.0, 3.8), (10.0, 3.5), (15.0, 3.3), (20.0, 3.0), (25.0, 2.6), (30.0, 2.2), (35.0, 1.8), (40.0, 1.5), (45.0, 0.5)]

  const DISCHARGING_MAP: seq<(real, real)> := [(5.0, 3.0), (10.0, 3.5), (15.0, 4.0), (20.0, 4.3), (25.0, 4.8)]

  predicate Rising(table: seq<(real, real)>) {
    |table| >= 2 && forall i :: 0 <= i < |table| - 1 ==> table[i].0 < table[i + 1].0
  }

  function Slope(a: (real, real), b: (real, real)): real
    requires a.0 < b.0
  {
    (b.1 - a.1) / (b.0 - a.0)
  }

  function Rise(slope: real, width: real): real {
    slope * width
  }

  function OnLine(a: (real, real), b: (real, real), x: real): real
    requires a.0 < b.0
  {
    a.1 + Rise(Slope(a, b), x - a.0)
  }

  // Linear between the entries, and beyond them along the nearest two.
  function Power(table: seq<(real, real)>, temperature: real): real
    requires Rising(table)
    decreases |table|
  {
    if |table| == 2 || temperature <= table[1].0 then OnLine(table[0], table[1], temperature)
    else
      assert Rising(table[1..]);
      Power(table[1..], temperature)
  }

  function ChargingPower(temperature: real): real {
    Power(CHARGING_MAP, temperature)
  }

  function DischargingPower(temperature: real): real {
    Power(DISCHARGING_MAP, temperature)
  }

  // ----- state -----

  datatype Mode = Discharge | Charge | MaintainSoc

  // What is given from outside: profiles, the COP model, whether every average rate of the coming
  // hour is below the preferred one, and the slot length.
  datatype Profiles = Profiles(
    heatDemandJ: int -> real, ambientC: int -> real, cop: int -> real, affordable: int -> bool,
    known: int -> bool, slotMinutes: int)

  datatype Tank = Tank(
    soc: map<int, real>, cop: map<int, real>, heatDemandKJ: map<int, real>,
    demand: map<int, real>, minDemand: map<int, real>, maxDemand: map<int, real>,
    disCharging: map<int, real>, auxiliary: map<int, real>, totalTraded: real, bought: real)

  datatype Switch = Switch(mode: Mode, lastSwitch: Option<int>)

  // `d.get(slot, 0)`.
  function Get(d: map<int, real>, t: int): real {
    if t in d then d[t] else 0.0
  }

  function Since(d: map<int, real>, t: int): map<int, real> {
    map s | s in d && s >= t :: d[s]
  }

  function LastSlot(p: Profiles, t: int): int {
    t - p.slotMinutes
  }

  // convert_kW_to_kWh over one slot.
  function OverSlot(p: Profiles, power: real): real {
    power * (p.slotMinutes as real / 60.0)
  }

  function ChargeEnergy(p: Profiles, t: int): real {
    OverSlot(p, ChargingPower(p.ambientC(t) + AMBIENT_CORRECTION))
  }

  function DischargeEnergy(p: Profiles, t: int): real {
    OverSlot(p, DischargingPower(p.ambientC(t) - AMBIENT_CORRECTION))
  }

  function CondenserEnergy(charged: real): real {
    charged / COP_CONDENSER * CONVERSION
  }

  function EvaporatorEnergy(discharged: real): real {
    discharged / COP_EVAPORATOR * CONVERSION
  }

  function ElectricityDemand(s: Tank, t: int): real
    requires Get(s.cop, t) != 0.0
  {
    Get(s.heatDemandKJ, t) / 3600.0 / Get(s.cop, t)
  }

  // ----- what to buy -----

  // The tank charges or discharges in whole steps, and only from within its limits.
  function FreeStorage(soc: real, charge: real): real {
    if (MAX_SOC - soc) / 100.0 * CAPACITY + charge < charge then 0.0 else charge
  }

  function StoredHeat(soc: real, discharge: real): real {
    if (soc - MIN_SOC) / 100.0 * CAPACITY + discharge < discharge then 0.0 else discharge
  }

  function BuyMaximum(demand: real, soc: real, charge: real): real {
    var free := FreeStorage(soc, charge);
    demand + free / COP_HEAT_SOURCE + CondenserEnergy(free)
  }

  function BuyMinimum(demand: real, soc: real, discharge: real): real {
    var stored := StoredHeat(soc, discharge);
    var electric := stored / COP_HEAT_SOURCE;
    var forHeat := demand - electric;
    // The demand is lower than what discharging would give.
    if forHeat < TOL < electric then demand else forHeat + EvaporatorEnergy(stored)
  }

  // ----- settling the last slot in the tank -----

  function SocAfter(soc: real, heat: real): real {
    (soc / 100.0 * CAPACITY + heat) / CAPACITY * 100.0
  }

  function WithSoc(s: Tank, p: Profiles, t: int, heat: real): Tank {
    s.(soc := s.soc[t := SocAfter(Get(s.soc, LastSlot(p, t)), heat)])
  }

  // None: an assertion failed.
  function Charged(s: Tank, p: Profiles, t: int, net: real): Option<Tank> {
    var energy := ChargeEnergy(p, LastSlot(p, t));
    var condenser := CondenserEnergy(energy);
    if !(Abs(condenser + energy - net * COP_HEAT_SOURCE) < TOL) then None
    else Some(WithSoc(s, p, t, energy).(disCharging := s.disCharging[t := energy],
                                        auxiliary := s.auxiliary[t := condenser]))
  }

  function Discharged(s: Tank, p: Profiles, t: int, net: real): Option<Tank> {
    var energy := DischargeEnergy(p, LastSlot(p, t));
    var evaporator := EvaporatorEnergy(energy);
    if !(net < TOL) || !(net - evaporator < TOL) then None
    else Some(WithSoc(s, p, t, -energy).(disCharging := s.disCharging[t := -energy],
                                         auxiliary := s.auxiliary[t := evaporator]))
  }

  function ChargedOrDischarged(s: Tank, mode: Mode, p: Profiles, t: int): Option<Tank>
    requires Get(s.cop, LastSlot(p, t)) != 0.0
  {
    var net := s.bought - ElectricityDemand(s, LastSlot(p, t));
    if IsClose(net, 0.0, TOL) then Some(s.(soc := s.soc[t := Get(s.soc, LastSlot(p, t))]))
    else if mode == Charge && net > TOL then Charged(s, p, t, net)
    else if mode == Discharge then Discharged(s, p, t, net)
    else None
  }

  function Settled(s: Tank, mode: Mode, p: Profiles, t: int): Option<Tank>
    requires p.known(LastSlot(p, t)) ==> Get(s.cop, LastSlot(p, t)) != 0.0
  {
    if !p.known(LastSlot(p, t)) then Some(s)
    else match ChargedOrDischarged(s, mode, p, t)
      case None => None
      case Some(s') => Some(s'.(bought := 0.0))
  }

  // The demands of the new slot, from its COP, heat demand and state of charge.
  function WithDemands(s: Tank, p: Profiles, t: int): Tank
    requires p.cop(t) != 0.0
  {
    var s1 := s.(cop := s.cop[t := p.cop(t)], heatDemandKJ := s.heatDemandKJ[t := p.heatDemandJ(t) / 1000.0]);
    var demand := ElectricityDemand(s1, t);
    s1.(demand := s.demand[t := demand],
        minDemand := s.minDemand[t := BuyMinimum(demand, Get(s.soc, t), DischargeEnergy(p, t))],
        maxDemand := s.maxDemand[t := BuyMaximum(demand, Get(s.soc, t), ChargeEnergy(p, t))])
  }

  function Rotated(s: Tank, p: Profiles, t: int): Tank {
    var last := LastSlot(p, t);
    s.(cop := Since(s.cop, last), soc := Since(s.soc, last), demand := Since(s.demand, last),
       minDemand := Since(s.minDemand, last), maxDemand := Since(s.maxDemand, last),
       heatDemandKJ := Since(s.heatDemandKJ, last))
  }

  function Cycled(s: Tank, mode: Mode, p: Profiles, t: int): Option<Tank>
    requires p.known(LastSlot(p, t)) ==> Get(s.cop, LastSlot(p, t)) != 0.0
    requires p.cop(t) != 0.0
  {
    match Settled(Rotated(s, p, t), mode, p, t)
    case None => None
    case Some(s') => Some(WithDemands(s', p, t))
  }

  // ----- trades -----

  function Decremented(d: map<int, real>, t: int, energy: real): map<int, real> {
    d[t := Max(0.0, Get(d, t) - energy)]
  }

  function Traded(s: Tank, t: int, energy: real): Tank {
    s.(bought := s.bought + energy, demand := Decremented(s.demand, t, energy),
       minDemand := Decremented(s.minDemand, t, energy), maxDemand := Decremented(s.maxDemand, t, energy),
       totalTraded := s.totalTraded + energy)
  }

  // ----- the state machine -----

  predicate TimeForChange(w: Switch, t: int) {
    w.lastSwitch.None? || w.mode == MaintainSoc || t - w.lastSwitch.value >= MINUTES_BEFORE_SWITCH_ALLOWED
  }

  function AtSocLimits(mode: Mode, soc: real): Mode {
    if soc >= MAX_SOC && mode == Charge then MaintainSoc
    else if soc <= MIN_SOC && mode == Discharge then MaintainSoc
    else mode
  }

  function ChargeOrDischarge(affordable: bool, soc: real): Mode {
    if affordable then (if soc >= MAX_SOC then MaintainSoc else Charge)
    else if soc > MIN_SOC then Discharge else MaintainSoc
  }

  // (the stored mode and switching time, the mode to buy for).
  function Decided(w: Switch, affordable: bool, soc: real, t: int): (Switch, Mode) {
    if !TimeForChange(w, t) then (w, AtSocLimits(w.mode, soc))
    else
      var target := ChargeOrDischarge(affordable, soc);
      if target != w.mode then (Switch(target, Some(t)), target)
      else (w.(lastSwitch := if w.lastSwitch.None? then Some(t) else w.lastSwitch), target)
  }

  function EnergyFor(s: Tank, target: Mode, t: int): real {
    match target
    case Charge => Get(s.maxDemand, t)
    case Discharge => Get(s.minDemand, t)
    case MaintainSoc => Get(s.demand, t)
  }

  // ----- the objects -----

  class SorTesTankEnergyParameters {
    const profiles: Profiles
    const socManagement: SorTesTankMinimiseSwitchStrategy
    var soc: map<int, real>
    var cop: map<int, real>
    var heatDemandKJ: map<int, real>
    var demand: map<int, real>
    var minDemand: map<int, real>
    var maxDemand: map<int, real>
    var disCharging: map<int, real>
    var auxiliary: map<int, real>
    var totalTraded: real
    var bought: real

    function State(): Tank
      reads this
    {
      Tank(soc, cop, heatDemandKJ, demand, minDemand, maxDemand, disCharging, auxiliary, totalTraded, bought)
    }

    constructor (profiles: Profiles, startDate: int)
      ensures State() == Activated(startDate) && socManagement.State() == Switch(MaintainSoc, None)
      ensures this.profiles == profiles && fresh(socManagement)
    {
      this.profiles := profiles;
      socManagement := new SorTesTankMinimiseSwitchStrategy();
      soc, cop := map[startDate := MIN_SOC], map[startDate := DEFAULT_COP];
      heatDemandKJ, demand, minDemand, maxDemand := map[], map[], map[], map[];
      disCharging, auxiliary, totalTraded, bought := map[], map[], 0.0, 0.0;
    }

    // Returns whether no assertion failed on the way.
    method EventMarketCycle(currentTimeSlot: int) returns (ok: bool)
      requires profiles.known(LastSlot(profiles, currentTimeSlot)) ==>
                 Get(cop, LastSlot(profiles, currentTimeSlot)) != 0.0
      requires profiles.slotMinutes > 0 && profiles.cop(currentTimeSlot) != 0.0
      modifies this
      ensures var r := Cycled(old(State()), socManagement.mode, profiles, currentTimeSlot);
              ok == r.Some? && (ok ==> State() == r.value)
    {
      hide Settled, WithDemands;
      DeletePastStateValues(currentTimeSlot);
      ok := UpdateLastTimeSlotData(currentTimeSlot);
      if ok {
        PopulateNewSlot(currentTimeSlot);
      }
    }

    // The COP, the heat demand and, from these, what to buy in the new slot.
    method PopulateNewSlot(timeSlot: int)
      requires profiles.cop(timeSlot) != 0.0
      modifies this
      ensures State() == WithDemands(old(State()), profiles, timeSlot)
    {
      hide ElectricityDemand, BuyMinimum, BuyMaximum, ChargeEnergy, DischargeEnergy;
      cop := cop[timeSlot := profiles.cop(timeSlot)];
      heatDemandKJ := heatDemandKJ[timeSlot := profiles.heatDemandJ(timeSlot) / 1000.0];
      CalcAndSetEnergyDemand(timeSlot);
    }

    method DeletePastStateValues(currentTimeSlot: int)
      modifies this
      ensures State() == Rotated(old(State()), profiles, currentTimeSlot)
    {
      var last := LastSlot(profiles, currentTimeSlot);
      cop := Since(cop, last);
      soc := Since(soc, last);
      demand := Since(demand, last);
      minDemand := Since(minDemand, last);
      maxDemand := Since(maxDemand, last);
      heatDemandKJ := Since(heatDemandKJ, last);
    }

    method UpdateLastTimeSlotData(timeSlot: int) returns (ok: bool)
      requires profiles.known(LastSlot(profiles, timeSlot)) ==> Get(cop, LastSlot(profiles, timeSlot)) != 0.0
      modifies this
      ensures var r := Settled(old(State()), socManagement.mode, profiles, timeSlot);
              ok == r.Some? && (ok ==> State() == r.value)
    {
      if !profiles.known(LastSlot(profiles, timeSlot)) {
        return true;
      }
      var net := bought - ElectricityDemand(State(), LastSlot(profiles, timeSlot));
      if IsClose(net, 0.0, TOL) {
        soc := soc[timeSlot := Get(soc, LastSlot(profiles, timeSlot))];
        ok := true;
      } else if socManagement.mode == Charge && net > TOL {
        ok := ChargeTank(net, timeSlot);
      } else if socManagement.mode == Discharge {
        ok := DischargeTank(net, timeSlot);
      } else {
        ok := false;
      }
      if ok {
        bought := 0.0;
      }
    }

    method ChargeTank(net: real, timeSlot: int) returns (ok: bool)
      modifies this
      ensures var r := Charged(old(State()), profiles, timeSlot, net);
              ok == r.Some? && State() == if ok then r.value else old(State())
    {
      var energy := ChargeEnergy(profiles, LastSlot(profiles, timeSlot));
      var condenser := CondenserEnergy(energy);
      if !(Abs(condenser + energy - net * COP_HEAT_SOURCE) < TOL) {
        return false;
      }
      UpdateSoc(timeSlot, energy);
      disCharging := disCharging[timeSlot := energy];
      auxiliary := auxiliary[timeSlot := condenser];
      return true;
    }

    method DischargeTank(net: real, timeSlot: int) returns (ok: bool)
      modifies this
      ensures var r := Discharged(old(State()), profiles, timeSlot, net);
              ok == r.Some? && State() == if ok then r.value else old(State())
    {
      if !(net < TOL) {
        return false;
      }
      var energy := DischargeEnergy(profiles, LastSlot(profiles, timeSlot));
      var evaporator := EvaporatorEnergy(energy);
      if !(net - evaporator < TOL) {
        return false;
      }
      UpdateSoc(timeSlot, -energy);
      disCharging := disCharging[timeSlot := -energy];
      auxiliary := auxiliary[timeSlot := evaporator];
      return true;
    }

    method UpdateSoc(timeSlot: int, heat: real)
      modifies this`soc
      ensures State() == WithSoc(old(State()), profiles, timeSlot, heat)
    {
      var oldCharge := Get(soc, LastSlot(profiles, timeSlot)) / 100.0 * CAPACITY;
      var newCharge := oldCharge + heat;
      soc := soc[timeSlot := newCharge / CAPACITY * 100.0];
    }

    method CalcAndSetEnergyDemand(timeSlot: int)
      requires Get(cop, timeSlot) != 0.0
      modifies this
      ensures var d := ElectricityDemand(old(State()), timeSlot);
              State() == old(State()).(
                demand := old(demand)[timeSlot := d],
                minDemand := old(minDemand)[timeSlot :=
                  BuyMinimum(d, Get(old(soc), timeSlot), DischargeEnergy(profiles, timeSlot))],
                maxDemand := old(maxDemand)[timeSlot :=
                  BuyMaximum(d, Get(old(soc), timeSlot), ChargeEnergy(profiles, timeSlot))])
    {
      var d := ElectricityDemand(State(), timeSlot);
      demand := demand[timeSlot := d];
      minDemand := minDemand[timeSlot := BuyMinimum(d, Get(soc, timeSlot), DischargeEnergy(profiles, timeSlot))];
      maxDemand := maxDemand[timeSlot := BuyMaximum(d, Get(soc, timeSlot), ChargeEnergy(profiles, timeSlot))];
    }

    method EventTradedEnergy(timeSlot: int, energy: real)
      modifies this
      ensures State() == Traded(old(State()), timeSlot, energy)
    {
      bought := bought + energy;
      demand := Decremented(demand, timeSlot, energy);
      minDemand := Decremented(minDemand, timeSlot, energy);
      maxDemand := Decremented(maxDemand, timeSlot, energy);
      totalTraded := totalTraded + energy;
    }
  }

  function Activated(startDate: int): Tank {
    Tank(map[startDate := MIN_SOC], map[startDate := DEFAULT_COP], map[], map[], map[], map[], map[], map[], 0.0, 0.0)
  }

  class SorTesTankMinimiseSwitchStrategy {
    var mode: Mode
    var lastSwitch: Option<int>

    function State(): Switch
      reads this
    {
      Switch(mode, lastSwitch)
    }

    constructor ()
      ensures State() == Switch(MaintainSoc, None)
    {
      mode, lastSwitch := MaintainSoc, None;
    }

    // The energy to bid for.
    method Calculate(tank: SorTesTankEnergyParameters, timeSlot: int) returns (energy: real)
      modifies this
      ensures var (w, target) :=
                Decided(old(State()), tank.profiles.affordable(timeSlot), Get(tank.soc, timeSlot), timeSlot);
              State() == w && energy == EnergyFor(tank.State(), target, timeSlot)
    {
      var target := mode;
      var timeForChange := IsTimeForStateChange(timeSlot);
      if !timeForChange {
        target := AtSocLimits(mode, Get(tank.soc, timeSlot));
      } else {
        target := ChargeOrDischarge(tank.profiles.affordable(timeSlot), Get(tank.soc, timeSlot));
        if mode != target {
          mode := target;
          lastSwitch := Some(timeSlot);
        }
      }
      energy := EnergyFor(tank.State(), target, timeSlot);
    }

    // A first call marks the start of the time in which no switch is allowed.
    method IsTimeForStateChange(timeSlot: int) returns (r: bool)
      modifies this`lastSwitch
      ensures r == TimeForChange(old(State()), timeSlot)
      ensures lastSwitch == if old(lastSwitch).None? then Some(timeSlot) else old(lastSwitch)
    {
      if lastSwitch.None? {
        lastSwitch := Some(timeSlot);
        return true;
      }
      if mode != MaintainSoc && timeSlot - lastSwitch.value < MINUTES_BEFORE_SWITCH_ALLOWED {
        return false;
      }
      return true;
    }
  }
}
