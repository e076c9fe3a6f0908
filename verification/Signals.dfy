/** Telemetry signal ids and which of them a configuration can serve (core/thermal_signals.h:54-170,
    core/thermal_core.c:1222-1290). */
module Signals {
  import opened CInt

  const ZONE_BASE: u16 := 0x0100
  const ACTUATOR_BASE: u16 := 0x0200
  const PID_BASE: u16 := 0x0300
  const CONTEXT_BASE: u16 := 0x0400
  const MODIFIER_BASE: u16 := 0x0500
  const FAULT_BASE: u16 := 0x0600
  const FAN_HEALTH_BASE: u16 := 0x0800

  /** How many slots of each kind are configured. */
  datatype Counts = Counts(sensors: nat, zones: nat, actuators: nat, contexts: nat, modifiers: nat)

  /** A sub-signal of one slot of a range, or one term of a zone's PID controller. */
  datatype Signal = Plain(base: u16, sub: nat, slot: nat) | PidTerm(zone: nat, term: nat)

  /** The id the TSIG macros give a signal. */
  function Id(sig: Signal): int {
    match sig
    case Plain(base, sub, slot) => base + 0x10 * sub + slot
    case PidTerm(zone, term) => PID_BASE + 4 * zone + term
  }

  /** The slots a sub-signal exists for. */
  function Slots(c: Counts, base: u16, sub: nat): nat {
    if base == ZONE_BASE && sub <= 4 then c.zones
    else if base == ACTUATOR_BASE && sub <= 2 then c.actuators
    else if base == CONTEXT_BASE && sub <= 1 then c.contexts
    else if base == MODIFIER_BASE && sub <= 2 then c.modifiers
    else if base == FAULT_BASE && sub == 0 then c.actuators
    else if base == FAULT_BASE && sub == 1 then c.sensors
    else if base == FAULT_BASE && sub == 2 then c.zones
    else if base == FAULT_BASE && sub == 3 then c.contexts
    else if base == FAN_HEALTH_BASE && sub <= 3 then c.actuators
    else 0
  }

  predicate Served(c: Counts, sig: Signal) {
    match sig
    case Plain(base, sub, slot) => slot < 0x10 && slot < Slots(c, base, sub)
    case PidTerm(zone, term) => term < 4 && zone < c.zones && zone < 0x40
  }

  /** The id names a signal the configuration serves. */
  ghost predicate Supported(c: Counts, id: u16) { exists sig :: Served(c, sig) && Id(sig) == id }

  /** The signal an id stands for, whether served or not. */
  function Parse(id: u16): Signal {
    if PID_BASE <= id < PID_BASE + 0x100 then PidTerm((id - PID_BASE) / 4, (id - PID_BASE) % 4)
    else Plain(id / 0x100 * 0x100, id % 0x100 / 0x10, id % 0x10)
  }

  lemma ParseIsId(id: u16)
    ensures Id(Parse(id)) == id
  {
  }

  lemma IdOfPlain(base: u16, sub: nat, slot: nat)
    requires base % 0x100 == 0 && base != PID_BASE && sub < 0x10 && slot < 0x10
    ensures Id(Plain(base, sub, slot)) < 0x1_0000 && Parse(Id(Plain(base, sub, slot))) == Plain(base, sub, slot)
  {
    var id, range := Id(Plain(base, sub, slot)), base / 0x100;
    DivModIs(id, 0x100, range, 0x10 * sub + slot);
    DivModIs(0x10 * sub + slot, 0x10, sub, slot);
    DivModIs(id, 0x10, 0x10 * range + sub, slot);
  }

  lemma IdOfPid(zone: nat, term: nat)
    requires zone < 0x40 && term < 4
    ensures Id(PidTerm(zone, term)) < 0x1_0000 && Parse(Id(PidTerm(zone, term))) == PidTerm(zone, term)
  {
    DivModIs(4 * zone + term, 4, zone, term);
  }

  /** Served signals have distinct ids, and parsing recovers them. */
  lemma ParseRecovers(c: Counts, sig: Signal)
    requires Served(c, sig)
    ensures 0 <= Id(sig) < 0x1_0000 && Parse(Id(sig)) == sig
  {
    match sig
    case Plain(base, sub, slot) => IdOfPlain(base, sub, slot);
    case PidTerm(zone, term) => IdOfPid(zone, term);
  }

  lemma SupportedMeansServed(c: Counts, id: u16)
    ensures Supported(c, id) <==> Served(c, Parse(id))
  {
    ParseIsId(id);
    if Supported(c, id) {
      var sig :| Served(c, sig) && Id(sig) == id;
      ParseRecovers(c, sig);
    }
  }

  /** signal_id_is_supported. */
  method IsSupported(c: Counts, id: u16) returns (ok: bool)
    ensures ok <==> Supported(c, id)
  {
    SupportedMeansServed(c, id);
    var sub, slot := id % 0x100 / 0x10, id % 0x10;
    if ZONE_BASE <= id < ZONE_BASE + 0x100 { return slot < c.zones && sub <= 4; }
    if ACTUATOR_BASE <= id < ACTUATOR_BASE + 0x100 { return slot < c.actuators && sub <= 2; }
    if PID_BASE <= id < PID_BASE + 0x100 { return (id - PID_BASE) / 4 < c.zones; }
    if CONTEXT_BASE <= id < CONTEXT_BASE + 0x100 { return slot < c.contexts && sub <= 1; }
    if MODIFIER_BASE <= id < MODIFIER_BASE + 0x100 { return slot < c.modifiers && sub <= 2; }
    if FAULT_BASE <= id < FAULT_BASE + 0x100 {
      match sub {
        case 0 => return slot < c.actuators;
        case 1 => return slot < c.sensors;
        case 2 => return slot < c.zones;
        case 3 => return slot < c.contexts;
        case _ => return false;
      }
    }
    if FAN_HEALTH_BASE <= id < FAN_HEALTH_BASE + 0x100 { return slot < c.actuators && sub <= 3; }
    return false;
  }
}
