/**
 * Adding and removing node services on a host, and the ports they are given. The unit directory is
 * a map from node ids to unit-file texts; whether a port can be bound is an arbitrary predicate.
 */
module HostServices {
  import opened Prelude
  import opened UnitFiles

  const FIRST_PORT: nat := 8000
  const END_PORT: nat := 9000

  type Units = map<nat, string>

  datatype Error = BadPort | NoFreePort | WriteFailed | RemoveFailed | SystemctlFailed | NoSuchService

  function AllocatedPorts(units: Units): set<nat> {
    set id | id in units && PortOf(units[id]).Some? :: PortOf(units[id]).value
  }

  function AssignedPort(units: Units, id: nat): Result<Option<nat>, Error> {
    if id !in units then Success(None)
    else
      match FindPort(units[id])
      case None => Success(None)
      case Some(digits) => (match ParseU16(digits) case Some(p) => Success(Some(p)) case None => Failure(BadPort))
  }

  /** The least port of the range that is neither excluded nor in use. */
  function FindFreePort(start: nat, end: nat, excluded: set<nat>, bindable: nat -> bool): (r: Option<nat>)
    ensures r.Some? ==> start <= r.value < end && r.value !in excluded && bindable(r.value)
    ensures forall p: nat | start <= p < (if r.Some? then r.value else end) :: p in excluded || !bindable(p)
    decreases end - start
  {
    if start >= end then None
    else if start !in excluded && bindable(start) then Some(start)
    else FindFreePort(start + 1, end, excluded, bindable)
  }

  function ChoosePort(units: Units, id: nat, port: Option<nat>, bindable: nat -> bool): Result<nat, Error> {
    if port.Some? then Success(port.value)
    else
      match AssignedPort(units, id)
      case Failure(e) => Failure(e)
      case Success(Some(p)) => Success(p)
      case Success(None) =>
        (match FindFreePort(FIRST_PORT, END_PORT, AllocatedPorts(units), bindable)
         case Some(p) => Success(p)
         case None => Failure(NoFreePort))
  }

  /** The unit file stays written when `systemctl` fails afterwards. */
  function Added(units: Units, exe: string, id: nat, port: Option<nat>, bindable: nat -> bool,
                 writeOk: bool, systemctlOk: bool): (Units, Result<nat, Error>)
  {
    match ChoosePort(units, id, port, bindable)
    case Failure(e) => (units, Failure(e))
    case Success(p) =>
      if !writeOk then (units, Failure(WriteFailed))
      else (units[id := Render(exe, id, p)], if systemctlOk then Success(p) else Failure(SystemctlFailed))
  }

  function Removed(units: Units, id: nat, removeOk: bool, systemctlOk: bool): (Units, Result<(), Error>) {
    if id !in units then (units, Failure(NoSuchService))
    else if !removeOk then (units, Failure(RemoveFailed))
    else (units - {id}, if systemctlOk then Success(()) else Failure(SystemctlFailed))
  }

  /// The host daemon's code

  class Host {
    var units: Units

    constructor ()
      ensures units == map[]
    {
      units := map[];
    }

    method GetAllocatedPorts() returns (ports: set<nat>)
      ensures ports == AllocatedPorts(units)
    {
      ports := {};
      var table := units;
      var rest := table.Keys;
      while rest != {}
        invariant rest <= table.Keys
        invariant ports == AllocatedPorts(table - rest)
      {
        var id :| id in rest;
        var port := PortOf(table[id]);
        assert AllocatedPorts(table - (rest - {id})) ==
               AllocatedPorts(table - rest) + (if port.Some? then {port.value} else {}) by {
          assert (table - (rest - {id})).Keys == (table - rest).Keys + {id};
        }
        if port.Some? {
          ports := ports + {port.value};
        }
        rest := rest - {id};
      }
      assert table - {} == table;
    }

    /** Runs under the exclusive port lock. */
    method AddService(exe: string, id: nat, port: Option<nat>, bindable: nat -> bool, writeOk: bool, systemctlOk: bool)
      returns (r: Result<nat, Error>)
      modifies this
      ensures (units, r) == Added(old(units), exe, id, port, bindable, writeOk, systemctlOk)
    {
      var chosen: nat;
      if port.Some? {
        chosen := port.value;
      } else {
        var known := AssignedPort(units, id);
        if known.Failure? {
          return Failure(known.error);
        }
        if known.value.Some? {
          chosen := known.value.value;
        } else {
          var taken := GetAllocatedPorts();
          var free := FindFreePort(FIRST_PORT, END_PORT, taken, bindable);
          if free.None? {
            return Failure(NoFreePort);
          }
          chosen := free.value;
        }
      }
      if !writeOk {
        return Failure(WriteFailed);
      }
      units := units[id := Render(exe, id, chosen)];
      if !systemctlOk {
        return Failure(SystemctlFailed);
      }
      return Success(chosen);
    }

    method RemoveService(id: nat, removeOk: bool, systemctlOk: bool) returns (r: Result<(), Error>)
      modifies this
      ensures (units, r) == Removed(old(units), id, removeOk, systemctlOk)
    {
      if id !in units {
        return Failure(NoSuchService);
      }
      if !removeOk {
        return Failure(RemoveFailed);
      }
      units := units - {id};
      if !systemctlOk {
        return Failure(SystemctlFailed);
      }
      return Success(());
    }
  }

  /// What each call answers

  /** A port of the range that no node has and that can be bound. */
  ghost predicate IsFree(units: Units, bindable: nat -> bool, p: nat) {
    8000 <= p < 9000 && bindable(p) && forall other | other in units :: PortOf(units[other]) != Some(p)
  }

  lemma FoundIffFree(units: Units, bindable: nat -> bool)
    ensures FindFreePort(FIRST_PORT, END_PORT, AllocatedPorts(units), bindable).Some? <==>
            exists p: nat :: IsFree(units, bindable, p)
  {
    var found := FindFreePort(FIRST_PORT, END_PORT, AllocatedPorts(units), bindable);
    if found.Some? {
      forall other | other in units ensures PortOf(units[other]) != Some(found.value) {
        assert PortOf(units[other]).Some? ==> PortOf(units[other]).value in AllocatedPorts(units);
      }
      assert IsFree(units, bindable, found.value);
    }
    if p: nat :| IsFree(units, bindable, p) {
      assert p !in AllocatedPorts(units);
    }
  }

  /** Why an add fails. */
  lemma AddFailsExactly(units: Units, exe: string, id: nat, port: Option<nat>, bindable: nat -> bool,
                        writeOk: bool, systemctlOk: bool)
    ensures var r := Added(units, exe, id, port, bindable, writeOk, systemctlOk).1;
            var digits := if id in units then FindPort(units[id]) else None;
            var badPort := port == None && digits.Some? && ParseU16(digits.value) == None;
            var noPort := port == None && digits == None && !exists p: nat :: IsFree(units, bindable, p);
            && (r == Failure(BadPort) <==> badPort)
            && (r == Failure(NoFreePort) <==> noPort)
            && (r == Failure(WriteFailed) <==> !badPort && !noPort && !writeOk)
            && (r == Failure(SystemctlFailed) <==> !badPort && !noPort && writeOk && !systemctlOk)
            && (r.Success? <==> !badPort && !noPort && writeOk && systemctlOk)
            && (r.Success? && port.Some? ==> r.value == port.value)
  {
    FoundIffFree(units, bindable);
  }

  /** What an add leaves behind: one file written, or nothing changed. */
  lemma AddLeaves(units: Units, exe: string, id: nat, port: Option<nat>, bindable: nat -> bool,
                  writeOk: bool, systemctlOk: bool, other: nat)
    ensures var (units', r) := Added(units, exe, id, port, bindable, writeOk, systemctlOk);
            && (r.Success? || r == Failure(SystemctlFailed) ==> units'.Keys == units.Keys + {id})
            && (r.Failure? && r.error != SystemctlFailed ==> units' == units)
            && (other in units && other != id ==> other in units' && units'[other] == units[other])
  {}

  /** When a removal fails, with what, and what it leaves behind. */
  lemma RemoveOutcome(units: Units, id: nat, removeOk: bool, systemctlOk: bool, other: nat)
    ensures var (units', r) := Removed(units, id, removeOk, systemctlOk);
            && (r == Failure(NoSuchService) <==> id !in units)
            && (r == Failure(RemoveFailed) <==> id in units && !removeOk)
            && (r == Failure(SystemctlFailed) <==> id in units && removeOk && !systemctlOk)
            && (r.Success? <==> id in units && removeOk && systemctlOk)
            && (other in units' <==> other in units && !(other == id && removeOk))
            && (other in units' ==> units'[other] == units[other])
  {}

  /// Runs of automatic adds and of removes

  /** No two nodes have the same port. */
  ghost predicate PortsDistinct(units: Units) {
    forall a, b | a in units && b in units && a != b && PortOf(units[a]).Some? :: PortOf(units[a]) != PortOf(units[b])
  }

  ghost predicate PortsInRange(units: Units) {
    forall id | id in units :: PortOf(units[id]).Some? && 8000 <= PortOf(units[id]).value < 9000
  }

  datatype Event =
    | AddAuto(exe: string, id: nat, bindable: nat -> bool, writeOk: bool, systemctlOk: bool)
    | Remove(id: nat, removeOk: bool, systemctlOk: bool)

  function Next(units: Units, e: Event): Units {
    match e
    case AddAuto(exe, id, bindable, writeOk, systemctlOk) =>
      Added(units, exe, id, None, bindable, writeOk, systemctlOk).0
    case Remove(id, removeOk, systemctlOk) => Removed(units, id, removeOk, systemctlOk).0
  }

  function Run(units: Units, es: seq<Event>): Units {
    if es == [] then units else Next(Run(units, es[..|es| - 1]), es[|es| - 1])
  }

  /** No executable path used along the run holds a port flag. */
  ghost predicate CleanPaths(es: seq<Event>) {
    forall i | 0 <= i < |es| && es[i].AddAuto? :: NoPortIn(es[i].exe)
  }

  /** Writing the unit file of `id` for `port` gives that node that port and leaves the others theirs. */
  lemma WrittenPort(units: Units, exe: string, id: nat, port: nat)
    requires NoPortIn(exe) && port < 0x1_0000
    ensures var units' := units[id := Render(exe, id, port)];
            && PortOf(units'[id]) == Some(port)
            && forall other | other in units && other != id :: PortOf(units'[other]) == PortOf(units[other])
  {
    RenderedPortIsRead(exe, id, port);
  }

  /** An automatic choice is the node's own port, or one of the range that no node has. */
  lemma ChosenPort(units: Units, id: nat, bindable: nat -> bool)
    requires PortsInRange(units)
    ensures var chosen := ChoosePort(units, id, None, bindable);
            chosen.Success? ==>
              && 8000 <= chosen.value < 9000
              && (id in units ==> PortOf(units[id]) == Some(chosen.value))
              && (id !in units ==> forall other | other in units :: PortOf(units[other]) != Some(chosen.value))
  {
    var chosen := ChoosePort(units, id, None, bindable);
    if chosen.Success? && id !in units {
      forall other | other in units ensures PortOf(units[other]) != Some(chosen.value) {
        assert PortOf(units[other]).value in AllocatedPorts(units);
      }
    }
  }

  lemma AddKeepsPorts(units: Units, exe: string, id: nat, bindable: nat -> bool, writeOk: bool, systemctlOk: bool)
    requires PortsDistinct(units) && PortsInRange(units) && NoPortIn(exe)
    ensures var units' := Added(units, exe, id, None, bindable, writeOk, systemctlOk).0;
            PortsDistinct(units') && PortsInRange(units')
  {
    var chosen := ChoosePort(units, id, None, bindable);
    ChosenPort(units, id, bindable);
    if chosen.Success? && writeOk {
      WrittenPort(units, exe, id, chosen.value);
      NewPortKeepsDistinct(units, units[id := Render(exe, id, chosen.value)], id);
    }
  }

  lemma NewPortKeepsDistinct(units: Units, units': Units, id: nat)
    requires PortsDistinct(units) && PortsInRange(units)
    requires units'.Keys == units.Keys + {id} && PortOf(units'[id]).Some?
    requires 8000 <= PortOf(units'[id]).value < 9000
    requires forall other | other in units && other != id :: PortOf(units'[other]) == PortOf(units[other])
    requires forall other | other in units && other != id :: PortOf(units[other]) != PortOf(units'[id])
    ensures PortsDistinct(units') && PortsInRange(units')
  {}

  /** Along every such run the nodes have distinct ports from the range. */
  lemma {:induction false} PortsStayDistinct(es: seq<Event>)
    requires CleanPaths(es)
    ensures PortsDistinct(Run(map[], es)) && PortsInRange(Run(map[], es))
  {
    if es != [] {
      var n := |es| - 1;
      PortsStayDistinct(es[..n]);
      var e := es[n];
      if e.AddAuto? {
        AddKeepsPorts(Run(map[], es[..n]), e.exe, e.id, e.bindable, e.writeOk, e.systemctlOk);
      }
    }
  }

  /** An automatic add keeps the port of a known node and spares the other nodes. */
  lemma AddKeepsKnownPort(es: seq<Event>, exe: string, id: nat, bindable: nat -> bool, writeOk: bool, systemctlOk: bool)
    requires CleanPaths(es) && NoPortIn(exe)
    ensures var units := Run(map[], es);
            var units' := Added(units, exe, id, None, bindable, writeOk, systemctlOk).0;
            && (forall other | other in units && other != id :: other in units' && units'[other] == units[other])
            && (id in units ==> id in units' && PortOf(units'[id]) == PortOf(units[id]))
  {
    PortsStayDistinct(es);
    var units := Run(map[], es);
    forall other | other in units && other != id
      ensures var units' := Added(units, exe, id, None, bindable, writeOk, systemctlOk).0;
              other in units' && units'[other] == units[other]
    {
      AddLeaves(units, exe, id, None, bindable, writeOk, systemctlOk, other);
    }
    if id in units {
      KnownPortKept(units, exe, id, bindable, writeOk, systemctlOk);
    }
  }

  lemma KnownPortKept(units: Units, exe: string, id: nat, bindable: nat -> bool, writeOk: bool, systemctlOk: bool)
    requires PortsInRange(units) && NoPortIn(exe) && id in units
    ensures var units' := Added(units, exe, id, None, bindable, writeOk, systemctlOk).0;
            id in units' && PortOf(units'[id]) == PortOf(units[id])
  {
    var chosen := ChoosePort(units, id, None, bindable);
    ChosenPort(units, id, bindable);
    if chosen.Success? {
      WrittenPort(units, exe, id, chosen.value);
    }
  }

  /** A new node gets the least port of the range that no node has and that can be bound, unless there is none. */
  lemma AddFindsLeastPort(es: seq<Event>, exe: string, id: nat, bindable: nat -> bool, systemctlOk: bool)
    requires CleanPaths(es) && NoPortIn(exe) && id !in Run(map[], es)
    ensures var units := Run(map[], es);
            var (units', r) := Added(units, exe, id, None, bindable, true, systemctlOk);
            if exists p: nat :: 8000 <= p < 9000 && p !in AllocatedPorts(units) && bindable(p)
            then id in units' && IsLeastFreePort(units, bindable, PortOf(units'[id]))
            else units' == units && r == Failure(NoFreePort)
  {
    var units := Run(map[], es);
    var chosen := ChoosePort(units, id, None, bindable);
    if chosen.Success? {
      WrittenPort(units, exe, id, chosen.value);
    }
  }

  ghost predicate IsLeastFreePort(units: Units, bindable: nat -> bool, port: Option<nat>) {
    && port.Some?
    && 8000 <= port.value < 9000 && port.value !in AllocatedPorts(units) && bindable(port.value)
    && forall p: nat | 8000 <= p < port.value :: p in AllocatedPorts(units) || !bindable(p)
  }

  /** A port asked for by hand keeps ports distinct exactly when no other node has it. */
  lemma ExplicitPortIff(units: Units, exe: string, id: nat, port: nat, bindable: nat -> bool, systemctlOk: bool)
    requires PortsDistinct(units) && NoPortIn(exe) && port < 0x1_0000
    ensures PortsDistinct(Added(units, exe, id, Some(port), bindable, true, systemctlOk).0) <==>
            forall other | other in units && other != id :: PortOf(units[other]) != Some(port)
  {
    var units' := Added(units, exe, id, Some(port), bindable, true, systemctlOk).0;
    WrittenPort(units, exe, id, port);
    if other :| other in units && other != id && PortOf(units[other]) == Some(port) {
      assert units'[other] == units[other];
    }
  }
}
