/** The request handlers as the control plane runs them, on its tables. */
module CustodyPlatform {
  import opened Net
  import opened CustodyState
  import opened CustodyTheorems

  class ControlPlane {
    var devices: map<nat, Device>
    var lines: map<nat, bool>
    var tombs: map<string, Option<int>>

    function State(): Platform
      reads this
    {
      Platform(devices, lines, tombs)
    }

    /** The first row that answers a query by key. */
    method FindByKey(key: string) returns (row: Option<nat>)
      ensures RowOf(State(), key, row)
    {
      var left := devices.Keys;
      while left != {}
        invariant left <= devices.Keys
        invariant forall id :: id in devices && id !in left ==> devices[id].key != key
        decreases left
      {
        var id :| id in left;
        if devices[id].key == key {
          return Some(id);
        }
        left := left - {id};
      }
      return None;
    }

    /** The first row other than `me` that holds the line. */
    method FindHolder(line: nat, me: Option<nat>) returns (row: Option<nat>)
      ensures Holder(State(), line, me, row)
    {
      var left := devices.Keys;
      while left != {}
        invariant left <= devices.Keys
        invariant forall id :: id in devices && id !in left ==> !OtherHolder(State(), line, me, id)
        decreases left
      {
        var id :| id in left;
        if me != Some(id) && devices[id].line == Some(line) {
          return Some(id);
        }
        left := left - {id};
      }
      return None;
    }

    method ActivateClient(line: nat, uuidOk: bool, key: string, newId: nat, now: int) returns (a: Answer)
      requires newId !in devices
      modifies this`devices
      ensures Activate(old(State()), line, uuidOk, key, newId, now, a, State())
    {
      var me := FindByKey(key);
      var holder := FindHolder(line, me);
      ghost var before := State();
      if line !in lines || !lines[line] || !uuidOk {
        a := BadRequest;
      } else if key in tombs && tombs[key].None? {
        a := Forbidden;
      } else if me.Some? && devices[me.value].revoked.Some? && devices[me.value].line.None? {
        a := Forbidden;
      } else if me.Some? && devices[me.value].line.Some? && devices[me.value].line != Some(line) {
        a := Conflict;
      } else {
        a := Ok;
        if holder.Some? {
          devices := devices[holder.value := devices[holder.value].(line := None, revoked := Some(now))];
        }
        if me.Some? {
          var d := devices[me.value];
          if d.line.None? {
            d := d.(line := Some(line));
          }
          devices := devices[me.value := d.(revoked := None, cleared := None)];
        } else {
          devices := devices[newId := Device(key, Some(line), None, None, None)];
        }
      }
      assert ActivateWith(before, line, uuidOk, key, me, holder, newId, now, a, State());
    }

    method UpdateDevice(id: nat, line: Option<Option<nat>>, now: int) returns (a: Answer)
      modifies this`devices
      ensures Update(old(State()), id, line, now, a, State())
    {
      if id !in devices {
        return NotFound;
      }
      var d := devices[id];
      if line.Some? && line.value.Some? {
        if line.value.value !in lines {
          return BadRequest;
        }
        var other := FindHolder(line.value.value, Some(id));
        if other.Some? {
          return Conflict;
        }
      }
      if line.Some? {
        if line.value.None? {
          d := d.(revoked := Some(now));
        } else {
          d := d.(revoked := None, cleared := None);
        }
        devices := devices[id := d.(line := line.value)];
      }
      return Ok;
    }

    /** The device loses its line and the right to any line code, and may be retired; nobody else is touched. */
    method SoftFactoryReset(id: nat, requestId: string, now: int) returns (a: Answer)
      modifies this`devices
      ensures State() == ResetSoft(old(State()), id, requestId, now)
      ensures a == if id in old(devices) then Ok else NotFound
      ensures old(Inv(State())) && a == Ok ==>
                && Inv(State()) && Lost(State(), old(devices[id].key)) && RetireAnswer(State(), id, true, true) == Ok
                && (old(devices[id].line).Some? ==> LineFree(State(), old(devices[id].line).value))
      ensures forall other :: other != id ==>
                && (other in devices <==> other in old(devices))
                && (other in devices ==> devices[other] == old(devices[other]))
    {
      ghost var before := State();
      if id !in devices {
        return NotFound;
      }
      if Inv(before) {
        SoftResetLocksOut(before, id, requestId, now);
      }
      devices := devices[id := devices[id].(line := None, revoked := Some(now), cleared := Some(now),
                                            pending := Some(Command(SoftReset, requestId)))];
      return Ok;
    }

    /** From now on the device's acknowledgements count for this upgrade only, whatever was queued before.
        `artifact` says whether the artifact, if there is one, is enabled. */
    method QueueDeviceUpgrade(id: nat, artifact: Option<bool>, requestId: string) returns (a: Answer)
      modifies this`devices
      ensures a == Ok <==> id in old(devices) && artifact == Some(true)
      ensures a != Ok ==>
                a == (if id in old(devices) && artifact.Some? then BadRequest else NotFound) && State() == old(State())
      ensures a == Ok ==>
                && State() == QueueUpgrade(old(State()), id, requestId)
                && devices == old(devices)[id := old(devices[id]).(pending := devices[id].pending)]
                && (forall ack, later :: ack != requestId ==> Acknowledge(State(), id, ack, later) == State())
                && (requestId != "" ==> forall later {:trigger Acknowledge(State(), id, requestId, later)} ::
                      Acknowledge(State(), id, requestId, later).devices
                      == devices[id := devices[id].(pending := None)])
    {
      if id !in devices || artifact.None? {
        return NotFound;
      }
      if !artifact.value {
        return BadRequest;
      }
      devices := devices[id := devices[id].(pending := Some(Command(Upgrade, requestId)))];
      return Ok;
    }

    /** The part of a heartbeat that acknowledges a command. */
    method AcknowledgeCommand(id: nat, ackId: string, now: int)
      modifies this`devices
      ensures State() == Acknowledge(old(State()), id, ackId, now)
    {
      if id !in devices {
        return;
      }
      var d := devices[id];
      if d.pending.Some? && ackId != "" && ackId == d.pending.value.requestId {
        var action := d.pending.value.action;
        d := d.(pending := None);
        if action.SoftReset? {
          d := d.(cleared := Some(now));
        }
        devices := devices[id := d];
      }
    }

    method DeleteDevice(id: nat, confirm: bool, permitted: bool) returns (a: Answer)
      modifies this`devices, this`tombs
      ensures State() == Retire(old(State()), id, confirm, permitted)
      ensures a == RetireAnswer(old(State()), id, confirm, permitted)
    {
      if !confirm {
        return BadRequest;
      }
      if id !in devices {
        return NotFound;
      }
      if !permitted {
        return Forbidden;
      }
      if devices[id].line.Some? || devices[id].cleared.None? {
        return BadRequest;
      }
      tombs := tombs[devices[id].key := None];
      devices := devices - {id};
      return Ok;
    }

    method ReclaimDevice(key: string, newId: nat, now: int) returns (a: Answer)
      requires newId !in devices
      modifies this`devices, this`tombs
      ensures Reclaim(old(State()), key, newId, now, a, State())
    {
      if key !in tombs || tombs[key].Some? {
        return NotFound;
      }
      var existing := FindByKey(key);
      if existing.Some? {
        return Conflict;
      }
      devices := devices[newId := Device(key, None, Some(now), Some(now), None)];
      tombs := tombs[key := Some(now)];
      return Ok;
    }

    method DeleteLineRow(line: nat) returns (a: Answer)
      modifies this`lines
      ensures DeleteLine(old(State()), line, a, State())
    {
      if line !in lines {
        return NotFound;
      }
      var holder := FindHolder(line, None);
      if holder.Some? {
        return BadRequest;
      }
      assert LineFree(State(), line) by {
        forall id | id in devices
          ensures devices[id].line != Some(line)
        {
          assert !OtherHolder(State(), line, None, id);
        }
      }
      lines := lines - {line};
      return Ok;
    }
  }
}
