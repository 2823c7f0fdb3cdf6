/** The switch controller as the program runs it: files, timer and mode change step by step. */
module SwitchController {
  import opened Net
  import opened Cidrs
  import opened SwitchState

  class Controller {
    var committed: Option<Mode>
    var pending: Option<Pending>
    var hosts: Option<seq<Cidr>>
    var wan: Option<Wan>
    var ports: Option<Ports>
    var dns: Option<Dns>
    var spare: Option<SpareConfig>
    var env: Mode
    var uci: Option<Wan>
    var timer: Option<int>

    function Stored(): Files
      reads this
    {
      Files(hosts, wan, ports, dns, spare)
    }

    function State(): Switch
      reads this
    {
      Switch(committed, pending, Stored(), env, uci, timer)
    }

    method RestoreFilesFrom(b: Settings, stored: bool, x: Faults) returns (ok: bool)
      modifies this`hosts, this`wan, this`ports, this`dns, this`spare
      ensures Stored() == RestoreFiles(old(Stored()), b, stored, x)
      ensures ok == RestoreWorks(b, stored, x)
    {
      if b.hosts != [] {
        if x.hosts {
          return false;
        }
        hosts := Some(b.hosts);
      }
      if !(stored && b.wan == map[]) {
        if x.wan {
          return false;
        }
        wan := Some(b.wan);
      }
      if !x.ports {
        ports := Some(b.ports);
      }
      if !x.dns {
        dns := Some(b.dns);
      }
      if !x.spare {
        spare := Some(b.spare);
      }
      return true;
    }

    method RollbackLocked(x: Faults) returns (ok: bool)
      modifies this
      ensures State() == Rollback(old(State()), x)
      ensures ok <==> pending.None?
    {
      if pending.None? {
        return true;
      }
      var p := pending.value;
      timer := None;
      ok := RestoreFilesFrom(p.before, true, x);
      if p.before.wan != map[] {
        if x.uci {
          ok := false;
        } else {
          uci := Some(p.before.wan);
        }
      }
      if x.mode {
        ok := false;
      } else {
        env := p.from;
      }
      if ok {
        pending := None;
      }
    }

    /** Writes the staged settings in order and stops at the first failure. */
    method WriteStaged(a: Settings, transparent: bool, changesWan: bool, x: Faults) returns (ok: bool)
      modifies this`hosts, this`wan, this`ports, this`dns, this`spare
      ensures Stored() == StageFiles(old(Stored()), a, transparent, changesWan, x)
      ensures ok == StageWorks(transparent, changesWan, x)
    {
      if x.hosts {
        return false;
      }
      hosts := Some(a.hosts);
      if x.dns {
        return false;
      }
      dns := Some(a.dns);
      if transparent {
        if x.ports {
          return false;
        }
        ports := Some(a.ports);
        if x.spare {
          return false;
        }
        spare := Some(a.spare);
      }
      if changesWan {
        if x.wan {
          return false;
        }
        wan := Some(a.wan);
      }
      return true;
    }

    method StageLocked(req: Request, w: World, now: int, x: Faults, undo: Faults) returns (o: Outcome)
      requires Valid(req, w)
      modifies this
      ensures (State(), o) == StageSwitch(old(State()), req, w, now, x, undo)
    {
      hide RestoreFiles, StageFiles, Valid, Staged, ChangesWan;
      var from, before := CommittedMode(State()), Loaded(Stored());
      var resolved := StagedDns(req, w, before.dns);
      if resolved.None? {
        return NoVip;
      }
      var after := Staged(req, w, from, before, resolved.value);
      var changesWan := ChangesWan(req, from, before.wan, w);
      var p := Pending(req.token, from, req.mode, Deadline(now, req.timeout), before);
      pending := Some(p);
      var ok := WriteStaged(after, req.mode.Transparent?, changesWan, x);
      if !ok {
        var _ := RestoreFilesFrom(p.before, false, undo);
        pending := None;
        return WriteFailed;
      }
      timer := Some(ArmAt(p, now));
      if !x.mode {
        env := req.mode;
        return Switched;
      }
      var _ := RestoreFilesFrom(p.before, false, undo);
      if !undo.uci {
        uci := Some(p.before.wan);
      }
      if !undo.mode {
        env := from;
      }
      pending, timer := None, None;
      return PlaneFailed;
    }

    method RequestSwitch(req: Request, w: World, now: int, expiry: Faults, x: Faults, undo: Faults) returns (o: Outcome)
      modifies this
      ensures (State(), o) == Apply(old(State()), req, w, now, expiry, x, undo)
    {
      hide Valid, Rollback, StageSwitch, MustRestoreWan;
      if !Valid(req, w) {
        return Invalid;
      }
      if pending.Some? && Expired(pending.value, now) {
        var ok := RollbackLocked(expiry);
        if !ok {
          return RollbackIncomplete;
        }
      }
      var from := CommittedMode(State());
      if req.mode.Gateway? && from.Gateway? && req.hijack.None? {
        if pending.None? && !MustRestoreWan(from, Loaded(Stored()).wan, w) {
          return Unchanged;
        }
      }
      if pending.Some? {
        return Busy;
      }
      o := StageLocked(req, w, now, x, undo);
    }

    method ConfirmSwitch(token: string, now: int, x: Faults) returns (a: Answer)
      modifies this
      ensures (State(), a) == Confirm(old(State()), token, now, x)
    {
      if pending.None? {
        return NonePending;
      }
      var p := pending.value;
      if Expired(p, now) {
        var _ := RollbackLocked(x);
        return TooLate;
      }
      if token != "" && token != p.token {
        return WrongToken;
      }
      committed := Some(p.to);
      timer, pending := None, None;
      if !x.mode {
        env := p.to;
      }
      return Confirmed;
    }

    method Status(now: int, x: Faults) returns (live: Mode)
      modifies this
      ensures State() == ExpireFirst(old(State()), now, x)
      ensures pending.None? ==> live == CommittedMode(State())
      ensures pending.Some? && !Expired(pending.value, now) ==> live == LiveMode(State(), now)
    {
      if pending.Some? && Expired(pending.value, now) {
        var _ := RollbackLocked(x);
      }
      return if pending.Some? then pending.value.to else CommittedMode(State());
    }

    /** A fresh process: the files persist, the timer does not. */
    method ResumeAfterRestart(newEnv: Mode, now: int, x: Faults)
      modifies this
      ensures State() == Resume(Restart(old(State()), newEnv), now, x)
    {
      timer, env := None, newEnv;
      if pending.None? {
        return;
      }
      var p := pending.value;
      if Expired(p, now) {
        var _ := RollbackLocked(x);
        return;
      }
      if !x.mode {
        env := p.to;
      }
      timer := Some(ArmAt(p, now));
    }
  }
}
