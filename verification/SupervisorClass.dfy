/** The supervisor as the program runs it: each method is one locked section. */
module SupervisorClass {
  import opened Net
  import opened CableState
  import opened CableLearner
  import opened SupervisorState

  class Supervisor {
    var capturing: bool
    var key: Option<Ports>
    var learned: Learned
    var timer: Option<nat>
    var armed: set<nat>
    var fired: set<nat>
    var nextTimer: nat
    var refreshing: bool
    var cpeDown: bool
    var hold: bool
    var spare: Spare
    var boxMac: Option<Mac>
    var edited: bool
    var snap: Sig

    function State(): Sup
      reads this
    {
      Sup(capturing, key, learned, timer, armed, fired, nextTimer, refreshing, cpeDown, hold, spare, boxMac, edited,
          snap)
    }

    method ScheduleFlushLocked()
      modifies this`timer, this`armed, this`nextTimer
      ensures State() == ScheduleFlush(old(State()))
    {
      if timer.Some? {
        return;
      }
      timer := Some(nextTimer);
      armed := armed + {nextTimer};
      nextTimer := nextTimer + 1;
    }

    method StopTimerLocked()
      modifies this`timer, this`armed
      ensures State() == StopTimer(old(State()))
    {
      if timer.Some? {
        armed := armed - {timer.value};
        timer := None;
      }
    }

    method OnFrame(role: Role, frame: seq<Byte>, now: int)
      modifies this
      ensures !old(capturing) ==> State() == old(State())
      ensures old(capturing) ==> LearnedAfter(old(learned), spare, role, frame, now, learned)
      ensures old(capturing) ==> State() == AfterFrame(old(State()), role, frame, learned)
    {
      if !capturing {
        return;
      }
      var before := CurrentSig(State());
      var next := Observe(learned, spare, role, frame, now);
      if role.Cpe? && UsableHost(frame, next.gw) {
        hold := false;
      }
      learned := next;
      if CurrentSig(State()) != before {
        ScheduleFlushLocked();
      }
    }

    method SetCpeDown(down: bool)
      modifies this
      ensures State() == ApplyCpeDown(old(State()), down)
    {
      if !capturing || cpeDown == down {
        return;
      }
      cpeDown := down;
      if down {
        hold := true;
      }
      ScheduleFlushLocked();
    }

    /** The locked part of a flush callback; `taken` says whether it took a snapshot to save. */
    method RunFlush(id: nat) returns (taken: bool)
      requires id in fired
      modifies this
      ensures State() == Flush(old(State()), id)
      ensures taken <==> old(capturing) && !old(refreshing)
    {
      fired := fired - {id};
      timer := None;
      if !capturing {
        return false;
      }
      if refreshing {
        ScheduleFlushLocked();
        return false;
      }
      snap := CurrentSig(State());
      refreshing := true;
      edited := false;
      return true;
    }

    /** A mode notification; `restart` says that a capture on the given ports has to begin. */
    method NotifyMode(transparent: bool, ports: Ports) returns (restart: bool)
      modifies this
      ensures State() == if transparent then Notify(old(State()), ports) else NotifyOff(old(State()))
      ensures restart ==> transparent && !capturing
    {
      hide CurrentSig;
      StopTimerLocked();
      if transparent {
        if capturing && key == Some(ports) {
          ScheduleFlushLocked();
          edited := false;
          return false;
        }
        capturing, key, refreshing := false, None, false;
        return true;
      }
      capturing, key, refreshing, hold, cpeDown := false, None, false, false, false;
      return false;
    }

    method StartCapture(ports: Ports, loaded: Learned, down: bool)
      modifies this
      ensures State() == BeginCapture(old(State()), ports, loaded, down)
    {
      hide CurrentSig, PortsSet;
      if !PortsSet(ports) || capturing {
        return;
      }
      learned, cpeDown, hold := loaded, down, down;
      capturing, key, edited := true, Some(ports), false;
      var started := State();
      snap := CurrentSig(started);
    }
  }

  /** The learner works on a copy of the record; the supervisor stores it back. */
  method Observe(l: Learned, spare: Spare, role: Role, frame: seq<Byte>, now: int) returns (next: Learned)
    ensures LearnedAfter(l, spare, role, frame, now, next)
  {
    var cur := new Learner.From(l);
    cur.ApplyFrame(role, frame, now);
    cur.ApplySpareArp(role, frame, spare);
    next := cur.State();
  }
}
