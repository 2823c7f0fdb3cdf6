/** Custody over every interleaving of client and staff requests. */
module CustodyTheorems {
  import opened Net
  import opened CustodyState

  /** The key is in inventory without a line, or under an active tombstone. */
  ghost predicate Lost(p: Platform, key: string) {
    Retired(p, key) || exists id :: HasKey(p, id, key) && p.devices[id].line.None?
  }

  ghost predicate KeyBound(p: Platform, key: string) {
    exists id :: HasKey(p, id, key) && p.devices[id].line.Some?
  }

  // ---- The invariant, step by step ----

  /** Changing one row to one that fits keeps everything. */
  lemma PutKeepsInv(p: Platform, id: nat, d: Device)
    requires Inv(p) && !Retired(p, d.key) && (d.line.None? <==> d.revoked.Some?)
    requires forall j :: j in p.devices && j != id ==> p.devices[j].key != d.key
    requires d.line.Some? ==>
               && d.line.value in p.lines
               && forall j :: j in p.devices && j != id ==> p.devices[j].line != d.line
    ensures Inv(Put(p, id, d))
  {
  }

  lemma DisplaceKeepsInv(p: Platform, line: nat, me: Option<nat>, h: Option<nat>, now: int)
    requires Inv(p) && Holder(p, line, me, h)
    ensures var q := Displace(p, h, now);
            && Inv(q) && q.lines == p.lines && q.tombs == p.tombs && q.devices.Keys == p.devices.Keys
            && (forall id :: id in q.devices && q.devices[id].line == Some(line) ==> me == Some(id))
            && (forall id :: id in q.devices ==> q.devices[id].key == p.devices[id].key)
            && (me.Some? && me.value in p.devices ==> q.devices[me.value] == p.devices[me.value])
  {
    match h {
      case None =>
        forall id | id in p.devices && p.devices[id].line == Some(line)
          ensures me == Some(id)
        {
          assert !OtherHolder(p, line, me, id);
        }
      case Some(id) => PutKeepsInv(p, id, Displaced(p.devices[id], now));
    }
  }

  lemma ActivateKeepsInv(p: Platform, line: nat, uuidOk: bool, key: string, id: nat, now: int, a: Answer, q: Platform)
    requires Inv(p) && Activate(p, line, uuidOk, key, id, now, a, q)
    ensures Inv(q)
  {
    if a == Ok {
      var me, h :| ActivateWith(p, line, uuidOk, key, me, h, id, now, a, q);
      DisplaceKeepsInv(p, line, me, h, now);
      var m := Displace(p, h, now);
      match me {
        case Some(i) => PutKeepsInv(m, i, Activated(m.devices[i], line));
        case None => PutKeepsInv(m, id, Device(key, Some(line), None, None, None));
      }
    }
  }

  lemma UpdateKeepsInv(p: Platform, id: nat, line: Option<Option<nat>>, now: int, a: Answer, q: Platform)
    requires Inv(p) && Update(p, id, line, now, a, q)
    ensures Inv(q)
  {
    if q != p {
      var d := p.devices[id];
      match line.value {
        case None => PutKeepsInv(p, id, d.(line := None, revoked := Some(now)));
        case Some(l) =>
          assert forall j :: !OtherHolder(p, l, Some(id), j);
          forall j | j in p.devices && j != id
            ensures p.devices[j].line != Some(l)
          {
            assert !OtherHolder(p, l, Some(id), j);
          }
          PutKeepsInv(p, id, d.(line := Some(l), revoked := None, cleared := None));
      }
    }
  }

  lemma StepKeepsInv(p: Platform, e: Event, now: int, q: Platform)
    requires Inv(p) && Step(p, e, now, q)
    ensures Inv(q)
  {
    hide Activate, Update;
    match e {
      case DoActivate(line, uuidOk, key, id) =>
        var a :| Activate(p, line, uuidOk, key, id, now, a, q);
        ActivateKeepsInv(p, line, uuidOk, key, id, now, a, q);
      case DoUpdate(dev, line) =>
        var a :| Update(p, dev, line, now, a, q);
        UpdateKeepsInv(p, dev, line, now, a, q);
      case DoReset(dev, r) =>
        if dev in p.devices {
          PutKeepsInv(p, dev, q.devices[dev]);
        }
      case DoUpgrade(dev, r) =>
        if dev in p.devices {
          PutKeepsInv(p, dev, q.devices[dev]);
        }
      case DoAck(dev, r) =>
        if q != p {
          PutKeepsInv(p, dev, q.devices[dev]);
        }
      case _ => OtherStepKeepsInv(p, e, now, q);
    }
  }

  lemma RetireKeepsInv(p: Platform, id: nat, confirm: bool, permitted: bool)
    requires Inv(p)
    ensures Inv(Retire(p, id, confirm, permitted))
  {
  }

  lemma ReclaimKeepsInv(p: Platform, key: string, id: nat, now: int, a: Answer, q: Platform)
    requires Inv(p) && Reclaim(p, key, id, now, a, q)
    ensures Inv(q)
  {
    if q != p {
      var m := p.(tombs := p.tombs[key := Some(now)]);
      assert Inv(m);
      PutKeepsInv(m, id, Device(key, None, Some(now), Some(now), None));
    }
  }

  lemma LineStepKeepsInv(p: Platform, e: Event, now: int, q: Platform)
    requires Inv(p) && Step(p, e, now, q) && (e.DoDeleteLine? || e.DoSetLine?)
    ensures Inv(q)
  {
  }

  lemma OtherStepKeepsInv(p: Platform, e: Event, now: int, q: Platform)
    requires Inv(p) && Step(p, e, now, q)
    requires e.DoRetire? || e.DoReclaim? || e.DoDeleteLine? || e.DoSetLine?
    ensures Inv(q)
  {
    hide Inv, Retire, Reclaim, DeleteLine;
    match e {
      case DoRetire(dev, confirm, permitted) => RetireKeepsInv(p, dev, confirm, permitted);
      case DoReclaim(key, id) =>
        var a :| Reclaim(p, key, id, now, a, q);
        ReclaimKeepsInv(p, key, id, now, a, q);
      case _ => LineStepKeepsInv(p, e, now, q);
    }
  }

  /** Each line is held once, keys are unique, unbound means revoked, the retired are gone: in every state. */
  lemma {:induction false} RunKeepsInv(states: seq<Platform>, events: seq<Event>, at: seq<int>, n: nat)
    requires Run(states, events, at) && n < |states| && Inv(states[0])
    ensures Inv(states[n])
  {
    hide Inv, Step;
    if n == 0 {
    } else {
      RunKeepsInv(states, events, at, n - 1);
      assert StepAt(states, events, at, n - 1);
      StepKeepsInv(states[n - 1], events[n - 1], at[n - 1], states[n]);
    }
  }

  // ---- A lost key comes back through the staff only ----

  /** A staff request gives a line to the key's device. */
  ghost predicate StaffBinds(p: Platform, e: Event, q: Platform, key: string) {
    && e.DoUpdate? && HasKey(p, e.dev, key) && HasKey(q, e.dev, key)
    && e.newLine.Some? && e.newLine.value.Some? && q.devices[e.dev].line == e.newLine.value
  }

  lemma LostIsNotBound(p: Platform, key: string)
    requires Inv(p) && Lost(p, key)
    ensures !KeyBound(p, key)
  {
  }

  lemma LostActivation(p: Platform, line: nat, uuidOk: bool, key: string, id: nat, now: int, a: Answer, q: Platform,
                       lost: string)
    requires Inv(p) && Lost(p, lost) && Activate(p, line, uuidOk, key, id, now, a, q)
    ensures Lost(q, lost)
    ensures key == lost ==> a in {BadRequest, Forbidden} && q == p
  {
    hide LinesHeldOnce, RetiredAreGone, LinesExist;
    var me, h :| ActivateWith(p, line, uuidOk, key, me, h, id, now, a, q);
    if !Retired(p, lost) {
      var l :| HasKey(p, l, lost) && p.devices[l].line.None?;
      if q != p {
        assert me != Some(l);
        assert h != Some(l);
        assert q.devices[l] == p.devices[l] && HasKey(q, l, lost);
      }
    }
  }

  lemma LostStep(p: Platform, e: Event, now: int, q: Platform, key: string)
    requires Inv(p) && Lost(p, key) && Step(p, e, now, q)
    ensures Lost(q, key) || StaffBinds(p, e, q, key)
  {
    hide Activate, Inv;
    if e.DoActivate? {
      var a :| Activate(p, e.line, e.uuidOk, e.key, e.id, now, a, q);
      LostActivation(p, e.line, e.uuidOk, e.key, e.id, now, a, q, key);
    } else if Retired(p, key) {
      RetiredStep(p, e, now, q, key);
    } else {
      var l :| HasKey(p, l, key) && p.devices[l].line.None?;
      UnboundStep(p, e, now, q, key, l);
    }
  }

  /** A retired key stays retired until it is reclaimed, and then it has no line. */
  lemma RetiredStep(p: Platform, e: Event, now: int, q: Platform, key: string)
    requires Retired(p, key) && Step(p, e, now, q) && !e.DoActivate?
    ensures Lost(q, key)
  {
    if e.DoReclaim? && e.key == key && q != p {
      assert HasKey(q, e.id, key);
    }
  }

  lemma UnboundStep(p: Platform, e: Event, now: int, q: Platform, key: string, l: nat)
    requires HasKey(p, l, key) && p.devices[l].line.None? && Step(p, e, now, q) && !e.DoActivate?
    ensures Lost(q, key) || StaffBinds(p, e, q, key)
  {
    if e.DoRetire? && l !in q.devices {
      assert Retired(q, key);
    } else {
      assert HasKey(q, l, key);
      if q.devices[l].line.Some? {
        assert e.DoUpdate? && e.dev == l;
      }
    }
  }

  /**
   * Custody. Once a key has lost its line (unbound, displaced, soft reset, retired or reclaimed), whatever
   * clients and staff do, it is bound again only after a staff request that gave its device a line.
   */
  lemma {:induction false} LostUntilStaffBinds(states: seq<Platform>, events: seq<Event>, at: seq<int>, i: nat,
                                               n: nat, key: string)
    requires Run(states, events, at) && i <= n < |states| && Inv(states[0]) && Lost(states[i], key)
    requires KeyBound(states[n], key)
    ensures exists k :: i <= k < n && StaffBinds(states[k], events[k], states[k + 1], key)
    decreases n
  {
    hide Inv, Step, Lost, KeyBound, StaffBinds;
    LostOrBoundByStaff(states, events, at, i, n, key);
    RunKeepsInv(states, events, at, n);
    if Lost(states[n], key) {
      LostIsNotBound(states[n], key);
    }
  }

  lemma {:induction false} LostOrBoundByStaff(states: seq<Platform>, events: seq<Event>, at: seq<int>, i: nat,
                                              n: nat, key: string)
    requires Run(states, events, at) && i <= n < |states| && Inv(states[0]) && Lost(states[i], key)
    ensures Lost(states[n], key) || exists k :: i <= k < n && StaffBinds(states[k], events[k], states[k + 1], key)
    decreases n
  {
    hide Inv, Step, Lost, StaffBinds;
    if i == n {
    } else {
      LostOrBoundByStaff(states, events, at, i, n - 1, key);
      if Lost(states[n - 1], key) {
        RunKeepsInv(states, events, at, n - 1);
        assert StepAt(states, events, at, n - 1);
        LostStep(states[n - 1], events[n - 1], at[n - 1], states[n], key);
      }
    }
  }

  // ---- What one activation does ----

  /** Who may take a line with its code: exactly the keys that never lost one and hold no other. */
  lemma ActivateSucceedsIff(p: Platform, line: nat, uuidOk: bool, key: string, id: nat, now: int, a: Answer,
                            q: Platform)
    requires Inv(p) && Activate(p, line, uuidOk, key, id, now, a, q)
    ensures a == Ok <==>
            && line in p.lines && p.lines[line] && uuidOk && !Lost(p, key)
            && forall i :: HasKey(p, i, key) ==> p.devices[i].line == Some(line)
  {
    var me, h :| ActivateWith(p, line, uuidOk, key, me, h, id, now, a, q);
    if me.Some? {
      assert HasKey(p, me.value, key);
    }
  }

  /** After a successful activation the line is the key's; only the earlier holder of the line changes, and
      it ends unbound and locked out of every line code. */
  lemma ActivateEffect(p: Platform, line: nat, uuidOk: bool, key: string, id: nat, now: int, q: Platform)
    requires Inv(p) && Activate(p, line, uuidOk, key, id, now, Ok, q)
    ensures exists i :: HasKey(q, i, key) && q.devices[i].line == Some(line)
    ensures forall i :: i in p.devices ==>
              && i in q.devices && q.devices[i].key == p.devices[i].key
              && (p.devices[i].key != key ==>
                  q.devices[i] ==
                  if p.devices[i].line == Some(line) then Displaced(p.devices[i], now) else p.devices[i])
    ensures forall i :: i in p.devices && p.devices[i].key != key && p.devices[i].line == Some(line) ==>
              Lost(q, p.devices[i].key)
    ensures q.lines == p.lines && q.tombs == p.tombs
  {
    hide KeysOnce, RevokedIffUnbound, RetiredAreGone, LinesExist, LinesHeldOnce, Lost, ActivateAnswer;
    var me: Option<nat>, h: Option<nat> :| ActivateWith(p, line, uuidOk, key, me, h, id, now, Ok, q);
    assert HasKey(q, if me.Some? then me.value else id, key);
    KeyGetsLine(p, line, uuidOk, key, me, h, id, now, q);
    forall j | j in p.devices
      ensures j in q.devices && q.devices[j].key == p.devices[j].key
      ensures p.devices[j].key != key ==>
                q.devices[j] == if p.devices[j].line == Some(line) then Displaced(p.devices[j], now) else p.devices[j]
    {
      HolderIsUnique(p, line, me, h, j);
    }
    forall j | j in p.devices && p.devices[j].key != key && p.devices[j].line == Some(line)
      ensures Lost(q, p.devices[j].key)
    {
      UnboundIsLost(q, j);
    }
  }

  lemma KeyGetsLine(p: Platform, line: nat, uuidOk: bool, key: string, me: Option<nat>, h: Option<nat>, id: nat,
                    now: int, q: Platform)
    requires Inv(p) && ActivateWith(p, line, uuidOk, key, me, h, id, now, Ok, q)
    ensures var i := if me.Some? then me.value else id; i in q.devices && q.devices[i].line == Some(line)
  {
  }

  lemma HolderIsUnique(p: Platform, line: nat, me: Option<nat>, h: Option<nat>, j: nat)
    requires LinesHeldOnce(p) && Holder(p, line, me, h)
    ensures j in p.devices && me != Some(j) && p.devices[j].line == Some(line) ==> h == Some(j)
    ensures h == Some(j) ==> j in p.devices && p.devices[j].line == Some(line) && me != Some(j)
  {
    if j in p.devices && me != Some(j) && p.devices[j].line == Some(line) {
      assert OtherHolder(p, line, me, j);
    }
  }

  lemma UnboundIsLost(p: Platform, id: nat)
    requires id in p.devices && p.devices[id].line.None?
    ensures Lost(p, p.devices[id].key)
  {
    assert HasKey(p, id, p.devices[id].key);
  }

  // ---- What the staff's requests do ----

  /** The other devices are as they were. */
  ghost predicate OthersKept(p: Platform, id: nat, q: Platform) {
    forall j :: j != id ==> (j in p.devices <==> j in q.devices) && (j in p.devices ==> q.devices[j] == p.devices[j])
  }

  /** No line code works for the key. */
  ghost predicate LockedOut(p: Platform, key: string) {
    forall line, uuidOk, id, now, a, q :: Activate(p, line, uuidOk, key, id, now, a, q) ==> a != Ok && q == p
  }

  lemma LostIsLockedOut(p: Platform, key: string)
    requires Inv(p) && Lost(p, key)
    ensures LockedOut(p, key)
  {
    hide Inv, Lost, Activate;
    forall line, uuidOk, id, now, a, q | Activate(p, line, uuidOk, key, id, now, a, q)
      ensures a != Ok && q == p
    {
      LostActivation(p, line, uuidOk, key, id, now, a, q, key);
    }
  }

  /** A staff update succeeds exactly for a device in inventory and a line that is absent, empty, or exists and is
      held by no other device; what is refused, and why, is exact too, and changes nothing. */
  lemma UpdateSucceedsIff(p: Platform, id: nat, line: Option<Option<nat>>, now: int, a: Answer, q: Platform)
    requires Update(p, id, line, now, a, q)
    ensures a == Ok <==>
            && id in p.devices
            && (line.Some? && line.value.Some? ==>
                  line.value.value in p.lines && forall j :: Bound(p, j, line.value.value) ==> j == id)
    ensures a == NotFound <==> id !in p.devices
    ensures a == BadRequest <==>
            id in p.devices && line.Some? && line.value.Some? && line.value.value !in p.lines
    ensures a in {Ok, NotFound, BadRequest, Conflict} && (a != Ok || line.None? ==> q == p)
  {
    if id in p.devices && line.Some? && line.value.Some? && line.value.value in p.lines {
      var l := line.value.value;
      if j :| Bound(p, j, l) && j != id {
        assert OtherHolder(p, l, Some(id), j);
      }
    }
  }

  /** Unbinding by the staff: the device has no line and is marked, its line is free, its key is lost and locked
      out of every line code, and nobody else is touched. */
  lemma UnbindEffect(p: Platform, id: nat, now: int, q: Platform)
    requires Inv(p) && id in p.devices && Update(p, id, Some(None), now, Ok, q)
    ensures var d, e := p.devices[id], q.devices;
            && id in e && e[id].key == d.key && e[id].line.None? && e[id].revoked == Some(now)
            && e[id].cleared == d.cleared && e[id].pending == d.pending
            && (d.line.Some? ==> LineFree(q, d.line.value))
            && Inv(q) && Lost(q, d.key) && LockedOut(q, d.key)
            && OthersKept(p, id, q) && q.lines == p.lines && q.tombs == p.tombs
  {
    StepKeepsInv(p, DoUpdate(id, Some(None)), now, q);
    UnboundIsLost(q, id);
    LostIsLockedOut(q, p.devices[id].key);
  }

  /** Binding by the staff: exactly this device holds the line, with its marks cleared, and its key works again. */
  lemma BindEffect(p: Platform, id: nat, line: nat, now: int, q: Platform)
    requires Inv(p) && id in p.devices && Update(p, id, Some(Some(line)), now, Ok, q)
    ensures var d, e := p.devices[id], q.devices;
            && id in e && e[id].key == d.key && e[id].revoked.None? && e[id].cleared.None? && e[id].pending == d.pending
            && (forall j :: Bound(q, j, line) <==> j == id)
            && Inv(q) && KeyBound(q, d.key)
            && OthersKept(p, id, q) && q.lines == p.lines && q.tombs == p.tombs
  {
    UpdateSucceedsIff(p, id, Some(Some(line)), now, Ok, q);
    StepKeepsInv(p, DoUpdate(id, Some(Some(line))), now, q);
    assert HasKey(q, id, p.devices[id].key);
    assert forall j :: Bound(q, j, line) && j != id ==> Bound(p, j, line);
  }

  /** Hard retirement happens exactly with confirmation and permission, for a device without a line whose code is
      wiped; its row goes, its key is retired and locked out, and nobody else is touched. */
  lemma RetireEffect(p: Platform, id: nat, confirm: bool, permitted: bool)
    requires Inv(p)
    ensures var a, q := RetireAnswer(p, id, confirm, permitted), Retire(p, id, confirm, permitted);
            && (a == Ok <==>
                confirm && permitted && id in p.devices && p.devices[id].line.None? && p.devices[id].cleared.Some?)
            && (a == NotFound <==> confirm && id !in p.devices)
            && (a == Forbidden <==> confirm && id in p.devices && !permitted)
            && (a != Ok ==> q == p)
            && (a == Ok ==>
                && id !in q.devices && OthersKept(p, id, q) && q.lines == p.lines
                && Inv(q) && Retired(q, p.devices[id].key) && LockedOut(q, p.devices[id].key)
                && forall key :: key != p.devices[id].key ==> (Retired(q, key) <==> Retired(p, key)))
  {
    if RetireAnswer(p, id, confirm, permitted) == Ok {
      var q := Retire(p, id, confirm, permitted);
      StepKeepsInv(p, DoRetire(id, confirm, permitted), 0, q);
      LostIsLockedOut(q, p.devices[id].key);
    }
  }

  /** Reclaiming works exactly for a retired key: it comes back as a device without a line, locked out until the
      staff binds it and ready to be retired again, and nobody else is touched. */
  lemma ReclaimEffect(p: Platform, key: string, id: nat, now: int, a: Answer, q: Platform)
    requires Inv(p) && Reclaim(p, key, id, now, a, q)
    ensures a == (if Retired(p, key) then Ok else NotFound) && (a != Ok ==> q == p)
    ensures a == Ok ==>
              && id !in p.devices && q.devices == p.devices[id := Device(key, None, Some(now), Some(now), None)]
              && q.lines == p.lines && q.tombs == p.tombs[key := Some(now)]
              && Inv(q) && !Retired(q, key) && Lost(q, key) && LockedOut(q, key)
              && RetireAnswer(q, id, true, true) == Ok
  {
    if a == Ok {
      StepKeepsInv(p, DoReclaim(key, id), now, q);
      assert q.devices[id].key == key;
      UnboundIsLost(q, id);
      LostIsLockedOut(q, key);
    }
  }

  /** A line goes exactly when it exists and no device holds it; its code works for nobody after that, and no
      device is touched. */
  lemma DeleteLineEffect(p: Platform, line: nat, a: Answer, q: Platform)
    requires Inv(p) && DeleteLine(p, line, a, q)
    ensures a == Ok <==> line in p.lines && forall j :: !Bound(p, j, line)
    ensures a == NotFound <==> line !in p.lines
    ensures a in {Ok, NotFound, BadRequest} && (a != Ok ==> q == p)
    ensures a == Ok ==>
              && Inv(q) && q.devices == p.devices && q.tombs == p.tombs && q.lines == p.lines - {line}
              && forall uuidOk, key, id, now, b, r :: Activate(q, line, uuidOk, key, id, now, b, r) ==>
                   b == BadRequest && r == q
  {
    if line in p.lines && !LineFree(p, line) {
      var j :| j in p.devices && p.devices[j].line == Some(line);
      assert Bound(p, j, line);
    }
    if a == Ok {
      StepKeepsInv(p, DoDeleteLine(line), 0, q);
    }
  }

  // ---- Soft reset, upgrade and their acknowledgements ----

  /**
   * A soft reset takes the line away and keeps it away: the line is free for others, no line code works for
   * the key any more, the device may be retired, and nobody else is touched.
   */
  lemma SoftResetLocksOut(p: Platform, id: nat, requestId: string, now: int)
    requires Inv(p) && id in p.devices
    ensures var q, d := ResetSoft(p, id, requestId, now), p.devices[id];
            && Inv(q) && Lost(q, d.key) && RetireAnswer(q, id, true, true) == Ok
            && (d.line.Some? ==> LineFree(q, d.line.value))
            && q.lines == p.lines && q.tombs == p.tombs
            && (forall j :: j in p.devices && j != id ==> j in q.devices && q.devices[j] == p.devices[j])
            && forall line, uuidOk, newId, at, a, r :: Activate(q, line, uuidOk, d.key, newId, at, a, r) ==>
                 a != Ok && r == q
  {
    var q, d := ResetSoft(p, id, requestId, now), p.devices[id];
    StepKeepsInv(p, DoReset(id, requestId), now, q);
    assert HasKey(q, id, d.key);
    hide Activate, Inv, Lost;
    forall line, uuidOk, newId, at, a, r | Activate(q, line, uuidOk, d.key, newId, at, a, r)
      ensures a != Ok && r == q
    {
      LostActivation(q, line, uuidOk, d.key, newId, at, a, r, d.key);
    }
  }

  /** The acknowledgement of a soft reset confirms the wiped code with its own time and ends the command. */
  lemma SoftResetAcknowledged(p: Platform, id: nat, requestId: string, now: int, later: int)
    requires id in p.devices && requestId != ""
    ensures var q := Acknowledge(ResetSoft(p, id, requestId, now), id, requestId, later);
            q.devices[id] == p.devices[id].(line := None, revoked := Some(now), cleared := Some(later), pending := None)
  {
  }

  /** There is one command at a time: an upgrade queued after a soft reset replaces its command, so the reset
      is never acknowledged any more, the upgrade can be, and the mark the reset left stays as it was. */
  lemma UpgradeSupersedesReset(p: Platform, id: nat, reset: string, upgrade: string, now: int, later: int)
    requires id in p.devices && reset != upgrade && upgrade != ""
    ensures var q := QueueUpgrade(ResetSoft(p, id, reset, now), id, upgrade);
            && Acknowledge(q, id, reset, later) == q
            && Acknowledge(q, id, upgrade, later).devices[id].pending == None
            && Acknowledge(q, id, upgrade, later).devices[id].cleared == Some(now)
            && Acknowledge(q, id, upgrade, later).devices[id].line == None
  {
  }
}
