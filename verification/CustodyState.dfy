/**
 * Client devices on the control plane: who is bound to which line, who lost the right to bind itself,
 * and who is retired. Every request is one transaction; requests interleave freely.
 */
module CustodyState {
  import opened Net

  datatype Action = SoftReset | Upgrade

  datatype Command = Command(action: Action, requestId: string)

  /** `revoked` is the time the binding was taken away, `cleared` the time the line code was wiped. */
  datatype Device = Device(key: string, line: Option<nat>, revoked: Option<int>, cleared: Option<int>,
                           pending: Option<Command>)

  /** `lines` says which lines exist and are enabled; a tombstone holds the time it was reclaimed, if it was. */
  datatype Platform = Platform(devices: map<nat, Device>, lines: map<nat, bool>, tombs: map<string, Option<int>>)

  datatype Answer = Ok | BadRequest | Forbidden | NotFound | Conflict

  predicate Retired(p: Platform, key: string) {
    key in p.tombs && p.tombs[key].None?
  }

  // ---- Finding rows ----

  ghost predicate Bound(p: Platform, id: nat, line: nat) {
    id in p.devices && p.devices[id].line == Some(line)
  }

  ghost predicate HasKey(p: Platform, id: nat, key: string) {
    id in p.devices && p.devices[id].key == key
  }

  ghost predicate KeyFree(p: Platform, key: string) {
    forall id :: id in p.devices ==> p.devices[id].key != key
  }

  ghost predicate LineFree(p: Platform, line: nat) {
    forall id :: id in p.devices ==> p.devices[id].line != Some(line)
  }

  function Put(p: Platform, id: nat, d: Device): Platform {
    p.(devices := p.devices[id := d])
  }

  // ---- What keeps the tables consistent ----

  ghost predicate LinesHeldOnce(p: Platform) {
    forall i, j :: i in p.devices && j in p.devices && i != j && p.devices[i].line.Some? ==>
        p.devices[i].line != p.devices[j].line
  }

  ghost predicate KeysOnce(p: Platform) {
    forall i, j :: i in p.devices && j in p.devices && i != j ==> p.devices[i].key != p.devices[j].key
  }

  /** A device is without a line exactly when its binding is marked as revoked. */
  ghost predicate RevokedIffUnbound(p: Platform) {
    forall i :: i in p.devices ==> (p.devices[i].line.None? <==> p.devices[i].revoked.Some?)
  }

  ghost predicate RetiredAreGone(p: Platform) {
    forall i :: i in p.devices ==> !Retired(p, p.devices[i].key)
  }

  ghost predicate LinesExist(p: Platform) {
    forall i :: i in p.devices && p.devices[i].line.Some? ==> p.devices[i].line.value in p.lines
  }

  ghost predicate Inv(p: Platform) {
    LinesHeldOnce(p) && KeysOnce(p) && RevokedIffUnbound(p) && RetiredAreGone(p) && LinesExist(p)
  }

  // ---- Activation by line code ----

  /** The device loses its line to another one that presents the line's code. */
  function Displaced(d: Device, now: int): Device {
    d.(line := None, revoked := Some(now))
  }

  /** A device other than `me` that holds the line. */
  ghost predicate OtherHolder(p: Platform, line: nat, me: Option<nat>, id: nat) {
    Bound(p, id, line) && me != Some(id)
  }

  ghost predicate Holder(p: Platform, line: nat, me: Option<nat>, h: Option<nat>) {
    match h
    case None => forall id :: !OtherHolder(p, line, me, id)
    case Some(id) => OtherHolder(p, line, me, id)
  }

  function Displace(p: Platform, h: Option<nat>, now: int): Platform
    requires h.Some? ==> h.value in p.devices
  {
    if h.None? then p else Put(p, h.value, Displaced(p.devices[h.value], now))
  }

  function Activated(d: Device, line: nat): Device {
    d.(line := if d.line.None? then Some(line) else d.line, revoked := None, cleared := None)
  }

  /** The row a key has, if any. */
  ghost predicate RowOf(p: Platform, key: string, me: Option<nat>) {
    match me
    case None => KeyFree(p, key)
    case Some(id) => HasKey(p, id, key)
  }

  function ActivateAnswer(p: Platform, line: nat, uuidOk: bool, key: string, me: Option<nat>): Answer
    requires me.Some? ==> me.value in p.devices
  {
    if line !in p.lines || !p.lines[line] || !uuidOk then BadRequest
    else if Retired(p, key) then Forbidden
    else if me.Some? && p.devices[me.value].revoked.Some? && p.devices[me.value].line.None? then Forbidden
    else if me.Some? && p.devices[me.value].line.Some? && p.devices[me.value].line != Some(line) then Conflict
    else Ok
  }

  function Bind(p: Platform, line: nat, key: string, me: Option<nat>, id: nat): Platform
    requires me.Some? ==> me.value in p.devices
  {
    match me
    case Some(i) => Put(p, i, Activated(p.devices[i], line))
    case None => Put(p, id, Device(key, Some(line), None, None, None))
  }

  /** `id` is the fresh row number a new device gets. */
  ghost predicate Activate(p: Platform, line: nat, uuidOk: bool, key: string, id: nat, now: int,
                           a: Answer, q: Platform) {
    exists me, h :: ActivateWith(p, line, uuidOk, key, me, h, id, now, a, q)
  }

  /** Activation with the row the key has and the line's other holder. */
  ghost predicate ActivateWith(p: Platform, line: nat, uuidOk: bool, key: string, me: Option<nat>, h: Option<nat>,
                               id: nat, now: int, a: Answer, q: Platform) {
    && RowOf(p, key, me) && Holder(p, line, me, h) && a == ActivateAnswer(p, line, uuidOk, key, me)
    && if a != Ok then q == p else id !in p.devices && q == Bind(Displace(p, h, now), line, key, me, id)
  }

  // ---- Requests of the staff, and the device's acknowledgement ----

  /** A change of the line needs a free line; `None` inside `Some` unbinds. */
  ghost predicate Update(p: Platform, id: nat, line: Option<Option<nat>>, now: int, a: Answer, q: Platform) {
    if id !in p.devices then a == NotFound && q == p
    else
      var d := p.devices[id];
      match line
      case None => a == Ok && q == p
      case Some(None) => a == Ok && q == Put(p, id, d.(line := None, revoked := Some(now)))
      case Some(Some(l)) =>
        if l !in p.lines then a == BadRequest && q == p
        else if exists j :: OtherHolder(p, l, Some(id), j) then a == Conflict && q == p
        else a == Ok && q == Put(p, id, d.(line := Some(l), revoked := None, cleared := None))
  }

  function ResetSoft(p: Platform, id: nat, requestId: string, now: int): Platform {
    if id !in p.devices then p
    else Put(p, id, p.devices[id].(line := None, revoked := Some(now), cleared := Some(now),
                                   pending := Some(Command(SoftReset, requestId))))
  }

  function QueueUpgrade(p: Platform, id: nat, requestId: string): Platform {
    if id !in p.devices then p else Put(p, id, p.devices[id].(pending := Some(Command(Upgrade, requestId))))
  }

  function Acknowledge(p: Platform, id: nat, ackId: string, now: int): Platform {
    if id !in p.devices || p.devices[id].pending.None? then p
    else if ackId == "" || ackId != p.devices[id].pending.value.requestId then p
    else
      var d := p.devices[id];
      Put(p, id, d.(pending := None, cleared := if d.pending.value.action.SoftReset? then Some(now) else d.cleared))
  }

  function RetireAnswer(p: Platform, id: nat, confirm: bool, permitted: bool): Answer {
    if !confirm then BadRequest
    else if id !in p.devices then NotFound
    else if !permitted then Forbidden
    else if p.devices[id].line.Some? || p.devices[id].cleared.None? then BadRequest
    else Ok
  }

  /** Hard retirement: the row goes, an active tombstone stays. */
  function Retire(p: Platform, id: nat, confirm: bool, permitted: bool): Platform {
    if RetireAnswer(p, id, confirm, permitted) != Ok then p
    else p.(devices := p.devices - {id}, tombs := p.tombs[p.devices[id].key := None])
  }

  ghost predicate Reclaim(p: Platform, key: string, id: nat, now: int, a: Answer, q: Platform) {
    if !Retired(p, key) then a == NotFound && q == p
    else if !KeyFree(p, key) then a == Conflict && q == p
    else
      && a == Ok && id !in p.devices
      && q == Put(p, id, Device(key, None, Some(now), Some(now), None)).(tombs := p.tombs[key := Some(now)])
  }

  ghost predicate DeleteLine(p: Platform, line: nat, a: Answer, q: Platform) {
    if line !in p.lines then a == NotFound && q == p
    else if !LineFree(p, line) then a == BadRequest && q == p
    else a == Ok && q == p.(lines := p.lines - {line})
  }

  // ---- Runs ----

  datatype Event =
    | DoActivate(line: nat, uuidOk: bool, key: string, id: nat)
    | DoUpdate(dev: nat, newLine: Option<Option<nat>>)
    | DoReset(dev: nat, requestId: string)
    | DoUpgrade(dev: nat, requestId: string)
    | DoAck(dev: nat, ackId: string)
    | DoRetire(dev: nat, confirm: bool, permitted: bool)
    | DoReclaim(key: string, id: nat)
    | DoDeleteLine(line: nat)
    | DoSetLine(line: nat, enabled: bool)

  ghost predicate Step(p: Platform, e: Event, now: int, q: Platform) {
    match e
    case DoActivate(line, uuidOk, key, id) => exists a :: Activate(p, line, uuidOk, key, id, now, a, q)
    case DoUpdate(dev, line) => exists a :: Update(p, dev, line, now, a, q)
    case DoReset(dev, r) => q == ResetSoft(p, dev, r, now)
    case DoUpgrade(dev, r) => q == QueueUpgrade(p, dev, r)
    case DoAck(dev, r) => q == Acknowledge(p, dev, r, now)
    case DoRetire(dev, confirm, permitted) => q == Retire(p, dev, confirm, permitted)
    case DoReclaim(key, id) => exists a :: Reclaim(p, key, id, now, a, q)
    case DoDeleteLine(line) => exists a :: DeleteLine(p, line, a, q)
    case DoSetLine(line, enabled) => q == p.(lines := p.lines[line := enabled])
  }

  ghost predicate StepAt(states: seq<Platform>, events: seq<Event>, at: seq<int>, i: nat)
    requires i < |events| == |at| && |states| == |events| + 1
  {
    Step(states[i], events[i], at[i], states[i + 1])
  }

  ghost predicate Run(states: seq<Platform>, events: seq<Event>, at: seq<int>) {
    && |at| == |events| && |states| == |events| + 1
    && forall i :: 0 <= i < |events| ==> StepAt(states, events, at, i)
  }
}
