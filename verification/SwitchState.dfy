/**
 * The two-phase proxy-mode switch. A switch is staged with everything it replaces, runs unconfirmed for
 * a bounded time, and is then committed or undone. Every persisted file is a field; a missing file is
 * `None`. Times are nanoseconds.
 */
module SwitchState {
  import opened Net
  import opened Text
  import opened Cidrs
  import Cable = CableState

  const SECOND := 1_000_000_000

  datatype Mode = Gateway | Bypass | Transparent

  // ---- What is persisted ----

  datatype WanValue = Flag(on: bool) | Str(text: string) | Addr(ip: Ipv4) | Mask(len: PrefixLength)

  type Wan = map<string, WanValue>

  datatype Ports = Ports(isp: string, cpe: string)

  datatype Dns = Dns(enabled: bool, exclude: seq<string>, vip: string)

  datatype SpareConfig = SpareConfig(ip: Option<Ipv4>, prefix: nat, gateway: Option<Ipv4>)

  datatype Files = Files(hosts: Option<seq<Cidr>>, wan: Option<Wan>, ports: Option<Ports>, dns: Option<Dns>,
                         spare: Option<SpareConfig>)

  /** What the files read as, defaults included. */
  datatype Settings = Settings(hosts: seq<Cidr>, wan: Wan, ports: Ports, dns: Dns, spare: SpareConfig)

  const DEFAULT_WAN: Wan := map["enabled" := Flag(true), "mode" := Str("dhcp")]
  const DEFAULT_VIP := "172.31.253.53"

  function OrElse<T>(o: Option<T>, d: T): T {
    if o.Some? then o.value else d
  }

  function Loaded(f: Files): Settings {
    Settings(OrElse(f.hosts, []), OrElse(f.wan, DEFAULT_WAN), OrElse(f.ports, Ports("", "")),
             OrElse(f.dns, Dns(true, [], DEFAULT_VIP)), OrElse(f.spare, SpareConfig(None, 0, None)))
  }

  datatype Pending = Pending(token: string, from: Mode, to: Mode, expires: int, before: Settings)

  /** `env` is the dataplane mode, `uci` the WAN configuration last applied, `timer` the armed deadline. */
  datatype Switch = Switch(committed: Option<Mode>, pending: Option<Pending>, files: Files,
                           env: Mode, uci: Option<Wan>, timer: Option<int>)

  /** Which writes and external commands fail. */
  datatype Faults = Faults(hosts: bool, wan: bool, ports: bool, dns: bool, spare: bool, uci: bool, mode: bool)

  // ---- Reading the state ----

  function CommittedMode(s: Switch): Mode {
    OrElse(s.committed, s.env)
  }

  predicate Expired(p: Pending, now: int) {
    now >= p.expires
  }

  /** The mode the dataplane follows: an unexpired switch, then the committed one, then the environment. */
  function LiveMode(s: Switch, now: int): Mode {
    if s.pending.Some? && !Expired(s.pending.value, now) then s.pending.value.to else CommittedMode(s)
  }

  function ClampTimeout(sec: int): (r: int)
    ensures 30 <= r <= 600
  {
    if sec <= 0 then 120 else if sec < 30 then 30 else if sec > 600 then 600 else sec
  }

  /** The deadline, cut to whole seconds by its textual form. */
  function Deadline(now: int, sec: int): int {
    (now + ClampTimeout(sec) * SECOND) / SECOND * SECOND
  }

  function ArmAt(p: Pending, now: int): int {
    if p.expires < now then now else p.expires
  }

  // ---- Requests ----

  datatype WanRequest = WanRequest(isStatic: bool, address: Option<Ipv4>, mask: Option<PrefixLength>,
                                   gateway: Option<Ipv4>, iface: string)

  datatype Lan = NoLan | BadLan | Lan(net: Cidr)

  /** `hosts` is `None` for text that does not parse; `token` is the fresh random token. */
  datatype Request = Request(mode: Mode, wan: WanRequest, hosts: Option<seq<Cidr>>, timeout: int, ports: Ports,
                             hijack: Option<bool>, exclude: Option<seq<string>>, vip: string,
                             spare: Option<SpareConfig>, token: string)

  /** What the surroundings answer: management LAN, its bridge members, the WAN mode the system runs, and
      the reserved DNS address the resolver picks. */
  datatype World = World(lan: Lan, lanIface: string, members: set<string>, uciStatic: bool, pickedVip: Option<string>)

  const RESERVED: set<string> := {"lo", "gfctun", "gfc-ce", "gfc-ce-fwd", "gfc-dns", "br-trans"}

  predicate IfaceChar(c: char) {
    'a' <= c <= 'z' || 'A' <= c <= 'Z' || '0' <= c <= '9'
  }

  predicate IfaceName(n: string) {
    && 1 <= |n| <= 15 && IfaceChar(n[0])
    && forall i :: 0 < i < |n| ==> IfaceChar(n[i]) || n[i] == '.' || n[i] == '_' || n[i] == '-'
  }

  predicate PortOk(n: string, w: World) {
    IfaceName(n) && n !in RESERVED && n != w.lanIface && n !in w.members
  }

  predicate ValidSpare(s: SpareConfig, w: World) {
    s.ip.Some? ==>
      && Cable.Usable(s.ip.value) && 1 <= s.prefix <= 32
      && !(w.lan.Lan? && Contains(w.lan.net, s.ip.value))
      && (s.gateway.Some? ==> Cable.Usable(s.gateway.value) && s.gateway != s.ip)
  }

  predicate ValidBypass(req: Request, w: World) {
    && req.hosts.Some? && req.hosts.value != [] && req.wan.isStatic
    && req.wan.address.Some? && req.wan.mask.Some? && req.wan.gateway.Some?
    && var net := Cidr(req.wan.address.value, req.wan.mask.value);
    && Contains(net, req.wan.gateway.value) && !w.lan.BadLan?
    && (w.lan.Lan? ==> !Overlap(net, w.lan.net) && forall h :: h in req.hosts.value ==> !Overlap(h, w.lan.net))
  }

  predicate Valid(req: Request, w: World) {
    match req.mode
    case Gateway => true
    case Bypass => ValidBypass(req, w)
    case Transparent =>
      && PortOk(req.ports.isp, w) && PortOk(req.ports.cpe, w) && req.ports.isp != req.ports.cpe
      && (req.spare.Some? ==> ValidSpare(req.spare.value, w))
  }

  // ---- Undoing ----

  function Put<T>(file: Option<T>, value: T, fails: bool): Option<T> {
    if fails then file else Some(value)
  }

  /** The three files whose write errors are ignored. */
  function RestoreQuiet(f: Files, b: Settings, x: Faults): Files {
    f.(ports := Put(f.ports, b.ports, x.ports), dns := Put(f.dns, b.dns, x.dns),
       spare := Put(f.spare, b.spare, x.spare))
  }

  predicate WanKept(b: Settings, stored: bool) {
    stored && b.wan == map[]
  }

  predicate RestoreWorks(b: Settings, stored: bool, x: Faults) {
    !(b.hosts != [] && x.hosts) && !(!WanKept(b, stored) && x.wan)
  }

  /** Puts the files back. Empty hosts are never put back, an empty WAN record only when the record has
      not been through its stored form; the first failing write of the two ends the restore. */
  function RestoreFiles(f: Files, b: Settings, stored: bool, x: Faults): Files {
    if b.hosts != [] && x.hosts then f
    else
      var f1 := if b.hosts != [] then f.(hosts := Some(b.hosts)) else f;
      if WanKept(b, stored) then RestoreQuiet(f1, b, x)
      else if x.wan then f1
      else RestoreQuiet(f1.(wan := Some(b.wan)), b, x)
  }

  function ApplyUci(uci: Option<Wan>, wan: Wan, fails: bool): Option<Wan> {
    if fails then uci else Some(wan)
  }

  predicate UndoWorks(p: Pending, x: Faults) {
    RestoreWorks(p.before, true, x) && !(p.before.wan != map[] && x.uci) && !x.mode
  }

  /** Every step is tried; the record stays when one of them fails. */
  function Rollback(s: Switch, x: Faults): Switch {
    if s.pending.None? then s
    else
      var p := s.pending.value;
      s.(timer := None,
         files := RestoreFiles(s.files, p.before, true, x),
         uci := if p.before.wan == map[] then s.uci else ApplyUci(s.uci, p.before.wan, x.uci),
         env := if x.mode then s.env else p.from,
         pending := if UndoWorks(p, x) then None else s.pending)
  }

  function ExpireFirst(s: Switch, now: int, x: Faults): Switch {
    if s.pending.Some? && Expired(s.pending.value, now) then Rollback(s, x) else s
  }

  // ---- Staging ----

  predicate WanStatic(w: Wan) {
    "mode" in w && w["mode"].Str? && ToLower(TrimSpace(w["mode"].text)) == "static"
  }

  /** A static WAN that gateway mode must clear. */
  predicate MustRestoreWan(from: Mode, wan: Wan, w: World) {
    !from.Gateway? || WanStatic(wan) || w.uciStatic
  }

  const CLEARED: set<string> := {"address", "netmask", "gateway", "dns1", "dns2", "username", "password",
                                 "pppoeUsername", "pppoe_username", "pppoePassword", "pppoe_password"}

  function GatewayWan(wan: Wan): Wan {
    wan["enabled" := Flag(true)]["mode" := Str("dhcp")] + map k | k in CLEARED :: Str("")
  }

  function BypassWan(wan: Wan, r: WanRequest): Wan
    requires r.address.Some? && r.mask.Some? && r.gateway.Some?
  {
    var m := wan["enabled" := Flag(true)]["mode" := Str("static")]["address" := Addr(r.address.value)]
                ["netmask" := Mask(r.mask.value)]["gateway" := Addr(r.gateway.value)];
    if r.iface != "" then m["interface" := Str(r.iface)] else m
  }

  predicate ChangesWan(req: Request, from: Mode, wan: Wan, w: World) {
    req.mode.Bypass? || (req.mode.Gateway? && MustRestoreWan(from, wan, w))
  }

  function StagedDns(req: Request, w: World, d: Dns): Option<Dns> {
    var d1 := Dns(OrElse(req.hijack, d.enabled), OrElse(req.exclude, d.exclude),
                  if req.vip != "" then req.vip else d.vip);
    if req.mode != Transparent then Some(d1)
    else if w.pickedVip.None? then None
    else Some(d1.(vip := w.pickedVip.value))
  }

  /** The settings the switch is going to run with. */
  function Staged(req: Request, w: World, from: Mode, b: Settings, dns: Dns): Settings
    requires Valid(req, w)
  {
    Settings(
      if req.mode.Bypass? then req.hosts.value else b.hosts,
      if req.mode.Bypass? then BypassWan(b.wan, req.wan)
      else if req.mode.Gateway? && MustRestoreWan(from, b.wan, w) then GatewayWan(b.wan) else b.wan,
      if req.mode.Transparent? then req.ports else b.ports,
      dns,
      if req.mode.Transparent? then OrElse(req.spare, b.spare) else b.spare)
  }

  predicate StageWorks(transparent: bool, wan: bool, x: Faults) {
    !x.hosts && !x.dns && !(transparent && (x.ports || x.spare)) && !(wan && x.wan)
  }

  /** Writes the staged settings in order, up to the first failing write. */
  function StageFiles(f: Files, a: Settings, transparent: bool, wan: bool, x: Faults): Files {
    if x.hosts then f
    else
      var f1 := f.(hosts := Some(a.hosts));
      if x.dns then f1
      else
        var f2 := f1.(dns := Some(a.dns));
        if transparent && x.ports then f2
        else
          var f3 := if transparent then f2.(ports := Some(a.ports)) else f2;
          if transparent && x.spare then f3
          else
            var f4 := if transparent then f3.(spare := Some(a.spare)) else f3;
            if wan && !x.wan then f4.(wan := Some(a.wan)) else f4
  }

  datatype Outcome = Invalid | RollbackIncomplete | Unchanged | Busy | NoVip | WriteFailed | PlaneFailed | Switched

  /** A switch that cannot be staged is undone at once, from the record in memory. */
  function UnStage(s: Switch, p: Pending, undo: Faults): Switch {
    s.(files := RestoreFiles(s.files, p.before, false, undo), pending := None)
  }

  function FailPlane(s: Switch, p: Pending, undo: Faults): Switch {
    UnStage(s, p, undo).(uci := ApplyUci(s.uci, p.before.wan, undo.uci), timer := None,
                         env := if undo.mode then s.env else p.from)
  }

  /** The part of a request that runs once no earlier switch is in the way. */
  function StageSwitch(s: Switch, req: Request, w: World, now: int, x: Faults, undo: Faults): (Switch, Outcome)
    requires Valid(req, w)
  {
    var from, b := CommittedMode(s), Loaded(s.files);
    var dns := StagedDns(req, w, b.dns);
    if dns.None? then (s, NoVip)
    else
      var p := Pending(req.token, from, req.mode, Deadline(now, req.timeout), b);
      var a := Staged(req, w, from, b, dns.value);
      var wan := ChangesWan(req, from, b.wan, w);
      var t := s.(pending := Some(p), files := StageFiles(s.files, a, req.mode.Transparent?, wan, x));
      if !StageWorks(req.mode.Transparent?, wan, x) then (UnStage(t, p, undo), WriteFailed)
      else
        var armed := t.(timer := Some(ArmAt(p, now)));
        if x.mode then (FailPlane(armed, p, undo), PlaneFailed) else (armed.(env := req.mode), Switched)
  }

  function Apply(s: Switch, req: Request, w: World, now: int, expiry: Faults, x: Faults, undo: Faults)
    : (Switch, Outcome)
  {
    if !Valid(req, w) then (s, Invalid)
    else
      var s1 := ExpireFirst(s, now, expiry);
      if s.pending.Some? && Expired(s.pending.value, now) && s1.pending.Some? then (s1, RollbackIncomplete)
      else if req.mode.Gateway? && CommittedMode(s1).Gateway? && req.hijack.None? && s1.pending.None?
           && !MustRestoreWan(CommittedMode(s1), Loaded(s1.files).wan, w) then (s1, Unchanged)
      else if s1.pending.Some? then (s1, Busy)
      else StageSwitch(s1, req, w, now, x, undo)
  }

  // ---- Confirming and resuming ----

  datatype Answer = Confirmed | NonePending | TooLate | WrongToken

  predicate Accepts(s: Switch, token: string, now: int) {
    s.pending.Some? && !Expired(s.pending.value, now) && (token == "" || token == s.pending.value.token)
  }

  function Confirm(s: Switch, token: string, now: int, x: Faults): (Switch, Answer) {
    if s.pending.None? then (s, NonePending)
    else
      var p := s.pending.value;
      if Expired(p, now) then (Rollback(s, x), TooLate)
      else if token != "" && token != p.token then (s, WrongToken)
      else (s.(committed := Some(p.to), timer := None, pending := None, env := if x.mode then s.env else p.to),
            Confirmed)
  }

  /** A fresh process has no timer and takes its mode from the environment it is started with. */
  function Restart(s: Switch, env: Mode): Switch {
    s.(timer := None, env := env)
  }

  function Resume(s: Switch, now: int, x: Faults): Switch {
    if s.pending.None? then s
    else
      var p := s.pending.value;
      if Expired(p, now) then Rollback(s, x)
      else s.(env := if x.mode then s.env else p.to, timer := Some(ArmAt(p, now)))
  }

  // ---- Runs ----

  /** `Undo` is a manual rollback or a timer callback. A callback may run at any time after its timer was
      armed, even one that was stopped too late, so it is not tied to the deadline. */
  datatype Event =
    | DoApply(req: Request, world: World, expiry: Faults, x: Faults, undo: Faults)
    | DoConfirm(token: string, cx: Faults)
    | Undo(ux: Faults)
    | AskStatus(sx: Faults)
    | Reboot(env: Mode, rx: Faults)

  function Step(s: Switch, e: Event, now: int): Switch {
    match e
    case DoApply(req, w, expiry, x, undo) => Apply(s, req, w, now, expiry, x, undo).0
    case DoConfirm(token, x) => Confirm(s, token, now, x).0
    case Undo(x) => Rollback(s, x)
    case AskStatus(x) => ExpireFirst(s, now, x)
    case Reboot(env, x) => Resume(Restart(s, env), now, x)
  }

  /** The state after the first `n` events; `at[i]` is the clock at event `i`. */
  function After(s: Switch, events: seq<Event>, at: seq<int>, n: nat): Switch
    requires n <= |events| == |at|
  {
    if n == 0 then s else Step(After(s, events, at, n - 1), events[n - 1], at[n - 1])
  }
}
