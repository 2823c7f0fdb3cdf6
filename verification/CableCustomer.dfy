/** Whatever the learner knows about hosts comes from the customer's side of the cable, with or without
    a spare address and whatever record it starts from. */
module CableCustomer {
  import opened Net
  import opened CableState

  /** Hosts, scores and a hitched customer exist only once a customer was seen. */
  ghost predicate CustomerBehind(l: Learned) {
    l.ce.Some? || l.hosts != map[] || l.scores != map[] ==> l.customer
  }

  lemma SawHostSameCustomer(l: Learned, ip: Ipv4, mac: Mac, points: nat, now: int)
    ensures SawHost(l, ip, mac, points, now).customer == l.customer
  {
  }

  lemma LeaseSameCustomer(l: Learned, lease: Lease, now: int)
    ensures LearnLease(l, lease, now).customer == l.customer
  {
    assert LearnDhcpHost(l, lease.yiaddr, lease.chaddr, now).customer == l.customer;
  }

  /** Setting a gateway leaves the customer alone and adds no host. */
  lemma SetGwAddsNothing(l: Learned, gw: Ipv4, strong: bool)
    ensures var t := SetGw(l, gw, strong);
            && t.customer == l.customer && t.ce == l.ce
            && (t.hosts != map[] ==> l.hosts != map[]) && (t.scores != map[] ==> l.scores != map[])
  {
  }

  lemma CpeEvidenceNamesCustomer(l: Learned, mac: Mac, arp: Arp, pkt: Packet, now: int)
    ensures ArpFromCpe(l, mac, arp, now).customer
    ensures Ipv4FromCpe(l, mac, pkt, now).customer
  {
    var l0 := l.(customer := true);
    SawHostSameCustomer(l0, arp.spa, mac, if arp.request && Usable(arp.tpa) then 6 else 1, now);
    SawHostSameCustomer(l0, pkt.src, mac, 1, now);
    var l1 := if Usable(pkt.src) && l0.gw != Some(pkt.src) then SawHost(l0, pkt.src, mac, 1, now) else l0;
    if PacketLease(pkt, mac).Some? {
      LeaseSameCustomer(AnsweredBy(l1, pkt.src), PacketLease(pkt, mac).value, now);
    }
  }

  lemma IspEvidenceKeepsCustomer(l: Learned, mac: Mac, a: Arp)
    requires CustomerBehind(l)
    ensures CustomerBehind(ArpFromIsp(l, mac, a))
  {
    SetGwAddsNothing(CountMiss(l, a), a.spa, true);
    var l2 := ArpTarget(l, mac, a);
    assert CustomerBehind(l2);
    SetGwAddsNothing(l2, a.spa, false);
  }

  lemma AbsorbKeepsCustomer(l: Learned, role: Role, frame: seq<Byte>, now: int)
    requires CustomerBehind(l) && !Ignored(frame)
    ensures CustomerBehind(Absorb(l, role, frame, now))
  {
    var mac, payload := MacAt(frame, 6), frame[ETH_LEN..];
    var arp, pkt := DecodeArp(payload), DecodeIpv4(payload);
    if arp.Some? {
      IspEvidenceKeepsCustomer(l, mac, arp.value);
    }
    CpeEvidenceNamesCustomer(l, mac, if arp.Some? then arp.value else Arp(false, 0, 0),
                             if pkt.Some? then pkt.value else Packet(0, None), now);
  }

  lemma ElectedFromCustomer(l: Learned, now: int, r: Option<Ipv4>)
    requires CustomerBehind(l) && Elected(l, now, r) && r.Some?
    ensures l.customer
  {
  }

  lemma SettleKeepsCustomer(m: Learned, now: int, p: Picks)
    requires CustomerBehind(m) && PicksFor(m, now, p)
    ensures CustomerBehind(Settle(m, now, p))
  {
    hide Dead, Elected, Usable, OnLinkGw, SameSegment;
    DeadHasCustomer(m, now);
    var s1 := Demote(m, now, p.demote);
    if Dead(m, now) && p.demote.Some? {
      RetireKeepsCustomer(m);
      ElectedFromCustomer(Retire(m), now, p.demote);
    }
    assert CustomerBehind(s1);
    var s2 := FillVacancy(s1, p.vacant);
    assert CustomerBehind(s2);
    if s2.ce.None? && p.unusable.Some? {
      ElectedFromCustomer(s2, now, p.unusable);
    }
    var s3 := ReplaceUnusable(s2, p.unusable);
    assert CustomerBehind(s3);
    assert CustomerBehind(FixSegment(s3, p.segment));
  }

  lemma DeadHasCustomer(m: Learned, now: int)
    ensures Dead(m, now) ==> m.ce.Some?
  {
  }

  lemma RetireKeepsCustomer(m: Learned)
    requires CustomerBehind(m) && m.ce.Some?
    ensures CustomerBehind(Retire(m))
  {
  }

  lemma FrameKeepsCustomer(l: Learned, role: Role, frame: seq<Byte>, now: int, t: Learned)
    requires CustomerBehind(l) && FrameStep(l, role, frame, now, t)
    ensures CustomerBehind(t)
  {
    if !Ignored(frame) {
      var m := Absorb(l, role, frame, now);
      AbsorbKeepsCustomer(l, role, frame, now);
      var p :| PicksFor(m, now, p) && t == Settle(m, now, p);
      SettleKeepsCustomer(m, now, p);
    }
  }

  lemma SpareKeepsCustomer(l: Learned, role: Role, frame: seq<Byte>, spare: Spare)
    requires CustomerBehind(l)
    ensures CustomerBehind(SpareArp(l, role, frame, spare))
  {
    if |frame| >= ETH_LEN && DecodeArp(frame[ETH_LEN..]).Some? {
      var spa := DecodeArp(frame[ETH_LEN..]).value.spa;
      SetGwAddsNothing(l, spa, true);
      SetGwAddsNothing(l, spa, false);
    }
  }
}
