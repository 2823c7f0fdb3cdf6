# Verified model of the GFC edge client and its control plane

This project models the parts of the system whose correctness spans many steps, and proves what they are
for. Five components are covered.

**The transparent cable** (`Cable*.dfy`, `Supervisor*.dfy`). The box sits on a cable between a customer's
router and the provider and learns both from the frames that pass: the customer edge (CE) it borrows the
address of, the gateway, the provider-edge MAC, the hosts seen on the cable. `CableState` is the learner as a
function of its record, with elections as relations because they range over maps in arbitrary order;
`CableLearner` is the same learner as a class that updates the record in place; `CableFrames`, `CableSightings`,
`CableGateway` and `CableElections` prove what the octets of a frame teach it; the other files prove what every run keeps. The
supervisor turns the record into a borrowed identity (the customer, or a spare address),
and flushes snapshots through timers that may fire at any moment, even after they were stopped.

**User policy routing** (`Cidrs`, `DomainNames`, `Policies`, `Nft`, `PolicyCompiler`, `PolicyAgreement`,
`PolicyCustomers`, `DnsMessages`, `DnsReplies`, `SnoopFilter`). User policies are compiled to nftables rules, while a probe evaluates them
directly. The compiled chains are run by a small interpreter and compared with the probe, for packets of the
management LAN and for customers of the bypass and transparent modes. Around it: the
shadowing analysis, the decoder of DNS replies that fills domain sets, and the packet filter in front of it.

**The proxy-mode switch** (`Switch*.dfy`). A switch of the operating mode is staged with everything it
replaces, runs unconfirmed for a bounded time, and is then committed or rolled back, by a request, by its timer
or after a restart, and also when a rollback fails in part.

**The resolver lists** (`Text`, `Ipv4Text`, `Unbound*.dfy`, `ZoneIndex`). Three operator lists are kept as
text and as generated resolver configuration, with a printer and a parser for each form, an audit that keeps
a domain out of two lists, and a suffix index for the large domestic zone list.

**The control plane** (`Custody*.dfy`, `FlowBuckets`). Which device holds which line, who lost the right to
bind itself and who is retired; and the downsampling of traffic rows.

Most imperative operations of the program are methods proved equal to specification functions; the lemmas
below are about those functions, so they hold of the methods. Where an election or a query may return any of
several rows, the specification is a relation.

Some of the obvious claims are false of the code. For each, the project proves exactly when it holds and gives
an input or a run on which it fails:

- An active policy can be pre-empted, exactly when an earlier enabled policy has a destination of the other
  kind (prefix against domain), a common source, and a destination past the safety rail
  (`ActivePreemptedIff`, `ActiveIsPreempted`).
- The kernel and the probe disagree on a LAN packet exactly in two cases (`KernelAgreesWithProbe`): what the
  kernel never steers (an exempt port, the LAN's own prefix, and outside gateway mode the tunnel and the
  box itself) while the probe answers proxy; and, in split mode past the rail and all policies, a CN
  destination that only the dynamic set holds (`UnsteeredDisagreementHappens`, `DivergenceHappens`).
- For customers the user policies come before the exempt ports, so a policy steers their DNS and NTP, which it
  never does for the LAN; `CustomerAgreesIff` says exactly when kernel and probe agree on a customer's packet.
- Two group ids can share one nft set (`SetNamesCollide`); a set matches its own group's addresses exactly
  when the last group written under that name has the same addresses (`SetHoldsGroupIff`).
- A flush is always outstanding for a changed record (`NoLostUpdate`), but a changed identity can be lost: it
  differs from the snapshot and nothing is going to flush it. That happens exactly when the spare settings or
  the box's own MAC change unannounced after everything had been flushed and so change the identity; and it
  lasts exactly until a change that the supervisor sees, a notification, or a change back (`LostIdentityIff`,
  `LostIdentityOverRun`, `IdentityLossHappens`).
- A spare-address ARP can put a gateway off the customer's segment into an empty slot
  (`SpareArpKeepsInvariantIff`, `SpareArpBreaksInvariant`).
- The TTL of a DNS reply is not the minimum when a record before the last has TTL 0
  and the last one has not (`ReplyTtlIsMinimumIff`, `ZeroTtlIsForgotten`). A reply about a name of 127 labels,
  which the protocol allows, is dropped when its records point back at the name (`ReplyRoundTripIff`).
- Rollback does not put back an empty host list after a switch to bypass, nor an empty WAN record that the
  switch wrote; and it clears its record even when ports, DNS or spare settings could not be written, which
  then stay replaced exactly when the switch changed them and no attempt of the run put them back
  (`RollbackUndoesSwitch`, `UnnoticedLossHappens`). A request that fails undoes itself once and forgets, with
  the exact result in `FailedSwitchUndoneIff`.
- A pending switch does not always have its timer: exactly when a rollback was tried and failed since the request
  or the last restart, nothing rolls it back by itself (`PendingIsArmed`, `FailedUndoDisarms`).
- A list line that spells a domain with two trailing dots is stored with one and read back with none, which
  can put one domain into two lists (`ExclusionKeptIff`, `DoubleDotBreaksExclusion`).
- The slice at the end of the traffic downsampling loses traffic exactly when some row that lies
  `maxPoints` windows or more after the first carries any (`SliceConservesIff`), at most one bucket per
  started sixty points (`SliceDropsFew`), and it does happen (`SliceLosesTraffic`).

## Model

| member | source | states |
|---|---|---|
| `CableTheorems.FrameKeepsInv` | gfc-client/internal/transparent/learn.go:38-82 | every frame keeps the learner's invariant: customer and gateway are usable addresses, distinct, on one /24 and of one privacy class; a PE MAC needs a gateway; a strong gateway is no host; and with both known the next hop does not move |
| `CableTheorems.RunKeepsInv` | gfc-client/internal/transparent/learn.go:38-82 | the invariant holds in every state of every run from the empty record |
| `CableTheorems.NextHopFrozen` | gfc-client/internal/transparent/learn.go:166-197 | the next hop never rotates: once customer and gateway are known, no frame from either port changes the gateway or a known PE MAC while a customer stays known |
| `CableTheorems.AbsorbKeeps` | gfc-client/internal/transparent/learn.go:84-155 | the evidence step of any ARP, IPv4 or DHCP frame keeps the part of the invariant that must hold before housekeeping |
| `CableTheorems.HotUpdateKeeps` | gfc-client/internal/transparent/learn.go:335-380 | moving the customer to another address of the same MAC cannot leave the gateway's segment |
| `CableTheorems.SetGwKeeps` | gfc-client/internal/transparent/learn.go:165-197 | neither weak nor strong evidence replaces a gateway that serves the customer |
| `CableTheorems.LearnLeaseKeeps` | gfc-client/internal/transparent/learn.go:245-289 | DHCP evidence fills a missing gateway only with one on the customer's link, and replaces none |
| `CableTheorems.ElectedFits` | gfc-client/internal/transparent/learn.go:514-540 | an elected address is usable, is not the gateway and shares its segment |
| `CableTheorems.SettleKeeps` | gfc-client/internal/transparent/learn.go:60-82 | demotion, election and the segment check together restore the full invariant without moving a next hop that serves |
| `CableReasons.AbsorbMovesOnlyByRebind` | gfc-client/internal/transparent/learn.go:335-380 | evidence moves a known customer only to an address that the same Ethernet host claims, on the same segment, and only from the customer's port |
| `CableReasons.CustomerChangeHasReason` | gfc-client/internal/transparent/learn.go:60-82 | a known customer changes only by a same-MAC rebind, by being retired while another host is fresh, or by moving onto the segment of a gateway learned in the same frame |
| `CableReasons.IspNoiseMovesNothing` | gfc-client/internal/transparent/learn.go:491-512 | with customer and gateway known and no other fresh host, no sequence of ISP frames at non-decreasing times changes either |
| `CableProgress.FirstArpTeachesCustomerAndGateway` | gfc-client/internal/transparent/learn.go:100-122 | one ARP request of a cable host for its gateway teaches an empty learner customer, gateway and customer MAC |
| `CableProgress.GatewayArpTeachesPe` | gfc-client/internal/transparent/learn.go:123-155 | an ARP from the known gateway fills an unknown PE MAC |
| `CableProgress.RetiredCustomerIsReplaced` | gfc-client/internal/transparent/learn.go:491-540 | a customer retired on evidence is replaced by a best eligible host whenever there is one, and the gateway stays |
| `CableProgress.DeadIff` | gfc-client/internal/transparent/learn.go:425-512 | exactly when a customer is given up: another host was heard within five minutes, and it left five questions unanswered, was not heard itself, or was quiet for two seconds while that host has another MAC |
| `CableElections.ElectedHostIff` | gfc-client/internal/transparent/learn.go:514-540 | the election among hosts: the highest score wins, and among those the latest sighting |
| `CableElections.ElectedScoreIff` | gfc-client/internal/transparent/learn.go:597-612 | without a fresh host an address with the highest score wins, and nobody if there is none |
| `CableElections.RetiredIsForgotten` | gfc-client/internal/transparent/learn.go:491-512 | a retired customer is neither host nor candidate any more, the misses start over, and its MAC goes with it when nobody takes its place |
| `CableElections.PhaseIff` | gfc-client/internal/transparent/learn.go:576-595 | the phase says exactly which sides of the cable are known |
| `CableElections.ForeignFramesChangeNothing` | gfc-client/internal/transparent/learn.go:38-59 | frames that are too short, tagged, IPv6 or PPPoE leave the record as it is |
| `CableProgress.UnansweredCustomerIsReplaced` | gfc-client/internal/transparent/learn.go:123-131 | a customer that leaves five requests of the ISP side unanswered, while another eligible host stays fresh, has been replaced by then |
| `CableProgress.SpareArpKeepsInvariantIff` | gfc-client/internal/transparent/hitch.go:88-139 | spare-address ARP keeps the invariant exactly when it offers nothing to an empty gateway slot or offers a usable address on the customer's segment |
| `CableProgress.SpareArpBreaksInvariant` | gfc-client/internal/transparent/hitch.go:119-136 | a concrete one that breaks it: an ARP reply from 192.168.9.1, the gateway of a spare address there, beside the customer 10.0.0.5 |
| `CableProgress.SpareArpKeepsHop` | gfc-client/internal/transparent/hitch.go:88-139 | with a gateway known, spare-address ARP cannot rotate the next hop |
| `CableFrames.ArpFrameTeaches` | gfc-client/internal/transparent/learn.go:84-122 | on the octets: an ARP request in the first frame teaches the sender's address in octets 28 to 31 as customer, the target's in 38 to 41 as gateway, and the source MAC in 6 to 11 |
| `CableFrames.GatewayFrameTeachesPe` | gfc-client/internal/transparent/learn.go:123-155 | on the octets: the source MAC of an ARP frame of the known gateway is the PE MAC |
| `CableFrames.Ipv4FrameTeaches` | gfc-client/internal/transparent/learn.go:211-241 | on the octets: an IPv4 packet in the first frame, with any legal header length and no lease in it, teaches the source address in octets 26 to 29 as customer and the source MAC as its MAC |
| `CableFrames.SightedIsRemembered` | gfc-client/internal/transparent/learn.go:211-241 | from any record: after a frame of the customer's side the host table holds the address the frame names as its sender, with its source MAC and the present time, and no other address that it did not hold before |
| `CableFrames.ItemsRead` | gfc-client/internal/transparent/learn.go:291-316 | the option scan undoes the writing of options, pads included: it gives the first address under a code, wherever the options begin and whatever follows their end |
| `CableFrames.LeaseFrameTeaches` | gfc-client/internal/transparent/learn.go:245-289 | on the octets: a DHCP message in the first frame teaches the leased address, the hardware address it is leased to, and the router of option 3 |
| `CableFrames.SpareRequestTeaches` | gfc-client/internal/transparent/hitch.go:108-125 | on the octets: a request for the spare address names the gateway and the PE MAC when they are unknown |
| `CableElections.SpareGatewayTeaches` | gfc-client/internal/transparent/hitch.go:126-137 | any other ARP of the spare address's gateway fills an empty slot, as weak evidence |
| `CableFrames.UsableIff` | gfc-client/internal/transparent/learn.go:616-631 | the addresses a customer may have, as intervals |
| `CableFrames.PrivateIff` | gfc-client/internal/transparent/learn.go:633-647 | private addresses, as intervals |
| `CableSightings.HostMacIsLastSeen` | gfc-client/internal/transparent/learn.go:84-289 | a host's MAC is the one last seen: a frame of the customer's side that names the host renews MAC and time, and nothing else changes what the table says of it |
| `CableSightings.HostsExpire` | gfc-client/internal/transparent/learn.go:382-399 | besides the sender and the customer, a sighting leaves exactly the hosts of the last thirty minutes |
| `CableSightings.CustomerFollowsItsMac` | gfc-client/internal/transparent/learn.go:335-380 | a customer heard from another address of its segment is there from then on; the old address is forgotten and the gateway stays |
| `CableSightings.AnswerClearsMisses` | gfc-client/internal/transparent/learn.go:113-116 | a customer that is heard again has no misses |
| `CableSightings.ArpScores` | gfc-client/internal/transparent/learn.go:101-112 | a host scores six points for asking for a possible gateway, and one for any other ARP |
| `CableSightings.PacketScores` | gfc-client/internal/transparent/learn.go:225-230 | a host scores one point for an IPv4 packet |
| `CableGateway.IspArpTeachesNextHop` | gfc-client/internal/transparent/learn.go:123-155 | the first ARP of the ISP side that may come from the next hop of a lone customer gives gateway and PE MAC, and counts as confirmed exactly when it asks for the customer or a host of its side |
| `CableGateway.QuestionsAreCounted` | gfc-client/internal/transparent/learn.go:123-131 | each question for a lone customer counts as a miss, and no other frame of the ISP side does |
| `CableGateway.AnswerTeachesNoGateway` | gfc-client/internal/transparent/learn.go:117-122 | an ARP answer of the customer's side names no gateway |
| `CableGateway.QuestionForHostTeachesNoGateway` | gfc-client/internal/transparent/learn.go:117-122 | nor does a question for another known host |
| `CableCustomer.FrameKeepsCustomer` | gfc-client/internal/transparent/learn.go:38-82 | from any record: hosts, scores and a customer address exist only once the customer's side was heard |
| `CableLearner.Learner.PruneHosts` | gfc-client/internal/transparent/learn.go:382-399 | drops exactly the expired hosts, in any map order |
| `CableLearner.Learner.HotUpdateIfSameMac` | gfc-client/internal/transparent/learn.go:339-361 | the in-place update is the specified rebind |
| `CableLearner.Learner.SetGateway` | gfc-client/internal/transparent/learn.go:170-197 | the in-place update is the specified gateway rule |
| `CableLearner.Learner.ApplyArp` | gfc-client/internal/transparent/learn.go:84-155 | the ARP handler, branch by branch, is the specified evidence of either port |
| `CableLearner.Learner.ApplyDhcp` | gfc-client/internal/transparent/learn.go:245-289 | the DHCP handler is the specified lease evidence |
| `CableLearner.FindDhcpOption` | gfc-client/internal/transparent/learn.go:291-318 | the option scan stays in bounds, ends, and finds the first usable option before the end marker |
| `CableLearner.Learner.TopCandidate` | gfc-client/internal/transparent/learn.go:597-612 | returns a top-scored address other than the gateway, if any, whatever the map order |
| `CableLearner.Learner.ElectCe` | gfc-client/internal/transparent/learn.go:516-540 | returns a best eligible fresh host whatever the map order, falling back to scores only without a fresh host |
| `CableLearner.Learner.OtherFreshHost` | gfc-client/internal/transparent/learn.go:425-436 | true exactly when another cable host is fresh |
| `CableLearner.Learner.ReplacedByNewMac` | gfc-client/internal/transparent/learn.go:464-489 | true exactly when a fresh host of another MAC owns the cable while the customer is quiet |
| `CableLearner.Learner.DemoteDeadCe` | gfc-client/internal/transparent/learn.go:494-512 | retires the customer exactly on the specified evidence and elects the next |
| `CableLearner.Learner.ApplyFrame` | gfc-client/internal/transparent/learn.go:38-82 | the whole in-place frame handler is one step of the relation the theorems are about |
| `CableLearner.Learner.ApplySpareArp` | gfc-client/internal/transparent/hitch.go:90-139 | the in-place handler is the specified spare-address step |
| `SupervisorTheorems.NoLostUpdate` | gfc-client/internal/transparent/supervisor.go:138-163 | in every interleaving of frames, link events, timers, notifications and outside changes: while capture runs, a record that differs from the last snapshot has a flush outstanding, and a differing identity has one unless the surroundings changed unannounced since |
| `SupervisorTheorems.NoLostIdentity` | gfc-client/internal/transparent/supervisor.go:138-176 | from any state with no unannounced change pending, as long as spare settings and the box's MAC do not change unannounced, a differing identity has a flush outstanding |
| `SupervisorIdentity.LostIdentityIff` | gfc-client/internal/transparent/supervisor.go:138-259 | for every event: afterwards the identity is lost (capture runs, the snapshot does not show it, no flush is outstanding) exactly when it was lost and the event does not recover it, or when the event changes it unannounced after everything had been flushed |
| `SupervisorIdentity.LostIdentityOverRun` | gfc-client/internal/transparent/supervisor.go:138-259 | on every interleaving the identity is lost exactly when some unannounced change lost it and nothing has recovered it since |
| `SupervisorIdentity.IdentityLossHappens` | gfc-client/internal/transparent/supervisor.go:199-213 | one such run: a spare address saved after the capture started should be borrowed at once, and no flush will say so |
| `SupervisorTheorems.StepKeepsTimers` | gfc-client/internal/transparent/supervisor.go:215-259 | every event keeps the timer handle in step with the callbacks that are due, stale ones included |
| `SupervisorTheorems.FlushCatchesUp` | gfc-client/internal/transparent/supervisor.go:226-259 | an outstanding flush that runs with no refresh in progress makes the snapshot current |
| `SupervisorTheorems.SpareHeldAfterLinkDown` | gfc-client/internal/transparent/supervisor.go:89-176 | after a link-down, or a capture that starts with the link down, every identity is the spare until the link is up and a usable customer frame has arrived, in either order |
| `SupervisorTheorems.CeModeImpliesCustomer` | gfc-client/internal/transparent/hitch.go:20-48 | with a usable spare the box borrows a customer identity only when a customer was learned |
| `SupervisorHitch.BorrowsTheCustomer` | gfc-client/internal/transparent/hitch.go:41-47 | over every run: whenever the box acts as the customer it uses the learned address and next hop, and when that address is a known host, the source MAC is the one last seen for it on the customer's side |
| `SupervisorHitch.HostsLastSeen` | gfc-client/internal/transparent/supervisor.go:138-163 | over every run: every host in the table has the MAC with which the last frame that named it named it, or that the loaded record had |
| `SupervisorHitch.SpareModeIff` | gfc-client/internal/transparent/hitch.go:23-27 | the spare identity is borrowed exactly when one is configured and the customer is down, unheard of, or not heard again |
| `SupervisorHitch.IdentityFields` | gfc-client/internal/transparent/hitch.go:23-48 | both identities, field by field: customer address from customer MAC, or spare address from the box's own MAC; the learned next hop in both, for which the configured gateway stands in only in spare mode |
| `SupervisorHitch.BorrowedHopFrozen` | gfc-client/internal/transparent/hitch.go:23-48 | in either mode and however it changes, the identity's gateway and known PE MAC stay the same during a capture while a customer is known |
| `SupervisorHitch.HoldReleasedIff` | gfc-client/internal/transparent/supervisor.go:145-163 | on the octets: a frame lets go of the spare address exactly when it comes from the customer's side and names a usable source other than the gateway |
| `SupervisorHitch.BeginEffect` | gfc-client/internal/transparent/supervisor.go:89-129 | a capture starts only with both ports set, on the loaded record, and with nothing to flush |
| `SupervisorHitch.NotifyEffect` | gfc-client/internal/transparent/supervisor.go:50-87 | a notification for the running capture's ports keeps it and arms a fresh flush, any other stops it and disarms the pending one |
| `SupervisorHitch.NotifyOffEffect` | gfc-client/internal/transparent/supervisor.go:50-87 | leaving transparent mode stops everything and forgets the link state |
| `SupervisorHitch.IdleIsInert` | gfc-client/internal/transparent/supervisor.go:138-143 | without a capture nothing is learned and no snapshot is taken, whatever callbacks are left |
| `SupervisorTheorems.SupervisedHopFrozen` | gfc-client/internal/transparent/supervisor.go:138-163 | with spare-address ARP in play the next hop stays frozen through one capture while a customer is known |
| `SupervisorClass.Supervisor.OnFrame` | gfc-client/internal/transparent/supervisor.go:138-163 | the locked frame handler is the specified event |
| `SupervisorClass.Supervisor.SetCpeDown` | gfc-client/internal/transparent/supervisor.go:165-176 | the link handler is the specified event |
| `SupervisorClass.Supervisor.RunFlush` | gfc-client/internal/transparent/supervisor.go:226-259 | the flush callback is the specified event and takes a snapshot exactly when capturing and not refreshing |
| `SupervisorClass.Supervisor.NotifyMode` | gfc-client/internal/transparent/supervisor.go:50-87 | the notification is the specified event |
| `SupervisorClass.Supervisor.StartCapture` | gfc-client/internal/transparent/supervisor.go:89-129 | the start of a capture is the specified event |
| `Cidrs.OverlapIff` | gfc-client/internal/policyrouting/members.go:288-293 | the overlap test holds exactly when the two prefixes share an address |
| `Cidrs.IpInList` | gfc-client/internal/policyrouting/members.go:245-263 | the search finds the address exactly when some entry contains it |
| `Cidrs.ListsIntersect` | gfc-client/internal/policyrouting/members.go:265-286 | the nested search succeeds exactly when some IPv4 address is in both lists |
| `DomainNames.MatchesCovers` | gfc-client/internal/policyrouting/members.go:158-176 | a name matches a member exactly when it is that name, or one label in front of a wildcard's suffix |
| `DomainNames.MembersMeetIff` | gfc-client/internal/policyrouting/members.go:187-202 | the member comparison holds exactly when one name matches both members |
| `DomainNames.GroupCovers` | gfc-client/internal/policyrouting/members.go:178-185 | a name is in a group exactly when some member covers it |
| `Policies.Probe` | gfc-client/internal/policyrouting/probe.go:78-160 | the probe is safety rail, then first matching enabled policy, then system default |
| `Policies.PrivateIff` | gfc-client/internal/policyrouting/probe.go:310-312 | the private networks of the safety rail, octet by octet |
| `Policies.PoliciesMayConflict` | gfc-client/internal/policyrouting/validate.go:209-268 | the nested comparison decides exactly whether sources and destinations can meet |
| `Policies.AnnotateStatuses` | gfc-client/internal/policyrouting/validate.go:270-293 | in place, each policy is marked shadowed exactly when disabled or when an earlier enabled one may conflict |
| `Policies.ValidatePolicies` | gfc-client/internal/policyrouting/validate.go:49-165 | accepts exactly the lists of well-formed, acknowledged policies with distinct ids, ranks them by position and annotates them |
| `Policies.AcknowledgementSticks` | gfc-client/internal/policyrouting/validate.go:122-147 | an acknowledgement counts again exactly as long as the policy matches the same and does the same |
| `PolicyShadowing.ActiveWins` | gfc-client/internal/policyrouting/validate.go:270-293 | an active policy wins every probe it matches past the safety rail when no earlier enabled policy has a destination of the other kind |
| `PolicyShadowing.ActivePreemptedIff` | gfc-client/internal/policyrouting/validate.go:231-293 | an active policy is pre-empted by some probe exactly when an earlier enabled policy of the other destination kind meets its source and reaches past the rail |
| `PolicyShadowing.ActiveIsPreempted` | gfc-client/internal/policyrouting/validate.go:231-293 | two accepted policies, a host prefix before a domain: the second is marked active and loses a probe that it matches |
| `PolicyShadowing.ConflictIff` | gfc-client/internal/policyrouting/validate.go:209-268 | two policies are taken to conflict exactly when some request matches both, but for pairs of a prefix and a domain destination, which are never taken to |
| `PolicyCompiler.CollectNeededGroups` | gfc-client/internal/policyrouting/apply.go:144-162 | collects exactly the existing groups that enabled policies name, once each and in order of id, whatever the map order |
| `PolicyCompiler.BuildOverlayChain` | gfc-client/internal/policyrouting/apply.go:307-361 | the builder loop emits the rules of the enabled policies in order, or fails when a group is missing |
| `PolicyAgreement.ExprMeansPolicy` | gfc-client/internal/policyrouting/apply.go:363-390 | a policy's match expression holds of a packet exactly when the policy matches the request |
| `PolicyAgreement.OverlayBodyRuns` | gfc-client/internal/policyrouting/apply.go:307-361 | running the compiled rules is first-match evaluation of the policies; sets of disabled policies need not exist |
| `PolicyAgreement.SetHoldsGroupIff` | gfc-client/internal/policyrouting/apply.go:191-222 | after writing, a group's set matches exactly the group's addresses if and only if the last group written under that set name has the same addresses |
| `PolicyAgreement.DistinctNamesKeepGroups` | gfc-client/internal/policyrouting/apply.go:276-305 | distinct set names are enough for every set to match its own group's addresses |
| `PolicyAgreement.SetNamesCollide` | gfc-client/internal/policyrouting/apply.go:276-305 | the ids "g-1" and "g_1" share a set, which then holds the second group's addresses |
| `PolicyAgreement.SystemSetsUntouched` | gfc-client/internal/policyrouting/apply.go:191-222 | writing user sets leaves the system's sets alone |
| `PolicyAgreement.CollectedSetsAnswer` | gfc-client/internal/policyrouting/apply.go:60-106 | once the collected groups are written under distinct names, the sets answer as the groups do for every enabled policy |
| `PolicyAgreement.CtChainMarks` | gfc-client/deploy/gen-nft-policy.py:399-402 | every LAN packet that the chain's head does not return leaves the first chain with the connection mark, and the others leave it unchanged |
| `PolicyAgreement.RouteRuns` | gfc-client/deploy/gen-nft-policy.py:404-416 | the routing chain is the head's returns and the early exits, then the user overlay, then the default mark; the other ingress rules do not matter to LAN packets |
| `PolicyAgreement.KernelFollowsPolicies` | gfc-client/deploy/gen-nft-policy.py:399-416 | the mark of any LAN packet: none for what the kernel never steers, then the rail, then the first matching policy, then the kernel's default, in both routing modes and all three proxy modes |
| `PolicyAgreement.KernelAgreesIff` | gfc-client/internal/policyrouting/probe.go:78-160 | for sets that answer as the groups do, kernel and probe agree on a LAN packet exactly when `ShouldAgree` says so |
| `PolicyAgreement.DivergenceHappens` | gfc-client/internal/policyrouting/probe.go:275-308 | a packet on which they disagree: in split mode, an address that only the dynamic CN set holds |
| `PolicyAgreement.UnsteeredDisagreementHappens` | gfc-client/deploy/gen-nft-policy.py:404-409 | another one: a DNS query to a public address, which the kernel never steers and the probe sends to the proxy |
| `PolicyAgreement.KernelAgreesWithProbe` | gfc-client/internal/policyrouting/apply.go:41-142 | end to end: after collecting and writing the groups and compiling the policies, a LAN packet leaves the kernel with the proxy mark if and only if the probe answers proxy, with the two exact exceptions |
| `PolicyAgreement.UnsteeredStaysDirect` | gfc-client/deploy/gen-nft-policy.py:404-409 | packets to exempt UDP ports and the LAN's own prefix, and outside gateway mode to the box itself, are never marked, whatever the policies say |
| `PolicyCustomers.KernelSteersCustomers` | gfc-client/deploy/gen-nft-policy.py:288-353 | the mark of any packet of a bypass or transparent customer: none from the tunnel or to the box; then the rail, then the first matching policy, and only then the exempt ports and what stays local, and the default mark for a marked connection |
| `PolicyCustomers.CustomerAgreesIff` | gfc-client/deploy/gen-nft-policy.py:288-353 | exactly when kernel and probe agree on a customer's packet |
| `SnoopFilter.FilterAcceptsIff` | gfc-client/internal/policyrouting/dns_snoop_linux.go:99-113 | the packet filter accepts exactly UDP packets with port 53 on either side of the header's end, and drops on any read out of bounds |
| `SnoopFilter.FilterKeepsDnsDatagrams` | gfc-client/internal/policyrouting/dns_msg.go:17-43 | whatever the parser sees as a datagram from or to port 53 passed the filter |
| `SnoopFilter.DatagramReads` | gfc-client/internal/policyrouting/dns_msg.go:17-43 | a UDP datagram written out behind an IPv4 header of any length is read back, ports and payload, without its padding |
| `SnoopFilter.NoDatagramIff` | gfc-client/internal/policyrouting/dns_msg.go:17-43 | exactly what is no datagram: anything but the first fragment of an IPv4 UDP packet with both headers |
| `DnsMessages.DecodeName` | gfc-client/internal/policyrouting/dns_msg.go:45-87 | on every octet string a decoded name ends after its start and inside the message, with fewer labels than the hop bound |
| `DnsMessages.DecodeDnsName` | gfc-client/internal/policyrouting/dns_msg.go:45-87 | the cursor loop, whose end freezes at the first pointer, reads exactly the recursive description |
| `DnsMessages.PlainNameDecodes` | gfc-client/internal/policyrouting/dns_msg.go:49-85 | a plain name within the hop bound decodes to its lower-cased labels, wherever it stands |
| `DnsMessages.LongNameFails` | gfc-client/internal/policyrouting/dns_msg.go:49-86 | a name with as many labels as hops left does not decode |
| `DnsMessages.NameWithinLimitDecodes` | gfc-client/internal/policyrouting/dns_msg.go:45-87 | every uncompressed name within the 255 octets of section 2.3.4 of RFC 1035 decodes |
| `DnsMessages.PointerCycleFails` | gfc-client/internal/policyrouting/dns_msg.go:61-76 | names that point at each other never decode |
| `DnsMessages.CompressedNameDecodes` | gfc-client/internal/policyrouting/dns_msg.go:45-87 | a compressed name decodes to its own labels and those at the target of its fourteen-bit pointer, and ends behind the pointer |
| `DnsMessages.BrokenNameFails` | gfc-client/internal/policyrouting/dns_msg.go:45-87 | a name fails where it leaves the message, and at a reserved length |
| `DnsMessages.ParseDnsReply` | gfc-client/internal/policyrouting/dns_msg.go:89-161 | the parser stays in bounds, ends, and returns the specified reply, or nothing without a question name or an address |
| `DnsMessages.ReadAnswers` | gfc-client/internal/policyrouting/dns_msg.go:121-156 | the record loop folds exactly the A records before the first malformed record |
| `DnsMessages.DistinctIpsExact` | gfc-client/internal/policyrouting/dns_msg.go:143-149 | the addresses of a reply are distinct and are exactly those of its A records |
| `DnsMessages.ReplyTtlIsMinimumIff` | gfc-client/internal/policyrouting/dns_msg.go:149-151 | the TTL of a reply is the minimum over its records exactly when none is 0 or the last one is |
| `DnsMessages.ZeroTtlIsForgotten` | gfc-client/internal/policyrouting/dns_msg.go:149-151 | a reply where it is not: records of TTL 0 and 300, in this order, give 300 |
| `DnsReplies.AnswersExact` | gfc-client/internal/policyrouting/dns_msg.go:119-155 | reading any number of records gives the address records among those that stand there, in order: others are stepped over, and reading stops only where an owner's name does not decode or the header or the data leave the message |
| `DnsReplies.AnswersDescribed` | gfc-client/internal/policyrouting/dns_msg.go:119-155 | every run of octets is such a sequence of records |
| `DnsReplies.ReplyRoundTripIff` | gfc-client/internal/policyrouting/dns_msg.go:89-161 | parsing undoes the writing of any message with several questions and records of any type and length in its three sections: name of the first question, and addresses and TTL of the address records alone; with a question name of 127 labels only the records in front of the first pointer at it are read |
| `DnsReplies.AliasIsSteppedOver` | gfc-client/internal/policyrouting/dns_msg.go:141-154 | an alias in front of an address does not hide it |
| `SwitchTheorems.CommitNeedsConfirm` | gfc-client/internal/proxymode/switch.go:288-322 | the committed mode moves exactly when a pending switch is confirmed with a matching token strictly before its deadline |
| `SwitchTheorems.CommittedWasConfirmedInTime` | gfc-client/internal/proxymode/switch.go:288-322 | over every run with restarts: a committed mode other than the first was staged by an earlier successful request, stayed pending, and was accepted strictly before that request's deadline |
| `SwitchTheorems.PendingHasOrigin` | gfc-client/internal/proxymode/store.go:149-177 | whatever is pending was recorded by one earlier successful request, with the mode and settings that request found, and has been pending ever since |
| `SwitchTheorems.ConfirmKeepsLiveMode` | gfc-client/internal/proxymode/store.go:81-101 | confirming changes nothing about the live mode, now or later |
| `SwitchTheorems.UnconfirmedLivesInItsWindow` | gfc-client/internal/proxymode/store.go:81-101 | an unconfirmed mode is live only before the deadline of the successful request that staged it and is still pending, at most ten minutes, whether or not a timer ran |
| `SwitchTheorems.RollbackEffect` | gfc-client/internal/proxymode/switch.go:348-395 | what a rollback leaves: the mode is back even when another step failed, the recorded hosts and WAN, where not empty, are back whenever the record goes, and it goes exactly when neither they nor the mode failed; what each file and the system's WAN then hold |
| `SwitchTheorems.RetryIsIdempotent` | gfc-client/internal/proxymode/switch.go:348-375 | failed attempts leave no trace: a clean retry ends where a clean first try would have |
| `SwitchTheorems.SwitchRecords` | gfc-client/internal/proxymode/switch.go:216-262 | a successful request records what it found, writes exactly the staged settings and puts the dataplane into the new mode |
| `SwitchTheorems.SwitchedSettings` | gfc-client/internal/proxymode/switch.go:144-188 | every other setting after a switch, mode by mode: hosts, ports, spare address, and the three DNS settings |
| `SwitchTheorems.WindowOf` | gfc-client/internal/proxymode/validate.go:59-70 | the window of a request is the seconds asked for, within half a minute and ten minutes, two minutes by default |
| `SwitchTimers.SuccessArms` | gfc-client/internal/proxymode/switch.go:264-268 | a successful request is armed to roll back at the deadline it records |
| `SwitchTimers.PendingIsArmed` | gfc-client/internal/proxymode/switch.go:397-421 | over every run with restarts: whatever is pending has its timer armed for its deadline, except exactly where a rollback was tried and failed since the request or the last restart within the window |
| `SwitchTimers.NothingOutlivesItsDeadline` | gfc-client/internal/proxymode/switch.go:411-414 | with prompt callbacks and no failing rollback, nothing is pending at or after its deadline |
| `SwitchTimers.DataplaneFollowsLiveMode` | gfc-client/internal/proxymode/switch.go:264-346 | with prompt callbacks and no failures, through requests, confirmations, rollbacks and restarts, the dataplane is in the mode that is live after every event |
| `SwitchTimers.ConfirmEffect` | gfc-client/internal/proxymode/switch.go:305-322 | an accepted confirmation commits the pending mode, ends its window and applies the mode again, where that works |
| `SwitchTimers.RestartEffect` | gfc-client/internal/proxymode/switch.go:333-346 | a restart keeps what is stored and nothing else; within the window it applies the pending mode and arms the timer for the same deadline, past it, it rolls back |
| `SwitchTimers.FailedUndoDisarms` | gfc-client/internal/proxymode/switch.go:348-375 | a manual rollback that cannot restore the WAN leaves the switch pending without a timer |
| `SwitchTheorems.RollbackUndoesSwitch` | gfc-client/internal/proxymode/switch.go:348-395 | after any status calls, refused requests, rejected confirmations, restarts and failed rollbacks, the rollback that clears the record leaves mode and settings as the request found them, with an if-and-only-if for each of the five settings, and the system's WAN as recorded, where it was recorded |
| `SwitchTheorems.ClearingIgnoresQuietWrites` | gfc-client/internal/proxymode/switch.go:377-395 | whether a rollback clears the record and restores the mode does not depend on the writes of ports, DNS and spare |
| `SwitchTheorems.UnnoticedLoss` | gfc-client/internal/proxymode/switch.go:391-393 | after any switch to transparent mode, a rollback whose only failure is the ports write clears the record and leaves the new ports |
| `SwitchTheorems.UnnoticedLossHappens` | gfc-client/internal/proxymode/switch.go:391-393 | one such run, from a fresh box |
| `SwitchTheorems.FreshBoxReads` | gfc-client/internal/proxymode/switch.go:547-557 | what a box without any file reads |
| `SwitchTheorems.ValidBypassIff` | gfc-client/internal/proxymode/validate.go:101-152 | a bypass request is accepted exactly when it names customers and a static WAN with its gateway on it, and no address of the management LAN is on the WAN prefix or a customer's |
| `SwitchTheorems.ValidTransparentIff` | gfc-client/internal/proxymode/validate.go:87-99 | a transparent request is accepted exactly with two different, well-named ports that are none of the LAN's, and a spare address, if any, that is usable, off the LAN and has no gateway or another usable one; a gateway request always |
| `SwitchTheorems.RequestSucceedsIff` | gfc-client/internal/proxymode/switch.go:108-286 | exactly when a request succeeds: it is valid, nothing is pending, there is something to do, transparent mode finds a reserved address, and no write and no change of the dataplane fails |
| `SwitchTheorems.SwitchedWan` | gfc-client/internal/proxymode/switch.go:194-214 | after a switch the WAN record is static exactly as bypass asked, gateway mode keeps no static record and blanks the old addresses, and no other key moves |
| `SwitchTheorems.FailedSwitchUndoneIff` | gfc-client/internal/proxymode/switch.go:234-283 | a request whose file write or dataplane step fails clears its record whatever its undo meets, and exactly when each setting and the mode are back |
| `SwitchTheorems.FailedSwitchIsUndone` | gfc-client/internal/proxymode/switch.go:234-283 | an undo that meets no failure puts everything back, but for hosts written to where there were none |
| `SwitchController.Controller.RequestSwitch` | gfc-client/internal/proxymode/switch.go:109-286 | the in-place request handler is the specified transition and outcome |
| `SwitchController.Controller.StageLocked` | gfc-client/internal/proxymode/switch.go:152-286 | the staging steps, with each failing write, are the specified transition |
| `SwitchController.Controller.RollbackLocked` | gfc-client/internal/proxymode/switch.go:348-375 | the in-place rollback is the specified transition and reports success exactly when the record is gone |
| `SwitchController.Controller.RestoreFilesFrom` | gfc-client/internal/proxymode/switch.go:377-395 | the file restore is the specified one, ignored errors included |
| `SwitchController.Controller.ConfirmSwitch` | gfc-client/internal/proxymode/switch.go:288-322 | the confirm handler is the specified transition and answer |
| `SwitchController.Controller.Status` | gfc-client/internal/proxymode/switch.go:97-107 | a status call rolls an expired switch back and otherwise reports the live mode |
| `SwitchController.Controller.ResumeAfterRestart` | gfc-client/internal/proxymode/switch.go:333-346 | a fresh process rolls back, or re-applies and re-arms, the specified way |
| `Ipv4Text.Ipv4RoundTrip` | gfc-client/internal/unboundmgr/dsl.go:41-47 | every address parses back from its canonical text |
| `Ipv4Text.CanonIpIsCanonical` | gfc-client/internal/unboundmgr/dsl.go:41-47 | whatever the address parser returns parses to itself |
| `UnboundDsl.NormalizeUndots` | gfc-client/internal/unboundmgr/dsl.go:16-35 | an accepted domain reads back without its trailing dot, if it still has one |
| `UnboundDsl.ParseDsl` | gfc-client/internal/unboundmgr/dsl.go:54-107 | the parser loop with its set of seen domains is the specified parse |
| `UnboundDsl.FormatDsl` | gfc-client/internal/unboundmgr/dsl.go:110-133 | the printer loop writes header and entries, a line each |
| `UnboundDsl.ParsedIsOk` | gfc-client/internal/unboundmgr/dsl.go:54-107 | every accepted list has distinct domains, canonical addresses and the fields of its kind |
| `UnboundDsl.ReparseExact` | gfc-client/internal/unboundmgr/dsl.go:54-133 | what parsing a printed list returns, for every list: the entries without trailing dots, or a failure when two names then coincide |
| `UnboundDsl.FormatParsesIff` | gfc-client/internal/unboundmgr/dsl.go:54-133 | parsing undoes printing exactly when no domain ends in a dot |
| `UnboundConf.SortEntries` | gfc-client/internal/unboundmgr/manager.go:357-363 | sorts a copy |
| `UnboundConf.SortedOrders` | gfc-client/internal/unboundmgr/manager.go:357-363 | entries with distinct domains come out in strict order |
| `UnboundConf.OrderIsUnique` | gfc-client/internal/unboundmgr/manager.go:357-363 | a strictly ordered list is fixed by its members, so no map order shows in it |
| `UnboundFiles.GenerateConf` | gfc-client/internal/unboundmgr/dsl.go:156-202 | the generator loops write the specified include file for all three kinds |
| `UnboundFiles.ExtractLocalEntries` | gfc-client/internal/unboundmgr/dsl.go:216-279 | the line scan with its two maps, walked in any order, returns one determined sorted list |
| `UnboundFiles.ExtractForwardEntries` | gfc-client/internal/unboundmgr/dsl.go:281-324 | the line scan with its current entry returns the specified list |
| `UnboundRoundTrip.ExtractUndoesGenerateIff` | gfc-client/internal/unboundmgr/dsl.go:156-324 | extracting a generated file gives the sorted entries, exactly when no static address is 0.0.0.0 and no forwarded domain ends in a dot |
| `UnboundStore.LoadOperatorEntries` | gfc-client/internal/unboundmgr/audit.go:38-55 | loads the list's own entries, or those of the include file when it has none |
| `UnboundStore.AuditWrite` | gfc-client/internal/unboundmgr/audit.go:98-151 | denies a write exactly when some entry is in another readable list, and reports exactly the related entries and zones, whatever the order of the lists |
| `UnboundStore.ReportsIff` | gfc-client/internal/unboundmgr/audit.go:98-151 | the audit reports exactly what is due for some entry: the same name, one above or one below it in another list, or the name or one above it among the CN zones, each with its level |
| `UnboundStore.DeniedIffReported` | gfc-client/internal/unboundmgr/audit.go:98-151 | a write is denied exactly when one of its reports says so |
| `UnboundStore.Manager.PutSnippet` | gfc-client/internal/unboundmgr/manager.go:281-334 | the write, with its restores on failure, is the specified transition |
| `UnboundTheorems.PutLoads` | gfc-client/internal/unboundmgr/audit.go:38-55 | exactly what every write, accepted or failed, leaves to be loaded from every list |
| `UnboundTheorems.FailedWriteLoadsTheSame` | gfc-client/internal/unboundmgr/manager.go:317-327 | a failed write changes no list as it loads, even where it creates empty files |
| `UnboundTheorems.LoadedIsLastAccepted` | gfc-client/internal/unboundmgr/audit.go:38-55 | over any sequence of writes without trailing dots, loading a list returns exactly the entries last accepted for it, an emptied list included |
| `UnboundTheorems.AlwaysExclusive` | gfc-client/internal/unboundmgr/manager.go:281-334 | over any such sequence, starting exclusive, no domain is ever in two lists |
| `UnboundTheorems.ExclusionKeptIff` | gfc-client/internal/unboundmgr/audit.go:98-151 | an accepted write keeps the lists exclusive exactly when its names, without trailing dots, are free in the others or coincide among themselves |
| `UnboundTheorems.DoubleDotBreaksExclusion` | gfc-client/internal/unboundmgr/dsl.go:16-35 | blocking "d.." is accepted while d is a static name, and then d is in both lists |
| `UnboundTheorems.DoubleDotFromScratch` | gfc-client/internal/unboundmgr/manager.go:281-334 | the failing case for every domain, from empty lists: two accepted writes put one domain into two lists |
| `ZoneIndex.SuffixIff` | gfc-client/internal/unboundmgr/audit.go:181-192 | a zone relates as a parent by dotted suffix exactly when it is the join of some later labels |
| `ZoneIndex.RelationIff` | gfc-client/internal/unboundmgr/audit.go:178-192 | the relation of two names, label by label: equal, one below the other, or neither |
| `ZoneIndex.CnContains` | gfc-client/internal/unboundmgr/audit.go:194-214 | the suffix lookup hits exactly the zones that a scan by relation finds exact or parent, longest first |
| `CustodyTheorems.StepKeepsInv` | gfc-platform/control-plane/api/app/clients.py:159-224 | every request keeps: a line is held once, keys are unique, unbound means revoked, no key is both in inventory and retired, bound lines exist |
| `CustodyTheorems.RunKeepsInv` | gfc-platform/control-plane/api/app/models.py:148-219 | the same in every state of every interleaving |
| `CustodyTheorems.LostUntilStaffBinds` | gfc-platform/control-plane/api/app/admin.py:1737-1783 | a key that lost its line, by any route, is bound again only after a staff request that gave its device a line |
| `CustodyTheorems.ActivateSucceedsIff` | gfc-platform/control-plane/api/app/clients.py:147-183 | a line code works exactly for an enabled line with the right id, and a key that never lost a line and holds no other |
| `CustodyTheorems.ActivateEffect` | gfc-platform/control-plane/api/app/clients.py:185-224 | an activation gives the line to the key; of the other devices only the line's earlier holder changes, and it ends unbound and locked out |
| `CustodyPlatform.ControlPlane.ActivateClient` | gfc-platform/control-plane/api/app/clients.py:135-224 | the activation handler is a step of the specified relation |
| `CustodyPlatform.ControlPlane.UpdateDevice` | gfc-platform/control-plane/api/app/admin.py:1737-1783 | the staff update is a step of the specified relation |
| `CustodyTheorems.UpdateSucceedsIff` | gfc-platform/control-plane/api/app/admin.py:1737-1783 | exactly when a staff update succeeds, and exactly what is refused why; a refusal changes nothing |
| `CustodyTheorems.UnbindEffect` | gfc-platform/control-plane/api/app/admin.py:1771-1779 | an unbound device has no line and is marked, its line is free, its key is lost and locked out of every line code, and nobody else is touched |
| `CustodyTheorems.BindEffect` | gfc-platform/control-plane/api/app/admin.py:1771-1779 | exactly the bound device holds the line, with its marks cleared, and nobody else is touched |
| `CustodyPlatform.ControlPlane.SoftFactoryReset` | gfc-platform/control-plane/api/app/admin.py:1821-1849 | on consistent tables the handler frees the device's line, leaves its key unable to bind itself and ready for retirement, touches nobody else, and keeps the tables consistent |
| `CustodyPlatform.ControlPlane.QueueDeviceUpgrade` | gfc-platform/control-plane/api/app/admin.py:1791-1813 | needs a device and an enabled artifact; afterwards acknowledgements of any earlier command are ignored, that of this upgrade only ends it, and binding and marks are as they were |
| `CustodyTheorems.SoftResetLocksOut` | gfc-platform/control-plane/api/app/admin.py:1821-1849 | after a soft reset the line is free for others, no line code works for the key, the device may be retired, and no other device changed |
| `CustodyTheorems.SoftResetAcknowledged` | gfc-platform/control-plane/api/app/clients.py:352-370 | acknowledging a soft reset confirms the wiped code with its own time and ends the command |
| `CustodyTheorems.UpgradeSupersedesReset` | gfc-platform/control-plane/api/app/artifacts.py:244-267 | an upgrade queued after a soft reset replaces its command: the reset is never acknowledged any more, and the upgrade's acknowledgement leaves the mark of the reset alone |
| `CustodyPlatform.ControlPlane.AcknowledgeCommand` | gfc-platform/control-plane/api/app/clients.py:352-370 | an acknowledgement counts only for the pending request, and marks the code as cleared only for a soft reset |
| `CustodyPlatform.ControlPlane.DeleteDevice` | gfc-platform/control-plane/api/app/admin.py:1853-1918 | hard retirement needs confirmation, permission, no line and a cleared code, and leaves an active tombstone |
| `CustodyTheorems.RetireEffect` | gfc-platform/control-plane/api/app/admin.py:1853-1918 | exactly when retirement happens and what is refused why; the row goes, the key is retired and locked out, nobody else is touched |
| `CustodyPlatform.ControlPlane.ReclaimDevice` | gfc-platform/control-plane/api/app/admin.py:1638-1688 | reclaiming needs an active tombstone and readmits the key unbound and revoked |
| `CustodyTheorems.ReclaimEffect` | gfc-platform/control-plane/api/app/admin.py:1638-1688 | exactly a retired key is reclaimed; it comes back unbound, locked out until staff binds it, and ready to be retired again |
| `CustodyPlatform.ControlPlane.DeleteLineRow` | gfc-platform/control-plane/api/app/admin.py:909-933 | a line that a device holds is not deleted |
| `CustodyTheorems.DeleteLineEffect` | gfc-platform/control-plane/api/app/admin.py:909-933 | a line goes exactly when it exists and no device holds it; its code works for nobody after that |
| `FlowBuckets.BucketFlowStats` | gfc-platform/control-plane/api/app/admin.py:1067-1134 | few rows pass through; many become the first buckets of the specified fold |
| `FlowBuckets.BucketsConserve` | gfc-platform/control-plane/api/app/admin.py:1120-1134 | before the slice no byte is lost or counted twice, whatever the order of the rows |
| `FlowBuckets.BucketsHoldTheirRows` | gfc-platform/control-plane/api/app/admin.py:1087-1134 | the buckets are consecutive windows from the first row on, and each holds exactly what the rows in its window carried |
| `FlowBuckets.LastBucketIff` | gfc-platform/control-plane/api/app/admin.py:1120-1134 | there is a bucket for every window up to the last row's, but not for that one when nothing happened in it and it is not the only one |
| `FlowBuckets.SliceLosesExactly` | gfc-platform/control-plane/api/app/admin.py:1120-1134 | for rows in time order, the sliced output and the rows after its end add up to all rows, in both directions of traffic |
| `FlowBuckets.SliceConservesIff` | gfc-platform/control-plane/api/app/admin.py:1134-1134 | with non-negative counters, the sliced output carries every byte exactly when no row from `maxPoints` windows after the first row on carries any |
| `FlowBuckets.SliceDropsFew` | gfc-platform/control-plane/api/app/admin.py:1084-1134 | the slice drops at most one bucket per started sixty points, and none when the rows span less than a minute per point |
| `FlowBuckets.SliceLosesTraffic` | gfc-platform/control-plane/api/app/admin.py:1134-1134 | the bound is reached: rows of two hours and two minutes at 120 points lose their last two minutes |

## Left out

- Packet capture, timers of the operating system, external commands, HTTP, JSON and databases: files are fields, commands are assignments or parameters, each request is one transaction.
- The supervisor rereads the box's own MAC and the spare settings for every identity; in the model they change by events of their own, not within one locked section.
- The learner reads the clock several times a frame; the model gives a frame one time.
- Learned records loaded from disk with blank or garbled timestamps, and a loaded record that dropped its gateway but kept its PE MAC: runs of the learner start from the empty record, captures of the supervisor from any record.
- The `UpdatedAt` field, the answer to customer ARP and the public list of hosts.
- The flush hands the learner's maps to a snapshot without copying them; the model's snapshot is a value.
- Case folding, trimming and word splitting follow the ASCII rules for letters; letters outside ASCII are not folded, and octets above 127 in DNS labels stand for themselves.
- Names, timestamps and generated ids of groups and policies, the textual parsing of addresses and prefixes in the policy code, and the text of the probe's hops.
- The normalisation of group members (`members.go:10-39`): groups arrive with parsed prefixes and canonical names, nobody empty, as `GroupsOk` says.
- The validity test on probed names and the ingress test of the probe, which answers for packets that are taken to come in.
- The sort of policies by rank after validation: ranks are positions.
- The kernel model covers the two prerouting chains. The output chain returns CN destinations before the user overlay and does not agree with the probe; nothing is claimed about it.
- KernelAgreesWithProbe: about packets of the management LAN, which is taken to be none of the other ingress interfaces, in each proxy mode; for customers see CustomerAgreesIff. The resolver's addresses for a domain group are assumed to hold the destination exactly when the probed name matches.
- SyncUserSets: writing a set always succeeds in the model, while the kernel may refuse overlapping prefixes as elements of an interval set (apply.go:191-222).
- The nft schemes A, B and C, the forward-node template and the IPv4 element limits of sets.
- Policies that are rejected for equal ranks: ranks are always distinct after validation.
- DNS snooping beyond the parser: which group a reply is recorded for, and the expiry of recorded addresses.
- The switch is sequential: the windows in which the controller runs external commands without its lock are closed. A timer callback may run at any time, though.
- A failing write leaves its file as it was, not cut short. Failing writes of the pending and committed records, damaged files, and textual forms of addresses and masks in switch requests; non-contiguous WAN masks.
- The choice of the reserved DNS address is a parameter. The WAN manager behind the controller merges its argument into the WAN file it was just given; the model keeps the file as restored.
- Hosts and list files read as normalised values; a file edited by hand into something unparsable reads as missing in the switch model.
- IPv4 addresses written in IPv6 notation, which the address parser also accepts.
- SortEntries: names that occur twice in a hand-written include file keep their order, where the library's sort promises none.
- Backups of the lists, the list view, and failing writes of temporary files other than as a write that did not happen. The kinds that name other files are refused by the generator and are not modelled.
- The zone index is the set of zones; reading it from the CN file and caching it by modification time are not modelled.
- Quoting of domains in include files: accepted domains hold no character that needs it.
- Device names, ports, tokens, roles and online state on the control plane: permissions are parameters, keys arrive normalised.
- AcknowledgeCommand: a late acknowledgement of a soft reset can mark a rebound device's code as cleared, so nothing is claimed about that mark.
- Ids of traffic buckets beyond what the loop assigns, missing counters (they count as zero), time zones, and rounding of the span in floating point.
- Orchestrator snapshots and rollback, line-code encoding, counter deltas, address pool search, URL normalisation and proxy hysteresis: they add only easy members beside the above.
