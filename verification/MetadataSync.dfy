/** How several devices of one user agree on a metadata value: every device reconciles the snapshots of one
    server document, the later timestamp winning, and pushes are unconditional writes that land late and
    in any order. */
module MetadataSync {
  import opened Prelude

  datatype Setting =
    | Preference(isEnabled: bool)
    | Hint(showCount: int, dismissCount: int, lastShownAt: Option<int>, lastDismissedAt: Option<int>,
           interactedAt: Option<int>)

  datatype Entry = Entry(value: Setting, at: int)

  /** AppDateBounds.metadataBaseline, the timestamp of a value nobody chose. */
  const BASELINE := 0

  // ----------------------------------------------------------- reconciliation

  /** Whether a remote value replaces the local one. */
  predicate Adopts(local: Entry, hasStored: bool, remote: Option<Entry>) {
    remote.Some? && (!hasStored || remote.value.at > local.at)
  }

  /** The local value afterwards, and whether it has to be pushed. */
  function Reconcile(local: Entry, hasStored: bool, remote: Option<Entry>): (Entry, bool) {
    if Adopts(local, hasStored, remote) then (remote.value, false)
    else (local, remote.Some? || hasStored)
  }

  /** The remote value wins when nothing was ever stored or when it is strictly newer. Otherwise the local one stays,
      and is pushed back, unless there is neither a remote nor a stored value. */
  lemma ReconcileIs(local: Entry, hasStored: bool, remote: Option<Entry>)
    ensures var (value, push) := Reconcile(local, hasStored, remote);
            match remote
            case Some(r) =>
              (!hasStored ==> value == r && !push)
              && (hasStored && r.at > local.at ==> value == r && !push)
              && (hasStored && r.at <= local.at ==> value == local && push)
            case None => value == local && push == hasStored
  {
  }

  /** Reconciling lowers the stored timestamp just when the device never stored anything and the remote value
      is older than its default. */
  lemma ReconcileLowersIff(local: Entry, hasStored: bool, remote: Option<Entry>)
    ensures Reconcile(local, hasStored, remote).0.at < local.at
       <==> !hasStored && remote.Some? && remote.value.at < local.at
  {
  }

  // ------------------------------------------------------------------ protocol

  /** lastOwnWrite is the timestamp of the user's last change on this device; the inbox holds the snapshots
      that were sent to it and not yet reconciled, oldest first. */
  datatype Device = Device(local: Entry, hasStored: bool, subscribed: bool, lastOwnWrite: int,
                           inbox: seq<Option<Entry>>)

  /** writes is the history of all user changes. */
  datatype Net = Net(devices: seq<Device>, server: Option<Entry>, inFlight: multiset<Entry>, writes: set<Entry>)

  datatype Event =
    | Fetch(d: nat)
    | Subscribe(d: nat)
    | Write(d: nat, entry: Entry)
    | Land(entry: Entry)
    | Deliver(d: nat)
    | Skip(d: nat)
    | Echo(d: nat)

  function Start(n: nat, default: Entry): Net {
    Net(seq(n, _ => Device(default, false, false, BASELINE, [])), None, multiset{}, {})
  }

  predicate Enabled(s: Net, e: Event) {
    match e
    case Fetch(d) => d < |s.devices|
    case Subscribe(d) => d < |s.devices| && !s.devices[d].subscribed
    case Write(d, entry) =>
      && d < |s.devices| && entry.at > s.devices[d].lastOwnWrite
      && forall w :: w in s.writes ==> w.at != entry.at
    case Land(entry) => entry in s.inFlight
    case Deliver(d) => d < |s.devices| && s.devices[d].inbox != []
    case Skip(d) => d < |s.devices| && |s.devices[d].inbox| > 1
    case Echo(d) => d < |s.devices| && s.devices[d].subscribed && s.devices[d].hasStored
  }

  function Notified(dev: Device, doc: Option<Entry>): Device {
    if dev.subscribed then dev.(inbox := dev.inbox + [doc]) else dev
  }

  function Wrote(dev: Device, entry: Entry): Device {
    dev.(local := entry, hasStored := true, lastOwnWrite := entry.at)
  }

  function WithDevice(s: Net, d: nat, dev: Device): Net
    requires d < |s.devices|
  {
    s.(devices := s.devices[d := dev])
  }

  /** Listening sends the current document; a landed push sends itself to all listeners when it changes the
      document; a reconciliation may push the local value; Skip stands for snapshots that Firestore folds
      into a later one, and Echo for a device hearing of its own pending write. */
  function Apply(s: Net, e: Event): Net
    requires Enabled(s, e)
  {
    match e
    case Fetch(d) =>
      WithDevice(s, d, s.devices[d].(inbox := s.devices[d].inbox + [s.server]))
    case Subscribe(d) =>
      WithDevice(s, d, s.devices[d].(subscribed := true, inbox := s.devices[d].inbox + [s.server]))
    case Write(d, entry) =>
      WithDevice(s, d, Wrote(s.devices[d], entry)).(
        writes := s.writes + {entry},
        inFlight := if s.devices[d].subscribed then s.inFlight + multiset{entry} else s.inFlight)
    case Land(entry) =>
      var rest := s.inFlight - multiset{entry};
      if s.server == Some(entry) then s.(inFlight := rest)
      else s.(inFlight := rest, server := Some(entry),
              devices := seq(|s.devices|, i requires 0 <= i < |s.devices| => Notified(s.devices[i], Some(entry))))
    case Deliver(d) =>
      var dev := s.devices[d];
      var (local, push) := Reconcile(dev.local, dev.hasStored, dev.inbox[0]);
      WithDevice(s, d, dev.(local := local, hasStored := true, inbox := dev.inbox[1..])).(
        inFlight := if push then s.inFlight + multiset{local} else s.inFlight)
    case Skip(d) =>
      WithDevice(s, d, s.devices[d].(inbox := s.devices[d].inbox[1..]))
    case Echo(d) =>
      s.(inFlight := s.inFlight + multiset{s.devices[d].local})
  }

  predicate IsRun(s: Net, events: seq<Event>)
    decreases |events|
  {
    events == [] || (Enabled(s, events[0]) && IsRun(Apply(s, events[0]), events[1..]))
  }

  function Run(s: Net, events: seq<Event>): Net
    requires IsRun(s, events)
    decreases |events|
  {
    if events == [] then s else Run(Apply(s, events[0]), events[1..])
  }

  // ----------------------------------------------------------------- invariant

  predicate Known(e: Entry, default: Entry, writes: set<Entry>) {
    e == default || e in writes
  }

  predicate KnownDoc(doc: Option<Entry>, default: Entry, writes: set<Entry>) {
    doc.Some? ==> Known(doc.value, default, writes)
  }

  /** A listening device with nothing to reconcile agrees with the server, or its value is on the way there,
      or nobody has written anything to the server. */
  predicate Settled(dev: Device, default: Entry, server: Option<Entry>, inFlight: multiset<Entry>) {
    server == Some(dev.local) || dev.local in inFlight || (server == None && dev.local == default)
  }

  predicate DeviceOk(dev: Device, default: Entry, server: Option<Entry>, inFlight: multiset<Entry>,
                     writes: set<Entry>) {
    && Known(dev.local, default, writes)
    && (forall doc :: doc in dev.inbox ==> KnownDoc(doc, default, writes))
    && (!dev.hasStored ==> dev.local == default && dev.lastOwnWrite == BASELINE)
    && BASELINE <= dev.lastOwnWrite <= dev.local.at
    && (dev.subscribed && dev.inbox != [] ==> dev.inbox[|dev.inbox| - 1] == server)
    && (dev.subscribed && dev.inbox == [] ==> Settled(dev, default, server, inFlight))
  }

  predicate HistoryOk(writes: set<Entry>) {
    && (forall w :: w in writes ==> w.at > BASELINE)
    && (forall w, v :: w in writes && v in writes && w.at == v.at ==> w == v)
  }

  predicate Remembered(devices: seq<Device>, w: Entry) {
    exists d :: 0 <= d < |devices| && devices[d].lastOwnWrite >= w.at
  }

  predicate NetInv(s: Net, default: Entry) {
    && default.at == BASELINE
    && HistoryOk(s.writes)
    && (forall w :: w in s.writes ==> Remembered(s.devices, w))
    && KnownDoc(s.server, default, s.writes)
    && (forall e :: e in s.inFlight ==> Known(e, default, s.writes))
    && (forall d :: 0 <= d < |s.devices| ==> DeviceOk(s.devices[d], default, s.server, s.inFlight, s.writes))
  }

  lemma StartInv(n: nat, default: Entry)
    requires default.at == BASELINE
    ensures NetInv(Start(n, default), default)
  {
  }

  /** Pushes and user changes elsewhere do not disturb a device. */
  lemma DeviceStays(dev: Device, default: Entry, server: Option<Entry>, a: multiset<Entry>, b: multiset<Entry>,
                    v: set<Entry>, w: set<Entry>)
    requires DeviceOk(dev, default, server, a, v) && a <= b && v <= w
    ensures DeviceOk(dev, default, server, b, w)
  {
  }

  lemma OthersRemember(devices: seq<Device>, d: nat, dev: Device, w: Entry)
    requires d < |devices| && Remembered(devices, w) && dev.lastOwnWrite >= devices[d].lastOwnWrite
    ensures Remembered(devices[d := dev], w)
  {
    var k :| 0 <= k < |devices| && devices[k].lastOwnWrite >= w.at;
    assert devices[d := dev][k].lastOwnWrite >= w.at;
  }

  /** One device changes, and perhaps a value is pushed. */
  lemma OneDevice(s: Net, default: Entry, d: nat, dev: Device, s': Net)
    requires NetInv(s, default) && d < |s.devices|
    requires s' == s.(devices := s.devices[d := dev], inFlight := s'.inFlight) && s.inFlight <= s'.inFlight
    requires dev.lastOwnWrite == s.devices[d].lastOwnWrite
    requires DeviceOk(dev, default, s.server, s'.inFlight, s.writes)
    requires forall e :: e in s'.inFlight ==> e in s.inFlight || e == dev.local
    ensures NetInv(s', default)
  {
    forall i | 0 <= i < |s.devices| && i != d
      ensures DeviceOk(s'.devices[i], default, s.server, s'.inFlight, s.writes)
    {
      DeviceStays(s.devices[i], default, s.server, s.inFlight, s'.inFlight, s.writes, s.writes);
    }
    forall w | w in s.writes ensures Remembered(s'.devices, w) {
      OthersRemember(s.devices, d, dev, w);
    }
  }

  lemma WriterOk(dev: Device, default: Entry, server: Option<Entry>, a: multiset<Entry>, b: multiset<Entry>,
                 writes: set<Entry>, entry: Entry)
    requires DeviceOk(dev, default, server, a, writes) && entry.at > dev.lastOwnWrite
    requires a <= b && (dev.subscribed ==> entry in b)
    ensures DeviceOk(Wrote(dev, entry), default, server, b, writes + {entry})
  {
  }

  lemma HistoryGrows(writes: set<Entry>, entry: Entry)
    requires HistoryOk(writes) && entry.at > BASELINE && forall w :: w in writes ==> w.at != entry.at
    ensures HistoryOk(writes + {entry})
  {
  }

  lemma KnownGrows(e: Entry, default: Entry, writes: set<Entry>, entry: Entry)
    ensures Known(e, default, writes) ==> Known(e, default, writes + {entry})
    ensures Known(entry, default, writes + {entry})
  {
  }

  lemma WriteKeepsInv(s: Net, default: Entry, d: nat, entry: Entry)
    requires NetInv(s, default) && Enabled(s, Write(d, entry))
    ensures NetInv(Apply(s, Write(d, entry)), default)
  {
    var s' := Apply(s, Write(d, entry));
    WriterOk(s.devices[d], default, s.server, s.inFlight, s'.inFlight, s.writes, entry);
    HistoryGrows(s.writes, entry);
    WriteRemembered(s, d, entry);
    if s.server.Some? { KnownGrows(s.server.value, default, s.writes, entry); }
    hide DeviceOk, Remembered, HistoryOk, Known;
    forall e | e in s'.inFlight ensures Known(e, default, s'.writes) {
      KnownGrows(e, default, s.writes, entry);
    }
    forall i | 0 <= i < |s.devices|
      ensures DeviceOk(s'.devices[i], default, s.server, s'.inFlight, s'.writes)
    {
      DeviceStays(s.devices[i], default, s.server, s.inFlight, s'.inFlight, s.writes, s'.writes);
    }
  }

  lemma WriteRemembered(s: Net, d: nat, entry: Entry)
    requires Enabled(s, Write(d, entry)) && forall w :: w in s.writes ==> Remembered(s.devices, w)
    ensures forall w :: w in s.writes + {entry} ==> Remembered(s.devices[d := Wrote(s.devices[d], entry)], w)
  {
    var devices' := s.devices[d := Wrote(s.devices[d], entry)];
    forall w | w in s.writes + {entry} ensures Remembered(devices', w) {
      if w == entry {
        assert devices'[d].lastOwnWrite >= w.at;
      } else {
        OthersRemember(s.devices, d, devices'[d], w);
      }
    }
  }

  lemma LandedOk(dev: Device, default: Entry, server: Option<Entry>, inFlight: multiset<Entry>, writes: set<Entry>,
                 entry: Entry)
    requires DeviceOk(dev, default, server, inFlight, writes) && Known(entry, default, writes)
    ensures var rest := inFlight - multiset{entry};
            DeviceOk(if server == Some(entry) then dev else Notified(dev, Some(entry)), default, Some(entry), rest,
                     writes)
  {
  }

  lemma SameMemory(a: seq<Device>, b: seq<Device>, w: Entry)
    requires |a| == |b| && (forall i :: 0 <= i < |a| ==> b[i].lastOwnWrite == a[i].lastOwnWrite) && Remembered(a, w)
    ensures Remembered(b, w)
  {
    var k :| 0 <= k < |a| && a[k].lastOwnWrite >= w.at;
    assert b[k].lastOwnWrite >= w.at;
  }

  lemma LandKeepsInv(s: Net, default: Entry, entry: Entry)
    requires NetInv(s, default) && Enabled(s, Land(entry))
    ensures NetInv(Apply(s, Land(entry)), default)
  {
    hide DeviceOk, Remembered;
    var s' := Apply(s, Land(entry));
    forall i | 0 <= i < |s.devices|
      ensures DeviceOk(s'.devices[i], default, s'.server, s'.inFlight, s'.writes)
    {
      LandedOk(s.devices[i], default, s.server, s.inFlight, s.writes, entry);
    }
    forall w | w in s.writes ensures Remembered(s'.devices, w) {
      SameMemory(s.devices, s'.devices, w);
    }
  }

  lemma DeliveredOk(dev: Device, default: Entry, server: Option<Entry>, a: multiset<Entry>, b: multiset<Entry>,
                    writes: set<Entry>)
    requires DeviceOk(dev, default, server, a, writes) && HistoryOk(writes) && default.at == BASELINE && dev.inbox != []
    requires var (local, push) := Reconcile(dev.local, dev.hasStored, dev.inbox[0]);
             a <= b && (push ==> local in b)
    ensures var (local, push) := Reconcile(dev.local, dev.hasStored, dev.inbox[0]);
            DeviceOk(dev.(local := local, hasStored := true, inbox := dev.inbox[1..]), default, server, b, writes)
  {
    assert dev.inbox[0] in dev.inbox;
  }

  lemma DeliverKeepsInv(s: Net, default: Entry, d: nat)
    requires NetInv(s, default) && Enabled(s, Deliver(d))
    ensures NetInv(Apply(s, Deliver(d)), default)
  {
    hide DeviceOk, HistoryOk, Remembered, Reconcile;
    var s' := Apply(s, Deliver(d));
    DeliveredOk(s.devices[d], default, s.server, s.inFlight, s'.inFlight, s.writes);
    OneDevice(s, default, d, s'.devices[d], s');
  }

  lemma HeardOk(dev: Device, default: Entry, server: Option<Entry>, inFlight: multiset<Entry>, writes: set<Entry>)
    requires DeviceOk(dev, default, server, inFlight, writes) && KnownDoc(server, default, writes)
    ensures DeviceOk(dev.(inbox := dev.inbox + [server]), default, server, inFlight, writes)
    ensures DeviceOk(dev.(subscribed := true, inbox := dev.inbox + [server]), default, server, inFlight, writes)
  {
  }

  lemma SkippedOk(dev: Device, default: Entry, server: Option<Entry>, inFlight: multiset<Entry>, writes: set<Entry>)
    requires DeviceOk(dev, default, server, inFlight, writes) && |dev.inbox| > 1
    ensures DeviceOk(dev.(inbox := dev.inbox[1..]), default, server, inFlight, writes)
  {
  }

  lemma EchoKeepsInv(s: Net, default: Entry, d: nat)
    requires NetInv(s, default) && Enabled(s, Echo(d))
    ensures NetInv(Apply(s, Echo(d)), default)
  {
    var s' := Apply(s, Echo(d));
    assert s.devices[d := s.devices[d]] == s.devices;
    DeviceStays(s.devices[d], default, s.server, s.inFlight, s'.inFlight, s.writes, s.writes);
    hide DeviceOk, Remembered;
    OneDevice(s, default, d, s.devices[d], s');
  }

  lemma StepKeepsInv(s: Net, default: Entry, e: Event)
    requires NetInv(s, default) && Enabled(s, e)
    ensures NetInv(Apply(s, e), default)
  {
    hide DeviceOk, Remembered;
    match e {
      case Fetch(d) =>
        HeardOk(s.devices[d], default, s.server, s.inFlight, s.writes);
        OneDevice(s, default, d, Apply(s, e).devices[d], Apply(s, e));
      case Subscribe(d) =>
        HeardOk(s.devices[d], default, s.server, s.inFlight, s.writes);
        OneDevice(s, default, d, Apply(s, e).devices[d], Apply(s, e));
      case Write(d, entry) => WriteKeepsInv(s, default, d, entry);
      case Land(entry) => LandKeepsInv(s, default, entry);
      case Deliver(d) => DeliverKeepsInv(s, default, d);
      case Skip(d) =>
        SkippedOk(s.devices[d], default, s.server, s.inFlight, s.writes);
        OneDevice(s, default, d, Apply(s, e).devices[d], Apply(s, e));
      case Echo(d) => EchoKeepsInv(s, default, d);
    }
  }

  lemma {:induction false} RunKeepsInv(s: Net, default: Entry, events: seq<Event>)
    requires NetInv(s, default) && IsRun(s, events)
    ensures NetInv(Run(s, events), default)
    decreases |events|
  {
    if events != [] {
      StepKeepsInv(s, default, events[0]);
      RunKeepsInv(Apply(s, events[0]), default, events[1..]);
    }
  }

  // -------------------------------------------------------------------- results

  predicate Newest(writes: set<Entry>, w: Entry) {
    w in writes && forall v :: v in writes ==> v.at <= w.at
  }

  /** Unless nothing was written, there is a newest write. */
  lemma {:induction false} NewestExists(writes: set<Entry>) returns (w: Entry)
    requires writes != {}
    ensures Newest(writes, w)
    decreases writes
  {
    w :| w in writes;
    if writes != {w} {
      var v := NewestExists(writes - {w});
      if w.at < v.at {
        w := v;
      }
    }
  }

  /** Nothing is on the way and every device is listening. */
  predicate Quiescent(s: Net) {
    s.inFlight == multiset{} && forall d :: 0 <= d < |s.devices| ==> s.devices[d].subscribed && s.devices[d].inbox == []
  }

  /** The server and every device hold this value. */
  predicate Agreed(s: Net, e: Entry) {
    s.server == Some(e) && forall d :: 0 <= d < |s.devices| ==> s.devices[d].local == e
  }

  predicate Held(devices: seq<Device>, e: Entry) {
    exists d :: 0 <= d < |devices| && devices[d].local == e
  }

  lemma HeldInState(s: Net, default: Entry, newest: Entry)
    requires NetInv(s, default) && Newest(s.writes, newest)
    ensures Held(s.devices, newest)
  {
    assert Remembered(s.devices, newest);
    var d :| 0 <= d < |s.devices| && s.devices[d].lastOwnWrite >= newest.at;
    assert DeviceOk(s.devices[d], default, s.server, s.inFlight, s.writes);
  }

  /** Over every run some device holds the newest change. */
  lemma NewestIsHeld(n: nat, default: Entry, events: seq<Event>, newest: Entry)
    requires default.at == BASELINE && IsRun(Start(n, default), events)
    requires Newest(Run(Start(n, default), events).writes, newest)
    ensures Held(Run(Start(n, default), events).devices, newest)
  {
    StartInv(n, default);
    RunKeepsInv(Start(n, default), default, events);
    HeldInState(Run(Start(n, default), events), default, newest);
  }

  /** Whenever a run comes to rest, every device and the server hold exactly the newest change. */
  lemma RestAgrees(n: nat, default: Entry, events: seq<Event>, newest: Entry)
    requires default.at == BASELINE && IsRun(Start(n, default), events)
    requires var s := Run(Start(n, default), events); Quiescent(s) && Newest(s.writes, newest)
    ensures Agreed(Run(Start(n, default), events), newest)
    ensures var s := Run(Start(n, default), events);
            s.server == Some(newest) && forall d :: 0 <= d < |s.devices| ==> s.devices[d].local == newest
  {
    var s := Run(Start(n, default), events);
    StartInv(n, default);
    RunKeepsInv(Start(n, default), default, events);
    HeldInState(s, default, newest);
    forall d | 0 <= d < |s.devices| ensures Settled(s.devices[d], default, s.server, s.inFlight) {
      assert DeviceOk(s.devices[d], default, s.server, s.inFlight, s.writes);
    }
  }

  lemma DeliverRaises(dev: Device, default: Entry, server: Option<Entry>, inFlight: multiset<Entry>, writes: set<Entry>)
    requires DeviceOk(dev, default, server, inFlight, writes) && HistoryOk(writes) && default.at == BASELINE
    requires dev.inbox != []
    ensures Reconcile(dev.local, dev.hasStored, dev.inbox[0]).0.at >= dev.local.at
  {
    assert dev.inbox[0] in dev.inbox;
  }

  /** Apart from the user's own changes no event lowers the timestamp that a device holds. */
  lemma NoEventLowers(s: Net, default: Entry, e: Event)
    requires NetInv(s, default) && Enabled(s, e) && !e.Write?
    ensures forall d :: 0 <= d < |s.devices| ==> Apply(s, e).devices[d].local.at >= s.devices[d].local.at
  {
    hide DeviceOk, HistoryOk, Remembered, Reconcile;
    if e.Deliver? {
      DeliverRaises(s.devices[e.d], default, s.server, s.inFlight, s.writes);
    }
  }
}
