/** Without user changes the exchange always ends: pushes that land, snapshots that are reconciled, devices that start
    to listen or hear of their own pushes cannot go on forever, in whatever order they happen, and where they end
    every device holds the newest change. Only endless fetching or endless folding of snapshots can keep it going. */
module MetadataEnds {
  import opened Prelude
  import opened MetadataSync
  import opened MetadataRest

  /** Device d starts to listen, a push lands or a snapshot is reconciled. */
  predicate Routine(e: Event) {
    e.Subscribe? || e.Land? || e.Deliver?
  }

  predicate AllRoutine(events: seq<Event>) {
    forall e :: e in events ==> Routine(e)
  }

  /** What may happen besides: so many fetches and folded snapshots in all, and for every device so many more times
      that it hears of its own pending push. */
  datatype Budget = Budget(irregular: nat, echoes: seq<nat>)

  predicate Affordable(s: Net, b: Budget, e: Event) {
    && |b.echoes| == |s.devices| && Enabled(s, e)
    && match e {
      case Write(_, _) => false
      case Fetch(_) | Skip(_) => b.irregular > 0
      case Echo(d) => b.echoes[d] > 0
      case _ => true
    }
  }

  /** Every push of a reconciliation can be heard of once; what an echo pushes is already pending and is not heard. */
  function Spend(s: Net, b: Budget, e: Event): (r: Budget)
    requires Affordable(s, b, e)
    ensures |r.echoes| == |b.echoes|
  {
    match e
    case Fetch(_) | Skip(_) => b.(irregular := b.irregular - 1)
    case Echo(d) => b.(echoes := b.echoes[d := b.echoes[d] - 1])
    case Deliver(d) =>
      var dev := s.devices[d];
      if Reconcile(dev.local, dev.hasStored, dev.inbox[0]).1 then b.(echoes := b.echoes[d := b.echoes[d] + 1]) else b
    case _ => b
  }

  /** A run without user changes that stays within the budget. */
  predicate IsQuietRun(s: Net, b: Budget, events: seq<Event>)
    decreases |events|
  {
    events == [] ||
    (Affordable(s, b, events[0]) && IsQuietRun(Apply(s, events[0]), Spend(s, b, events[0]), events[1..]))
  }

  lemma {:induction false} QuietIsRun(s: Net, b: Budget, events: seq<Event>)
    requires IsQuietRun(s, b, events)
    ensures IsRun(s, events) && Run(s, events).writes == s.writes
    decreases |events|
  {
    if events != [] {
      QuietIsRun(Apply(s, events[0]), Spend(s, b, events[0]), events[1..]);
    }
  }

  // --------------------------------------------------------------------- sums

  function Sum<T>(xs: seq<T>, f: T -> nat): nat {
    if xs == [] then 0 else f(xs[0]) + Sum(xs[1..], f)
  }

  lemma {:induction false} SumNotAbove<A>(a: seq<A>, b: seq<A>, f: A -> nat, g: A -> nat)
    requires |a| == |b| && forall i :: 0 <= i < |a| ==> f(a[i]) <= g(b[i])
    ensures Sum(a, f) <= Sum(b, g)
    decreases |a|
  {
    if a != [] {
      forall i | 0 <= i < |a[1..]| ensures f(a[1..][i]) <= g(b[1..][i]) {
        assert f(a[i + 1]) <= g(b[i + 1]);
      }
      SumNotAbove(a[1..], b[1..], f, g);
    }
  }

  lemma {:induction false} SumBelow<A>(a: seq<A>, b: seq<A>, f: A -> nat, g: A -> nat, d: nat)
    requires |a| == |b| && (forall i :: 0 <= i < |a| ==> f(a[i]) <= g(b[i])) && d < |a| && f(a[d]) < g(b[d])
    ensures Sum(a, f) < Sum(b, g)
    decreases |a|
  {
    forall i | 0 <= i < |a[1..]| ensures f(a[1..][i]) <= g(b[1..][i]) {
      assert f(a[i + 1]) <= g(b[i + 1]);
    }
    if d == 0 {
      SumNotAbove(a[1..], b[1..], f, g);
    } else {
      SumBelow(a[1..], b[1..], f, g, d - 1);
    }
  }

  lemma {:induction false} SumOfBits<A>(xs: seq<A>, f: A -> nat)
    requires forall i :: 0 <= i < |xs| ==> f(xs[i]) <= 1
    ensures Sum(xs, f) <= |xs|
    decreases |xs|
  {
    if xs != [] {
      forall i | 0 <= i < |xs[1..]| ensures f(xs[1..][i]) <= 1 {
        assert f(xs[i + 1]) <= 1;
      }
      SumOfBits(xs[1..], f);
    }
  }

  // ---------------------------------------------------------- one device's prospects

  /** The device's stored value or its being stored changes when it reconciles this snapshot. */
  predicate Stirs(dev: Device, doc: Option<Entry>) {
    !dev.hasStored || Adopts(dev.local, dev.hasStored, doc)
  }

  /** How many snapshots the device answers with the value it has now. */
  function Answers(dev: Device, inbox: seq<Option<Entry>>): (n: nat)
    ensures n <= |inbox|
    decreases |inbox|
  {
    if inbox == [] || Stirs(dev, inbox[0]) then 0 else 1 + Answers(dev, inbox[1..])
  }

  /** The device listens, and nothing that waits in its inbox changes it. */
  predicate Steady(dev: Device) {
    dev.subscribed && Answers(dev, dev.inbox) == |dev.inbox|
  }

  lemma {:induction false} AnswersMore(dev: Device, inbox: seq<Option<Entry>>, doc: Option<Entry>)
    ensures Answers(dev, inbox + [doc]) ==
            if Answers(dev, inbox) < |inbox| then Answers(dev, inbox)
            else if Stirs(dev, doc) then |inbox| else |inbox| + 1
    decreases |inbox|
  {
    if inbox == [] {
      assert inbox + [doc] == [doc];
    } else {
      assert (inbox + [doc])[1..] == inbox[1..] + [doc];
      if !Stirs(dev, inbox[0]) { AnswersMore(dev, inbox[1..], doc); }
    }
  }

  /** Answers depends on nothing but the stored value. */
  lemma {:induction false} AnswersSame(a: Device, b: Device, inbox: seq<Option<Entry>>)
    requires a.local == b.local && a.hasStored == b.hasStored
    ensures Answers(a, inbox) == Answers(b, inbox)
    decreases |inbox|
  {
    if inbox != [] { AnswersSame(a, b, inbox[1..]); }
  }

  // -------------------------------------------------------------------- ranking

  function Later(e: Entry): Entry -> nat {
    (k: Entry) => if k.at > e.at then 1 else 0
  }

  /** An upper bound on how often the device's stored value can still change. */
  function Prospects(ks: seq<Entry>): Device -> nat {
    (dev: Device) => (if dev.hasStored then 0 else |ks| + 1) + Sum(ks, Later(dev.local))
  }

  function Deaf(dev: Device): nat {
    if dev.subscribed then 0 else 1
  }

  function SteadyBit(dev: Device): nat {
    if Steady(dev) then 1 else 0
  }

  /** A device and how often it can still hear of its own pushes. */
  datatype Party = Party(dev: Device, echoes: nat)

  function Parties(devices: seq<Device>, echoes: seq<nat>): (r: seq<Party>)
    requires |echoes| == |devices|
    ensures |r| == |devices|
  {
    seq(|devices|, i requires 0 <= i < |devices| => Party(devices[i], echoes[i]))
  }

  /** An answer takes a snapshot and brings an echo. */
  function Overdue(p: Party): nat {
    if Steady(p.dev) then 0 else 2 * Answers(p.dev, p.dev.inbox) + p.echoes
  }

  function Waiting(p: Party): nat {
    if Steady(p.dev) then 2 * |p.dev.inbox| + p.echoes else 0
  }

  predicate NotAboveSteady(e: Entry, devices: seq<Device>) {
    forall d :: 0 <= d < |devices| && Steady(devices[d]) ==> e.at <= devices[d].local.at
  }

  /** Older than what every steady device holds. */
  predicate Low(e: Entry, devices: seq<Device>) {
    forall d :: 0 <= d < |devices| && Steady(devices[d]) ==> e.at < devices[d].local.at
  }

  function LowPushes(s: Net): Entry -> nat {
    (k: Entry) => if Low(k, s.devices) then s.inFlight[k] else 0
  }

  /** The document is the oldest value of a steady device. */
  predicate AtLeast(doc: Option<Entry>, devices: seq<Device>) {
    doc.Some? && NotAboveSteady(doc.value, devices) && !Low(doc.value, devices)
  }

  datatype Rank = Rank(irregular: nat, prospects: nat, deaf: nat, steady: nat, overdue: nat, low: nat, off: nat,
                       waiting: nat, inFlight: nat)

  function RankOf(s: Net, b: Budget, ks: seq<Entry>): Rank
    requires |b.echoes| == |s.devices|
  {
    Rank(b.irregular, Sum(s.devices, Prospects(ks)), Sum(s.devices, Deaf), Sum(s.devices, SteadyBit),
         Sum(Parties(s.devices, b.echoes), Overdue), Sum(ks, LowPushes(s)),
         if AtLeast(s.server, s.devices) then 0 else 1, Sum(Parties(s.devices, b.echoes), Waiting), |s.inFlight|)
  }

  /** The lexicographic order. */
  predicate Below(a: Rank, b: Rank) {
    a.irregular < b.irregular || (a.irregular == b.irregular &&
    (a.prospects < b.prospects || (a.prospects == b.prospects &&
    (a.deaf < b.deaf || (a.deaf == b.deaf &&
    (a.steady < b.steady || (a.steady == b.steady &&
    (a.overdue < b.overdue || (a.overdue == b.overdue &&
    (a.low < b.low || (a.low == b.low &&
    (a.off < b.off || (a.off == b.off &&
    (a.waiting < b.waiting || (a.waiting == b.waiting && a.inFlight < b.inFlight)))))))))))))))
  }

  /** ks lists every value that is about. */
  predicate Mentions(ks: seq<Entry>, default: Entry, writes: set<Entry>) {
    default in ks && forall w :: w in writes ==> w in ks
  }

  // ------------------------------------------------------------------ listening

  lemma ListeningLowers(s: Net, b: Budget, d: nat, ks: seq<Entry>)
    requires Affordable(s, b, Subscribe(d))
    ensures Below(RankOf(Apply(s, Subscribe(d)), Spend(s, b, Subscribe(d)), ks), RankOf(s, b, ks))
  {
    hide Steady, Sum, Low, AtLeast;
    var s' := Apply(s, Subscribe(d));
    SumNotAbove(s'.devices, s.devices, Prospects(ks), Prospects(ks));
    SumBelow(s'.devices, s.devices, Deaf, Deaf, d);
  }

  // ----------------------------------------------------------------- delivering

  /** A snapshot that changes the device uses up a prospect. */
  lemma StirUsesProspect(dev: Device, ks: seq<Entry>, doc: Option<Entry>)
    requires Stirs(dev, doc) && (doc.Some? ==> doc.value in ks)
    ensures var after := dev.(local := Reconcile(dev.local, dev.hasStored, doc).0, hasStored := true);
            Prospects(ks)(after) < Prospects(ks)(dev)
  {
    var after := dev.(local := Reconcile(dev.local, dev.hasStored, doc).0, hasStored := true);
    if dev.hasStored {
      var i :| 0 <= i < |ks| && ks[i] == doc.value;
      SumBelow(ks, ks, Later(after.local), Later(dev.local), i);
    } else {
      SumOfBits(ks, Later(after.local));
    }
  }

  lemma StirLowers(s: Net, b: Budget, default: Entry, d: nat, ks: seq<Entry>)
    requires NetInv(s, default) && Affordable(s, b, Deliver(d)) && Mentions(ks, default, s.writes)
    requires Stirs(s.devices[d], s.devices[d].inbox[0])
    ensures Below(RankOf(Apply(s, Deliver(d)), Spend(s, b, Deliver(d)), ks), RankOf(s, b, ks))
  {
    var dev := s.devices[d];
    assert DeviceOk(dev, default, s.server, s.inFlight, s.writes);
    assert dev.inbox[0] in dev.inbox;
    StirUsesProspect(dev, ks, dev.inbox[0]);
    hide NetInv, DeviceOk, Steady, Sum, Low, AtLeast, Reconcile, Stirs;
    var s' := Apply(s, Deliver(d));
    ProspectsOfValue(s'.devices[d],
                     dev.(local := Reconcile(dev.local, dev.hasStored, dev.inbox[0]).0, hasStored := true), ks);
    SumBelow(s'.devices, s.devices, Prospects(ks), Prospects(ks), d);
  }

  lemma ProspectsOfValue(a: Device, b: Device, ks: seq<Entry>)
    requires a.local == b.local && a.hasStored == b.hasStored
    ensures Prospects(ks)(a) == Prospects(ks)(b)
  {
  }

  /** A snapshot that changes nothing is answered with the device's value. */
  lemma AnswerStep(dev: Device)
    requires dev.inbox != [] && !Stirs(dev, dev.inbox[0])
    ensures Reconcile(dev.local, dev.hasStored, dev.inbox[0]) == (dev.local, true)
    ensures var after := dev.(inbox := dev.inbox[1..]);
            && Answers(after, after.inbox) == Answers(dev, dev.inbox) - 1
            && (Steady(after) <==> Steady(dev))
  {
    var after := dev.(inbox := dev.inbox[1..]);
    AnswersSame(after, dev, dev.inbox[1..]);
  }

  /** The same devices are steady, and they hold the same values. */
  predicate SameSteady(a: seq<Device>, b: seq<Device>) {
    |a| == |b| && forall d :: 0 <= d < |a| ==> a[d].local == b[d].local && (Steady(a[d]) <==> Steady(b[d]))
  }

  lemma SameSteadySameLow(a: seq<Device>, b: seq<Device>, e: Entry)
    requires SameSteady(a, b)
    ensures Low(e, a) <==> Low(e, b)
    ensures NotAboveSteady(e, a) <==> NotAboveSteady(e, b)
  {
  }

  /** One device drops its first snapshot, which does not change it. */
  predicate Answered(after: seq<Device>, devices: seq<Device>, d: nat) {
    && d < |devices| && devices[d].inbox != [] && !Stirs(devices[d], devices[d].inbox[0])
    && after == devices[d := devices[d].(inbox := devices[d].inbox[1..])]
  }

  lemma AnsweredKeepsHopes(a: seq<Device>, b: seq<Device>, d: nat, ks: seq<Entry>)
    requires Answered(a, b, d)
    ensures Sum(a, Prospects(ks)) <= Sum(b, Prospects(ks)) && Sum(a, Deaf) <= Sum(b, Deaf)
  {
    hide Sum, Stirs;
    SumNotAbove(a, b, Prospects(ks), Prospects(ks));
    SumNotAbove(a, b, Deaf, Deaf);
  }

  lemma AnsweredSteady(a: seq<Device>, b: seq<Device>, d: nat, echoes: seq<nat>)
    requires Answered(a, b, d) && |echoes| == |b|
    ensures SameSteady(a, b) && Sum(a, SteadyBit) <= Sum(b, SteadyBit)
    ensures var (p, q) := (Parties(a, echoes[d := echoes[d] + 1]), Parties(b, echoes));
            if Steady(b[d]) then Sum(p, Overdue) <= Sum(q, Overdue) && Sum(p, Waiting) < Sum(q, Waiting)
            else Sum(p, Overdue) < Sum(q, Overdue)
  {
    AnswerStep(b[d]);
    hide Sum, Stirs, Answers, Steady;
    SumNotAbove(a, b, SteadyBit, SteadyBit);
    var (p, q) := (Parties(a, echoes[d := echoes[d] + 1]), Parties(b, echoes));
    if Steady(b[d]) {
      SumNotAbove(p, q, Overdue, Overdue);
      SumBelow(p, q, Waiting, Waiting, d);
    } else {
      SumBelow(p, q, Overdue, Overdue, d);
    }
  }

  /** What such a delivery does to the network and the budget. */
  lemma AnsweredOne(s: Net, b: Budget, d: nat)
    requires Affordable(s, b, Deliver(d)) && !Stirs(s.devices[d], s.devices[d].inbox[0])
    ensures var s' := Apply(s, Deliver(d));
            && Answered(s'.devices, s.devices, d) && s'.server == s.server
            && s'.inFlight == s.inFlight + multiset{s.devices[d].local}
    ensures Spend(s, b, Deliver(d)) == b.(echoes := b.echoes[d := b.echoes[d] + 1])
  {
    AnswerStep(s.devices[d]);
  }

  lemma AnswerLowers(s: Net, b: Budget, d: nat, ks: seq<Entry>)
    requires Affordable(s, b, Deliver(d)) && !Stirs(s.devices[d], s.devices[d].inbox[0])
    ensures Below(RankOf(Apply(s, Deliver(d)), Spend(s, b, Deliver(d)), ks), RankOf(s, b, ks))
  {
    hide Sum, Answers, Steady, Low, NotAboveSteady, SameSteady, Parties, Stirs, Reconcile, Apply, Spend, LowPushes;
    AnsweredOne(s, b, d);
    var s' := Apply(s, Deliver(d));
    AnsweredKeepsHopes(s'.devices, s.devices, d, ks);
    AnsweredSteady(s'.devices, s.devices, d, b.echoes);
    if Steady(s.devices[d]) {
      SteadyPushIsNotLow(s, d, s', ks);
      if s.server.Some? { SameSteadySameLow(s'.devices, s.devices, s.server.value); }
    }
  }

  // -------------------------------------------------------------------- echoing

  /** A device that hears of its own push pushes its value again and can hear of it once less. */
  lemma EchoLowers(s: Net, b: Budget, d: nat, ks: seq<Entry>)
    requires Affordable(s, b, Echo(d))
    ensures Below(RankOf(Apply(s, Echo(d)), Spend(s, b, Echo(d)), ks), RankOf(s, b, ks))
  {
    hide Sum, Steady, Low, NotAboveSteady;
    var s' := Apply(s, Echo(d));
    var (p, q) := (Parties(s.devices, b.echoes[d := b.echoes[d] - 1]), Parties(s.devices, b.echoes));
    if Steady(s.devices[d]) {
      SumNotAbove(p, q, Overdue, Overdue);
      SumBelow(p, q, Waiting, Waiting, d);
      SteadyPushIsNotLow(s, d, s', ks);
    } else {
      SumBelow(p, q, Overdue, Overdue, d);
    }
  }

  lemma SteadyPushIsNotLow(s: Net, d: nat, s': Net, ks: seq<Entry>)
    requires d < |s.devices| && Steady(s.devices[d]) && SameSteady(s'.devices, s.devices)
    requires s'.inFlight == s.inFlight + multiset{s.devices[d].local}
    ensures Sum(ks, LowPushes(s')) <= Sum(ks, LowPushes(s))
  {
    hide Steady, SameSteady;
    forall i | 0 <= i < |ks| ensures LowPushes(s')(ks[i]) <= LowPushes(s)(ks[i]) {
      SameSteadySameLow(s'.devices, s.devices, ks[i]);
    }
    SumNotAbove(ks, ks, LowPushes(s'), LowPushes(s));
  }

  // -------------------------------------------------------------------- landing

  /** What a landed push does to one device's part of the rank. */
  lemma NotifiedStep(dev: Device, doc: Option<Entry>, ks: seq<Entry>, echoes: nat)
    ensures var after := Notified(dev, doc);
            && Prospects(ks)(after) == Prospects(ks)(dev) && Deaf(after) == Deaf(dev) && after.local == dev.local
            && (Steady(after) <==> Steady(dev) && !Stirs(dev, doc))
            && (Steady(after) || !Steady(dev) ==> Overdue(Party(after, echoes)) == Overdue(Party(dev, echoes)))
  {
    var after := Notified(dev, doc);
    ProspectsOfValue(after, dev, ks);
    if dev.subscribed {
      AnswersSame(after, dev, dev.inbox + [doc]);
      AnswersMore(dev, dev.inbox, doc);
    }
  }

  lemma RepeatLowers(s: Net, b: Budget, e: Entry, ks: seq<Entry>)
    requires Affordable(s, b, Land(e)) && s.server == Some(e)
    ensures Below(RankOf(Apply(s, Land(e)), Spend(s, b, Land(e)), ks), RankOf(s, b, ks))
  {
    hide Sum, Steady, Low, NotAboveSteady;
    var s' := Apply(s, Land(e));
    assert |s'.inFlight| < |s.inFlight|;
    SumNotAbove(ks, ks, LowPushes(s'), LowPushes(s));
  }

  /** The devices after a push that changed the document. */
  predicate Told(after: seq<Device>, devices: seq<Device>, doc: Option<Entry>) {
    |after| == |devices| && forall i :: 0 <= i < |devices| ==> after[i] == Notified(devices[i], doc)
  }

  lemma ToldKeepsHopes(a: seq<Device>, b: seq<Device>, doc: Option<Entry>, ks: seq<Entry>)
    requires Told(a, b, doc)
    ensures Sum(a, Prospects(ks)) <= Sum(b, Prospects(ks)) && Sum(a, Deaf) <= Sum(b, Deaf)
  {
    hide Sum, Steady, Stirs, Notified, Prospects, Deaf;
    forall i | 0 <= i < |a| ensures Prospects(ks)(a[i]) == Prospects(ks)(b[i]) && Deaf(a[i]) == Deaf(b[i]) {
      NotifiedStep(b[i], doc, ks, 0);
    }
    SumNotAbove(a, b, Prospects(ks), Prospects(ks));
    SumNotAbove(a, b, Deaf, Deaf);
  }

  /** A push that a steady device will adopt leaves fewer steady devices; any other leaves all of them, and no
      more answers are due from the rest. */
  lemma ToldSteady(a: seq<Device>, b: seq<Device>, e: Entry, echoes: seq<nat>)
    requires Told(a, b, Some(e)) && |echoes| == |b|
    ensures Sum(a, SteadyBit) < Sum(b, SteadyBit) ||
            (&& Sum(a, SteadyBit) <= Sum(b, SteadyBit) && SameSteady(a, b)
             && Sum(Parties(a, echoes), Overdue) <= Sum(Parties(b, echoes), Overdue)
             && forall d :: 0 <= d < |b| && Steady(b[d]) ==> !Stirs(b[d], Some(e)))
  {
    hide Sum, Steady, Stirs, Notified, Prospects, Deaf, Overdue;
    forall i | 0 <= i < |a|
      ensures && a[i].local == b[i].local && (Steady(a[i]) <==> Steady(b[i]) && !Stirs(b[i], Some(e)))
              && (Steady(a[i]) || !Steady(b[i]) ==>
                    Overdue(Party(a[i], echoes[i])) == Overdue(Party(b[i], echoes[i])))
    {
      NotifiedStep(b[i], Some(e), [], echoes[i]);
    }
    if d :| 0 <= d < |b| && Steady(b[d]) && Stirs(b[d], Some(e)) {
      SumBelow(a, b, SteadyBit, SteadyBit, d);
    } else {
      SumNotAbove(a, b, SteadyBit, SteadyBit);
      SumNotAbove(Parties(a, echoes), Parties(b, echoes), Overdue, Overdue);
    }
  }

  lemma ChangeLowers(s: Net, b: Budget, default: Entry, e: Entry, ks: seq<Entry>)
    requires NetInv(s, default) && Mentions(ks, default, s.writes)
    requires Affordable(s, b, Land(e)) && s.server != Some(e)
    ensures Below(RankOf(Apply(s, Land(e)), Spend(s, b, Land(e)), ks), RankOf(s, b, ks))
  {
    var s' := Apply(s, Land(e));
    assert Told(s'.devices, s.devices, Some(e));
    ToldKeepsHopes(s'.devices, s.devices, Some(e), ks);
    ToldSteady(s'.devices, s.devices, e, b.echoes);
    hide NetInv, Mentions, Sum, Steady, Stirs, Told, SameSteady, AtLeast, Parties;
    if SameSteady(s'.devices, s.devices) && forall d :: 0 <= d < |s.devices| && Steady(s.devices[d]) ==>
                                                        !Stirs(s.devices[d], Some(e)) {
      QuietChangeLowers(s, default, e, s', ks);
    }
  }

  lemma QuietChangeLowers(s: Net, default: Entry, e: Entry, s': Net, ks: seq<Entry>)
    requires NetInv(s, default) && Mentions(ks, default, s.writes) && e in s.inFlight && s.server != Some(e)
    requires SameSteady(s'.devices, s.devices) && s'.server == Some(e) && s'.inFlight == s.inFlight - multiset{e}
    requires forall d :: 0 <= d < |s.devices| && Steady(s.devices[d]) ==> !Stirs(s.devices[d], Some(e))
    ensures Sum(ks, LowPushes(s')) <= Sum(ks, LowPushes(s))
    ensures Sum(ks, LowPushes(s')) < Sum(ks, LowPushes(s))
         || (AtLeast(s'.server, s'.devices) && !AtLeast(s.server, s.devices))
  {
    assert NotAboveSteady(e, s.devices);
    assert Known(e, default, s.writes);
    if s.server.Some? { KnownTwins(e, s.server.value, default, s.writes); }
    SameSteadySameLow(s'.devices, s.devices, e);
    hide NetInv, Sum, Steady, Stirs;
    forall i | 0 <= i < |ks| ensures LowPushes(s')(ks[i]) <= LowPushes(s)(ks[i]) {
      SameSteadySameLow(s'.devices, s.devices, ks[i]);
    }
    SumNotAbove(ks, ks, LowPushes(s'), LowPushes(s));
    if Low(e, s.devices) {
      var i :| 0 <= i < |ks| && ks[i] == e;
      SumBelow(ks, ks, LowPushes(s'), LowPushes(s), i);
    }
  }

  // -------------------------------------------------------------------- results

  lemma StepLowers(s: Net, b: Budget, default: Entry, ks: seq<Entry>, e: Event)
    requires NetInv(s, default) && Mentions(ks, default, s.writes) && Affordable(s, b, e)
    ensures |Apply(s, e).devices| == |s.devices| && Apply(s, e).writes == s.writes
    ensures Below(RankOf(Apply(s, e), Spend(s, b, e), ks), RankOf(s, b, ks))
  {
    hide NetInv, Mentions, Stirs, Sum, LowPushes, AtLeast, Parties, Reconcile;
    match e {
      case Subscribe(d) => ListeningLowers(s, b, d, ks);
      case Land(entry) =>
        if s.server == Some(entry) { RepeatLowers(s, b, entry, ks); } else { ChangeLowers(s, b, default, entry, ks); }
      case Deliver(d) =>
        if Stirs(s.devices[d], s.devices[d].inbox[0]) {
          StirLowers(s, b, default, d, ks);
        } else {
          AnswerLowers(s, b, d, ks);
        }
      case Echo(d) => EchoLowers(s, b, d, ks);
      case Fetch(_) =>
      case Skip(_) =>
    }
  }

  /** No quiet run from s has more than this many events. */
  ghost predicate EndsWithin(s: Net, b: Budget, bound: nat) {
    forall events :: IsQuietRun(s, b, events) ==> |events| <= bound
  }

  /** Every quiet run that begins with one of these has at most this many. */
  ghost predicate EndsWithinAfter(s: Net, b: Budget, firsts: seq<Event>, bound: nat) {
    forall events :: IsQuietRun(s, b, events) && events != [] && events[0] in firsts ==> |events| <= bound
  }

  function PerDevice(n: nat, event: nat -> Event): seq<Event> {
    seq(n, d requires 0 <= d < n => event(d))
  }

  lemma PerDeviceHas(n: nat, event: nat -> Event, d: nat)
    requires d < n
    ensures event(d) in PerDevice(n, event)
  {
    assert PerDevice(n, event)[d] == event(d);
  }

  function Listening(d: nat): Event { Subscribe(d) }
  function Reading(d: nat): Event { Deliver(d) }
  function Hearing(d: nat): Event { Echo(d) }
  function Fetching(d: nat): Event { Fetch(d) }
  function Folding(d: nat): Event { Skip(d) }

  function Landings(ks: seq<Entry>): seq<Event> {
    seq(|ks|, i requires 0 <= i < |ks| => Land(ks[i]))
  }

  /** The events that can be possible with n devices. */
  function Choices(n: nat, ks: seq<Entry>): seq<Event> {
    PerDevice(n, Listening) + PerDevice(n, Reading) + PerDevice(n, Hearing) +
    PerDevice(n, Fetching) + PerDevice(n, Folding) + Landings(ks)
  }

  lemma ChoicesCover(s: Net, b: Budget, default: Entry, ks: seq<Entry>, e: Event)
    requires NetInv(s, default) && Mentions(ks, default, s.writes) && Affordable(s, b, e)
    ensures e in Choices(|s.devices|, ks)
  {
    hide PerDevice;
    var n := |s.devices|;
    match e {
      case Subscribe(d) => PerDeviceHas(n, Listening, d);
      case Deliver(d) => PerDeviceHas(n, Reading, d);
      case Echo(d) => PerDeviceHas(n, Hearing, d);
      case Fetch(d) => PerDeviceHas(n, Fetching, d);
      case Skip(d) => PerDeviceHas(n, Folding, d);
      case Land(entry) =>
        assert Known(entry, default, s.writes);
        var i :| 0 <= i < |ks| && ks[i] == entry;
        assert Landings(ks)[i] == e;
    }
  }

  lemma {:induction false} RunsEnd(s: Net, b: Budget, default: Entry, ks: seq<Entry>) returns (bound: nat)
    requires NetInv(s, default) && Mentions(ks, default, s.writes) && |b.echoes| == |s.devices|
    ensures EndsWithin(s, b, bound)
    decreases RankOf(s, b, ks).irregular, RankOf(s, b, ks).prospects, RankOf(s, b, ks).deaf, RankOf(s, b, ks).steady,
              RankOf(s, b, ks).overdue, RankOf(s, b, ks).low, RankOf(s, b, ks).off, RankOf(s, b, ks).waiting,
              RankOf(s, b, ks).inFlight, |Choices(|s.devices|, ks)| + 1
  {
    hide NetInv, Mentions, RankOf, Choices, Affordable, Apply, Spend;
    var firsts := Choices(|s.devices|, ks);
    bound := RunsEndAfter(s, b, default, ks, firsts);
    forall events | IsQuietRun(s, b, events) ensures |events| <= bound {
      if events != [] { ChoicesCover(s, b, default, ks, events[0]); }
    }
  }

  lemma {:induction false} RunsEndAfter(s: Net, b: Budget, default: Entry, ks: seq<Entry>, firsts: seq<Event>)
    returns (bound: nat)
    requires NetInv(s, default) && Mentions(ks, default, s.writes) && |b.echoes| == |s.devices|
    ensures EndsWithinAfter(s, b, firsts, bound)
    decreases RankOf(s, b, ks).irregular, RankOf(s, b, ks).prospects, RankOf(s, b, ks).deaf, RankOf(s, b, ks).steady,
              RankOf(s, b, ks).overdue, RankOf(s, b, ks).low, RankOf(s, b, ks).off, RankOf(s, b, ks).waiting,
              RankOf(s, b, ks).inFlight, |firsts|
  {
    hide NetInv, Mentions, RankOf, Enabled, Apply, Spend;
    bound := 0;
    if firsts != [] {
      var e := firsts[0];
      var others := RunsEndAfter(s, b, default, ks, firsts[1..]);
      var rest := 0;
      if Affordable(s, b, e) {
        StepKeepsInv(s, default, e);
        StepLowers(s, b, default, ks, e);
        rest := RunsEnd(Apply(s, e), Spend(s, b, e), default, ks);
      }
      bound := others + rest + 1;
      forall events | IsQuietRun(s, b, events) && events != [] && events[0] in firsts ensures |events| <= bound {
        if events[0] == e {
          assert IsQuietRun(Apply(s, e), Spend(s, b, e), events[1..]);
        } else {
          assert events[0] in firsts[1..];
        }
      }
    }
  }

  lemma {:induction false} Listed(writes: set<Entry>) returns (ks: seq<Entry>)
    ensures forall w :: w in writes ==> w in ks
    decreases |writes|
  {
    ks := [];
    if writes != {} {
      var w :| w in writes;
      var rest := Listed(writes - {w});
      ks := [w] + rest;
    }
  }

  /** Nothing routine, which needs no budget, is left to happen. */
  ghost predicate AtEnd(s: Net) {
    forall e :: Routine(e) ==> !Enabled(s, e)
  }

  lemma AtEndIffQuiescent(s: Net)
    ensures AtEnd(s) <==> Quiescent(s)
  {
    if AtEnd(s) {
      if s.inFlight != multiset{} {
        assert |s.inFlight| > 0;
        var e :| e in s.inFlight;
        assert Enabled(s, Land(e));
        assert false;
      }
      forall d | 0 <= d < |s.devices| ensures s.devices[d].subscribed && s.devices[d].inbox == [] {
        assert !Enabled(s, Subscribe(d)) && !Enabled(s, Deliver(d));
      }
    }
  }

  /** After any run, leave the devices alone: whatever order the pushes land in and the snapshots are read in, with
      every push heard of once by its own device and any finite number of fetches and folded snapshots in between,
      the exchange is over after boundedly many steps, and wherever it is over every device and the server hold the
      newest change. */
  lemma ExchangeEndsInAgreement(n: nat, default: Entry, events: seq<Event>, newest: Entry, b: Budget)
    returns (bound: nat)
    requires default.at == BASELINE && IsRun(Start(n, default), events)
    requires Newest(Run(Start(n, default), events).writes, newest)
    requires |b.echoes| == |Run(Start(n, default), events).devices|
    ensures var s := Run(Start(n, default), events);
            && EndsWithin(s, b, bound)
            && forall more :: IsQuietRun(s, b, more) ==>
                 IsRun(s, more) && (AtEnd(Run(s, more)) ==> Agreed(Run(s, more), newest))
  {
    hide NetInv, IsRun, Run, Start, Quiescent, AtEnd, IsQuietRun, Newest, Agreed;
    var start := Start(n, default);
    var s := Run(start, events);
    StartInv(n, default);
    RunKeepsInv(start, default, events);
    var writes := Listed(s.writes);
    bound := RunsEnd(s, b, default, [default] + writes);
    forall more | IsQuietRun(s, b, more)
      ensures IsRun(s, more) && (AtEnd(Run(s, more)) ==> Agreed(Run(s, more), newest))
    {
      QuietIsRun(s, b, more);
      RunThenRun(start, events, more);
      AtEndIffQuiescent(Run(s, more));
      if AtEnd(Run(s, more)) { RestAgrees(n, default, events + more, newest); }
    }
  }

  // ------------------------------------------------------------ folded snapshots

  /** Two listening devices that hold an older and the newest change; the server holds the older one, and both
      have just been told. */
  function Torn(older: Entry, newest: Entry): Net {
    Net([Device(older, true, true, older.at, [Some(older)]), Device(newest, true, true, newest.at, [Some(older)])],
        Some(older), multiset{}, {older, newest})
  }

  /** Both answer, both pushes land, and both fold the newer snapshot into the later one. */
  function Lap(older: Entry, newest: Entry): seq<Event> {
    [Deliver(0), Deliver(1), Land(newest), Land(older), Skip(0), Skip(1)]
  }

  /** One event in front of a run. */
  lemma First(s: Net, e: Event, t: Net, events: seq<Event>)
    requires Enabled(s, e) && Apply(s, e) == t && IsRun(t, events)
    ensures IsRun(s, [e] + events) && Run(s, [e] + events) == Run(t, events)
  {
    assert ([e] + events)[1..] == events;
  }

  /** Two listening devices that have stored these values, the older one on the first device. */
  function Pair(older: Entry, newest: Entry, a: seq<Option<Entry>>, b: seq<Option<Entry>>, server: Option<Entry>,
                inFlight: multiset<Entry>): Net
  {
    Net([Device(older, true, true, older.at, a), Device(newest, true, true, newest.at, b)], server, inFlight,
        {older, newest})
  }

  /** Both devices fold the newest snapshot into the one behind it. */
  lemma Fold(x: Entry, y: Entry)
    ensures var s := Pair(x, y, [Some(y), Some(x)], [Some(y), Some(x)], Some(x), multiset{});
            IsRun(s, [Skip(0), Skip(1)]) && Run(s, [Skip(0), Skip(1)]) == Torn(x, y)
  {
    hide IsRun, Run;
    var (older, newest) := (Some(x), Some(y));
    var s := Pair(x, y, [newest, older], [newest, older], older, multiset{});
    var s1 := Pair(x, y, [older], [newest, older], older, multiset{});
    assert [newest, older][1..] == [older];
    assert [Skip(1)] + [] == [Skip(1)] && [Skip(0)] + [Skip(1)] == [Skip(0), Skip(1)];
    NoRun(Torn(x, y));
    First(s1, Skip(1), Torn(x, y), []);
    First(s, Skip(0), s1, [Skip(1)]);
  }

  /** Both pushes land, the newest first, before that. */
  lemma LandAndFold(x: Entry, y: Entry, server: Option<Entry>)
    requires x.at < y.at && server != Some(y)
    ensures var s := Pair(x, y, [], [], server, multiset{x, y}); var lap := [Land(y), Land(x), Skip(0), Skip(1)];
            IsRun(s, lap) && Run(s, lap) == Torn(x, y)
  {
    hide IsRun, Run, Torn;
    var (older, newest) := (Some(x), Some(y));
    var s0 := Pair(x, y, [], [], server, multiset{x, y});
    var s1 := Pair(x, y, [newest], [newest], newest, multiset{x});
    var s2 := Pair(x, y, [newest, older], [newest, older], older, multiset{});
    assert [] + [newest] == [newest] && [newest] + [older] == [newest, older];
    Fold(x, y);
    assert Apply(s1, Land(x)).devices == s2.devices;
    First(s1, Land(x), s2, [Skip(0), Skip(1)]);
    assert Apply(s0, Land(y)).devices == s1.devices;
    assert Apply(s0, Land(y)).inFlight == s1.inFlight;
    First(s0, Land(y), s1, [Land(x)] + [Skip(0), Skip(1)]);
    assert [Land(y), Land(x), Skip(0), Skip(1)] == [Land(y)] + ([Land(x)] + [Skip(0), Skip(1)]);
  }

  lemma NoRun(s: Net)
    ensures IsRun(s, []) && Run(s, []) == s
  {
  }

  /** Once snapshots may be folded the exchange need not end: the stale push and the newest one can overwrite
      each other forever, and the device with the older value never sees the newest. */
  lemma FoldingCanLoop(x: Entry, y: Entry)
    requires x.at < y.at
    ensures IsRun(Torn(x, y), Lap(x, y)) && Run(Torn(x, y), Lap(x, y)) == Torn(x, y)
  {
    hide IsRun, Run;
    var older := Some(x);
    var s1 := Pair(x, y, [], [older], older, multiset{x});
    var s2 := Pair(x, y, [], [], older, multiset{x, y});
    assert [older][1..] == [];
    LandAndFold(x, y, older);
    var lap := [Land(y), Land(x), Skip(0), Skip(1)];
    assert Apply(s1, Deliver(1)).devices == s2.devices;
    First(s1, Deliver(1), s2, lap);
    assert Apply(Torn(x, y), Deliver(0)).devices == s1.devices;
    First(Torn(x, y), Deliver(0), s1, [Deliver(1)] + lap);
    assert Lap(x, y) == [Deliver(0)] + ([Deliver(1)] + lap);
  }

  /** The two devices listen, find nothing, and both change the value. */
  lemma BothWrite(default: Entry, x: Entry, y: Entry, events: seq<Event>) returns (all: seq<Event>)
    requires default.at == BASELINE < x.at < y.at
    requires IsRun(Pair(x, y, [], [], None, multiset{x, y}), events)
    ensures IsRun(Pair(default, default, [], [], None, multiset{}).(writes := {}), all)
    ensures Run(Pair(default, default, [], [], None, multiset{}).(writes := {}), all) ==
            Run(Pair(x, y, [], [], None, multiset{x, y}), events)
  {
    hide IsRun, Run;
    var s4 := Pair(default, default, [], [], None, multiset{}).(writes := {});
    var s5 := s4.(devices := [Device(x, true, true, x.at, []), s4.devices[1]], inFlight := multiset{x}, writes := {x});
    var s6 := Pair(x, y, [], [], None, multiset{x, y});
    assert Apply(s5, Write(1, y)).devices == s6.devices && Apply(s5, Write(1, y)).writes == s6.writes;
    First(s5, Write(1, y), s6, events);
    assert Apply(s4, Write(0, x)).devices == s5.devices;
    First(s4, Write(0, x), s5, [Write(1, y)] + events);
    all := [Write(0, x)] + ([Write(1, y)] + events);
  }

  lemma BothListen(default: Entry, events: seq<Event>) returns (all: seq<Event>)
    requires default.at == BASELINE && IsRun(Pair(default, default, [], [], None, multiset{}).(writes := {}), events)
    ensures IsRun(Start(2, default), all)
    ensures Run(Start(2, default), all) == Run(Pair(default, default, [], [], None, multiset{}).(writes := {}), events)
  {
    hide IsRun, Run;
    var blank := Device(default, false, false, BASELINE, []);
    var quiet := Device(default, true, true, BASELINE, []);
    var told := blank.(subscribed := true, inbox := [None]);
    var nothing: Option<Entry> := None;
    assert [nothing][1..] == [] && [] + [nothing] == [nothing];
    var s0 := Start(2, default);
    assert s0.devices == [blank, blank];
    var s1 := s0.(devices := [told, blank]);
    var s2 := s0.(devices := [told, told]);
    var s3 := s0.(devices := [quiet, told]);
    var s4 := s0.(devices := [quiet, quiet]);
    assert s4 == Pair(default, default, [], [], None, multiset{}).(writes := {});
    assert Apply(s3, Deliver(1)).devices == s4.devices;
    First(s3, Deliver(1), s4, events);
    assert Apply(s2, Deliver(0)).devices == s3.devices;
    First(s2, Deliver(0), s3, [Deliver(1)] + events);
    all := [Deliver(0)] + ([Deliver(1)] + events);
    assert Apply(s1, Subscribe(1)).devices == s2.devices;
    First(s1, Subscribe(1), s2, all);
    assert Apply(s0, Subscribe(0)).devices == s1.devices;
    First(s0, Subscribe(0), s1, [Subscribe(1)] + all);
    all := [Subscribe(0)] + ([Subscribe(1)] + all);
  }

  /** The two devices can get there from the start. */
  lemma TornIsReached(default: Entry, x: Entry, y: Entry) returns (events: seq<Event>)
    requires default.at == BASELINE < x.at < y.at
    ensures IsRun(Start(2, default), events) && Run(Start(2, default), events) == Torn(x, y)
  {
    hide IsRun, Run;
    LandAndFold(x, y, None);
    events := BothWrite(default, x, y, [Land(y), Land(x), Skip(0), Skip(1)]);
    events := BothListen(default, events);
  }

  /** Nor need it end if what an echo pushes were heard of again: a device at rest would push its value forever. */
  lemma EchoingCanLoop(s: Net, d: nat)
    requires d < |s.devices| && s.devices[d].subscribed && s.devices[d].hasStored
    requires s.server == Some(s.devices[d].local)
    ensures var lap := [Echo(d), Land(s.devices[d].local)]; IsRun(s, lap) && Run(s, lap) == s
  {
    var e := s.devices[d].local;
    var s1 := Apply(s, Echo(d));
    assert s1.inFlight - multiset{e} == s.inFlight;
    NoRun(s);
    First(s1, Land(e), s, []);
    First(s, Echo(d), s1, [Land(e)] + []);
    assert [Echo(d)] + ([Land(e)] + []) == [Echo(d), Land(e)];
  }

  // ------------------------------------------------------------ equal timestamps

  /** Both devices answer a snapshot of one of two changes with the same timestamp, each with its own value. */
  lemma TwinsAnswer(x: Entry, y: Entry, v: Entry, events: seq<Event>)
    requires x.at == y.at == v.at && IsRun(Pair(x, y, [], [], Some(v), multiset{x, y}), events)
    ensures var s, all := Pair(x, y, [Some(v)], [Some(v)], Some(v), multiset{}), [Deliver(0)] + ([Deliver(1)] + events);
            IsRun(s, all) && Run(s, all) == Run(Pair(x, y, [], [], Some(v), multiset{x, y}), events)
  {
    hide IsRun, Run, Apply, Pair;
    var doc := Some(v);
    TwinAnswersFirst(x, y, v);
    TwinAnswersSecond(x, y, v);
    First(Pair(x, y, [], [doc], doc, multiset{x}), Deliver(1), Pair(x, y, [], [], doc, multiset{x, y}), events);
    First(Pair(x, y, [doc], [doc], doc, multiset{}), Deliver(0), Pair(x, y, [], [doc], doc, multiset{x}),
          [Deliver(1)] + events);
  }

  lemma TwinAnswersFirst(x: Entry, y: Entry, v: Entry)
    requires x.at == y.at == v.at
    ensures var s := Pair(x, y, [Some(v)], [Some(v)], Some(v), multiset{});
            Enabled(s, Deliver(0)) && Apply(s, Deliver(0)) == Pair(x, y, [], [Some(v)], Some(v), multiset{x})
  {
    var s := Pair(x, y, [Some(v)], [Some(v)], Some(v), multiset{});
    assert [Some(v)][1..] == [];
    assert Apply(s, Deliver(0)).devices == Pair(x, y, [], [Some(v)], Some(v), multiset{x}).devices;
  }

  lemma TwinAnswersSecond(x: Entry, y: Entry, v: Entry)
    requires x.at == y.at == v.at
    ensures var s := Pair(x, y, [], [Some(v)], Some(v), multiset{x});
            Enabled(s, Deliver(1)) && Apply(s, Deliver(1)) == Pair(x, y, [], [], Some(v), multiset{x, y})
  {
    var s := Pair(x, y, [], [Some(v)], Some(v), multiset{x});
    assert [Some(v)][1..] == [];
    assert Apply(s, Deliver(1)).devices == Pair(x, y, [], [], Some(v), multiset{x, y}).devices;
  }

  /** A push that changes the document, and its repetition. */
  lemma TwinLandsFirst(x: Entry, y: Entry, v: Entry, w: Entry)
    requires v != w
    ensures var s := Pair(x, y, [], [], Some(w), multiset{v});
            && Enabled(s, Land(v))
            && Apply(s, Land(v)) == Pair(x, y, [Some(v)], [Some(v)], Some(v), multiset{})
  {
    var s := Pair(x, y, [], [], Some(w), multiset{v});
    assert [] + [Some(v)] == [Some(v)];
    assert Apply(s, Land(v)).devices == Pair(x, y, [Some(v)], [Some(v)], Some(v), multiset{}).devices;
  }

  lemma TwinLandsAgain(x: Entry, y: Entry, v: Entry, w: Entry)
    requires (v == x && w == y) || (v == y && w == x)
    ensures var s := Pair(x, y, [], [], Some(v), multiset{x, y});
            Enabled(s, Land(v)) && Apply(s, Land(v)) == Pair(x, y, [], [], Some(v), multiset{w})
  {
    assert multiset{x, y} - multiset{v} == multiset{w};
  }

  /** One of the two changes lands, both devices answer, and the answer that repeats it changes nothing. */
  lemma TwinLands(x: Entry, y: Entry, v: Entry, w: Entry)
    requires x.at == y.at && x != y && ((v == x && w == y) || (v == y && w == x))
    ensures var s, t := Pair(x, y, [], [], Some(w), multiset{v}), Pair(x, y, [], [], Some(v), multiset{w});
            var lap := [Land(v), Deliver(0), Deliver(1), Land(v)];
            IsRun(s, lap) && Run(s, lap) == t
  {
    hide IsRun, Run, Apply, Enabled, Pair;
    TwinLandsFirst(x, y, v, w);
    TwinLandsAgain(x, y, v, w);
    var t := Pair(x, y, [], [], Some(v), multiset{w});
    NoRun(t);
    First(Pair(x, y, [], [], Some(v), multiset{x, y}), Land(v), t, []);
    assert [Land(v)] + [] == [Land(v)];
    TwinsAnswer(x, y, v, [Land(v)]);
    First(Pair(x, y, [], [], Some(w), multiset{v}), Land(v), Pair(x, y, [Some(v)], [Some(v)], Some(v), multiset{}),
          [Deliver(0)] + ([Deliver(1)] + [Land(v)]));
    assert [Land(v), Deliver(0), Deliver(1), Land(v)] == [Land(v)] + ([Deliver(0)] + ([Deliver(1)] + [Land(v)]));
  }

  /** That timestamps differ is needed: with equal ones routine events alone can go on forever, each device pushing
      its own value in turn. */
  lemma EqualTimesCanLoop(x: Entry, y: Entry) returns (lap: seq<Event>)
    requires x.at == y.at && x != y
    ensures var s := Pair(x, y, [], [], Some(x), multiset{y});
            lap != [] && AllRoutine(lap) && IsRun(s, lap) && Run(s, lap) == s
  {
    hide IsRun, Run;
    TwinLands(x, y, y, x);
    TwinLands(x, y, x, y);
    var there := [Land(y), Deliver(0), Deliver(1), Land(y)];
    var back := [Land(x), Deliver(0), Deliver(1), Land(x)];
    RunThenRun(Pair(x, y, [], [], Some(x), multiset{y}), there, back);
    lap := there + back;
  }
}
