/** From every reachable state the devices can come to rest without further user changes: no interleaving of
    stale pushes and unread snapshots traps them. */
module MetadataRest {
  import opened Prelude
  import opened MetadataSync

  predicate NoWrites(events: seq<Event>) {
    forall e :: e in events ==> !e.Write?
  }

  /** Some run without user changes leads from s to t. */
  ghost predicate Reaches(s: Net, t: Net) {
    exists events :: NoWrites(events) && IsRun(s, events) && Run(s, events) == t
  }

  lemma ReachesItself(s: Net)
    ensures Reaches(s, s)
  {
    assert IsRun(s, []) && Run(s, []) == s && NoWrites([]);
  }

  lemma {:induction false} RunThenRun(s: Net, a: seq<Event>, b: seq<Event>)
    requires IsRun(s, a) && IsRun(Run(s, a), b)
    ensures IsRun(s, a + b) && Run(s, a + b) == Run(Run(s, a), b)
    decreases |a|
  {
    hide Enabled, Apply;
    if a == [] {
      assert a + b == b;
    } else {
      RunThenRun(Apply(s, a[0]), a[1..], b);
      assert (a + b)[1..] == a[1..] + b;
    }
  }

  lemma ReachesOn(s: Net, t: Net, u: Net)
    requires Reaches(s, t) && Reaches(t, u)
    ensures Reaches(s, u)
  {
    hide IsRun, Run;
    var a :| NoWrites(a) && IsRun(s, a) && Run(s, a) == t;
    var b :| NoWrites(b) && IsRun(t, b) && Run(t, b) == u;
    RunThenRun(s, a, b);
    assert NoWrites(a + b);
  }

  lemma StepReaches(s: Net, e: Event)
    requires Enabled(s, e) && !e.Write?
    ensures Reaches(s, Apply(s, e))
  {
    hide Enabled, Apply;
    assert IsRun(Apply(s, e), []);
    assert [e][1..] == [] && NoWrites([e]);
    assert IsRun(s, [e]) && Run(s, [e]) == Apply(s, e);
  }

  /** One step onward, with the invariant. */
  lemma Onward(s: Net, default: Entry, t: Net, e: Event)
    requires Reaches(s, t) && NetInv(t, default) && Enabled(t, e) && !e.Write?
    ensures Reaches(s, Apply(t, e)) && NetInv(Apply(t, e), default)
  {
    hide NetInv, Enabled, Apply, Reaches;
    StepReaches(t, e);
    ReachesOn(s, t, Apply(t, e));
    StepKeepsInv(t, default, e);
  }

  // ------------------------------------------------------------- everyone listens

  predicate AllSubscribed(s: Net) {
    forall d :: 0 <= d < |s.devices| ==> s.devices[d].subscribed
  }

  lemma {:induction false} SubscribeFrom(s: Net, default: Entry, d: nat) returns (t: Net)
    requires NetInv(s, default) && d <= |s.devices| && forall i :: 0 <= i < d ==> s.devices[i].subscribed
    ensures Reaches(s, t) && NetInv(t, default) && AllSubscribed(t) && t.writes == s.writes
    decreases |s.devices| - d
  {
    hide NetInv, Reaches;
    ReachesItself(s);
    if d == |s.devices| {
      t := s;
    } else if s.devices[d].subscribed {
      t := SubscribeFrom(s, default, d + 1);
    } else {
      var s1 := Apply(s, Subscribe(d));
      Onward(s, default, s, Subscribe(d));
      t := SubscribeFrom(s1, default, d + 1);
      ReachesOn(s, s1, t);
    }
  }

  // --------------------------------------------------------------- pushes land

  /** Landing changes only inboxes, the document and what is in flight. */
  predicate SameHolders(s: Net, t: Net) {
    && |t.devices| == |s.devices| && t.writes == s.writes
    && forall d :: 0 <= d < |s.devices| ==> t.devices[d] == s.devices[d].(inbox := t.devices[d].inbox)
  }

  lemma LandHolders(s: Net, e: Entry)
    requires Enabled(s, Land(e))
    ensures SameHolders(s, Apply(s, Land(e)))
  {
  }

  lemma SameHoldersOn(s: Net, t: Net, u: Net)
    requires SameHolders(s, t) && SameHolders(t, u)
    ensures SameHolders(s, u)
  {
    forall d | 0 <= d < |s.devices| ensures u.devices[d] == s.devices[d].(inbox := u.devices[d].inbox) {
      assert t.devices[d] == s.devices[d].(inbox := t.devices[d].inbox);
    }
  }

  /** Everything in flight lands, a chosen push last. */
  lemma {:induction false} LandAll(s: Net, default: Entry, last: Entry) returns (t: Net)
    requires NetInv(s, default) && last in s.inFlight
    ensures Reaches(s, t) && NetInv(t, default) && SameHolders(s, t)
    ensures t.inFlight == multiset{} && t.server == Some(last)
    decreases |s.inFlight|
  {
    hide NetInv, Reaches, SameHolders;
    ReachesItself(s);
    var rest := s.inFlight - multiset{last};
    if rest == multiset{} {
      t := Apply(s, Land(last));
      Onward(s, default, s, Land(last));
      LandHolders(s, last);
    } else {
      assert |rest| > 0;
      var e :| e in rest;
      var s1 := Apply(s, Land(e));
      Onward(s, default, s, Land(e));
      LandHolders(s, e);
      assert last in s1.inFlight;
      t := LandAll(s1, default, last);
      ReachesOn(s, s1, t);
      SameHoldersOn(s, s1, t);
    }
  }

  /** When everything in flight is what the server holds, landing changes nothing. */
  lemma {:induction false} LandEchoes(s: Net, default: Entry) returns (t: Net)
    requires NetInv(s, default) && forall e :: e in s.inFlight ==> s.server == Some(e)
    ensures Reaches(s, t) && t == s.(inFlight := multiset{})
    decreases |s.inFlight|
  {
    hide NetInv, Reaches;
    ReachesItself(s);
    if s.inFlight == multiset{} {
      t := s;
    } else {
      assert |s.inFlight| > 0;
      var e :| e in s.inFlight;
      var s1 := Apply(s, Land(e));
      Onward(s, default, s, Land(e));
      t := LandEchoes(s1, default);
      ReachesOn(s, s1, t);
    }
  }

  // -------------------------------------------------------- snapshots are read

  /** Only device d differs, in its inbox. */
  lemma {:induction false} SkipDown(s: Net, default: Entry, d: nat) returns (t: Net)
    requires NetInv(s, default) && d < |s.devices| && s.devices[d].inbox != []
    ensures Reaches(s, t) && NetInv(t, default)
    ensures var inbox := s.devices[d].inbox; t == WithDevice(s, d, s.devices[d].(inbox := [inbox[|inbox| - 1]]))
    decreases |s.devices[d].inbox|
  {
    hide NetInv, Reaches;
    ReachesItself(s);
    var inbox := s.devices[d].inbox;
    if |inbox| == 1 {
      t := s;
      assert inbox == [inbox[|inbox| - 1]];
      assert s.devices[d := s.devices[d]] == s.devices;
    } else {
      var s1 := Apply(s, Skip(d));
      Onward(s, default, s, Skip(d));
      assert s1.devices[d].inbox == inbox[1..];
      t := SkipDown(s1, default, d);
      ReachesOn(s, s1, t);
      assert inbox[1..][|inbox| - 2] == inbox[|inbox| - 1];
    }
  }

  /** Device d reads what the server holds, or had nothing to read. */
  function Read(dev: Device, server: Option<Entry>): Device {
    if dev.inbox == [] then dev
    else dev.(local := Reconcile(dev.local, dev.hasStored, server).0, hasStored := true, inbox := [])
  }

  /** A push made while reading the document: by some device, and not older than the document. */
  predicate Pushed(e: Entry, devices: seq<Device>, server: Option<Entry>) {
    Held(devices, e) && (server.Some? ==> e.at >= server.value.at)
  }

  lemma ReadOne(s: Net, default: Entry, d: nat) returns (t: Net)
    requires NetInv(s, default) && d < |s.devices| && s.devices[d].subscribed && s.devices[d].inbox != []
    ensures Reaches(s, t) && NetInv(t, default)
    ensures t.devices == s.devices[d := Read(s.devices[d], s.server)] && t.server == s.server && t.writes == s.writes
    ensures t.inFlight == s.inFlight
         || (t.inFlight == s.inFlight + multiset{t.devices[d].local} && Pushed(t.devices[d].local, t.devices, t.server))
  {
    hide NetInv, Reaches, Read, Pushed, Reconcile;
    LastIsServer(s, default, d);
    var s1 := SkipDown(s, default, d);
    t := Apply(s1, Deliver(d));
    Onward(s, default, s1, Deliver(d));
    DeliverServer(s, s1, d);
  }

  /** A listening device's latest snapshot is what the server holds. */
  lemma LastIsServer(s: Net, default: Entry, d: nat)
    requires NetInv(s, default) && d < |s.devices| && s.devices[d].subscribed && s.devices[d].inbox != []
    ensures var inbox := s.devices[d].inbox; inbox[|inbox| - 1] == s.server
  {
    assert DeviceOk(s.devices[d], default, s.server, s.inFlight, s.writes);
  }

  /** Delivering what the server holds. */
  lemma DeliverServer(s: Net, s1: Net, d: nat)
    requires d < |s.devices| && s.devices[d].inbox != []
    requires s1 == WithDevice(s, d, s.devices[d].(inbox := [s.server]))
    ensures var t := Apply(s1, Deliver(d));
            && t.devices == s.devices[d := Read(s.devices[d], s.server)] && t.server == s.server && t.writes == s.writes
            && (t.inFlight == s.inFlight
                || (t.inFlight == s.inFlight + multiset{t.devices[d].local}
                    && Pushed(t.devices[d].local, t.devices, t.server)))
  {
    var t := Apply(s1, Deliver(d));
    assert [s.server][1..] == [];
    assert t.devices[d] == Read(s.devices[d], s.server);
    assert t.devices == s.devices[d := t.devices[d]];
    assert Held(t.devices, t.devices[d].local);
  }

  /** All devices from d on read what the server holds. */
  lemma {:induction false} ReadFrom(s: Net, default: Entry, d: nat) returns (t: Net)
    requires NetInv(s, default) && AllSubscribed(s) && d <= |s.devices|
    ensures Reaches(s, t) && NetInv(t, default) && t.server == s.server && t.writes == s.writes
    ensures |t.devices| == |s.devices|
    ensures forall i :: 0 <= i < |s.devices| ==>
              t.devices[i] == if i < d then s.devices[i] else Read(s.devices[i], s.server)
    ensures forall e :: e in t.inFlight ==> e in s.inFlight || Pushed(e, t.devices, t.server)
    decreases |s.devices| - d
  {
    hide NetInv, Reaches, Read;
    ReachesItself(s);
    if d == |s.devices| {
      t := s;
    } else if s.devices[d].inbox == [] {
      t := ReadFrom(s, default, d + 1);
      NothingToRead(s.devices[d], s.server);
    } else {
      var s1 := ReadOne(s, default, d);
      ReadSubscribed(s, d, s1);
      t := ReadFrom(s1, default, d + 1);
      ReachesOn(s, s1, t);
      forall e | e in t.inFlight && e !in s.inFlight ensures Pushed(e, t.devices, t.server) {
        if e in s1.inFlight {
          assert e == s1.devices[d].local && t.devices[d] == s1.devices[d];
        }
      }
    }
  }

  lemma NothingToRead(dev: Device, server: Option<Entry>)
    requires dev.inbox == []
    ensures Read(dev, server) == dev
  {
  }

  lemma ReadSubscribed(s: Net, d: nat, t: Net)
    requires AllSubscribed(s) && d < |s.devices| && t.devices == s.devices[d := Read(s.devices[d], s.server)]
    ensures AllSubscribed(t)
  {
  }

  // ------------------------------------------------------------------ two rounds

  predicate AllRead(s: Net) {
    AllSubscribed(s) && forall d :: 0 <= d < |s.devices| ==> s.devices[d].inbox == []
  }

  lemma KnownTwins(a: Entry, b: Entry, default: Entry, writes: set<Entry>)
    requires Known(a, default, writes) && Known(b, default, writes) && HistoryOk(writes) && default.at == BASELINE
    ensures a.at == b.at ==> a == b
    ensures a.at >= BASELINE
  {
  }

  /** The latest push in flight. */
  lemma {:induction false} Latest(inFlight: multiset<Entry>) returns (m: Entry)
    requires inFlight != multiset{}
    ensures m in inFlight && forall e :: e in inFlight ==> e.at <= m.at
    decreases |inFlight|
  {
    assert |inFlight| > 0;
    var e :| e in inFlight;
    var rest := inFlight - multiset{e};
    if rest == multiset{} {
      m := e;
      assert inFlight == multiset{e};
    } else {
      var n := Latest(rest);
      m := if n.at >= e.at then n else e;
      assert forall x :: x in inFlight ==> x == e || x in rest;
    }
  }

  lemma LandedSubscribed(s: Net, t: Net)
    requires AllSubscribed(s) && SameHolders(s, t)
    ensures AllSubscribed(t)
  {
    forall d | 0 <= d < |t.devices| ensures t.devices[d].subscribed {
      assert t.devices[d] == s.devices[d].(inbox := t.devices[d].inbox);
    }
  }

  /** A device that holds nothing later than the document holds it after reading. */
  lemma ReadAdopts(s: Net, default: Entry, d: nat, m: Entry)
    requires NetInv(s, default) && d < |s.devices| && s.devices[d].subscribed && s.inFlight == multiset{}
    requires s.server == Some(m) && s.devices[d].local.at <= m.at
    ensures Read(s.devices[d], s.server).local == m
  {
    assert DeviceOk(s.devices[d], default, s.server, s.inFlight, s.writes);
    KnownTwins(s.devices[d].local, m, default, s.writes);
  }

  /** All pushes land, the latest one last, and everyone adopts it. */
  lemma Round(s: Net, default: Entry, m: Entry) returns (t: Net)
    requires NetInv(s, default) && AllSubscribed(s) && m in s.inFlight
    requires forall d :: 0 <= d < |s.devices| ==> s.devices[d].local.at <= m.at
    ensures Reaches(s, t) && NetInv(t, default) && AllRead(t) && t.server == Some(m) && t.writes == s.writes
    ensures forall e :: e in t.inFlight ==> e == m
  {
    hide NetInv, Reaches, Read;
    var u := LandAll(s, default, m);
    LandedSubscribed(s, u);
    forall d | 0 <= d < |u.devices| ensures Read(u.devices[d], u.server).local == m {
      assert u.devices[d] == s.devices[d].(inbox := u.devices[d].inbox);
      ReadAdopts(u, default, d, m);
    }
    t := ReadFrom(u, default, 0);
    ReadAll(u, t);
    ReachesOn(s, u, t);
  }

  lemma ReadAll(s: Net, t: Net)
    requires AllSubscribed(s) && |t.devices| == |s.devices|
    requires forall i :: 0 <= i < |s.devices| ==> t.devices[i] == Read(s.devices[i], s.server)
    ensures AllRead(t)
  {
  }

  /** Where everyone has read and nothing in flight is older than the document, the latest push is not older
      than anything a device holds. */
  lemma LatestLeads(s: Net, default: Entry, m: Entry, d: nat)
    requires NetInv(s, default) && AllRead(s) && d < |s.devices|
    requires m in s.inFlight && (forall e :: e in s.inFlight ==> e.at <= m.at)
    requires s.server.Some? ==> m.at >= s.server.value.at
    ensures s.devices[d].local.at <= m.at
  {
    assert DeviceOk(s.devices[d], default, s.server, s.inFlight, s.writes);
    KnownTwins(m, m, default, s.writes);
  }

  /** The pushes under way land in any order, and everyone reads what came last. */
  lemma FirstRound(s: Net, default: Entry) returns (t: Net)
    requires NetInv(s, default) && AllSubscribed(s)
    ensures Reaches(s, t) && NetInv(t, default) && AllRead(t) && t.writes == s.writes
    ensures forall e :: e in t.inFlight ==> Pushed(e, t.devices, t.server)
  {
    hide NetInv, Reaches, Read, Pushed;
    ReachesItself(s);
    var u := s;
    if s.inFlight != multiset{} {
      assert |s.inFlight| > 0;
      var e :| e in s.inFlight;
      u := LandAll(s, default, e);
      LandedSubscribed(s, u);
    }
    t := ReadFrom(u, default, 0);
    ReadAll(u, t);
    ReachesOn(s, u, t);
  }

  lemma EchoesRest(s: Net, default: Entry) returns (t: Net)
    requires NetInv(s, default) && AllRead(s) && forall e :: e in s.inFlight ==> s.server == Some(e)
    ensures Reaches(s, t) && Quiescent(t) && t.writes == s.writes
  {
    hide NetInv, Reaches;
    t := LandEchoes(s, default);
  }

  /** From every state a run can lead to, some run without user changes comes to rest. */
  lemma CanRest(s: Net, default: Entry) returns (t: Net)
    requires NetInv(s, default)
    ensures Reaches(s, t) && Quiescent(t) && t.writes == s.writes
  {
    hide NetInv, Reaches, Quiescent;
    var s1 := SubscribeFrom(s, default, 0);
    var s2 := FirstRound(s1, default);
    ReachesOn(s, s1, s2);
    if forall e :: e in s2.inFlight ==> s2.server == Some(e) {
      t := EchoesRest(s2, default);
      ReachesOn(s, s2, t);
    } else {
      var m := Latest(s2.inFlight);
      forall d | 0 <= d < |s2.devices| ensures s2.devices[d].local.at <= m.at {
        LatestLeads(s2, default, m, d);
      }
      var s3 := Round(s2, default, m);
      ReachesOn(s, s2, s3);
      t := EchoesRest(s3, default);
      ReachesOn(s, s3, t);
    }
  }

  /** Whatever has happened, the devices can still agree: a run can always be continued, without another user
      change, to a state where every device and the server hold the newest change. */
  lemma AgreementStaysPossible(n: nat, default: Entry, events: seq<Event>, newest: Entry) returns (more: seq<Event>)
    requires default.at == BASELINE && IsRun(Start(n, default), events)
    requires Newest(Run(Start(n, default), events).writes, newest)
    ensures NoWrites(more) && IsRun(Start(n, default), events + more)
    ensures Agreed(Run(Start(n, default), events + more), newest)
  {
    hide NetInv, IsRun, Run, Start, Quiescent, Agreed;
    var s := Run(Start(n, default), events);
    StartInv(n, default);
    RunKeepsInv(Start(n, default), default, events);
    var t := CanRest(s, default);
    more :| NoWrites(more) && IsRun(s, more) && Run(s, more) == t;
    RunThenRun(Start(n, default), events, more);
    RestAgrees(n, default, events + more, newest);
  }
}
