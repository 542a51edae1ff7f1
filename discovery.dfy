/**
 * Setting up the button platform: the primary router's reboot button is added
 * once, and each newly discovered satellite router gets exactly one reboot
 * button, remembered in a registry keyed by MAC so that it is never added twice.
 */
module Discovery {
  import opened Wrappers
  import opened Button

  /** One invocation of the discovery callback: a router reported under a MAC. */
  datatype RouterAdded = RouterAdded(mac: string, router: ConnectedDevice)

  /** The registry after the callback has seen `mac` reported with `router`. */
  function Register(known: map<string, Button>, c: Coordinator, mac: string, router: ConnectedDevice)
    : (r: map<string, Button>)
    ensures r.Keys == known.Keys + {mac}
    ensures forall k :: k in known ==> r[k] == known[k]
    ensures mac !in known ==> r[mac] == NewRebootButton(c, Some(router))
  {
    if mac in known then known else known[mac := NewRebootButton(c, Some(router))]
  }

  /** The entities the same callback hands to the host: one for an unseen MAC, none otherwise. */
  function Emitted(known: map<string, Button>, c: Coordinator, mac: string, router: ConnectedDevice)
    : (r: seq<Button>)
    ensures |r| == if mac in known then 0 else 1
    ensures mac !in known ==> r[0] == NewRebootButton(c, Some(router))
  {
    if mac in known then [] else [NewRebootButton(c, Some(router))]
  }

  /** The registry after a series of callbacks, in order. */
  function ReplayRegistry(known: map<string, Button>, c: Coordinator, events: seq<RouterAdded>)
    : (r: map<string, Button>)
    decreases |events|
  {
    if events == [] then known
    else ReplayRegistry(Register(known, c, events[0].mac, events[0].router), c, events[1..])
  }

  /** All entities handed to the host by a series of callbacks, in order. */
  function ReplayEmitted(known: map<string, Button>, c: Coordinator, events: seq<RouterAdded>)
    : (r: seq<Button>)
    decreases |events|
  {
    if events == [] then []
    else Emitted(known, c, events[0].mac, events[0].router)
         + ReplayEmitted(Register(known, c, events[0].mac, events[0].router), c, events[1..])
  }

  function MacsOf(events: seq<RouterAdded>): (macs: set<string>) {
    set i | 0 <= i < |events| :: events[i].mac
  }

  /** Every registry entry is bound to the MAC it is filed under. */
  ghost predicate Keyed(known: map<string, Button>) {
    forall k :: k in known ==> known[k].deviceMac == Some(k)
  }

  /** Callbacks only add keys, the reported MACs, and never change an existing entry. */
  lemma {:induction false} ReplayGrows(known: map<string, Button>, c: Coordinator, events: seq<RouterAdded>)
    ensures ReplayRegistry(known, c, events).Keys == known.Keys + MacsOf(events)
    ensures forall k :: k in known ==> ReplayRegistry(known, c, events)[k] == known[k]
    decreases |events|
  {
    if events != [] {
      var e := events[0];
      var next := Register(known, c, e.mac, e.router);
      ReplayGrows(next, c, events[1..]);
      MacsOfCons(events);
      assert next.Keys == known.Keys + {e.mac};
      forall k | k in known ensures ReplayRegistry(known, c, events)[k] == known[k] {
        assert next[k] == known[k];
      }
    }
  }

  /** The MACs of a non-empty series are its first MAC and those of the rest. */
  lemma MacsOfCons(events: seq<RouterAdded>)
    requires events != []
    ensures MacsOf(events) == {events[0].mac} + MacsOf(events[1..])
  {
    forall m | m in MacsOf(events) ensures m in {events[0].mac} + MacsOf(events[1..]) {
      var i :| 0 <= i < |events| && events[i].mac == m;
      if i > 0 { assert events[1..][i - 1] == events[i]; }
    }
    forall m | m in MacsOf(events[1..]) ensures m in MacsOf(events) {
      var i :| 0 <= i < |events[1..]| && events[1..][i].mac == m;
      assert events[i + 1] == events[1..][i];
    }
  }

  /** A series of callbacks hands the host exactly one entity per MAC it added to the registry. */
  lemma {:induction false} ReplayEmitsOnePerNewMac(known: map<string, Button>, c: Coordinator, events: seq<RouterAdded>)
    ensures |ReplayEmitted(known, c, events)| == |ReplayRegistry(known, c, events)| - |known|
    decreases |events|
  {
    if events != [] {
      var e := events[0];
      ReplayEmitsOnePerNewMac(Register(known, c, e.mac, e.router), c, events[1..]);
    }
  }

  /** Callbacks that only report MACs already in the registry change nothing and add nothing. */
  lemma {:induction false} ReplayOfKnownIsNoop(known: map<string, Button>, c: Coordinator, events: seq<RouterAdded>)
    requires MacsOf(events) <= known.Keys
    ensures ReplayRegistry(known, c, events) == known
    ensures ReplayEmitted(known, c, events) == []
    decreases |events|
  {
    if events != [] {
      assert events[0].mac in MacsOf(events);
      assert MacsOf(events[1..]) <= MacsOf(events) by {
        forall m | m in MacsOf(events[1..]) ensures m in MacsOf(events) {
          var i :| 0 <= i < |events[1..]| && events[1..][i].mac == m;
          assert events[i + 1] == events[1..][i];
        }
      }
      ReplayOfKnownIsNoop(known, c, events[1..]);
    }
  }

  /** Replaying the same callbacks a second time changes nothing and adds nothing. */
  lemma ReplayIdempotent(known: map<string, Button>, c: Coordinator, events: seq<RouterAdded>)
    ensures ReplayRegistry(ReplayRegistry(known, c, events), c, events) == ReplayRegistry(known, c, events)
    ensures ReplayEmitted(ReplayRegistry(known, c, events), c, events) == []
  {
    ReplayGrows(known, c, events);
    ReplayOfKnownIsNoop(ReplayRegistry(known, c, events), c, events);
  }

  /** Replaying `a + b` is replaying `a`, then replaying `b` from where `a` left the registry. */
  lemma {:induction false} ReplayConcat(known: map<string, Button>, c: Coordinator, a: seq<RouterAdded>, b: seq<RouterAdded>)
    ensures ReplayRegistry(known, c, a + b) == ReplayRegistry(ReplayRegistry(known, c, a), c, b)
    ensures ReplayEmitted(known, c, a + b) == ReplayEmitted(known, c, a) + ReplayEmitted(ReplayRegistry(known, c, a), c, b)
    decreases |a|
  {
    if a == [] {
      assert a + b == b;
    } else {
      var e := a[0];
      var next := Register(known, c, e.mac, e.router);
      assert (a + b)[0] == e && (a + b)[1..] == a[1..] + b;
      ReplayConcat(next, c, a[1..], b);
      var now := Emitted(known, c, e.mac, e.router);
      assert now + (ReplayEmitted(next, c, a[1..]) + ReplayEmitted(ReplayRegistry(next, c, a[1..]), c, b))
          == (now + ReplayEmitted(next, c, a[1..])) + ReplayEmitted(ReplayRegistry(next, c, a[1..]), c, b);
    }
  }

  /**
   * One more callback after a replay from setup: the whole series replays to
   * `Register` and `Emitted` of that last callback on the state the earlier ones left.
   */
  lemma ReplayExtend(c: Coordinator, earlier: seq<RouterAdded>, later: RouterAdded)
    ensures ReplayRegistry(map[], c, earlier + [later])
         == Register(ReplayRegistry(map[], c, earlier), c, later.mac, later.router)
    ensures [NewRebootButton(c, None)] + ReplayEmitted(map[], c, earlier + [later])
         == ([NewRebootButton(c, None)] + ReplayEmitted(map[], c, earlier))
            + Emitted(ReplayRegistry(map[], c, earlier), c, later.mac, later.router)
  {
    ReplayConcat(map[], c, earlier, [later]);
    assert [later][1..] == [];
  }

  /**
   * From an empty registry, reporting the same routers twice over leaves the
   * same registry and hands the host the same entities as reporting them once.
   */
  lemma ReplayTwiceIsOnce(c: Coordinator, events: seq<RouterAdded>)
    ensures ReplayRegistry(map[], c, events + events) == ReplayRegistry(map[], c, events)
    ensures ReplayEmitted(map[], c, events + events) == ReplayEmitted(map[], c, events)
  {
    ReplayConcat(map[], c, events, events);
    ReplayIdempotent(map[], c, events);
  }

  /** A callback whose router carries the reported MAC keeps every entry bound to its key. */
  lemma RegisterKeepsKeyed(known: map<string, Button>, c: Coordinator, mac: string, router: ConnectedDevice)
    requires Keyed(known) && router.mac == mac
    ensures Keyed(Register(known, c, mac, router))
  {
  }

  /** Callbacks whose routers all carry their reported MACs keep every entry bound to its key. */
  lemma {:induction false} ReplayKeepsKeyed(known: map<string, Button>, c: Coordinator, events: seq<RouterAdded>)
    requires Keyed(known)
    requires forall i :: 0 <= i < |events| ==> events[i].router.mac == events[i].mac
    ensures Keyed(ReplayRegistry(known, c, events))
    decreases |events|
  {
    if events != [] {
      RegisterKeepsKeyed(known, c, events[0].mac, events[0].router);
      assert forall i :: 0 <= i < |events[1..]| ==> events[1..][i] == events[i + 1];
      ReplayKeepsKeyed(Register(known, c, events[0].mac, events[0].router), c, events[1..]);
    }
  }

  /** A sequence without repeats has as many distinct elements as it has elements. */
  lemma {:induction false} DistinctCardinality(s: seq<string>)
    requires forall i, j :: 0 <= i < j < |s| ==> s[i] != s[j]
    ensures |set k | k in s| == |s|
  {
    if s != [] {
      var rest := s[1..];
      DistinctCardinality(rest);
      assert (set k | k in s) == {s[0]} + (set k | k in rest);
      assert s[0] !in rest;
    }
  }

  /**
   * The state `async_setup_entry` leaves behind for one config entry: the
   * registry of satellite buttons (`known_buttons`), and, as ghost state, the
   * entities handed to the host and the order in which MACs were first seen.
   */
  class ButtonPlatform {
    const coordinator: Coordinator
    var knownButtons: map<string, Button>
    ghost var added: seq<Button>
    ghost var discoveryOrder: seq<string>

    /**
     * The first entity added is the primary router's button; the others
     * correspond one-to-one, in discovery order, with the registry's keys.
     */
    ghost predicate Valid()
      reads this
    {
      && |added| == |discoveryOrder| + 1
      && added[0] == NewRebootButton(coordinator, None)
      && (forall i, j :: 0 <= i < j < |discoveryOrder| ==> discoveryOrder[i] != discoveryOrder[j])
      && (forall k :: k in knownButtons <==> k in discoveryOrder)
      && (forall i :: 0 <= i < |discoveryOrder| ==> added[i + 1] == knownButtons[discoveryOrder[i]])
    }

    /** Setup: one primary-router button is added and the registry starts empty. */
    constructor (c: Coordinator)
      ensures Valid()
      ensures coordinator == c
      ensures knownButtons == map[]
      ensures added == [NewRebootButton(c, None)]
      ensures added[0].deviceMac == None
    {
      coordinator := c;
      knownButtons := map[];
      added := [NewRebootButton(c, None)];
      discoveryOrder := [];
    }

    /**
     * `on_router_added`: an unseen MAC gets one new button, handed to the host
     * and filed under that MAC; a known MAC changes nothing.
     */
    method OnRouterAdded(mac: string, router: ConnectedDevice)
      requires Valid()
      modifies this
      ensures Valid()
      ensures knownButtons == Register(old(knownButtons), coordinator, mac, router)
      ensures added == old(added) + Emitted(old(knownButtons), coordinator, mac, router)
      ensures mac in old(knownButtons) ==> knownButtons == old(knownButtons) && added == old(added)
    {
      if mac !in knownButtons {
        var entity := NewRebootButton(coordinator, Some(router));
        added := added + [entity];
        knownButtons := knownButtons[mac := entity];
        discoveryOrder := discoveryOrder + [mac];
      }
    }

    /** Exactly one button per registered MAC, plus the primary router's. */
    lemma OneButtonPerMac()
      requires Valid()
      ensures |added| == |knownButtons| + 1
    {
      DistinctCardinality(discoveryOrder);
      assert knownButtons.Keys == set k | k in discoveryOrder;
    }

    /** When every entry is bound to its key, the satellite buttons have pairwise distinct MACs. */
    lemma SatelliteMacsDistinct()
      requires Valid() && Keyed(knownButtons)
      ensures forall i, j :: 1 <= i < j < |added| ==> added[i].deviceMac != added[j].deviceMac
      ensures forall i :: 1 <= i < |added| ==> added[i].deviceMac.Some?
    {
      forall i, j | 1 <= i < j < |added| ensures added[i].deviceMac != added[j].deviceMac {
        assert discoveryOrder[i - 1] in knownButtons && discoveryOrder[j - 1] in knownButtons;
        assert added[i].deviceMac == Some(discoveryOrder[i - 1]);
        assert added[j].deviceMac == Some(discoveryOrder[j - 1]);
      }
      forall i | 1 <= i < |added| ensures added[i].deviceMac.Some? {
        assert discoveryOrder[i - 1] in knownButtons;
      }
    }
  }

  /**
   * One more callback at position `i` moves it from the pending replay to the
   * done part: the registry and the emitted entities still add up to the same totals.
   */
  lemma ReplayAdvance(known: map<string, Button>, done: seq<Button>, c: Coordinator,
                      events: seq<RouterAdded>, i: nat, registry: map<string, Button>, entities: seq<Button>)
    requires i < |events|
    requires ReplayRegistry(known, c, events[i..]) == registry
    requires done + ReplayEmitted(known, c, events[i..]) == entities
    ensures ReplayRegistry(Register(known, c, events[i].mac, events[i].router), c, events[i + 1..]) == registry
    ensures (done + Emitted(known, c, events[i].mac, events[i].router))
            + ReplayEmitted(Register(known, c, events[i].mac, events[i].router), c, events[i + 1..]) == entities
  {
    assert events[i..][1..] == events[i + 1..];
    var now := Emitted(known, c, events[i].mac, events[i].router);
    var later := ReplayEmitted(Register(known, c, events[i].mac, events[i].router), c, events[i + 1..]);
    assert done + (now + later) == (done + now) + later;
  }

  /**
   * A client standing in for the watcher: setup, then the callback once per
   * reported router, in order. The resulting registry and host entities are
   * exactly the folds `ReplayRegistry` and `ReplayEmitted` from an empty registry.
   */
  method SetupAndDiscover(c: Coordinator, events: seq<RouterAdded>) returns (platform: ButtonPlatform)
    ensures fresh(platform) && platform.Valid()
    ensures platform.coordinator == c
    ensures platform.knownButtons == ReplayRegistry(map[], c, events)
    ensures platform.added == [NewRebootButton(c, None)] + ReplayEmitted(map[], c, events)
  {
    platform := new ButtonPlatform(c);
    ghost var registry := ReplayRegistry(map[], c, events);
    ghost var entities := [NewRebootButton(c, None)] + ReplayEmitted(map[], c, events);
    var i := 0;
    while i < |events|
      invariant 0 <= i <= |events|
      invariant platform.Valid() && platform.coordinator == c
      invariant ReplayRegistry(platform.knownButtons, c, events[i..]) == registry
      invariant platform.added + ReplayEmitted(platform.knownButtons, c, events[i..]) == entities
    {
      ReplayAdvance(platform.knownButtons, platform.added, c, events, i, registry, entities);
      platform.OnRouterAdded(events[i].mac, events[i].router);
      i := i + 1;
    }
    assert events[i..] == [];
  }

  /**
   * The watcher reports the same keyed routers twice: the platform ends up as
   * if they had been reported once, and its satellite buttons have distinct MACs.
   */
  method RepeatedDiscoveryScenario(c: Coordinator, events: seq<RouterAdded>)
    requires forall i :: 0 <= i < |events| ==> events[i].router.mac == events[i].mac
  {
    var twice := SetupAndDiscover(c, events + events);
    ReplayTwiceIsOnce(c, events);
    assert twice.knownButtons == ReplayRegistry(map[], c, events);
    assert twice.added == [NewRebootButton(c, None)] + ReplayEmitted(map[], c, events);
    ReplayKeepsKeyed(map[], c, events);
    twice.SatelliteMacsDistinct();
  }

  /**
   * The listener keeps calling back on the platform setup returned: after
   * discovering `earlier`, one more router leaves the state of a replay of
   * `earlier + [later]` from setup.
   */
  method ContinuedDiscoveryScenario(c: Coordinator, earlier: seq<RouterAdded>, later: RouterAdded) {
    var platform := SetupAndDiscover(c, earlier);
    platform.OnRouterAdded(later.mac, later.router);
    ReplayExtend(c, earlier, later);
    assert platform.knownButtons == ReplayRegistry(map[], c, earlier + [later]);
    assert platform.added == [NewRebootButton(c, None)] + ReplayEmitted(map[], c, earlier + [later]);
  }

  /** A satellite (whatever its MAC, the empty one included) is discovered, reported again, and gets exactly one button, "<name> Reboot". */
  method DiscoveryScenario(c: Coordinator, mesh: ConnectedDevice)
  {
    var platform := new ButtonPlatform(c);
    platform.OnRouterAdded(mesh.mac, mesh);
    ghost var once := platform.added;
    platform.OnRouterAdded(mesh.mac, mesh);
    assert platform.added == once;
    assert |platform.added| == 2 && platform.added[1] == NewRebootButton(c, Some(mesh));
    assert platform.added[1].name == mesh.name + " Reboot";
    assert platform.added[1].deviceMac == Some(mesh.mac);
  }
}
