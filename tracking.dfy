/** What `trilaterate` and `track_clients` of `triangulation.py` compute,
    as functions of the anchor registry and the readings; the class
    `WastelandTriangulator` computes the same with loops. */
module Tracking {
  import opened Numerics
  import opened Wrappers
  import opened Triangulation
  import opened LeastSquares

  /** Every reading of a registered anchor can be converted to a distance
      (see `Convertible`); readings of unknown anchors are skipped before
      conversion, so they are unconstrained. */
  predicate Measurable(p: PathLossModel, registry: map<string, APCoordinates>, signals: seq<ClientSignal>)
  {
    forall s :: s in signals && s.apName in registry ==> Convertible(p, s.rssi, s.frequency)
  }

  /** How many readings name a registered anchor. */
  function RegisteredCount(registry: map<string, APCoordinates>, signals: seq<ClientSignal>): nat
  {
    if signals == [] then 0
    else RegisteredCount(registry, signals[..|signals| - 1]) + (if signals[|signals| - 1].apName in registry then 1 else 0)
  }

  /** The `(ap_coord, distance)` pairs `trilaterate` builds: one per reading
      of a registered anchor, in reading order. */
  function Ranges(m: RealMath, p: PathLossModel, registry: map<string, APCoordinates>, signals: seq<ClientSignal>): (r: seq<ApDistance>)
    requires m.Lawful() && p.pathLossExponent != 0.0 && Measurable(p, registry, signals)
    ensures |r| == RegisteredCount(registry, signals)
    ensures forall i :: 0 <= i < |r| ==> r[i].ap in registry.Values
  {
    if signals == [] then []
    else
      var init := signals[..|signals| - 1];
      var s := signals[|signals| - 1];
      assert forall t :: t in init ==> t in signals;
      var ds := Ranges(m, p, registry, init);
      if s.apName in registry then ds + [ApDistance(registry[s.apName], RssiToDistance(m, p, s.rssi, s.frequency))]
      else ds
  }

  /** `trilaterate`: no estimate from fewer than two readings or fewer than
      two readings of registered anchors; the two-circle solver for exactly
      two, least squares for more. */
  function Solve(m: RealMath, p: PathLossModel, registry: map<string, APCoordinates>, signals: seq<ClientSignal>): Option<LocationEstimate>
    requires m.Lawful() && p.pathLossExponent != 0.0 && Measurable(p, registry, signals)
  {
    if |signals| < 2 then None
    else
      var ds := Ranges(m, p, registry, signals);
      if |ds| < 2 then None
      else if |ds| == 2 then Some(Trilaterate2Ap(m, ds))
      else Some(MultiApEstimate(m, ds))
  }

  /*************************************************************************
   * Properties of the dispatcher
   *************************************************************************/

  lemma {:induction false} RegisteredCountAtMost(registry: map<string, APCoordinates>, signals: seq<ClientSignal>)
    ensures RegisteredCount(registry, signals) <= |signals|
  {
    if signals != [] {
      RegisteredCountAtMost(registry, signals[..|signals| - 1]);
    }
  }

  /** There is an estimate exactly when at least two readings name a
      registered anchor, and it counts exactly those readings: two readings
      of the same anchor count twice. */
  lemma SolveIffTwoRegistered(m: RealMath, p: PathLossModel, registry: map<string, APCoordinates>, signals: seq<ClientSignal>)
    requires m.Lawful() && p.pathLossExponent != 0.0 && Measurable(p, registry, signals)
    ensures Solve(m, p, registry, signals).Some? <==> RegisteredCount(registry, signals) >= 2
    ensures Solve(m, p, registry, signals).Some? ==>
              Solve(m, p, registry, signals).value.numAps == RegisteredCount(registry, signals)
  {
    RegisteredCountAtMost(registry, signals);
  }

  /** Ranges of a concatenation are the concatenation of the ranges. */
  lemma {:induction false} RangesOfConcat(m: RealMath, p: PathLossModel, registry: map<string, APCoordinates>,
                                          a: seq<ClientSignal>, b: seq<ClientSignal>)
    requires m.Lawful() && p.pathLossExponent != 0.0 && Measurable(p, registry, a + b)
    ensures Measurable(p, registry, a) && Measurable(p, registry, b)
    ensures Ranges(m, p, registry, a + b) == Ranges(m, p, registry, a) + Ranges(m, p, registry, b)
  {
    assert forall t :: t in a ==> t in a + b;
    assert forall t :: t in b ==> t in a + b;
    if b != [] {
      var init := b[..|b| - 1];
      assert (a + b)[..|a + b| - 1] == a + init;
      assert (a + b)[|a + b| - 1] == b[|b| - 1];
      assert forall t :: t in a + init ==> t in a + b;
      RangesOfConcat(m, p, registry, a, init);
    } else {
      assert a + b == a;
    }
  }

  /** A reading of an unknown anchor, wherever it occurs, changes nothing. */
  lemma UnknownAnchorIgnored(m: RealMath, p: PathLossModel, registry: map<string, APCoordinates>,
                             a: seq<ClientSignal>, s: ClientSignal, b: seq<ClientSignal>)
    requires m.Lawful() && p.pathLossExponent != 0.0 && Measurable(p, registry, a + b)
    requires s.apName !in registry
    ensures Measurable(p, registry, a + [s] + b)
    ensures Solve(m, p, registry, a + [s] + b) == Solve(m, p, registry, a + b)
  {
    assert forall t :: t in a + [s] + b ==> t in a + b || t == s;
    RangesOfConcat(m, p, registry, a, b);
    RangesOfConcat(m, p, registry, a + [s], b);
    RangesOfConcat(m, p, registry, a, [s]);
    assert Ranges(m, p, registry, [s]) == [] by {
      assert [s][..0] == [];
    }
    RegisteredCountAtMost(registry, a + b);
    assert Ranges(m, p, registry, a + [s]) == Ranges(m, p, registry, a);
  }

  /** Two readings of one registered anchor are "coincident anchors": the
      estimate is that anchor's position with confidence 0.1, which the
      tracker then discards. */
  lemma SameAnchorTwice(m: RealMath, p: PathLossModel, registry: map<string, APCoordinates>, s1: ClientSignal, s2: ClientSignal)
    requires m.Lawful() && p.pathLossExponent != 0.0 && Measurable(p, registry, [s1, s2])
    requires s1.apName == s2.apName && s1.apName in registry
    ensures var r := Solve(m, p, registry, [s1, s2]);
            && r.Some? && r.value.confidence == 0.1
            && r.value.x == registry[s1.apName].x && r.value.y == registry[s1.apName].y
  {
    assert [s1, s2][..1] == [s1];
    assert [s1][..0] == [];
    var ap := registry[s1.apName];
    var first := Ranges(m, p, registry, [s1]);
    assert first == [ApDistance(ap, RssiToDistance(m, p, s1.rssi, s1.frequency))];
    var ds := Ranges(m, p, registry, [s1, s2]);
    assert ds == first + [ApDistance(ap, RssiToDistance(m, p, s2.rssi, s2.frequency))];
    assert Coincident(ds[0].ap, ds[1].ap);
  }

  /** Three readings of one registered anchor do give an estimate: all rows
      of the least-squares system vanish, so the centroid (the anchor
      itself) is returned with confidence 0.3, which the tracker keeps. */
  lemma SameAnchorThrice(m: RealMath, p: PathLossModel, registry: map<string, APCoordinates>,
                         s1: ClientSignal, s2: ClientSignal, s3: ClientSignal)
    requires m.Lawful() && p.pathLossExponent != 0.0 && Measurable(p, registry, [s1, s2, s3])
    requires s1.apName == s2.apName == s3.apName && s1.apName in registry
    ensures var r := Solve(m, p, registry, [s1, s2, s3]);
            && r.Some? && r.value.confidence == 0.3 && r.value.numAps == 3
            && r.value.x == registry[s1.apName].x && r.value.y == registry[s1.apName].y
  {
    var signals := [s1, s2, s3];
    assert signals[..2] == [s1, s2];
    assert [s1, s2][..1] == [s1];
    assert [s1][..0] == [];
    var ap := registry[s1.apName];
    var first := Ranges(m, p, registry, [s1]);
    assert first == [ApDistance(ap, RssiToDistance(m, p, s1.rssi, s1.frequency))];
    var two := Ranges(m, p, registry, [s1, s2]);
    assert two == first + [ApDistance(ap, RssiToDistance(m, p, s2.rssi, s2.frequency))];
    var ds := Ranges(m, p, registry, signals);
    assert ds == two + [ApDistance(ap, RssiToDistance(m, p, s3.rssi, s3.frequency))];
    assert forall i :: 0 <= i < 3 ==> ds[i].ap == ap;
    SameAnchorGivesCentroid(m, ds, ap);
  }

  /*************************************************************************
   * Tracking
   *************************************************************************/

  /** The readings of one client, in input order. */
  function SignalsOf(all: seq<ClientSignal>, mac: string): (r: seq<ClientSignal>)
    ensures forall s :: s in r <==> s in all && s.macAddress == mac
  {
    if all == [] then []
    else
      var init := SignalsOf(all[..|all| - 1], mac);
      var s := all[|all| - 1];
      assert all == all[..|all| - 1] + [s];
      if s.macAddress == mac then init + [s] else init
  }

  /** The clients present in a batch of readings. */
  function Macs(all: seq<ClientSignal>): set<string>
  {
    set i | 0 <= i < |all| :: all[i].macAddress
  }

  /** `max(s.timestamp for s in signals)`. */
  function LatestTimestamp(signals: seq<ClientSignal>): (r: real)
    requires |signals| > 0
    ensures forall i :: 0 <= i < |signals| ==> signals[i].timestamp <= r
    ensures exists i :: 0 <= i < |signals| && signals[i].timestamp == r
  {
    if |signals| == 1 then signals[0].timestamp
    else
      var m := LatestTimestamp(signals[..|signals| - 1]);
      assert forall i :: 0 <= i < |signals| - 1 ==> signals[..|signals| - 1][i] == signals[i];
      Max(m, signals[|signals| - 1].timestamp)
  }

  /** The 30-second recency window of the tracker. */
  const RecencyWindow: real := 30.0

  /** The readings at most `RecencyWindow` seconds older than `latest`, in order. */
  function Recent(signals: seq<ClientSignal>, latest: real): (r: seq<ClientSignal>)
    ensures forall s :: s in r <==> s in signals && latest - s.timestamp <= RecencyWindow
  {
    if signals == [] then []
    else
      var init := Recent(signals[..|signals| - 1], latest);
      var s := signals[|signals| - 1];
      assert signals == signals[..|signals| - 1] + [s];
      if latest - s.timestamp <= RecencyWindow then init + [s] else init
  }

  /** The estimate `track_clients` computes for one client, before the
      confidence floor: from the client's readings no older than 30 s
      before its latest one. */
  function ClientEstimate(m: RealMath, p: PathLossModel, registry: map<string, APCoordinates>,
                          all: seq<ClientSignal>, mac: string): Option<LocationEstimate>
    requires m.Lawful() && p.pathLossExponent != 0.0 && Measurable(p, registry, all)
  {
    var signals := SignalsOf(all, mac);
    if signals == [] then None
    else
      var recent := Recent(signals, LatestTimestamp(signals));
      if recent == [] then None else Solve(m, p, registry, recent)
  }

  /** The tracker reports a client when its estimate exists and its
      confidence is above 0.1. */
  predicate Located(m: RealMath, p: PathLossModel, registry: map<string, APCoordinates>, all: seq<ClientSignal>, mac: string)
    requires m.Lawful() && p.pathLossExponent != 0.0 && Measurable(p, registry, all)
  {
    var e := ClientEstimate(m, p, registry, all, mac);
    e.Some? && e.value.confidence > 0.1
  }

  /** The estimates of the clients in `keys` whose confidence is above 0.1. */
  function Confident(estimates: map<string, Option<LocationEstimate>>, keys: set<string>): map<string, LocationEstimate>
  {
    map mac | mac in keys && mac in estimates && estimates[mac].Some? && estimates[mac].value.confidence > 0.1 ::
      estimates[mac].value
  }

  /** Handling one more client adds its estimate exactly when it is
      confident, and leaves every other report as it was. */
  lemma ConfidentStep(estimates: map<string, Option<LocationEstimate>>, keys: set<string>, mac: string)
    requires mac in estimates
    ensures Confident(estimates, keys + {mac}) ==
              if estimates[mac].Some? && estimates[mac].value.confidence > 0.1
              then Confident(estimates, keys)[mac := estimates[mac].value]
              else Confident(estimates, keys)
  {
  }

  /** The estimate of every client present in the readings. */
  function Estimates(m: RealMath, p: PathLossModel, registry: map<string, APCoordinates>,
                     all: seq<ClientSignal>): map<string, Option<LocationEstimate>>
    requires m.Lawful() && p.pathLossExponent != 0.0 && Measurable(p, registry, all)
  {
    map mac | mac in Macs(all) :: ClientEstimate(m, p, registry, all, mac)
  }

  /** The confident estimates of all clients are exactly the reports of
      the located clients. */
  lemma ConfidentEstimates(m: RealMath, p: PathLossModel, registry: map<string, APCoordinates>, all: seq<ClientSignal>)
    requires m.Lawful() && p.pathLossExponent != 0.0 && Measurable(p, registry, all)
    ensures var locations := Confident(Estimates(m, p, registry, all), Macs(all));
            && (forall mac :: mac in locations <==> mac in Macs(all) && Located(m, p, registry, all, mac))
            && (forall mac :: mac in locations ==> Some(locations[mac]) == ClientEstimate(m, p, registry, all, mac))
  {
  }

  /** Moving one client from the pending ones to the handled ones. */
  lemma HandleOne(keys: set<string>, pending: set<string>, mac: string)
    requires mac in pending && pending <= keys
    ensures keys - (pending - {mac}) == (keys - pending) + {mac}
    ensures |pending - {mac}| < |pending|
  {
  }

  /*************************************************************************
   * Properties of the tracker
   *************************************************************************/

  /** The latest reading is always inside its own window, so the recency
      filter never leaves a present client without readings. */
  lemma RecentKeepsLatest(signals: seq<ClientSignal>)
    requires |signals| > 0
    ensures Recent(signals, LatestTimestamp(signals)) != []
  {
    var i :| 0 <= i < |signals| && signals[i].timestamp == LatestTimestamp(signals);
    assert signals[i] in Recent(signals, LatestTimestamp(signals));
  }

  /** Every reported client is present in the input, and was located from
      at least two readings of registered anchors within its window. */
  lemma LocatedNeedsTwoRecentReadings(m: RealMath, p: PathLossModel, registry: map<string, APCoordinates>,
                                      all: seq<ClientSignal>, mac: string)
    requires m.Lawful() && p.pathLossExponent != 0.0 && Measurable(p, registry, all)
    requires Located(m, p, registry, all, mac)
    ensures mac in Macs(all)
    ensures var signals := SignalsOf(all, mac);
            RegisteredCount(registry, Recent(signals, LatestTimestamp(signals))) >= 2
  {
    var signals := SignalsOf(all, mac);
    var s := signals[0];
    assert s in all;
    var i :| 0 <= i < |all| && all[i] == s;
    assert all[i].macAddress in Macs(all);
    SolveIffTwoRegistered(m, p, registry, Recent(signals, LatestTimestamp(signals)));
  }

  /** Readings of other clients do not affect a client's estimate. */
  lemma OtherClientsIgnored(m: RealMath, p: PathLossModel, registry: map<string, APCoordinates>,
                            all: seq<ClientSignal>, s: ClientSignal, mac: string)
    requires m.Lawful() && p.pathLossExponent != 0.0 && Measurable(p, registry, all + [s])
    requires s.macAddress != mac
    ensures Measurable(p, registry, all)
    ensures ClientEstimate(m, p, registry, all + [s], mac) == ClientEstimate(m, p, registry, all, mac)
  {
    assert forall t :: t in all ==> t in all + [s];
    assert (all + [s])[..|all + [s]| - 1] == all;
  }

  /** One more reading adds its client to the clients present. */
  lemma MacsOfSnoc(all: seq<ClientSignal>, s: ClientSignal)
    ensures Macs(all + [s]) == Macs(all) + {s.macAddress}
  {
    var both := all + [s];
    forall mac | mac in Macs(both)
      ensures mac in Macs(all) + {s.macAddress}
    {
      var k :| 0 <= k < |both| && both[k].macAddress == mac;
      if k < |all| {
        assert all[k].macAddress == mac;
      }
    }
    forall mac | mac in Macs(all)
      ensures mac in Macs(both)
    {
      var k :| 0 <= k < |all| && all[k].macAddress == mac;
      assert both[k].macAddress == mac;
    }
    assert both[|all|].macAddress == s.macAddress;
  }

  /** One more reading is appended to its own client's readings only. */
  lemma SignalsOfSnoc(all: seq<ClientSignal>, s: ClientSignal, mac: string)
    ensures SignalsOf(all + [s], mac) == if s.macAddress == mac then SignalsOf(all, mac) + [s] else SignalsOf(all, mac)
  {
    assert (all + [s])[..|all + [s]| - 1] == all;
  }

  /** A client that is absent from the readings has none. */
  lemma SignalsOfAbsent(all: seq<ClientSignal>, mac: string)
    requires mac !in Macs(all)
    ensures SignalsOf(all, mac) == []
  {
  }
}
