/** The stateful part of `triangulation.py`: the `WastelandTriangulator`
    object, whose anchor registry `add_ap` updates in place, and whose
    `trilaterate`, `_trilaterate_multiap` and `track_clients` build their
    lists and dictionaries step by step. Each method is proved to compute
    the corresponding function of `Triangulation`, `LeastSquares` and
    `Tracking`. */
module Triangulator {
  import opened Numerics
  import opened Wrappers
  import opened Triangulation
  import opened LeastSquares
  import opened Tracking

  class WastelandTriangulator {
    /** Square root, base-10 logarithm and powers of ten. */
    const math: RealMath
    const environmentType: string
    /** The path-loss constants `__init__` picks for `environmentType`. */
    const pathLoss: PathLossModel
    /** `ap_coordinates`: anchor name to position. */
    var apCoordinates: map<string, APCoordinates>

    ghost predicate Valid()
    {
      math.Lawful() && pathLoss == PathLossFor(environmentType)
    }

    /** `__init__`: an empty registry and the profile of the environment. */
    constructor(math: RealMath, environmentType: string)
      requires math.Lawful()
      ensures Valid()
      ensures this.math == math && this.environmentType == environmentType
      ensures apCoordinates == map[]
    {
      this.math := math;
      this.environmentType := environmentType;
      this.pathLoss := PathLossFor(environmentType);
      this.apCoordinates := map[];
    }

    /** `add_ap`: registers or re-registers one anchor; the name is stored
        in the record too. Every other anchor is left as it was. */
    method AddAp(apName: string, x: real, y: real, z: real)
      modifies this
      ensures apCoordinates == old(apCoordinates)[apName := APCoordinates(x, y, z, apName)]
      ensures forall name :: name in old(apCoordinates) && name != apName ==>
                name in apCoordinates && apCoordinates[name] == old(apCoordinates)[name]
    {
      apCoordinates := apCoordinates[apName := APCoordinates(x, y, z, apName)];
    }

    /** `_trilaterate_multiap`: builds the rows of `A` and `b` with one
        loop, the normal sums with another and the residuals with a third. */
    method TrilaterateMultiAp(apDistances: seq<ApDistance>) returns (r: LocationEstimate)
      requires Valid() && |apDistances| >= 1
      ensures r == MultiApEstimate(math, apDistances)
    {
      var n := |apDistances|;
      var refAp := apDistances[0];
      var rows: seq<LinearRow> := [];
      for i := 1 to n
        invariant |rows| == i - 1
        invariant forall k :: 0 <= k < i - 1 ==> rows[k] == RowFor(refAp, apDistances[k + 1])
      {
        rows := rows + [RowFor(refAp, apDistances[i])];
      }
      assert rows == LinearRows(apDistances);
      var sums := NormalSystem(0.0, 0.0, 0.0, 0.0, 0.0);
      for k := 0 to |rows|
        invariant sums == Normal(rows[..k])
      {
        assert rows[..k + 1][..k] == rows[..k];
        sums := AddRow(sums, rows[k]);
      }
      assert rows[..|rows|] == rows;
      if Singular(sums) {
        return Centroid(apDistances);
      }
      var solution := Solution(sums);
      var x, y := solution.0, solution.1;
      var residuals: seq<real> := [];
      for j := 0 to n
        invariant residuals == Residuals(math, x, y, apDistances[..j])
      {
        residuals := residuals + [Residual(math, x, y, apDistances[j])];
      }
      assert apDistances[..n] == apDistances;
      var avgError := Mean(residuals);
      var maxDist := MaxOf(Distances(apDistances));
      if maxDist == 0.0 {
        return Centroid(apDistances);
      }
      r := LocationEstimate(x, y, Max(0.1, 1.0 - avgError / maxDist), n, avgError);
    }

    /** `trilaterate`: collects the ranges of the readings of registered
        anchors and dispatches on their number. */
    method Trilaterate(signals: seq<ClientSignal>) returns (r: Option<LocationEstimate>)
      requires Valid() && Measurable(pathLoss, apCoordinates, signals)
      ensures r == Solve(math, pathLoss, apCoordinates, signals)
    {
      if |signals| < 2 {
        return None;
      }
      var apDistances: seq<ApDistance> := [];
      for i := 0 to |signals|
        invariant Measurable(pathLoss, apCoordinates, signals[..i])
        invariant apDistances == Ranges(math, pathLoss, apCoordinates, signals[..i])
      {
        assert forall t :: t in signals[..i + 1] ==> t in signals;
        assert signals[..i + 1][..i] == signals[..i];
        var signal := signals[i];
        if signal.apName !in apCoordinates {
          continue;
        }
        var distance := RssiToDistance(math, pathLoss, signal.rssi, signal.frequency);
        var apCoord := apCoordinates[signal.apName];
        apDistances := apDistances + [ApDistance(apCoord, distance)];
      }
      assert signals[..|signals|] == signals;
      if |apDistances| < 2 {
        return None;
      }
      if |apDistances| == 2 {
        return Some(Trilaterate2Ap(math, apDistances));
      }
      var estimate := TrilaterateMultiAp(apDistances);
      return Some(estimate);
    }

    /** The first loop of `track_clients`: the readings of each client,
        in input order. */
    static method GroupByClient(allSignals: seq<ClientSignal>) returns (clientSignals: map<string, seq<ClientSignal>>)
      ensures clientSignals.Keys == Macs(allSignals)
      ensures forall mac :: mac in clientSignals ==> clientSignals[mac] == SignalsOf(allSignals, mac)
    {
      clientSignals := map[];
      for i := 0 to |allSignals|
        invariant clientSignals.Keys == Macs(allSignals[..i])
        invariant forall mac :: mac in clientSignals ==> clientSignals[mac] == SignalsOf(allSignals[..i], mac)
      {
        var signal := allSignals[i];
        assert allSignals[..i + 1] == allSignals[..i] + [signal];
        MacsOfSnoc(allSignals[..i], signal);
        forall mac ensures SignalsOf(allSignals[..i + 1], mac) ==
            if signal.macAddress == mac then SignalsOf(allSignals[..i], mac) + [signal] else SignalsOf(allSignals[..i], mac)
        {
          SignalsOfSnoc(allSignals[..i], signal, mac);
        }
        if signal.macAddress !in clientSignals {
          SignalsOfAbsent(allSignals[..i], signal.macAddress);
        }
        var existing := if signal.macAddress in clientSignals then clientSignals[signal.macAddress] else [];
        clientSignals := clientSignals[signal.macAddress := existing + [signal]];
      }
      assert allSignals[..|allSignals|] == allSignals;
    }

    /** The body of the per-client loop of `track_clients`: the estimate
        from the readings no older than 30 s before the latest one. */
    method LocateClient(signals: seq<ClientSignal>, ghost allSignals: seq<ClientSignal>, ghost mac: string)
      returns (location: Option<LocationEstimate>)
      requires Valid() && Measurable(pathLoss, apCoordinates, allSignals)
      requires signals == SignalsOf(allSignals, mac)
      ensures location == ClientEstimate(math, pathLoss, apCoordinates, allSignals, mac)
    {
      if signals == [] {
        return None;
      }
      var latestTime := LatestTimestamp(signals);
      var recentSignals := Recent(signals, latestTime);
      if recentSignals == [] {
        return None;
      }
      location := Trilaterate(recentSignals);
    }

    /** `track_clients`: groups the readings by client, then locates every
        client from its recent readings and keeps the estimates whose
        confidence is above 0.1. */
    method TrackClients(allSignals: seq<ClientSignal>) returns (locations: map<string, LocationEstimate>)
      requires Valid() && Measurable(pathLoss, apCoordinates, allSignals)
      ensures forall mac :: mac in locations <==>
                mac in Macs(allSignals) && Located(math, pathLoss, apCoordinates, allSignals, mac)
      ensures forall mac :: mac in locations ==>
                Some(locations[mac]) == ClientEstimate(math, pathLoss, apCoordinates, allSignals, mac)
    {
      var clientSignals := GroupByClient(allSignals);
      ghost var m, p, registry := math, pathLoss, apCoordinates;
      assert m.Lawful() && p.pathLossExponent != 0.0 && Measurable(p, registry, allSignals);
      ghost var estimates := Estimates(m, p, registry, allSignals);
      locations := map[];
      var pending := clientSignals.Keys;
      while pending != {}
        invariant pending <= clientSignals.Keys
        invariant locations == Confident(estimates, clientSignals.Keys - pending)
        decreases |pending|
      {
        var mac :| mac in pending;
        var location := LocateClient(clientSignals[mac], allSignals, mac);
        ConfidentStep(estimates, clientSignals.Keys - pending, mac);
        if location.Some? && location.value.confidence > 0.1 {
          locations := locations[mac := location.value];
        }
        HandleOne(clientSignals.Keys, pending, mac);
        pending := pending - {mac};
      }
      assert clientSignals.Keys - pending == Macs(allSignals);
      ConfidentEstimates(m, p, registry, allSignals);
    }
  }
}
