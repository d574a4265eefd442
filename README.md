# Wasteland wireless monitoring — RSSI triangulation, exporter logic and AP setup

This project models the core of a Prometheus exporter for Ruckus access points
(APs). The exporter reads client signal strengths (RSSI) over SNMP and
estimates where each client is by triangulating against the known positions
of the APs. The project also models the interactive wizard that produces the
AP coordinates.

Three parts are modelled:

- **`triangulation.py`**: the `WastelandTriangulator`. It holds a path-loss
  profile per environment and a registry of AP anchors. It converts RSSI to a
  distance with the log-distance path-loss model, clamped to [1 m, 100 m]. It
  estimates a position from two readings by intersecting the two range
  circles. With three or more readings it uses linearised least squares,
  solved by Cramer's rule on the normal equations, and falls back to the
  centroid of the anchors. It tracks many clients at once, keeping each
  client's readings from the 30 s before its latest one and reporting only
  estimates whose confidence exceeds 0.1.
  - Modelled in `triangulation.dfy` (path loss and the two-AP case),
    `least_squares.dfy` (three or more APs), `tracking.dfy` (grouping,
    recency and the specification of one client's estimate) and
    `triangulator.dfy` (the class, its loops proved against those
    functions).
- **`ruckus_exporter.py`**, the parts that do not talk to an AP. Modelled in
  `exporter.dfy`:
  - parsing `RUCKUS_AP_HOSTS`, `R700_INTERFACE_SSID_MAP` and
    `AP_COORDINATES`;
  - how `_setup_ap_coordinates` registers anchors, from the given
    coordinates or from the 20 m demo line;
  - the SSID filter;
  - the two traffic-based client-count heuristics;
  - the `client_signals` buffer: the [-100, 0] dBm gate on appends and the
    60 s prune after each location update.
- **`setup_coordinates.py`**: the `APCoordinateSetup` wizard. Modelled in
  `setup_coordinates.dfy`:
  - choosing the environment;
  - IP validation and defaults;
  - the per-AP position with its defaults;
  - the two configuration strings it prints. A lemma proves the exporter's
    parsers read those strings back as exactly the hosts and coordinates
    entered.

`numerics.dfy`, `text.dfy` and `wrappers.dfy` hold shared pieces:
- real helpers (max, mean, sums);
- Python's `str.split`, `str.strip` and `join` on `seq<char>`, with their
  round trips;
- `Option`.

`sqrt`, `log10` and `10**x` are not computed. They are fields of a
`RealMath` value passed in. Its `Lawful()` predicate states the laws the
proofs use:
- `sqrt` is defined on x >= 0, is non-negative and squares back to x;
- `log10` is defined on x > 0;
- `pow10` is positive, monotone and maps 0 to 1.

A square root of a negative number or a logarithm of a non-positive number
is therefore a precondition Dafny must discharge. The code's `float()` and
its `f"{x}"` formatting are likewise parameters. The round trip relating
them is the predicate `SetupCoordinates.FormatRoundTrips`.

The code counts readings, not distinct APs. Two or more readings from
registered APs give an estimate even when they all come from the same AP.
The model follows the code. `Tracking.SameAnchorTwice` and
`Tracking.SameAnchorThrice` show what such readings produce.

## Model

| member | source | states |
|---|---|---|
| Triangulation.PathLossFor | triangulation.py:62-81 | The reference distance is 1 m. Indoor has path-loss exponent 2.5, outdoor 3.5, and every other name (the vault) 3.0, each only for its own case. The reference RSSI is -30 dBm indoors and outdoors and -35 dBm for any other name. The shadowing deviation is 4.0 indoors, 8.0 outdoors and 6.0 otherwise. |
| Triangulation.RssiToDistance | triangulation.py:88-108 | A reading stronger than the reference gives 0.5 m. Every other reading gives a distance within [1 m, 100 m]. |
| Triangulation.PathLossDistanceMonotone | triangulation.py:99-105 | Before clamping, a weaker reading never gives a shorter distance. |
| Triangulation.RssiToDistanceMonotone | triangulation.py:88-108 | After the 0.5 m shortcut and the clamp, a weaker reading still never gives a shorter distance. |
| Triangulation.ReferenceReadingIsOneMeter | triangulation.py:100-108 | In every environment profile, a 2.4 GHz reading at exactly the reference RSSI lies at the reference distance, 1 m. |
| Triangulation.Separation | triangulation.py:145-149 | The distance between two anchors is non-negative and squares to the squared planar distance. It is zero exactly when the anchors coincide. |
| Triangulation.Trilaterate2Ap | triangulation.py:140-188 | The estimate always reports 2 APs. Coincident anchors give the first anchor's position with confidence 0.1 and error max(d1, d2). Otherwise the estimate is the foot of the chord on the anchor baseline, with error 0.3·max(d1, d2) and confidence 0.3 or 0.7. |
| Triangulation.ChordFootOnBaselineAndRadicalAxis | triangulation.py:156-162 | The chord foot lies on the line through both anchors and on the radical axis: its squared distances to the anchors differ by d1² − d2². |
| Triangulation.IntersectionPointsOnBothCircles | triangulation.py:165-174 | When h² = d1² − a², both candidate points lie on both range circles. |
| Triangulation.ChordExistsIffCirclesMeet | triangulation.py:156-159 | `h_sq` is non-negative if and only if the range circles meet: abs(d1 − d2) <= d_ap <= d1 + d2. |
| Triangulation.TwoApConfidenceIffCirclesMeet | triangulation.py:159-179 | For distinct anchors, the confidence is 0.7 when the circles meet and 0.3 when they do not. |
| LeastSquares.RowHoldsAtExactPoint | triangulation.py:201-206 | A point at exactly the measured ranges from the reference anchor and from another anchor satisfies that anchor's linearised row. |
| LeastSquares.NormalOfConsistentRows | triangulation.py:210-212 | A point satisfying every linearised row also satisfies the normal equations AᵀA·p = Aᵀb. |
| LeastSquares.CramerRecovers | triangulation.py:215-220 | If the determinant is not negligible and the point solves the normal equations, Cramer's rule returns that point. |
| LeastSquares.MultiApEstimate | triangulation.py:190-240 | The estimate reports one AP per reading and a confidence of at least 0.1. A singular system gives the centroid fallback. |
| LeastSquares.MultiApBounds | triangulation.py:223-238 | For non-negative ranges, the confidence lies in [0.1, 1] and the error radius is non-negative. When the system is solved and the largest range is non-zero, the error radius is the mean residual at the solution and the confidence is max(0.1, 1 − error / largest range). |
| LeastSquares.SolvedConfidenceFallsWithError | triangulation.py:228-231 | For a fixed positive largest range, a larger mean residual never gives a higher confidence. |
| LeastSquares.SolvedConfidenceIsOneIff | triangulation.py:228-231 | For a positive largest range and a non-negative mean residual, the confidence is 1 if and only if the mean residual is 0. |
| LeastSquares.FullConfidenceIffExactFit | triangulation.py:223-231 | For a solved system with non-negative ranges and a non-zero largest range, the estimate has confidence 1 if and only if every anchor's residual at the solution is 0. |
| LeastSquares.CollinearAnchorsGiveCentroid | triangulation.py:210-238 | Anchors that all lie on one line make the determinant of the normal equations exactly 0. The estimate is then the centroid, with confidence 0.3. |
| LeastSquares.MultiApExactRanges | triangulation.py:190-231 | Ranges that are exact distances to some point, with a non-singular system, give exactly that point, confidence 1 and error 0. |
| LeastSquares.ExactResidualsVanish | triangulation.py:223-228 | At the true point of exact ranges the mean residual is 0. |
| LeastSquares.ExactRangesNotAllZero | triangulation.py:229-230 | Exact ranges with a non-singular system have a positive maximum, so the confidence division cannot fail. |
| LeastSquares.SameAnchorGivesCentroid | triangulation.py:215-238 | Readings that all come from one anchor make the system singular. The result is the centroid at that anchor, with confidence 0.3. |
| LeastSquares.CentroidOfSameAnchor | triangulation.py:233-236 | The centroid of ranges that all share one anchor is that anchor's position. |
| Tracking.Ranges | triangulation.py:121-129 | There is one range per reading from a registered AP, and every range is anchored at a registered AP. |
| Tracking.RegisteredCountAtMost | triangulation.py:122-129 | Dropping readings from unknown APs never yields more ranges than readings. |
| Tracking.RangesOfConcat | triangulation.py:122-129 | Ranges are computed reading by reading: the ranges of a concatenation are the concatenation of the ranges. |
| Tracking.SolveIffTwoRegistered | triangulation.py:110-138 | There is an estimate if and only if at least two readings come from registered APs. It then reports that many APs. |
| Tracking.UnknownAnchorIgnored | triangulation.py:123-125 | Inserting a reading from an unregistered AP anywhere leaves the estimate unchanged. |
| Tracking.SameAnchorTwice | triangulation.py:131-151 | Two readings from the same registered AP give an estimate at that AP with confidence 0.1. |
| Tracking.SameAnchorThrice | triangulation.py:131-138 | Three readings from the same registered AP give the centroid at that AP, with confidence 0.3 and 3 APs reported. |
| Tracking.SignalsOf | triangulation.py:249-251 | A client's group holds exactly the readings carrying its MAC address. |
| Tracking.LatestTimestamp | triangulation.py:258 | The latest time is the maximum timestamp of the client's readings. |
| Tracking.Recent | triangulation.py:259 | Exactly the readings at most 30 s older than the latest are kept. |
| Tracking.RecentKeepsLatest | triangulation.py:257-261 | The recent readings are never empty, so the `if recent_signals` test always passes. |
| Tracking.LocatedNeedsTwoRecentReadings | triangulation.py:255-264 | A located client appears in the input and has at least two recent readings from registered APs. |
| Tracking.OtherClientsIgnored | triangulation.py:249-262 | Adding another client's reading does not change this client's estimate. |
| Triangulator.WastelandTriangulator.constructor | triangulation.py:62-81 | The new triangulator has the requested environment, that environment's path-loss profile and an empty AP registry. |
| Triangulator.WastelandTriangulator.AddAp | triangulation.py:83-85 | The AP is registered, or re-registered, under its name at the given position. Every other AP keeps its entry. |
| Triangulator.WastelandTriangulator.TrilaterateMultiAp | triangulation.py:190-240 | The loops building the rows, the normal sums and the residuals compute exactly `LeastSquares.MultiApEstimate`. |
| Triangulator.WastelandTriangulator.Trilaterate | triangulation.py:110-138 | The loop converting readings to ranges, followed by the dispatch, computes exactly `Tracking.Solve`. |
| Triangulator.WastelandTriangulator.GroupByClient | triangulation.py:248-251 | The groups are keyed by exactly the MACs present. Each group is that client's readings, in input order. |
| Triangulator.WastelandTriangulator.LocateClient | triangulation.py:256-262 | For one client's group, the result is that client's specified estimate. |
| Triangulator.WastelandTriangulator.TrackClients | triangulation.py:242-268 | A client is reported if and only if it appears in the input and its estimate exists with confidence > 0.1. The reported estimate is that estimate. |
| RuckusExporter.HasLetter | ruckus_exporter.py:355 | True exactly when some character is a letter. |
| RuckusExporter.HasJunk | ruckus_exporter.py:356 | True exactly when some character is one of the four junk markers. |
| RuckusExporter.SsidNameIff | ruckus_exporter.py:354-356 | A name is kept if and only if it has at most 32 characters, contains a letter and contains no junk marker. |
| RuckusExporter.EstimateFromTraffic | ruckus_exporter.py:657-666 | The estimate lies in [0, 50]. It is 0 exactly when there are at most 1000 packets and at most 10 MB. At most 100000 packets give at most 20. |
| RuckusExporter.EstimateMonotoneInPackets | ruckus_exporter.py:657-659 | In the high-traffic branch, more packets never give a lower estimate. |
| RuckusExporter.TrafficEstimate | ruckus_exporter.py:652-672 | A missing counter gives 0. A positive estimate needs more than 1000 packets or more than 10 MB. |
| RuckusExporter.R700Estimate | ruckus_exporter.py:717-731 | The estimate lies in [0, 20]. A missing counter gives 1. With both counters present it is 0 exactly when there are at most 1000 packets. |
| RuckusExporter.InterfaceEntriesKeys | ruckus_exporter.py:57-60 | An interface is mapped if and only if some item with a colon names it after stripping. |
| RuckusExporter.InterfaceEntriesLastWins | ruckus_exporter.py:57-60 | The last item naming an interface decides its SSID. |
| RuckusExporter.ParseInterfaceMapping | ruckus_exporter.py:52-60 | The loop builds exactly the mapping `InterfaceMap` specifies. |
| RuckusExporter.ParseHostsIsStrippedSplit | ruckus_exporter.py:993-996 | Both branches amount to splitting on commas and stripping each piece, so there is always at least one host. |
| RuckusExporter.HostsRoundTrip | ruckus_exporter.py:993-996 | Joining comma-free, stripped hosts with commas parses back to those hosts. |
| RuckusExporter.ParseNumbersSpec | ruckus_exporter.py:1006 | A coordinate list parses if and only if every part parses. Its values are those parts' values, in order. |
| RuckusExporter.CoordinateEntries | ruckus_exporter.py:1003-1008 | Every IP kept has at least two numbers. |
| RuckusExporter.CoordinateEntriesFailIff | ruckus_exporter.py:1002-1012 | Parsing fails if and only if some entry with a colon has a part that is not a number. |
| RuckusExporter.CoordinateEntriesKeys | ruckus_exporter.py:1003-1008 | When parsing succeeds, an IP has coordinates if and only if some entry with a colon names that IP (stripped) and parses to at least two numbers. |
| RuckusExporter.CoordinateEntriesLastWins | ruckus_exporter.py:1003-1008 | An IP's coordinates are the numbers of the last entry that positions it: a later entry overwrites an earlier one. |
| RuckusExporter.CoordinateMapKeys | ruckus_exporter.py:1001-1012 | An IP has coordinates after parsing if and only if no entry holds an unparsable number and some entry positions that IP. |
| RuckusExporter.CoordinatesFailurePersists | ruckus_exporter.py:1002-1012 | Once an entry fails, the whole parse fails, whatever follows. |
| RuckusExporter.OneBadNumberDiscardsAll | ruckus_exporter.py:1010-1012 | One unparsable entry empties the whole coordinate map. |
| RuckusExporter.ParseApCoordinates | ruckus_exporter.py:998-1012 | The loop builds exactly the map `CoordinateMap` specifies. |
| RuckusExporter.CoordinatesArgument | ruckus_exporter.py:998-1027 | Coordinates reach the exporter only when triangulation is enabled and the map is non-empty. Every entry then has at least two numbers. |
| RuckusExporter.ProvidedLayoutStep | ruckus_exporter.py:92-96 | Processing one more entry adds its anchor exactly when its IP is a monitored host. |
| RuckusExporter.DemoLayout | ruckus_exporter.py:97-105 | The demo layout registers exactly the monitored hosts. |
| RuckusExporter.DemoLayoutPosition | ruckus_exporter.py:100-104 | The last occurrence of a host, at index i, places it at (20·i, 0, 2.5). |
| RuckusExporter.InitialLayoutAnchors | ruckus_exporter.py:90-104 | Every anchor is a monitored host registered under its own name. With coordinates given, exactly the monitored hosts that have coordinates are registered, at their given position. |
| RuckusExporter.Prune | ruckus_exporter.py:939-941 | The prune keeps exactly the readings at most 60 s old. |
| RuckusExporter.PruneOfConcat | ruckus_exporter.py:941 | The prune works reading by reading and keeps order. |
| RuckusExporter.PruneKeepsRecent | ruckus_exporter.py:941 | A buffer whose readings are all recent is unchanged. |
| RuckusExporter.PruneIdempotent | ruckus_exporter.py:941 | Pruning twice with the same clock is the same as pruning once. |
| RuckusExporter.RuckusAPExporter.constructor | ruckus_exporter.py:45-76 | The constructor sets the host list, the parsed interface map and an empty buffer. With triangulation on, it creates a fresh indoor triangulator whose registry is the initial layout. |
| RuckusExporter.RuckusAPExporter.SetupApCoordinates | ruckus_exporter.py:85-105 | The registry gains the given coordinates of monitored hosts, or the demo layout when none are given. |
| RuckusExporter.RuckusAPExporter.RegisterProvided | ruckus_exporter.py:90-96 | The loop over the given entries registers exactly the monitored hosts among them. |
| RuckusExporter.RuckusAPExporter.RegisterDemo | ruckus_exporter.py:97-105 | The loop registers every monitored host 20 m apart on the x axis at height 2.5. |
| RuckusExporter.RuckusAPExporter.RecordSignal | ruckus_exporter.py:778-838 | An RSSI within [-100, 0] is appended as a 2.4 GHz reading stamped with the current time. Any other value leaves the buffer unchanged. |
| RuckusExporter.RuckusAPExporter.UpdateClientLocations | ruckus_exporter.py:904-941 | With triangulation off or fewer than two buffered readings, nothing happens. Otherwise the result is `TrackClients` of the buffer and the buffer is pruned to 60 s. |
| SetupCoordinates.ParseNatToString | setup_coordinates.py:124 | `int()` reads a printed natural number back as that number. |
| SetupCoordinates.ParseIntChars | setup_coordinates.py:124 | A string `int()` accepts contains only digits, whitespace and signs. |
| SetupCoordinates.OctetOfNat | setup_coordinates.py:124 | A printed natural number is an octet if and only if it is at most 255. |
| SetupCoordinates.IsValidIpIff | setup_coordinates.py:118-126 | An IP is valid if and only if it splits on dots into exactly four parts, each an integer in [0, 255]. |
| SetupCoordinates.ValidIpSeparators | setup_coordinates.py:118-126 | A valid IP contains no ':', ';' or ','. It therefore cannot break the configuration strings. |
| SetupCoordinates.DefaultIpParts | setup_coordinates.py:87-89 | The default IP of AP i is 192.168.1.(100+i). |
| SetupCoordinates.DefaultIpValid | setup_coordinates.py:86-93 | The default IP is valid if and only if i <= 155. |
| SetupCoordinates.ChosenIpValid | setup_coordinates.py:86-93 | Every accepted IP is valid and carries no surrounding whitespace. A blank answer is accepted exactly when the default is valid. |
| SetupCoordinates.EnvironmentChoice | setup_coordinates.py:54-61 | Choices 2, 3 and 4 select vault, outdoor and custom, each only for its own key. Every other answer, including a blank one, selects indoor. |
| SetupCoordinates.ChosenHeight | setup_coordinates.py:102-107 | Menu answer 2 offers a height of 3.0, answer 3 offers 4.0, and every other answer offers 2.5. |
| SetupCoordinates.BlankAnswersMatchDemoLayout | setup_coordinates.py:98-111 | Outside the vault and outdoors, leaving all three prompts blank for the i-th AP gives the exporter the anchor its demo layout places at (20·i, 0, 2.5). |
| SetupCoordinates.BlankHeightReachesAnchor | setup_coordinates.py:102-111 | A blank height prompt reaches the exporter's anchor as the environment's default height: 3.0 in a vault, 4.0 outdoors. |
| SetupCoordinates.GarbageIgnoresEnvironment | setup_coordinates.py:114-116 | An answer that does not parse as a number gives (20·i, 0, 2.5), whatever the environment and the other answers. |
| SetupCoordinates.RecordKnownIp | setup_coordinates.py:111 | Re-entering a known IP keeps the AP table well formed. |
| SetupCoordinates.RecordNewIp | setup_coordinates.py:111 | Entering a new valid IP keeps the AP table well formed and its order free of duplicates. |
| SetupCoordinates.NumbersParse | setup_coordinates.py:134 | The three printed coordinates of an AP parse back, through the exporter's number parser, to that position. |
| SetupCoordinates.EntryParses | setup_coordinates.py:134 | One `ip:x,y,z` entry reads back as its IP and its position. |
| SetupCoordinates.CoordinatesRoundTrip | setup_coordinates.py:134 | The exporter reads the printed `AP_COORDINATES` string back as exactly the table entered. |
| SetupCoordinates.HostsStringRoundTrip | setup_coordinates.py:135 | The exporter reads the printed `RUCKUS_AP_HOSTS` string back as exactly the IPs entered, in order. |
| SetupCoordinates.APCoordinateSetup.constructor | setup_coordinates.py:18-20 | The wizard starts with no APs and the indoor environment. |
| SetupCoordinates.APCoordinateSetup.SelectEnvironment | setup_coordinates.py:54-61 | The environment becomes the answer's choice. The AP table is unchanged. |
| SetupCoordinates.APCoordinateSetup.RecordAp | setup_coordinates.py:98-116 | The AP's position is set from the answers, and a new IP goes to the end of the order. The table stays well formed. |
| SetupCoordinates.APCoordinateSetup.GenerateConfigurations | setup_coordinates.py:128-135 | The hosts and coordinates strings are printed, and the exporter's parsers read them back as the table entered. |
| Text.JoinSplit | ruckus_exporter.py:57 | Joining the pieces of `str.split` with the separator gives back the original string. |
| Text.SplitJoin | ruckus_exporter.py:994 | Splitting a join of separator-free pieces gives back the pieces. |
| Text.SplitOnceParts | ruckus_exporter.py:59 | `split(':', 1)` cuts at the first colon: the head has no colon, and head, colon and tail rebuild the string. |
| Text.StripIdempotent | ruckus_exporter.py:60 | Stripping twice is the same as stripping once. |
| Text.StripFixedIff | ruckus_exporter.py:60 | Stripping leaves a string unchanged if and only if it has no surrounding whitespace. |
| Numerics.MaxOf | triangulation.py:229 | The maximum range is at least every range and equals one of them. |

## Left out

- SNMP access, the Prometheus metrics, logging, the HTTP server, the scrape loop and `time.time()` are left out. The current time is a parameter.
- The wizard's `print`/`input` I/O is left out, as is its retry loop on the AP count. Each answer is a parameter. `show_layout`, the JSON file written by `save_configuration` and `main` are not part of this model.
- Floating point is modelled as exact reals. `sqrt`, `log10` and `10**x` are abstract functions with the laws the proofs need. `float()` and `f"{x}"` are abstract too, related only by `SetupCoordinates.FormatRoundTrips`.
- A non-positive frequency makes `rssi_to_distance` raise `ValueError` for readings at or below the reference. The model does not model the exception: `Triangulation.Convertible` rules such readings out.
- `str.isalpha()` and `str.strip()` are modelled on ASCII letters and ASCII whitespace only. `int()` is modelled without underscores or non-ASCII digits.
- The `except` branch of `_trilaterate_2ap`, with confidence 0.2, is not modelled. Over exact reals it is unreachable: the divisor is non-zero and `sqrt` is taken of a non-negative number.
- Triangulation.Trilaterate2Ap: the two-AP estimate is stated in two parts: the estimate equals the chord foot, and `Triangulation.ChordFootOnBaselineAndRadicalAxis` locates that foot. They are not combined in one lemma about the estimate.
- Triangulator.WastelandTriangulator.TrackClients: dictionary iteration order is modelled as an arbitrary choice of the next client. The result does not depend on the order.
- The R700 exception path, which maps the SSID to 0 when the SNMP read raises, is not modelled, because it exists only for SNMP failures. The same applies to the SNMP walks that feed `RecordSignal`, and to the `hash()`-derived MAC.
- The exporter's random demo RSSI generator is left out.
- Triangulation.PathLossFor: the shadowing deviation is carried in the model, but no estimate reads it, just as in the source.
- Triangulator.WastelandTriangulator.AddAp: the height is always passed explicitly. The default of 2.5 m is not modelled, because no caller in this model relies on it.
- Triangulator.WastelandTriangulator.TrackClients: requires every reading of a registered AP to be convertible to a distance, including stale readings that the 30-second filter drops before conversion. The exporter records every reading at 2.4 GHz, so its readings always meet this.
