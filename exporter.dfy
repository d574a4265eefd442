/** The logic of `ruckus_exporter.py` that does not talk to an access
    point: the configuration parsers of the constructor and of `main`, the
    rule `_setup_ap_coordinates` uses to register anchors, the SSID filter,
    the traffic-based client-count heuristics, and the `client_signals`
    buffer with its range gate and 60-second prune. */
module RuckusExporter {
  import opened Numerics
  import opened Wrappers
  import opened Text
  import opened Triangulation
  import opened Tracking
  import opened Triangulator

  /*************************************************************************
   * SSID filter
   *************************************************************************/

  /** The letters `str.isalpha()` accepts, restricted to ASCII. */
  predicate IsLetter(c: char)
  {
    'a' <= c <= 'z' || 'A' <= c <= 'Z'
  }

  /** The characters that mark a walked value as binary junk. Lower-casing
      neither creates nor removes any of them, so testing the lower-cased
      string is testing the string. */
  predicate IsJunk(c: char)
  {
    c == ':' || c == '\U{BB}' || c == '\U{B7}' || c == '\U{F7}'
  }

  /** `any(char.isalpha() for char in s)`. */
  function HasLetter(s: string): (r: bool)
    ensures r <==> exists i :: 0 <= i < |s| && IsLetter(s[i])
  {
    if s == [] then false
    else
      var rest := HasLetter(s[1..]);
      assert forall i :: 0 < i < |s| ==> s[i] == s[1..][i - 1];
      IsLetter(s[0]) || rest
  }

  /** `any(bad in s for bad in [':', '»', '·', '÷'])`. */
  function HasJunk(s: string): (r: bool)
    ensures r <==> exists i :: 0 <= i < |s| && IsJunk(s[i])
  {
    if s == [] then false
    else
      var rest := HasJunk(s[1..]);
      assert forall i :: 0 < i < |s| ==> s[i] == s[1..][i - 1];
      IsJunk(s[0]) || rest
  }

  /** A walked value is taken for an SSID name when it has at most 32
      characters, at least one letter and no junk character. */
  predicate IsSsidName(s: string)
  {
    |s| <= 32 && HasLetter(s) && !HasJunk(s)
  }

  /** The filter, stated character by character: an accepted name is short,
      has a letter and contains none of the junk characters; and every such
      string is accepted. */
  lemma SsidNameIff(s: string)
    ensures IsSsidName(s) <==>
              |s| <= 32 && (exists i :: 0 <= i < |s| && IsLetter(s[i])) &&
              (forall i :: 0 <= i < |s| ==> !IsJunk(s[i]))
  {
  }

  /*************************************************************************
   * Client-count heuristics
   *************************************************************************/

  /** `max(lo, min(hi, v))` on integers. */
  function ClampInt(lo: int, hi: int, v: int): (r: int)
    requires lo <= hi
    ensures lo <= r <= hi
    ensures lo <= v <= hi ==> r == v
  {
    if v < lo then lo else if v > hi then hi else v
  }

  /** The estimate from the traffic of one interface: one client per 50 000
      packets (1 to 50) under heavy packet traffic, else one per 10 MB
      (1 to 20) under heavy byte traffic, else 1 for some activity and 0
      otherwise. Python's `//` by a positive divisor is Dafny's `/`. */
  function EstimateFromTraffic(totalPackets: int, totalBytes: int): (r: int)
    ensures 0 <= r <= 50
    ensures r == 0 <==> totalPackets <= 1000 && totalBytes <= 10000000
    ensures totalPackets <= 100000 ==> r <= 20
  {
    if totalPackets > 100000 then ClampInt(1, 50, totalPackets / 50000)
    else if totalBytes > 10000000 then ClampInt(1, 20, totalBytes / 10000000)
    else if totalPackets > 1000 then 1
    else 0
  }

  /** The traffic estimate when any of the four counters is missing is 0. */
  function TrafficEstimate(rxPackets: Option<int>, txPackets: Option<int>,
                           rxBytes: Option<int>, txBytes: Option<int>): (r: int)
    ensures 0 <= r <= 50
    ensures (rxPackets.None? || txPackets.None? || rxBytes.None? || txBytes.None?) ==> r == 0
    ensures r > 0 ==> rxPackets.value + txPackets.value > 1000 || rxBytes.value + txBytes.value > 10000000
  {
    if rxPackets.Some? && txPackets.Some? && rxBytes.Some? && txBytes.Some? then
      EstimateFromTraffic(rxPackets.value + txPackets.value, rxBytes.value + txBytes.value)
    else 0
  }

  /** Between the packet thresholds, the estimate grows with the packet
      count. */
  lemma EstimateMonotoneInPackets(p1: int, p2: int, bytes: int)
    requires 100000 < p1 <= p2
    ensures EstimateFromTraffic(p1, bytes) <= EstimateFromTraffic(p2, bytes)
  {
  }

  /** The R700 estimate of one mapped interface: with both packet counters,
      one client per 10 000 packets (1 to 20) above 1000 packets and 0
      otherwise; a mapped interface without counters counts as one client. */
  function R700Estimate(rxPackets: Option<int>, txPackets: Option<int>): (r: int)
    ensures 0 <= r <= 20
    ensures rxPackets.None? || txPackets.None? ==> r == 1
    ensures rxPackets.Some? && txPackets.Some? ==> (r == 0 <==> rxPackets.value + txPackets.value <= 1000)
  {
    if rxPackets.Some? && txPackets.Some? then
      var total := rxPackets.value + txPackets.value;
      if total > 1000 then ClampInt(1, 20, total / 10000) else 0
    else 1
  }

  /*************************************************************************
   * Interface-to-SSID mapping (`R700_INTERFACE_SSID_MAP`)
   *************************************************************************/

  /** `interface.strip()` of an item `interface:ssid`. */
  function MappingKey(item: string): string
    requires ':' in item
  {
    Strip(SplitOnce(item, ':').0)
  }

  /** `ssid.strip()`; the SSID may itself contain ':'. */
  function MappingValue(item: string): string
    requires ':' in item
  {
    Strip(SplitOnce(item, ':').1)
  }

  /** The item is a mapping for interface `k`. */
  predicate Names(item: string, k: string)
  {
    ':' in item && MappingKey(item) == k
  }

  /** The dictionary the loop over the comma-separated items builds: items
      without ':' are skipped, and a later item overwrites an earlier one
      with the same interface. */
  function InterfaceEntries(items: seq<string>): map<string, string>
  {
    if items == [] then map[]
    else
      var m := InterfaceEntries(items[..|items| - 1]);
      var item := items[|items| - 1];
      if ':' in item then m[MappingKey(item) := MappingValue(item)] else m
  }

  function InterfaceMap(mapping: string): map<string, string>
  {
    InterfaceEntries(Split(mapping, ','))
  }

  /** The interfaces mapped are exactly those named by some item. */
  lemma InterfaceEntriesKeys(items: seq<string>, k: string)
    ensures k in InterfaceEntries(items) <==> exists i :: 0 <= i < |items| && Names(items[i], k)
  {
    if k in InterfaceEntries(items) {
      InterfaceEntriesNamed(items, k);
    } else if exists i :: 0 <= i < |items| && Names(items[i], k) {
      var i :| 0 <= i < |items| && Names(items[i], k);
      InterfaceEntriesHas(items, i, k);
    }
  }

  /** Every mapped interface is named by some item. */
  lemma {:induction false} InterfaceEntriesNamed(items: seq<string>, k: string)
    requires k in InterfaceEntries(items)
    ensures exists i :: 0 <= i < |items| && Names(items[i], k)
  {
    var n := |items| - 1;
    var init := items[..n];
    if Names(items[n], k) {
      assert 0 <= n < |items|;
    } else {
      assert k in InterfaceEntries(init);
      InterfaceEntriesNamed(init, k);
      var i :| 0 <= i < n && Names(init[i], k);
      assert init[i] == items[i];
    }
  }

  /** An interface named by an item is mapped. */
  lemma {:induction false} InterfaceEntriesHas(items: seq<string>, i: int, k: string)
    requires 0 <= i < |items| && Names(items[i], k)
    ensures k in InterfaceEntries(items)
  {
    var n := |items| - 1;
    var init := items[..n];
    if i < n {
      assert init[i] == items[i];
      InterfaceEntriesHas(init, i, k);
    }
  }

  /** The value of an interface is the SSID of the last item naming it. */
  lemma {:induction false} InterfaceEntriesLastWins(items: seq<string>, i: int)
    requires 0 <= i < |items| && ':' in items[i]
    requires forall j :: i < j < |items| ==> !Names(items[j], MappingKey(items[i]))
    ensures MappingKey(items[i]) in InterfaceEntries(items)
    ensures InterfaceEntries(items)[MappingKey(items[i])] == MappingValue(items[i])
  {
    var n := |items| - 1;
    var init := items[..n];
    if i < n {
      assert init[i] == items[i];
      assert forall j :: i < j < n ==> init[j] == items[j];
      InterfaceEntriesLastWins(init, i);
      assert !Names(items[n], MappingKey(items[i]));
    }
  }

  /** The constructor's loop over `R700_INTERFACE_SSID_MAP`; an unset
      variable gives the empty mapping. */
  method ParseInterfaceMapping(mapping: string) returns (m: map<string, string>)
    ensures m == InterfaceMap(mapping)
  {
    m := map[];
    if mapping == [] {
      return;
    }
    var items := Split(mapping, ',');
    for i := 0 to |items|
      invariant m == InterfaceEntries(items[..i])
    {
      assert items[..i + 1][..i] == items[..i];
      var item := items[i];
      if ':' in item {
        var parts := SplitOnce(item, ':');
        m := m[Strip(parts.0) := Strip(parts.1)];
      }
    }
    assert items[..|items|] == items;
  }

  /*************************************************************************
   * `RUCKUS_AP_HOSTS`
   *************************************************************************/

  function StripAll(xs: seq<string>): (r: seq<string>)
    ensures |r| == |xs|
    ensures forall i :: 0 <= i < |xs| ==> r[i] == Strip(xs[i])
  {
    seq(|xs|, i requires 0 <= i < |xs| => Strip(xs[i]))
  }

  /** `main`: a list with ',' becomes its stripped comma-separated pieces,
      anything else the one stripped host. */
  function ParseHosts(s: string): seq<string>
  {
    if ',' in s then StripAll(Split(s, ',')) else [Strip(s)]
  }

  /** The two branches agree: the hosts are always the stripped pieces, so
      there is always at least one host, possibly the empty string. */
  lemma ParseHostsIsStrippedSplit(s: string)
    ensures ParseHosts(s) == StripAll(Split(s, ','))
    ensures |ParseHosts(s)| >= 1
  {
    if ',' !in s {
      SplitWithout(s, ',');
    }
  }

  /** Writing hosts with ',' and parsing them back gives the same list,
      for hosts with no comma and no surrounding whitespace. */
  lemma HostsRoundTrip(hosts: seq<string>)
    requires |hosts| >= 1
    requires forall i :: 0 <= i < |hosts| ==> ',' !in hosts[i] && Strip(hosts[i]) == hosts[i]
    ensures ParseHosts(Join(hosts, ',')) == hosts
  {
    ParseHostsIsStrippedSplit(Join(hosts, ','));
    SplitJoin(hosts, ',');
  }

  /** The constructor's `ap_hosts` argument: a list, or a single host
      given as a string. */
  datatype HostsArgument = OneHost(host: string) | HostList(hosts: seq<string>)

  function HostsOf(arg: HostsArgument): (r: seq<string>)
    ensures arg.OneHost? ==> r == [arg.host]
    ensures arg.HostList? ==> r == arg.hosts
  {
    match arg
    case OneHost(host) => [host]
    case HostList(hosts) => hosts
  }

  /*************************************************************************
   * `AP_COORDINATES`: "ip:x,y,z;ip:x,y,z"
   *************************************************************************/

  /** `float(x.strip())`, with `float` given as `parse`. */
  function Number(parse: string -> Option<real>, part: string): Option<real>
  {
    parse(Strip(part))
  }

  /** `[float(x.strip()) for x in parts]`: None as soon as one part does
      not parse. */
  function ParseNumbers(parse: string -> Option<real>, parts: seq<string>): Option<seq<real>>
  {
    if parts == [] then Some([])
    else
      match ParseNumbers(parse, parts[..|parts| - 1])
      case None => None
      case Some(ns) =>
        match Number(parse, parts[|parts| - 1])
        case None => None
        case Some(v) => Some(ns + [v])
  }

  /** The numbers are parsed part by part, in order, and the list exists
      exactly when every part parses. */
  lemma ParseNumbersSpec(parse: string -> Option<real>, parts: seq<string>)
    ensures ParseNumbers(parse, parts).Some? <==> forall i :: 0 <= i < |parts| ==> Number(parse, parts[i]).Some?
    ensures ParseNumbers(parse, parts).Some? ==>
              |ParseNumbers(parse, parts).value| == |parts| &&
              forall i :: 0 <= i < |parts| ==> ParseNumbers(parse, parts).value[i] == Number(parse, parts[i]).value
  {
    ParseNumbersValues(parse, parts);
    if ParseNumbers(parse, parts).None? {
      ParseNumbersFails(parse, parts);
    }
  }

  /** A parsed list holds the number of every part, in order. */
  lemma {:induction false} ParseNumbersValues(parse: string -> Option<real>, parts: seq<string>)
    ensures ParseNumbers(parse, parts).Some? ==>
              |ParseNumbers(parse, parts).value| == |parts| &&
              forall i :: 0 <= i < |parts| ==>
                Number(parse, parts[i]).Some? && ParseNumbers(parse, parts).value[i] == Number(parse, parts[i]).value
  {
    var r := ParseNumbers(parse, parts);
    if parts != [] && r.Some? {
      var n := |parts| - 1;
      var init := parts[..n];
      ParseNumbersValues(parse, init);
      var ns := ParseNumbers(parse, init).value;
      var last := Number(parse, parts[n]);
      assert r.value == ns + [last.value];
      forall i | 0 <= i < |parts|
        ensures Number(parse, parts[i]).Some? && r.value[i] == Number(parse, parts[i]).value
      {
        if i < n {
          var x := Number(parse, init[i]);
          assert x.Some? && ns[i] == x.value;
          assert init[i] == parts[i];
          assert r.value[i] == ns[i];
          assert Number(parse, parts[i]) == x;
        } else {
          assert i == n && last.Some?;
          assert r.value[i] == last.value;
        }
      }
    }
  }

  /** A list that fails to parse has a part that is not a number. */
  lemma {:induction false} ParseNumbersFails(parse: string -> Option<real>, parts: seq<string>)
    requires ParseNumbers(parse, parts).None?
    ensures exists i :: 0 <= i < |parts| && Number(parse, parts[i]).None?
  {
    var n := |parts| - 1;
    var init := parts[..n];
    if ParseNumbers(parse, init).None? {
      ParseNumbersFails(parse, init);
      var i :| 0 <= i < n && Number(parse, init[i]).None?;
      assert init[i] == parts[i];
    } else {
      assert Number(parse, parts[n]).None?;
    }
  }

  /** The IP of an entry `ip:coords`. */
  function EntryIp(entry: string): string
    requires ':' in entry
  {
    Strip(SplitOnce(entry, ':').0)
  }

  /** The comma-separated numbers of an entry `ip:coords`. */
  function EntryParts(entry: string): seq<string>
    requires ':' in entry
  {
    Split(SplitOnce(entry, ':').1, ',')
  }

  /** The loop of `main` over the ';'-separated entries: entries without
      ':' are skipped, entries with fewer than two numbers are dropped, a
      later entry for the same IP overwrites an earlier one, and a number
      that does not parse raises, which is None here. */
  function CoordinateEntries(parse: string -> Option<real>, entries: seq<string>): (r: Option<map<string, seq<real>>>)
    ensures r.Some? ==> forall ip :: ip in r.value ==> |r.value[ip]| >= 2
  {
    if entries == [] then Some(map[])
    else
      var entry := entries[|entries| - 1];
      match CoordinateEntries(parse, entries[..|entries| - 1])
      case None => None
      case Some(m) =>
        if ':' !in entry then Some(m)
        else
          match ParseNumbers(parse, EntryParts(entry))
          case None => None
          case Some(ns) => if |ns| >= 2 then Some(m[EntryIp(entry) := ns]) else Some(m)
  }

  /** The coordinates `main` ends with: the parsed entries, or the empty
      map once any number fails to parse. */
  function CoordinateMap(parse: string -> Option<real>, s: string): map<string, seq<real>>
  {
    match CoordinateEntries(parse, Split(s, ';'))
    case None => map[]
    case Some(m) => m
  }

  /** An entry with ':' whose numbers do not all parse. */
  predicate Unparsable(parse: string -> Option<real>, entry: string)
  {
    ':' in entry && ParseNumbers(parse, EntryParts(entry)).None?
  }

  /** The entries are parsed exactly when no entry with ':' holds a number
      that does not parse. */
  lemma {:induction false} CoordinateEntriesFailIff(parse: string -> Option<real>, entries: seq<string>)
    ensures CoordinateEntries(parse, entries).None? <==> exists i :: 0 <= i < |entries| && Unparsable(parse, entries[i])
  {
    if entries != [] {
      var n := |entries| - 1;
      var init := entries[..n];
      CoordinateEntriesFailIff(parse, init);
      if exists i :: 0 <= i < n && Unparsable(parse, init[i]) {
        var i :| 0 <= i < n && Unparsable(parse, init[i]);
        assert Unparsable(parse, entries[i]);
      }
      if exists i :: 0 <= i < |entries| && Unparsable(parse, entries[i]) {
        var i :| 0 <= i < |entries| && Unparsable(parse, entries[i]);
        if i < n {
          assert Unparsable(parse, init[i]);
        }
      }
    }
  }

  /** A single unparsable number anywhere discards every entry, and every
      value of the result holds at least x and y. */
  lemma OneBadNumberDiscardsAll(parse: string -> Option<real>, s: string, i: int)
    requires 0 <= i < |Split(s, ';')| && Unparsable(parse, Split(s, ';')[i])
    ensures CoordinateMap(parse, s) == map[]
  {
    CoordinateEntriesFailIff(parse, Split(s, ';'));
  }

  /** The entry gives the position of `ip`: it holds ':', its IP is `ip`
      and its numbers parse to at least x and y. */
  predicate Positions(parse: string -> Option<real>, entry: string, ip: string)
  {
    && ':' in entry
    && EntryIp(entry) == ip
    && ParseNumbers(parse, EntryParts(entry)).Some?
    && |ParseNumbers(parse, EntryParts(entry)).value| >= 2
  }

  /** When parsing succeeds, the IPs with coordinates are exactly those
      some entry positions. */
  lemma CoordinateEntriesKeys(parse: string -> Option<real>, entries: seq<string>, ip: string)
    requires CoordinateEntries(parse, entries).Some?
    ensures ip in CoordinateEntries(parse, entries).value <==>
            exists i :: 0 <= i < |entries| && Positions(parse, entries[i], ip)
  {
    if ip in CoordinateEntries(parse, entries).value {
      CoordinateEntriesNamed(parse, entries, ip);
    } else if exists i :: 0 <= i < |entries| && Positions(parse, entries[i], ip) {
      var i :| 0 <= i < |entries| && Positions(parse, entries[i], ip);
      CoordinateEntriesHas(parse, entries, i, ip);
    }
  }

  /** Every IP with coordinates is positioned by some entry. */
  lemma {:induction false} CoordinateEntriesNamed(parse: string -> Option<real>, entries: seq<string>, ip: string)
    requires CoordinateEntries(parse, entries).Some?
    requires ip in CoordinateEntries(parse, entries).value
    ensures exists i :: 0 <= i < |entries| && Positions(parse, entries[i], ip)
  {
    var n := |entries| - 1;
    var init := entries[..n];
    if Positions(parse, entries[n], ip) {
      assert 0 <= n < |entries|;
    } else {
      assert ip in CoordinateEntries(parse, init).value;
      CoordinateEntriesNamed(parse, init, ip);
      var i :| 0 <= i < n && Positions(parse, init[i], ip);
      assert init[i] == entries[i];
    }
  }

  /** An IP positioned by some entry has coordinates. */
  lemma {:induction false} CoordinateEntriesHas(parse: string -> Option<real>, entries: seq<string>, i: int, ip: string)
    requires CoordinateEntries(parse, entries).Some?
    requires 0 <= i < |entries| && Positions(parse, entries[i], ip)
    ensures ip in CoordinateEntries(parse, entries).value
  {
    var n := |entries| - 1;
    var init := entries[..n];
    if i < n {
      assert init[i] == entries[i];
      CoordinateEntriesHas(parse, init, i, ip);
    }
  }

  /** The coordinates of an IP are the numbers of the last entry
      positioning it. */
  lemma {:induction false} CoordinateEntriesLastWins(parse: string -> Option<real>, entries: seq<string>, i: int)
    requires CoordinateEntries(parse, entries).Some?
    requires 0 <= i < |entries| && ':' in entries[i] && Positions(parse, entries[i], EntryIp(entries[i]))
    requires forall j :: i < j < |entries| ==> !Positions(parse, entries[j], EntryIp(entries[i]))
    ensures EntryIp(entries[i]) in CoordinateEntries(parse, entries).value
    ensures CoordinateEntries(parse, entries).value[EntryIp(entries[i])] == ParseNumbers(parse, EntryParts(entries[i])).value
  {
    var n := |entries| - 1;
    var init := entries[..n];
    if i < n {
      assert init[i] == entries[i];
      assert forall j :: i < j < n ==> init[j] == entries[j];
      CoordinateEntriesLastWins(parse, init, i);
      assert !Positions(parse, entries[n], EntryIp(entries[i]));
    }
  }

  /** An IP has coordinates in `main` exactly when no entry holds a number
      that does not parse and some entry positions it. */
  lemma CoordinateMapKeys(parse: string -> Option<real>, s: string, ip: string)
    ensures var entries := Split(s, ';');
            ip in CoordinateMap(parse, s) <==>
              (forall i :: 0 <= i < |entries| ==> !Unparsable(parse, entries[i])) &&
              (exists i :: 0 <= i < |entries| && Positions(parse, entries[i], ip))
  {
    var entries := Split(s, ';');
    CoordinateEntriesFailIff(parse, entries);
    if CoordinateEntries(parse, entries).Some? {
      CoordinateEntriesKeys(parse, entries, ip);
    }
  }

  /** The parsing loop of `main`, with the `try`/`except` that resets the
      map when a number does not parse. */
  method ParseApCoordinates(parse: string -> Option<real>, s: string) returns (coords: map<string, seq<real>>)
    ensures coords == CoordinateMap(parse, s)
  {
    var entries := Split(s, ';');
    coords := map[];
    for i := 0 to |entries|
      invariant CoordinateEntries(parse, entries[..i]) == Some(coords)
    {
      assert entries[..i + 1][..i] == entries[..i];
      var entry := entries[i];
      if ':' in entry {
        var parts := SplitOnce(entry, ':');
        var numbers := ParseNumbers(parse, Split(parts.1, ','));
        if numbers.None? {
          CoordinatesFailurePersists(parse, entries, i + 1);
          assert entries[..|entries|] == entries;
          return map[];
        }
        if |numbers.value| >= 2 {
          coords := coords[Strip(parts.0) := numbers.value];
        }
      }
    }
    assert entries[..|entries|] == entries;
  }

  /** Once a prefix of the entries fails, every longer prefix fails too. */
  lemma {:induction false} CoordinatesFailurePersists(parse: string -> Option<real>, entries: seq<string>, k: int)
    requires 0 <= k <= |entries|
    requires CoordinateEntries(parse, entries[..k]).None?
    ensures CoordinateEntries(parse, entries).None?
  {
    if k < |entries| {
      var n := |entries|;
      assert entries[..n - 1][..k] == entries[..k];
      CoordinatesFailurePersists(parse, entries[..n - 1], k);
    } else {
      assert entries[..k] == entries;
    }
  }

  /** `main` passes the coordinates on only when triangulation is enabled,
      the variable is set and at least one entry survived; otherwise the
      exporter falls back to its demo layout. */
  function CoordinatesArgument(parse: string -> Option<real>, s: string, enableTriangulation: bool): (r: Option<map<string, seq<real>>>)
    ensures r.Some? ==> enableTriangulation && r.value != map[]
    ensures r.Some? ==> forall ip :: ip in r.value ==> |r.value[ip]| >= 2
  {
    if s != [] && enableTriangulation then
      var m := CoordinateMap(parse, s);
      if m != map[] then Some(m) else None
    else None
  }

  /*************************************************************************
   * `_setup_ap_coordinates`
   *************************************************************************/

  /** The anchor given coordinates define: z is 2.5 when only x and y are
      given. */
  function AnchorFrom(ip: string, coords: seq<real>): (a: APCoordinates)
    requires |coords| >= 2
    ensures a.name == ip && a.x == coords[0] && a.y == coords[1]
    ensures a.z == (if |coords| > 2 then coords[2] else 2.5)
  {
    APCoordinates(coords[0], coords[1], if |coords| > 2 then coords[2] else 2.5, ip)
  }

  /** The anchors registered from given coordinates, among the entries in
      `done`: only IPs that are also monitored hosts. */
  function ProvidedLayout(hosts: seq<string>, coords: map<string, seq<real>>, done: set<string>): map<string, APCoordinates>
    requires forall ip :: ip in coords ==> |coords[ip]| >= 2
  {
    map ip | ip in coords && ip in done && ip in hosts :: AnchorFrom(ip, coords[ip])
  }

  /** Registering one more given entry adds its anchor when its IP is a
      monitored host, and nothing otherwise. */
  lemma ProvidedLayoutStep(hosts: seq<string>, coords: map<string, seq<real>>, done: set<string>, ip: string)
    requires forall ip :: ip in coords ==> |coords[ip]| >= 2
    requires ip in coords
    ensures ip in hosts ==>
              ProvidedLayout(hosts, coords, done + {ip}) == ProvidedLayout(hosts, coords, done)[ip := AnchorFrom(ip, coords[ip])]
    ensures ip !in hosts ==> ProvidedLayout(hosts, coords, done + {ip}) == ProvidedLayout(hosts, coords, done)
  {
  }

  /** Updating a union updates its right operand. */
  lemma UpdateOfUnion<K, V>(left: map<K, V>, right: map<K, V>, k: K, v: V)
    ensures (left + right)[k := v] == left + right[k := v]
  {
  }

  /** The demo layout: the i-th host at (20 i, 0, 2.5); a host listed twice
      keeps its last position. */
  function DemoLayout(hosts: seq<string>): (reg: map<string, APCoordinates>)
    ensures forall ip :: ip in reg <==> ip in hosts
  {
    if hosts == [] then map[]
    else
      var n := |hosts| - 1;
      var init := hosts[..n];
      assert forall ip :: ip in hosts <==> ip in init || ip == hosts[n];
      DemoLayout(init)[hosts[n] := APCoordinates(20.0 * n as real, 0.0, 2.5, hosts[n])]
  }

  /** A host that is not listed again later stands at 20 times its index
      on the x axis. */
  lemma {:induction false} DemoLayoutPosition(hosts: seq<string>, i: int)
    requires 0 <= i < |hosts|
    requires forall j :: i < j < |hosts| ==> hosts[j] != hosts[i]
    ensures DemoLayout(hosts)[hosts[i]] == APCoordinates(20.0 * i as real, 0.0, 2.5, hosts[i])
  {
    var n := |hosts| - 1;
    if i < n {
      var init := hosts[..n];
      assert forall j :: i < j < n ==> init[j] == hosts[j];
      DemoLayoutPosition(init, i);
    }
  }

  /** The registry `_setup_ap_coordinates` builds: from the given
      coordinates when there are any, else the demo layout. */
  function InitialLayout(hosts: seq<string>, coords: Option<map<string, seq<real>>>): map<string, APCoordinates>
    requires coords.Some? ==> forall ip :: ip in coords.value ==> |coords.value[ip]| >= 2
  {
    if coords.Some? && coords.value != map[] then ProvidedLayout(hosts, coords.value, coords.value.Keys)
    else DemoLayout(hosts)
  }

  /** Every registered anchor is a monitored host, registered under its own
      name; with coordinates given, exactly the hosts that have some are
      registered, at the given position. */
  lemma InitialLayoutAnchors(hosts: seq<string>, coords: Option<map<string, seq<real>>>)
    requires coords.Some? ==> forall ip :: ip in coords.value ==> |coords.value[ip]| >= 2
    ensures forall ip :: ip in InitialLayout(hosts, coords) ==>
              ip in hosts && InitialLayout(hosts, coords)[ip].name == ip
    ensures coords.Some? && coords.value != map[] ==>
              forall ip :: ip in InitialLayout(hosts, coords) <==> ip in hosts && ip in coords.value
    ensures coords.Some? && coords.value != map[] ==>
              forall ip :: ip in InitialLayout(hosts, coords) ==>
                InitialLayout(hosts, coords)[ip] == AnchorFrom(ip, coords.value[ip])
  {
    if !(coords.Some? && coords.value != map[]) {
      DemoLayoutNames(hosts);
    }
  }

  lemma {:induction false} DemoLayoutNames(hosts: seq<string>)
    ensures forall ip :: ip in DemoLayout(hosts) ==> DemoLayout(hosts)[ip].name == ip
  {
    if hosts != [] {
      DemoLayoutNames(hosts[..|hosts| - 1]);
    }
  }

  /*************************************************************************
   * The signal buffer
   *************************************************************************/

  /** Readings older than this many seconds are pruned. */
  const SignalRetention: real := 60.0

  /** `[s for s in signals if now - s.timestamp <= 60]`. */
  function Prune(signals: seq<ClientSignal>, now: real): (r: seq<ClientSignal>)
    ensures |r| <= |signals|
    ensures forall s :: s in r <==> s in signals && now - s.timestamp <= SignalRetention
  {
    if signals == [] then []
    else
      var init := Prune(signals[..|signals| - 1], now);
      var s := signals[|signals| - 1];
      assert signals == signals[..|signals| - 1] + [s];
      if now - s.timestamp <= SignalRetention then init + [s] else init
  }

  /** The prune keeps the original order: pruning a concatenation prunes
      each part. */
  lemma {:induction false} PruneOfConcat(a: seq<ClientSignal>, b: seq<ClientSignal>, now: real)
    ensures Prune(a + b, now) == Prune(a, now) + Prune(b, now)
  {
    if b == [] {
      assert a + b == a;
    } else {
      var n := |b| - 1;
      assert (a + b)[..|a + b| - 1] == a + b[..n];
      assert (a + b)[|a + b| - 1] == b[n];
      PruneOfConcat(a, b[..n], now);
    }
  }

  /** A buffer of recent readings is left as it is. */
  lemma {:induction false} PruneKeepsRecent(signals: seq<ClientSignal>, now: real)
    requires forall i :: 0 <= i < |signals| ==> now - signals[i].timestamp <= SignalRetention
    ensures Prune(signals, now) == signals
  {
    if signals != [] {
      PruneKeepsRecent(signals[..|signals| - 1], now);
      assert signals == signals[..|signals| - 1] + [signals[|signals| - 1]];
    }
  }

  /** Pruning twice at the same time prunes once. */
  lemma PruneIdempotent(signals: seq<ClientSignal>, now: real)
    ensures Prune(Prune(signals, now), now) == Prune(signals, now)
  {
    var r := Prune(signals, now);
    forall i | 0 <= i < |r|
      ensures now - r[i].timestamp <= SignalRetention
    {
      assert r[i] in r;
    }
    PruneKeepsRecent(r, now);
  }

  /** The readings the exporter buffers: the range gate keeps RSSI values
      in [-100, 0], and every reading is taken as 2.4 GHz. */
  predicate Buffered(s: ClientSignal)
  {
    -100.0 <= s.rssi <= 0.0 && s.frequency == 2.4
  }

  class RuckusAPExporter {
    const apHosts: seq<string>
    const interfaceSsidMap: map<string, string>
    const enableTriangulation: bool
    const triangulator: WastelandTriangulator?
    /** `client_signals`: every reading collected since the last prune. */
    var clientSignals: seq<ClientSignal>

    ghost predicate Valid()
      reads this
    {
      && (enableTriangulation <==> triangulator != null)
      && (triangulator != null ==> triangulator.Valid())
      && (forall i :: 0 <= i < |clientSignals| ==> Buffered(clientSignals[i]))
    }

    /** `__init__` without the metrics: the host list, the interface
        mapping, a triangulator for an indoor site with its anchors
        registered, and an empty buffer. */
    constructor(hosts: HostsArgument, interfaceMapping: string, enableTriangulation: bool,
                apCoordinates: Option<map<string, seq<real>>>, math: RealMath)
      requires math.Lawful()
      requires apCoordinates.Some? ==> forall ip :: ip in apCoordinates.value ==> |apCoordinates.value[ip]| >= 2
      ensures Valid()
      ensures apHosts == HostsOf(hosts) && interfaceSsidMap == InterfaceMap(interfaceMapping)
      ensures this.enableTriangulation == enableTriangulation && clientSignals == []
      ensures triangulator != null ==>
                fresh(triangulator) && triangulator.environmentType == "indoor" &&
                triangulator.apCoordinates == InitialLayout(apHosts, apCoordinates)
    {
      apHosts := HostsOf(hosts);
      var m := ParseInterfaceMapping(interfaceMapping);
      interfaceSsidMap := m;
      this.enableTriangulation := enableTriangulation;
      var t: WastelandTriangulator? := null;
      if enableTriangulation {
        t := new WastelandTriangulator(math, "indoor");
      }
      triangulator := t;
      clientSignals := [];
      new;
      if t != null {
        SetupApCoordinates(apCoordinates);
      }
    }

    /** `_setup_ap_coordinates`: registers the given coordinates of the
        monitored hosts, or the demo layout when none are given. */
    method SetupApCoordinates(apCoordinates: Option<map<string, seq<real>>>)
      requires Valid() && triangulator != null
      requires apCoordinates.Some? ==> forall ip :: ip in apCoordinates.value ==> |apCoordinates.value[ip]| >= 2
      modifies triangulator
      ensures Valid()
      ensures triangulator.apCoordinates == old(triangulator.apCoordinates) + InitialLayout(apHosts, apCoordinates)
    {
      if apCoordinates.Some? && apCoordinates.value != map[] {
        RegisterProvided(apCoordinates.value);
      } else {
        RegisterDemo();
      }
    }

    /** The loop over the given coordinates: each monitored host among
        them is registered, with height 2.5 m when only x and y are given. */
    method RegisterProvided(coords: map<string, seq<real>>)
      requires Valid() && triangulator != null
      requires forall ip :: ip in coords ==> |coords[ip]| >= 2
      modifies triangulator
      ensures Valid()
      ensures triangulator.apCoordinates == old(triangulator.apCoordinates) + ProvidedLayout(apHosts, coords, coords.Keys)
    {
      ghost var registry := triangulator.apCoordinates;
      var pending := coords.Keys;
      while pending != {}
        invariant pending <= coords.Keys
        invariant triangulator.apCoordinates == registry + ProvidedLayout(apHosts, coords, coords.Keys - pending)
        decreases |pending|
      {
        var ip :| ip in pending;
        ProvidedLayoutStep(apHosts, coords, coords.Keys - pending, ip);
        if ip in apHosts {
          var c := coords[ip];
          var z := if |c| > 2 then c[2] else 2.5;
          UpdateOfUnion(registry, ProvidedLayout(apHosts, coords, coords.Keys - pending), ip, AnchorFrom(ip, c));
          triangulator.AddAp(ip, c[0], c[1], z);
        }
        assert coords.Keys - (pending - {ip}) == (coords.Keys - pending) + {ip};
        pending := pending - {ip};
      }
      assert coords.Keys - pending == coords.Keys;
    }

    /** The demo layout: the monitored hosts 20 m apart along the x axis,
        at height 2.5 m. */
    method RegisterDemo()
      requires Valid() && triangulator != null
      modifies triangulator
      ensures Valid()
      ensures triangulator.apCoordinates == old(triangulator.apCoordinates) + DemoLayout(apHosts)
    {
      for i := 0 to |apHosts|
        invariant triangulator.apCoordinates == old(triangulator.apCoordinates) + DemoLayout(apHosts[..i])
      {
        assert apHosts[..i + 1][..i] == apHosts[..i];
        UpdateOfUnion(old(triangulator.apCoordinates), DemoLayout(apHosts[..i]), apHosts[i],
                      APCoordinates(20.0 * i as real, 0.0, 2.5, apHosts[i]));
        triangulator.AddAp(apHosts[i], 20.0 * i as real, 0.0, 2.5);
      }
      assert apHosts[..|apHosts|] == apHosts;
    }

    /** One RSSI value read from an access point: values outside
        [-100, 0] are dropped, the others become a 2.4 GHz reading at the
        end of the buffer. */
    method RecordSignal(mac: string, apHost: string, rssi: int, now: real)
      requires Valid()
      modifies this
      ensures Valid()
      ensures -100 <= rssi <= 0 ==>
                clientSignals == old(clientSignals) + [ClientSignal(mac, apHost, rssi as real, now, 2.4)]
      ensures !(-100 <= rssi <= 0) ==> clientSignals == old(clientSignals)
    {
      if -100 <= rssi <= 0 {
        clientSignals := clientSignals + [ClientSignal(mac, apHost, rssi as real, now, 2.4)];
      }
    }

    /** `update_client_locations` without the metrics: with triangulation
        on and at least two buffered readings, locates the clients and
        prunes the buffer to the last 60 seconds; otherwise does nothing. */
    method UpdateClientLocations(now: real) returns (locations: map<string, LocationEstimate>)
      requires Valid()
      modifies this
      ensures Valid()
      ensures (triangulator == null || |old(clientSignals)| < 2) ==>
                locations == map[] && clientSignals == old(clientSignals)
      ensures triangulator != null && |old(clientSignals)| >= 2 ==>
                clientSignals == Prune(old(clientSignals), now) &&
                Measurable(triangulator.pathLoss, triangulator.apCoordinates, old(clientSignals)) &&
                (forall mac :: mac in locations <==>
                  (mac in Macs(old(clientSignals)) &&
                   Located(triangulator.math, triangulator.pathLoss, triangulator.apCoordinates, old(clientSignals), mac))) &&
                (forall mac :: mac in locations ==>
                  Some(locations[mac]) == ClientEstimate(triangulator.math, triangulator.pathLoss,
                                                         triangulator.apCoordinates, old(clientSignals), mac))
    {
      locations := map[];
      if !enableTriangulation || triangulator == null {
        return;
      }
      if |clientSignals| < 2 {
        return;
      }
      assert Measurable(triangulator.pathLoss, triangulator.apCoordinates, clientSignals) by {
        forall s | s in clientSignals
          ensures s.frequency > 0.0
        {
          var i :| 0 <= i < |clientSignals| && clientSignals[i] == s;
          assert Buffered(clientSignals[i]);
        }
      }
      locations := triangulator.TrackClients(clientSignals);
      var kept := Prune(clientSignals, now);
      assert forall i :: 0 <= i < |kept| ==> Buffered(kept[i]) by {
        forall i | 0 <= i < |kept|
          ensures Buffered(kept[i])
        {
          assert kept[i] in clientSignals;
          var j :| 0 <= j < |clientSignals| && clientSignals[j] == kept[i];
        }
      }
      clientSignals := kept;
    }
  }
}
