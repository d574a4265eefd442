/** The deterministic core of `setup_coordinates.py`: the IP validator,
    the defaults the wizard offers, the environment menu, the `aps`
    dictionary the wizard fills (in insertion order) and the two
    configuration strings it prints, which are exactly what the exporter
    parses back. */
module SetupCoordinates {
  import opened Wrappers
  import opened Text
  import opened RuckusExporter

  /*************************************************************************
   * `int()` on a string
   *************************************************************************/

  predicate IsDigit(c: char)
  {
    '0' <= c <= '9'
  }

  predicate AllDigits(s: string)
  {
    forall i :: 0 <= i < |s| ==> IsDigit(s[i])
  }

  /** The value of a string of decimal digits, most significant first. */
  function DigitsValue(s: string): (n: nat)
    requires AllDigits(s)
  {
    if s == [] then 0
    else DigitsValue(s[..|s| - 1]) * 10 + (s[|s| - 1] - '0') as nat
  }

  /** `int(s)`: surrounding whitespace, an optional sign and at least one
      ASCII digit; anything else raises, which is None here. */
  function ParseInt(s: string): (r: Option<int>)
  {
    var t := Strip(s);
    if t != [] && (t[0] == '-' || t[0] == '+') then
      var digits := t[1..];
      if digits != [] && AllDigits(digits) then
        var v: int := DigitsValue(digits);
        Some(if t[0] == '-' then -v else v)
      else None
    else if t != [] && AllDigits(t) then Some(DigitsValue(t))
    else None
  }

  /** `str(n)` for a natural number. */
  function NatToString(n: nat): (s: string)
    ensures s != [] && AllDigits(s)
  {
    var d := ['0' + (n % 10) as char];
    if n < 10 then d else NatToString(n / 10) + d
  }

  /** The digits of a printed number spell the number. */
  lemma {:induction false} NatToStringValue(n: nat)
    ensures DigitsValue(NatToString(n)) == n
  {
    var s := NatToString(n);
    var d := ['0' + (n % 10) as char];
    if n < 10 {
      assert s == d;
    } else {
      NatToStringValue(n / 10);
      assert s == NatToString(n / 10) + d;
      assert s[..|s| - 1] == NatToString(n / 10);
      assert (s[|s| - 1] - '0') as nat == n % 10;
    }
  }

  /** Printing a number and reading it back gives the number. */
  lemma ParseNatToString(n: nat)
    ensures ParseInt(NatToString(n)) == Some(n)
  {
    var s := NatToString(n);
    NatToStringValue(n);
    assert IsDigit(s[0]) && IsDigit(s[|s| - 1]);
    StripUnchanged(s);
  }

  /** Every character of a string `int()` accepts is a digit, a sign or
      whitespace. */
  lemma ParseIntChars(s: string, c: char)
    requires ParseInt(s).Some? && c in s
    ensures IsDigit(c) || IsSpace(c) || c == '-' || c == '+'
  {
    if !IsSpace(c) {
      StripKeeps(s, c);
      var t := Strip(s);
      var k :| 0 <= k < |t| && t[k] == c;
      if 0 < k && (t[0] == '-' || t[0] == '+') {
        assert t[1..][k - 1] == c;
      }
    }
  }

  /*************************************************************************
   * `is_valid_ip`
   *************************************************************************/

  /** A part that `int()` reads as a number from 0 to 255. */
  predicate IsOctet(part: string)
  {
    ParseInt(part).Some? && 0 <= ParseInt(part).value <= 255
  }

  /** `all(0 <= int(part) <= 255 for part in parts)` inside the `try`: the
      parts are checked in order and the first that does not parse ends
      the check with False, as the first out of range does. */
  function AllOctets(parts: seq<string>): bool
  {
    if parts == [] then true
    else
      match ParseInt(parts[0])
      case None => false
      case Some(n) => 0 <= n <= 255 && AllOctets(parts[1..])
  }

  /** `is_valid_ip`: four '.'-separated parts, each checked by `int()`. */
  function IsValidIp(ip: string): bool
  {
    var parts := Split(ip, '.');
    if |parts| != 4 then false else AllOctets(parts)
  }

  /** The check stops at the first bad part, but its verdict is that of
      checking every part. */
  lemma {:induction false} AllOctetsIff(parts: seq<string>)
    ensures AllOctets(parts) <==> forall i :: 0 <= i < |parts| ==> IsOctet(parts[i])
  {
    if parts != [] {
      var rest := parts[1..];
      AllOctetsIff(rest);
      if AllOctets(parts) {
        forall i | 0 <= i < |parts|
          ensures IsOctet(parts[i])
        {
          if i > 0 {
            assert parts[i] == rest[i - 1];
          }
        }
      } else if IsOctet(parts[0]) {
        var j :| 0 <= j < |rest| && !IsOctet(rest[j]);
        assert parts[j + 1] == rest[j];
      }
    }
  }

  /** An IP is valid exactly when it has four parts and each is a number
      from 0 to 255; a part that is not a number makes it invalid. */
  lemma IsValidIpIff(ip: string)
    ensures IsValidIp(ip) <==> |Split(ip, '.')| == 4 && forall i :: 0 <= i < 4 ==> IsOctet(Split(ip, '.')[i])
  {
    AllOctetsIff(Split(ip, '.'));
  }

  /** A valid IP holds no ':', ';' or ',', so it survives both
      configuration strings. */
  lemma ValidIpSeparators(ip: string)
    requires IsValidIp(ip)
    ensures ':' !in ip && ';' !in ip && ',' !in ip
  {
    var parts := Split(ip, '.');
    JoinSplit(ip, '.');
    IsValidIpIff(ip);
    forall c | c in ip
      ensures c != ':' && c != ';' && c != ','
    {
      JoinChars(parts, '.', c);
      if c != '.' {
        var i :| 0 <= i < |parts| && c in parts[i];
        assert IsOctet(parts[i]);
        ParseIntChars(parts[i], c);
      }
    }
  }

  /*************************************************************************
   * Defaults and menus
   *************************************************************************/

  /** The address offered for the i-th access point: 192.168.1.(100 + i). */
  function DefaultIp(i: nat): string
  {
    "192.168.1." + NatToString(100 + i)
  }

  /** The offered address splits into "192", "168", "1" and the printed
      number. */
  lemma DefaultIpParts(i: nat)
    ensures Split(DefaultIp(i), '.') == ["192", "168", "1", NatToString(100 + i)]
  {
    var last := NatToString(100 + i);
    assert '.' !in last;
    SplitWithout(last, '.');
    SplitAround("1", last, '.');
    assert "168.1." + last == "168" + ['.'] + ("1." + last);
    SplitAround("168", "1." + last, '.');
    assert DefaultIp(i) == "192" + ['.'] + ("168.1." + last);
    SplitAround("192", "168.1." + last, '.');
  }

  lemma NetworkOctets()
    ensures IsOctet("192") && IsOctet("168") && IsOctet("1")
  {
    assert NatToString(192) == "192" by {
      assert NatToString(19) == "19" by {
        assert NatToString(1) == "1";
      }
    }
    assert NatToString(168) == "168" by {
      assert NatToString(16) == "16" by {
        assert NatToString(1) == "1";
      }
    }
    ParseNatToString(192);
    ParseNatToString(168);
    ParseNatToString(1);
  }

  /** A printed number is an octet exactly when it is at most 255. */
  lemma OctetOfNat(n: nat)
    ensures IsOctet(NatToString(n)) <==> n <= 255
  {
    ParseNatToString(n);
  }

  /** The offered address is valid exactly for the first 156 access
      points; past that the wizard offers an address it then rejects. */
  lemma DefaultIpValid(i: nat)
    ensures IsValidIp(DefaultIp(i)) <==> i <= 155
  {
    var parts := Split(DefaultIp(i), '.');
    DefaultIpParts(i);
    assert |parts| == 4;
    assert parts[0] == "192" && parts[1] == "168" && parts[2] == "1";
    assert parts[3] == NatToString(100 + i);
    OctetOfNat(100 + i);
    NetworkOctets();
    IsValidIpIff(DefaultIp(i));
    if i <= 155 {
      forall k | 0 <= k < 4
        ensures IsOctet(parts[k])
      {
        if k == 0 {
        } else if k == 1 {
        } else if k == 2 {
        } else {
          assert k == 3;
        }
      }
    } else {
      assert !IsOctet(parts[3]);
    }
  }

  /** The IP the wizard accepts for the i-th access point: the stripped
      answer, or the default for an empty answer; None asks again. */
  function ChosenIp(i: nat, answer: string): Option<string>
  {
    var ip := Strip(answer);
    var ip := if ip == [] then DefaultIp(i) else ip;
    if IsValidIp(ip) then Some(ip) else None
  }

  /** The wizard keeps only valid IPs, with no surrounding whitespace; an
      empty answer takes the default, which is kept exactly when valid. */
  lemma ChosenIpValid(i: nat, answer: string)
    ensures ChosenIp(i, answer).Some? ==> PrintableIp(ChosenIp(i, answer).value)
    ensures Strip(answer) == [] ==> (ChosenIp(i, answer).Some? <==> i <= 155)
  {
    if Strip(answer) == [] {
      var ip := DefaultIp(i);
      var last := NatToString(100 + i);
      DefaultIpValid(i);
      assert ip[|ip| - 1] == last[|last| - 1];
      assert IsDigit(last[|last| - 1]);
    } else {
      StripTrimmed(answer);
    }
  }

  /** `get_environment_info`: the stripped answer, "1" when empty, picks
      one of four environments; anything else is indoor. */
  function EnvironmentChoice(answer: string): (env: string)
    ensures env in {"indoor", "vault", "outdoor", "custom"}
    ensures env == "vault" <==> Strip(answer) == "2"
    ensures env == "outdoor" <==> Strip(answer) == "3"
    ensures env == "custom" <==> Strip(answer) == "4"
  {
    var choice := Strip(answer);
    var choice := if choice == [] then "1" else choice;
    if choice == "1" then "indoor"
    else if choice == "2" then "vault"
    else if choice == "3" then "outdoor"
    else if choice == "4" then "custom"
    else "indoor"
  }

  /** The height offered for an access point: 3.0 m in a vault, 4.0 m
      outdoors, 2.5 m anywhere else. */
  function DefaultHeight(env: string): (z: real)
    ensures env == "vault" ==> z == 3.0
    ensures env == "outdoor" ==> z == 4.0
    ensures env != "vault" && env != "outdoor" ==> z == 2.5
  {
    if env == "vault" then 3.0 else if env == "outdoor" then 4.0 else 2.5
  }

  /** One answer to a coordinate prompt, already read by `float`. */
  datatype Answer = Blank | Value(v: real) | Garbage

  function Position(x: real, y: real, z: real): seq<real>
  {
    [x, y, z]
  }

  /** The position recorded for the i-th access point: blank answers take
      the offered defaults (20 i, 0 and the environment's height); any
      answer `float` rejects gives (20 i, 0, 2.5) whatever the environment. */
  function PositionFor(i: nat, env: string, x: Answer, y: Answer, z: Answer): (p: seq<real>)
    ensures |p| == 3
    ensures x.Garbage? || y.Garbage? || z.Garbage? ==> p == [20.0 * i as real, 0.0, 2.5]
    ensures !(x.Garbage? || y.Garbage? || z.Garbage?) ==>
              p[0] == (if x.Value? then x.v else 20.0 * i as real) &&
              p[1] == (if y.Value? then y.v else 0.0) &&
              p[2] == (if z.Value? then z.v else DefaultHeight(env))
  {
    if x.Garbage? || y.Garbage? || z.Garbage? then Position(20.0 * i as real, 0.0, 2.5)
    else
      Position(if x.Value? then x.v else 20.0 * i as real,
               if y.Value? then y.v else 0.0,
               if z.Value? then z.v else DefaultHeight(env))
  }

  /** The height offered for the environment menu answer: 3.0 m for "2"
      (vault), 4.0 m for "3" (outdoor), 2.5 m for any other answer. */
  lemma ChosenHeight(answer: string)
    ensures DefaultHeight(EnvironmentChoice(answer)) ==
            (if Strip(answer) == "2" then 3.0 else if Strip(answer) == "3" then 4.0 else 2.5)
  {
  }

  /** Indoors (and for a custom environment), an access point whose three
      prompts are left blank is placed where the exporter's demo layout
      would place the same host list: (20 i, 0, 2.5). */
  lemma BlankAnswersMatchDemoLayout(hosts: seq<string>, i: int, env: string)
    requires 0 <= i < |hosts|
    requires forall j :: i < j < |hosts| ==> hosts[j] != hosts[i]
    requires env != "vault" && env != "outdoor"
    ensures AnchorFrom(hosts[i], PositionFor(i, env, Blank, Blank, Blank)) == DemoLayout(hosts)[hosts[i]]
  {
    DemoLayoutPosition(hosts, i);
  }

  /** A blank height prompt reaches the exporter's anchor as the
      environment's default height, not the exporter's own 2.5 m. */
  lemma BlankHeightReachesAnchor(ip: string, i: nat, env: string, x: Answer, y: Answer)
    requires !x.Garbage? && !y.Garbage?
    ensures AnchorFrom(ip, PositionFor(i, env, x, y, Blank)).z == DefaultHeight(env)
    ensures env == "vault" ==> AnchorFrom(ip, PositionFor(i, env, x, y, Blank)).z == 3.0
    ensures env == "outdoor" ==> AnchorFrom(ip, PositionFor(i, env, x, y, Blank)).z == 4.0
  {
  }

  /** An answer `float` rejects discards the other two answers and the
      environment: the position is the indoor default for that index. */
  lemma GarbageIgnoresEnvironment(i: nat, env: string, x: Answer, y: Answer, z: Answer)
    requires x.Garbage? || y.Garbage? || z.Garbage?
    ensures PositionFor(i, env, x, y, z) == PositionFor(i, "indoor", Blank, Blank, Blank)
  {
  }

  /*************************************************************************
   * Configuration strings
   *************************************************************************/

  /** `",".join(aps.keys())`. */
  function HostsString(order: seq<string>): string
  {
    Join(order, ',')
  }

  /** One entry "ip:x,y,z", with Python's number formatting given as
      `format`. */
  function Entry(format: real -> string, ip: string, p: seq<real>): string
    requires |p| == 3
  {
    ip + [':'] + Join([format(p[0]), format(p[1]), format(p[2])], ',')
  }

  /** The entries of the coordinates string, in insertion order. */
  function Entries(format: real -> string, order: seq<string>, aps: map<string, seq<real>>): (r: seq<string>)
    requires forall ip :: ip in aps ==> |aps[ip]| == 3
    requires forall i :: 0 <= i < |order| ==> order[i] in aps
    ensures |r| == |order|
  {
    if order == [] then []
    else Entries(format, order[..|order| - 1], aps) + [Entry(format, order[|order| - 1], aps[order[|order| - 1]])]
  }

  /** `";".join(f"{ip}:{x},{y},{z}" for ...)`. */
  function CoordinatesString(format: real -> string, order: seq<string>, aps: map<string, seq<real>>): string
    requires forall ip :: ip in aps ==> |aps[ip]| == 3
    requires forall i :: 0 <= i < |order| ==> order[i] in aps
  {
    Join(Entries(format, order, aps), ';')
  }

  /** What number formatting must do for the round trip: `float` reads the
      printed text back, and the text holds no list separator. */
  ghost predicate FormatRoundTrips(format: real -> string, parse: string -> Option<real>)
  {
    forall v :: Number(parse, format(v)) == Some(v) && ',' !in format(v) && ';' !in format(v)
  }

  lemma Printed(format: real -> string, parse: string -> Option<real>, v: real)
    requires FormatRoundTrips(format, parse)
    ensures Number(parse, format(v)) == Some(v) && ',' !in format(v) && ';' !in format(v)
  {
  }

  /** An IP the wizard accepts: valid, with no surrounding whitespace. */
  predicate PrintableIp(ip: string)
  {
    IsValidIp(ip) && Trimmed(ip)
  }

  /** Every IP of the order was accepted by the wizard. */
  predicate AllAccepted(order: seq<string>)
  {
    order == [] || (AllAccepted(order[..|order| - 1]) && PrintableIp(order[|order| - 1]))
  }

  lemma {:induction false} AllAcceptedAt(order: seq<string>, i: int)
    requires AllAccepted(order) && 0 <= i < |order|
    ensures PrintableIp(order[i])
  {
    if i < |order| - 1 {
      AllAcceptedAt(order[..|order| - 1], i);
    }
  }

  /** The IPs and positions a wizard session may hold: the order lists
      every IP that has a position, and only those, and each of them was
      accepted. */
  predicate WellFormedAps(order: seq<string>, aps: map<string, seq<real>>)
  {
    && (forall i :: 0 <= i < |order| ==> order[i] in aps)
    && (forall ip :: ip in aps ==> ip in order && |aps[ip]| == 3)
    && AllAccepted(order)
  }

  /** A new position for an IP already recorded keeps the session well
      formed, the order unchanged. */
  lemma RecordKnownIp(order: seq<string>, aps: map<string, seq<real>>, ip: string, p: seq<real>)
    requires WellFormedAps(order, aps) && ip in aps && |p| == 3
    ensures WellFormedAps(order, aps[ip := p])
  {
  }

  /** A new IP, accepted by the wizard, joins the end of the order; the
      session stays well formed and the order free of repeats. */
  lemma RecordNewIp(order: seq<string>, aps: map<string, seq<real>>, ip: string, p: seq<real>)
    requires WellFormedAps(order, aps) && ip !in aps && PrintableIp(ip) && |p| == 3
    requires forall i, j :: 0 <= i < j < |order| ==> order[i] != order[j]
    ensures WellFormedAps(order + [ip], aps[ip := p])
    ensures forall i, j :: 0 <= i < j < |order + [ip]| ==> (order + [ip])[i] != (order + [ip])[j]
  {
    var order' := order + [ip];
    var aps' := aps[ip := p];
    assert forall i :: 0 <= i < |order'| ==> order'[i] in aps' by {
      forall i | 0 <= i < |order'|
        ensures order'[i] in aps'
      {
        if i < |order| {
          assert order'[i] == order[i];
        }
      }
    }
    assert forall k :: k in aps' ==> k in order' && |aps'[k]| == 3 by {
      forall k | k in aps'
        ensures k in order' && |aps'[k]| == 3
      {
        if k != ip {
          assert k in aps;
        } else {
          assert order'[|order|] == ip;
        }
      }
    }
    AcceptedSnoc(order, ip);
    AppendKeepsDistinct(order, ip);
  }

  lemma AcceptedSnoc(order: seq<string>, ip: string)
    requires AllAccepted(order) && PrintableIp(ip)
    ensures AllAccepted(order + [ip])
  {
    assert (order + [ip])[..|order|] == order;
  }

  /** Appending an element the sequence lacks keeps it free of repeats. */
  lemma AppendKeepsDistinct(s: seq<string>, x: string)
    requires x !in s && forall i, j :: 0 <= i < j < |s| ==> s[i] != s[j]
    ensures forall i, j :: 0 <= i < j < |s + [x]| ==> (s + [x])[i] != (s + [x])[j]
  {
  }

  /** The three printed coordinates, joined by ',', read back as the
      position and hold no ';'. */
  lemma NumbersParse(format: real -> string, parse: string -> Option<real>, p: seq<real>)
    requires FormatRoundTrips(format, parse) && |p| == 3
    ensures ';' !in Join([format(p[0]), format(p[1]), format(p[2])], ',')
    ensures ParseNumbers(parse, Split(Join([format(p[0]), format(p[1]), format(p[2])], ','), ',')) == Some(p)
  {
    var numbers := [format(p[0]), format(p[1]), format(p[2])];
    var text := Join(numbers, ',');
    Printed(format, parse, p[0]);
    Printed(format, parse, p[1]);
    Printed(format, parse, p[2]);
    forall k | 0 <= k < 3
      ensures ',' !in numbers[k] && ';' !in numbers[k]
    {
      if k == 0 {
      } else if k == 1 {
      } else {
        assert numbers[k] == format(p[2]);
      }
    }
    SplitJoin(numbers, ',');
    ParseNumbersSpec(parse, numbers);
    assert ParseNumbers(parse, numbers).value == p;
    assert ';' !in text by {
      if ';' in text {
        JoinChars(numbers, ',', ';');
      }
    }
  }

  /** An entry `ip:text` reads as `ip` and the ','-separated parts of
      `text`. */
  lemma EntryShape(ip: string, text: string)
    requires ':' !in ip && ';' !in ip && ';' !in text && Trimmed(ip)
    ensures ':' in ip + [':'] + text && ';' !in ip + [':'] + text
    ensures EntryIp(ip + [':'] + text) == ip
    ensures EntryParts(ip + [':'] + text) == Split(text, ',')
  {
    StripUnchanged(ip);
    SplitOnceAround(ip, text, ':');
  }

  /** One entry, read back by the exporter, yields its IP and position. */
  lemma EntryParses(format: real -> string, parse: string -> Option<real>, ip: string, p: seq<real>)
    requires FormatRoundTrips(format, parse) && |p| == 3
    requires PrintableIp(ip)
    ensures ReadsAs(parse, Entry(format, ip, p), ip, p)
  {
    ValidIpSeparators(ip);
    NumbersParse(format, parse, p);
    EntryShape(ip, Join([format(p[0]), format(p[1]), format(p[2])], ','));
  }

  /** What the exporter reads from one entry: the IP and its numbers. */
  predicate ReadsAs(parse: string -> Option<real>, entry: string, ip: string, ns: seq<real>)
  {
    ':' in entry && ';' !in entry && EntryIp(entry) == ip && ParseNumbers(parse, EntryParts(entry)) == Some(ns)
  }

  /** Every entry of the coordinates string reads as its IP and position. */
  lemma EntriesRead(format: real -> string, parse: string -> Option<real>,
                    order: seq<string>, aps: map<string, seq<real>>)
    requires FormatRoundTrips(format, parse)
    requires WellFormedAps(order, aps)
    ensures forall i :: 0 <= i < |order| ==>
              ReadsAs(parse, Entries(format, order, aps)[i], order[i], aps[order[i]])
    ensures forall i :: 0 <= i < |order| ==> ';' !in Entries(format, order, aps)[i]
  {
    forall i | 0 <= i < |order|
      ensures ReadsAs(parse, Entries(format, order, aps)[i], order[i], aps[order[i]])
    {
      EntriesAt(format, order, aps, i);
      AllAcceptedAt(order, i);
      EntryParses(format, parse, order[i], aps[order[i]]);
    }
  }

  /** Entries that read as the IPs of `order`, in order, give the
      positions of those IPs. */
  lemma {:induction false} EntriesReadBack(parse: string -> Option<real>, entries: seq<string>,
                                           order: seq<string>, aps: map<string, seq<real>>)
    requires |entries| == |order|
    requires forall i :: 0 <= i < |order| ==>
               order[i] in aps && |aps[order[i]]| >= 2 && ReadsAs(parse, entries[i], order[i], aps[order[i]])
    ensures CoordinateEntries(parse, entries) == Some(map k | k in aps && k in order :: aps[k])
  {
    if order != [] {
      var n := |order| - 1;
      EntriesReadBack(parse, entries[..n], order[..n], aps);
      var before := map k | k in aps && k in order[..n] :: aps[k];
      CoordinateEntriesSnoc(parse, entries[..n], entries[n], before, aps[order[n]]);
      LastSplit(entries);
      PositionsStep(order, aps);
    }
  }

  /** A non-empty sequence is its front followed by its last element. */
  lemma LastSplit<T>(s: seq<T>)
    requires s != []
    ensures s[..|s| - 1] + [s[|s| - 1]] == s
  {
  }

  /** Reading one more entry with ':' whose numbers parse. */
  lemma CoordinateEntriesSnoc(parse: string -> Option<real>, entries: seq<string>, entry: string,
                              m: map<string, seq<real>>, ns: seq<real>)
    requires CoordinateEntries(parse, entries) == Some(m)
    requires ':' in entry && ParseNumbers(parse, EntryParts(entry)) == Some(ns) && |ns| >= 2
    ensures CoordinateEntries(parse, entries + [entry]) == Some(m[EntryIp(entry) := ns])
  {
    assert (entries + [entry])[..|entries|] == entries;
  }

  /** The positions of the IPs of a prefix, one IP longer. */
  lemma PositionsStep(order: seq<string>, aps: map<string, seq<real>>)
    requires order != [] && order[|order| - 1] in aps
    ensures var ip := order[|order| - 1];
            (map k | k in aps && k in order :: aps[k]) ==
            (map k | k in aps && k in order[..|order| - 1] :: aps[k])[ip := aps[ip]]
  {
    var n := |order| - 1;
    assert forall k :: k in order <==> k in order[..n] || k == order[n];
  }

  /** Round trip: the exporter reads the printed coordinates string back
      into the wizard's positions, for numbers that print and parse back. */
  lemma CoordinatesRoundTrip(format: real -> string, parse: string -> Option<real>,
                             order: seq<string>, aps: map<string, seq<real>>)
    requires FormatRoundTrips(format, parse)
    requires WellFormedAps(order, aps)
    ensures CoordinateMap(parse, CoordinatesString(format, order, aps)) == aps
  {
    var entries := Entries(format, order, aps);
    EntriesRead(format, parse, order, aps);
    EntriesReadBack(parse, entries, order, aps);
    AllPositions(order, aps);
    if order == [] {
      NoEntries(parse, order, aps);
    } else {
      JoinedEntries(parse, entries, aps);
    }
  }

  /** Entries without ';' that read as `aps`, joined by ';', read as `aps`. */
  lemma JoinedEntries(parse: string -> Option<real>, entries: seq<string>, aps: map<string, seq<real>>)
    requires |entries| >= 1 && forall i :: 0 <= i < |entries| ==> ';' !in entries[i]
    requires CoordinateEntries(parse, entries) == Some(aps)
    ensures CoordinateMap(parse, Join(entries, ';')) == aps
  {
    SplitJoin(entries, ';');
  }

  /** A session without access points prints an empty string, which reads
      as no coordinates. */
  lemma NoEntries(parse: string -> Option<real>, order: seq<string>, aps: map<string, seq<real>>)
    requires order == [] && forall k :: k in aps ==> k in order
    ensures CoordinateMap(parse, Join([], ';')) == aps
  {
    var pieces: seq<string> := [[]];
    assert Split([], ';') == pieces;
    assert pieces[..0] == [];
    assert aps == map[];
  }

  /** Every IP of a well-formed session is in the order. */
  lemma AllPositions(order: seq<string>, aps: map<string, seq<real>>)
    requires WellFormedAps(order, aps)
    ensures (map k | k in aps && k in order :: aps[k]) == aps
  {
  }

  /** The i-th entry belongs to the i-th IP. */
  lemma {:induction false} EntriesAt(format: real -> string, order: seq<string>, aps: map<string, seq<real>>, i: int)
    requires forall ip :: ip in aps ==> |aps[ip]| == 3
    requires forall k :: 0 <= k < |order| ==> order[k] in aps
    requires 0 <= i < |order|
    ensures Entries(format, order, aps)[i] == Entry(format, order[i], aps[order[i]])
  {
    var n := |order| - 1;
    if i < n {
      EntriesAt(format, order[..n], aps, i);
    }
  }

  /** Round trip: the exporter reads the printed hosts string back into
      the wizard's IPs, in insertion order. */
  lemma HostsStringRoundTrip(order: seq<string>, aps: map<string, seq<real>>)
    requires WellFormedAps(order, aps) && |order| >= 1
    ensures ParseHosts(HostsString(order)) == order
  {
    forall i | 0 <= i < |order|
      ensures ',' !in order[i] && Strip(order[i]) == order[i]
    {
      AllAcceptedAt(order, i);
      ValidIpSeparators(order[i]);
      StripUnchanged(order[i]);
    }
    HostsRoundTrip(order);
  }

  /*************************************************************************
   * The wizard
   *************************************************************************/

  class APCoordinateSetup {
    /** `aps`: IP to (x, y, z). */
    var aps: map<string, seq<real>>
    /** The insertion order of the keys of `aps`. */
    var order: seq<string>
    var environmentType: string

    ghost predicate Valid()
      reads this
    {
      && WellFormedAps(order, aps)
      && (forall i, j :: 0 <= i < j < |order| ==> order[i] != order[j])
    }

    /** `__init__`: no access points, an indoor site. */
    constructor()
      ensures Valid()
      ensures aps == map[] && order == [] && environmentType == "indoor"
    {
      aps := map[];
      order := [];
      environmentType := "indoor";
    }

    /** `get_environment_info`, given the answer to its prompt. */
    method SelectEnvironment(answer: string)
      requires Valid()
      modifies this
      ensures Valid()
      ensures environmentType == EnvironmentChoice(answer)
      ensures aps == old(aps) && order == old(order)
    {
      environmentType := EnvironmentChoice(answer);
    }

    /** One round of the loop of `get_ap_information`, given the accepted
        IP and the answers to the coordinate prompts: the IP's position is
        set, a new IP goes to the end of the order, and an IP entered again
        keeps its place and takes the new position. */
    method RecordAp(i: nat, ip: string, x: Answer, y: Answer, z: Answer)
      requires Valid() && PrintableIp(ip)
      modifies this
      ensures Valid()
      ensures aps == old(aps)[ip := PositionFor(i, environmentType, x, y, z)]
      ensures order == if ip in old(aps) then old(order) else old(order) + [ip]
      ensures environmentType == old(environmentType)
    {
      var position := PositionFor(i, environmentType, x, y, z);
      var newOrder := order;
      if ip in aps {
        RecordKnownIp(order, aps, ip, position);
      } else {
        RecordNewIp(order, aps, ip, position);
        newOrder := order + [ip];
      }
      order, aps := newOrder, aps[ip := position];
    }

    /** The two strings `generate_configurations` prints, which the exporter
        reads back as `RUCKUS_AP_HOSTS` and `AP_COORDINATES`. */
    method GenerateConfigurations(format: real -> string, parse: string -> Option<real>)
      returns (hostsString: string, coordinatesString: string)
      requires Valid() && FormatRoundTrips(format, parse)
      ensures hostsString == HostsString(order)
      ensures coordinatesString == CoordinatesString(format, order, aps)
      ensures CoordinateMap(parse, coordinatesString) == aps
      ensures order != [] ==> ParseHosts(hostsString) == order
    {
      hostsString := HostsString(order);
      coordinatesString := CoordinatesString(format, order, aps);
      CoordinatesRoundTrip(format, parse, order, aps);
      if order != [] {
        HostsStringRoundTrip(order, aps);
      }
    }
  }
}
