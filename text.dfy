/** The few Python string operations the configuration parsers rely on:
    `str.split(sep)`, `str.split(sep, 1)`, `str.strip()` and `sep.join(...)`. */
module Text {

  /** The ASCII characters `str.isspace()` accepts (tab, line feed, vertical
      tab, form feed, carriage return, the four separators 0x1C-0x1F, space). */
  predicate IsSpace(c: char)
  {
    c == ' ' || '\t' <= c <= '\r' || '\U{1C}' <= c <= '\U{1F}'
  }

  /** `str.split(sep)` with an explicit separator: never empty, empty pieces kept. */
  function Split(s: string, sep: char): (r: seq<string>)
    ensures |r| >= 1
  {
    if s == [] then [[]]
    else
      var rest := Split(s[1..], sep);
      if s[0] == sep then [[]] + rest
      else [[s[0]] + rest[0]] + rest[1..]
  }

  /** No piece of a split holds the separator. */
  lemma {:induction false} SplitPieces(s: string, sep: char)
    ensures forall i :: 0 <= i < |Split(s, sep)| ==> sep !in Split(s, sep)[i]
  {
    if s != [] {
      SplitPieces(s[1..], sep);
    }
  }

  /** `sep.join(xs)`. */
  function Join(xs: seq<string>, sep: char): string
  {
    if xs == [] then []
    else if |xs| == 1 then xs[0]
    else xs[0] + [sep] + Join(xs[1..], sep)
  }

  /** Position of the first occurrence of `c`. */
  function FirstIndex(s: string, c: char): (i: nat)
    requires c in s
    ensures i < |s| && s[i] == c && c !in s[..i]
  {
    if s[0] == c then 0 else FirstIndex(s[1..], c) + 1
  }

  /** `s.split(sep, 1)` on a string that contains `sep`. */
  function SplitOnce(s: string, sep: char): (string, string)
    requires sep in s
  {
    var i := FirstIndex(s, sep);
    (s[..i], s[i + 1..])
  }

  /** The cut is at the first separator: the head holds none, and head,
      separator and tail make up the string. */
  lemma SplitOnceParts(s: string, sep: char)
    requires sep in s
    ensures sep !in SplitOnce(s, sep).0
    ensures s == SplitOnce(s, sep).0 + [sep] + SplitOnce(s, sep).1
  {
    var i := FirstIndex(s, sep);
    assert s == s[..i] + [sep] + s[i + 1..];
  }

  /** `str.lstrip()`: drops the leading whitespace. */
  function TrimStart(s: string): string
  {
    if s != [] && IsSpace(s[0]) then TrimStart(s[1..]) else s
  }

  /** TrimStart keeps a suffix that does not start with whitespace, and
      drops whitespace only. */
  lemma {:induction false} TrimStartDropsSpace(s: string)
    ensures |TrimStart(s)| <= |s| && TrimStart(s) == s[|s| - |TrimStart(s)|..]
    ensures TrimStart(s) != [] ==> !IsSpace(TrimStart(s)[0])
    ensures forall i :: 0 <= i < |s| - |TrimStart(s)| ==> IsSpace(s[i])
  {
    if s != [] && IsSpace(s[0]) {
      TrimStartDropsSpace(s[1..]);
      var r := TrimStart(s);
      assert s[1..][|s| - 1 - |r|..] == s[|s| - |r|..];
    }
  }

  /** `str.rstrip()`: drops the trailing whitespace. */
  function TrimEnd(s: string): string
  {
    if s != [] && IsSpace(s[|s| - 1]) then TrimEnd(s[..|s| - 1]) else s
  }

  /** TrimEnd keeps a prefix that does not end with whitespace, and drops
      whitespace only. */
  lemma {:induction false} TrimEndDropsSpace(s: string)
    ensures |TrimEnd(s)| <= |s| && TrimEnd(s) == s[..|TrimEnd(s)|]
    ensures TrimEnd(s) != [] ==> !IsSpace(TrimEnd(s)[|TrimEnd(s)| - 1])
    ensures forall i :: |TrimEnd(s)| <= i < |s| ==> IsSpace(s[i])
  {
    if s != [] && IsSpace(s[|s| - 1]) {
      TrimEndDropsSpace(s[..|s| - 1]);
      var r := TrimEnd(s);
      assert s[..|s| - 1][..|r|] == s[..|r|];
    }
  }

  /** No whitespace at either end. */
  predicate Trimmed(s: string)
  {
    s == [] || (!IsSpace(s[0]) && !IsSpace(s[|s| - 1]))
  }

  /** `str.strip()`: the longest slice with no surrounding whitespace. */
  function Strip(s: string): string
  {
    TrimEnd(TrimStart(s))
  }

  /** Strip leaves no whitespace at either end. */
  lemma StripTrimmed(s: string)
    ensures Trimmed(Strip(s))
  {
    var t := TrimStart(s);
    TrimStartDropsSpace(s);
    TrimEndDropsSpace(t);
    var r := TrimEnd(t);
    assert r != [] ==> r[0] == t[0];
  }

  /** Strip adds no character. */
  lemma StripChars(s: string)
    ensures forall c :: c in Strip(s) ==> c in s
  {
    var t := TrimStart(s);
    TrimStartDropsSpace(s);
    TrimEndDropsSpace(t);
    assert forall c :: c in Strip(s) ==> c in t;
  }

  /** A string whose ends are not whitespace is left alone by Strip. */
  lemma StripUnchanged(s: string)
    requires Trimmed(s)
    ensures Strip(s) == s
  {
  }

  /** Strip leaves a string alone exactly when its ends are not whitespace. */
  lemma StripFixedIff(s: string)
    ensures Strip(s) == s <==> Trimmed(s)
  {
    if Trimmed(s) {
      StripUnchanged(s);
    } else {
      StripTrimmed(s);
    }
  }

  lemma StripIdempotent(s: string)
    ensures Strip(Strip(s)) == Strip(s)
  {
    StripTrimmed(s);
    StripUnchanged(Strip(s));
  }

  /** Strip removes whitespace only: every other character stays. */
  lemma StripKeeps(s: string, c: char)
    requires c in s && !IsSpace(c)
    ensures c in Strip(s)
  {
    var t := TrimStart(s);
    TrimStartDropsSpace(s);
    TrimEndDropsSpace(t);
    var i :| 0 <= i < |s| && s[i] == c;
    var d := |s| - |t|;
    assert d <= i;
    assert t[i - d] == c;
    var r := TrimEnd(t);
    assert i - d < |r|;
    assert r[i - d] == c;
  }

  /** Joining the pieces of a split gives the original string back. */
  lemma {:induction false} JoinSplit(s: string, sep: char)
    ensures Join(Split(s, sep), sep) == s
  {
    if s != [] {
      var rest := Split(s[1..], sep);
      JoinSplit(s[1..], sep);
      if s[0] == sep {
        assert Split(s, sep) == [[]] + rest;
      } else {
        var r := Split(s, sep);
        assert r == [[s[0]] + rest[0]] + rest[1..];
        if |rest| == 1 {
          assert Join(r, sep) == [s[0]] + rest[0];
        } else {
          assert r[1..] == rest[1..];
          assert Join(r, sep) == [s[0]] + rest[0] + [sep] + Join(rest[1..], sep);
        }
      }
    }
  }

  lemma {:induction false} SplitWithout(s: string, sep: char)
    requires sep !in s
    ensures Split(s, sep) == [s]
  {
    if s != [] {
      SplitWithout(s[1..], sep);
      assert [s[0]] + s[1..] == s;
    }
  }

  lemma {:induction false} SplitAround(a: string, b: string, sep: char)
    requires sep !in a
    ensures Split(a + [sep] + b, sep) == [a] + Split(b, sep)
  {
    if a == [] {
      assert a + [sep] + b == [sep] + b;
    } else {
      var s := a + [sep] + b;
      SplitAround(a[1..], b, sep);
      assert s[1..] == a[1..] + [sep] + b;
      assert s[0] == a[0] && a[0] != sep;
      var rest := Split(s[1..], sep);
      assert Split(s, sep) == [[a[0]] + rest[0]] + rest[1..];
      assert [a[0]] + a[1..] == a;
    }
  }

  /** Splitting a join gives the pieces back, when none holds the separator. */
  lemma {:induction false} SplitJoin(xs: seq<string>, sep: char)
    requires |xs| >= 1
    requires forall i :: 0 <= i < |xs| ==> sep !in xs[i]
    ensures Split(Join(xs, sep), sep) == xs
  {
    if |xs| == 1 {
      SplitWithout(xs[0], sep);
    } else {
      SplitJoin(xs[1..], sep);
      SplitAround(xs[0], Join(xs[1..], sep), sep);
      assert [xs[0]] + xs[1..] == xs;
    }
  }

  /** `split(sep, 1)` cuts at the separator that follows a separator-free prefix. */
  lemma SplitOnceAround(a: string, b: string, sep: char)
    requires sep !in a
    ensures sep in a + [sep] + b
    ensures SplitOnce(a + [sep] + b, sep) == (a, b)
  {
    var s := a + [sep] + b;
    assert s[|a|] == sep;
    var i := FirstIndex(s, sep);
    if i != |a| {
      assert false;
    }
    assert a == s[..|a|] && b == s[|a| + 1..];
  }

  /** Every character of a join comes from a piece or is the separator. */
  lemma {:induction false} JoinChars(xs: seq<string>, sep: char, c: char)
    requires c in Join(xs, sep)
    ensures c == sep || exists i :: 0 <= i < |xs| && c in xs[i]
  {
    if |xs| > 1 {
      var rest := Join(xs[1..], sep);
      if c in xs[0] {
      } else if c != sep {
        assert c in rest;
        JoinChars(xs[1..], sep, c);
        var i :| 0 <= i < |xs[1..]| && c in xs[1..][i];
        assert c in xs[i + 1];
      }
    }
  }
}
