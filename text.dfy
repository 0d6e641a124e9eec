// String operations of the JavaScript runtime that the economy's record
// rules are built from: ASCII case mapping, trim, split on a separator,
// join, substring search. Strings are sequences of characters.
module Text {

  /** The characters `String.prototype.trim` strips (the ASCII subset). */
  predicate IsSpace(c: char)
  {
    c == ' ' || c == '\t' || c == '\n' || c == '\r' || c == '\U{000B}' || c == '\U{000C}'
  }

  function LowerChar(c: char): char
  {
    if 'A' <= c <= 'Z' then (c as int + 32) as char else c
  }

  function UpperChar(c: char): char
  {
    if 'a' <= c <= 'z' then (c as int - 32) as char else c
  }

  /** `toLowerCase()` */
  function Lower(s: string): (r: string)
    ensures |r| == |s|
    ensures forall i | 0 <= i < |s| :: r[i] == LowerChar(s[i])
  {
    seq(|s|, i requires 0 <= i < |s| => LowerChar(s[i]))
  }

  /** `toUpperCase()` */
  function Upper(s: string): (r: string)
    ensures |r| == |s|
    ensures forall i | 0 <= i < |s| :: r[i] == UpperChar(s[i])
  {
    seq(|s|, i requires 0 <= i < |s| => UpperChar(s[i]))
  }

  /** `w.charAt(0).toUpperCase() + w.slice(1).toLowerCase()` */
  function CapitalizeWord(w: string): (r: string)
  {
    if |w| == 0 then "" else [UpperChar(w[0])] + Lower(w[1..])
  }

  /** `w.charAt(0).toUpperCase() + w.slice(1)` */
  function CapitalizeFirst(w: string): (r: string)
  {
    if |w| == 0 then "" else [UpperChar(w[0])] + w[1..]
  }

  /** A number in a template literal: its decimal digits. */
  function NatToString(n: nat): (r: string)
    ensures |r| > 0
    ensures forall k | 0 <= k < |r| :: '0' <= r[k] <= '9'
  {
    if n < 10 then [('0' as int + n) as char]
    else NatToString(n / 10) + [('0' as int + n % 10) as char]
  }

  /** The number a string of decimal digits denotes. */
  function DigitsValue(s: string): int
  {
    if |s| == 0 then 0 else DigitsValue(s[..|s| - 1]) * 10 + (s[|s| - 1] as int - '0' as int)
  }

  /** `NatToString(n)` is the decimal numeral of `n`, with no leading zero. */
  lemma {:induction false} NatToStringValue(n: nat)
    ensures DigitsValue(NatToString(n)) == n
    ensures n > 0 ==> NatToString(n)[0] != '0'
  {
    if n >= 10 {
      NatToStringValue(n / 10);
      var s := NatToString(n);
      assert s[..|s| - 1] == NatToString(n / 10);
    }
  }

  lemma LowerIdempotent(s: string)
    ensures Lower(Lower(s)) == Lower(s)
  {
  }

  lemma LowerAppend(a: string, b: string)
    ensures Lower(a + b) == Lower(a) + Lower(b)
  {
  }

  // ---------------------------------------------------------------- trim

  function TrimStart(s: string): string
  {
    if |s| > 0 && IsSpace(s[0]) then TrimStart(s[1..]) else s
  }

  function TrimEnd(s: string): string
  {
    if |s| > 0 && IsSpace(s[|s| - 1]) then TrimEnd(s[..|s| - 1]) else s
  }

  /** Neither end of `s` is whitespace. */
  predicate IsTrimmed(s: string)
  {
    |s| == 0 || (!IsSpace(s[0]) && !IsSpace(s[|s| - 1]))
  }

  lemma {:induction false} TrimStartFacts(s: string)
    ensures |TrimStart(s)| == 0 || !IsSpace(TrimStart(s)[0])
    ensures forall k | 0 <= k < |TrimStart(s)| :: TrimStart(s)[k] in s
    ensures |TrimStart(s)| > 0 ==> TrimStart(s)[|TrimStart(s)| - 1] == s[|s| - 1]
  {
    if |s| > 0 && IsSpace(s[0]) {
      TrimStartFacts(s[1..]);
      assert forall c | c in s[1..] :: c in s;
    }
  }

  lemma {:induction false} TrimEndFacts(s: string)
    ensures |TrimEnd(s)| == 0 || !IsSpace(TrimEnd(s)[|TrimEnd(s)| - 1])
    ensures forall k | 0 <= k < |TrimEnd(s)| :: TrimEnd(s)[k] in s
    ensures |TrimEnd(s)| > 0 ==> TrimEnd(s)[0] == s[0]
  {
    if |s| > 0 && IsSpace(s[|s| - 1]) {
      TrimEndFacts(s[..|s| - 1]);
      assert forall c | c in s[..|s| - 1] :: c in s;
    }
  }

  /** `trim()`: the result is trimmed and made only of characters of `s`. */
  function Trim(s: string): (r: string)
    ensures IsTrimmed(r)
    ensures forall k | 0 <= k < |r| :: r[k] in s
  {
    TrimStartFacts(s);
    TrimEndFacts(TrimStart(s));
    TrimEnd(TrimStart(s))
  }

  lemma TrimOfTrimmed(s: string)
    requires IsTrimmed(s)
    ensures Trim(s) == s
  {
  }

  /** Trimming a single leading space off a trimmed, non-empty string. */
  lemma TrimAfterSpace(s: string)
    requires IsTrimmed(s) && |s| > 0
    ensures Trim(" " + s) == s
  {
    assert (" " + s)[1..] == s;
    assert TrimStart(" " + s) == TrimStart(s) == s;
    assert TrimEnd(s) == s;
  }

  // -------------------------------------------------------- split / join

  predicate StartsWith(s: string, p: string)
  {
    |p| <= |s| && s[..|p|] == p
  }

  /** `s.includes(t)` */
  predicate Contains(s: string, t: string)
  {
    StartsWith(s, t) || (|s| > 0 && Contains(s[1..], t))
  }

  /** `t` sits in `s` at position `i`. */
  predicate OccursAt(s: string, t: string, i: int)
  {
    0 <= i && i + |t| <= |s| && s[i..i + |t|] == t
  }

  /** `includes` holds exactly when `t` occurs somewhere in `s`. */
  lemma {:induction false} ContainsOccurs(s: string, t: string)
    ensures Contains(s, t) <==> exists i :: OccursAt(s, t, i)
  {
    if |s| == 0 {
      if |t| == 0 {
        assert OccursAt(s, t, 0);
      }
    } else {
      ContainsOccurs(s[1..], t);
      if StartsWith(s, t) {
        assert OccursAt(s, t, 0);
      }
      if Contains(s[1..], t) {
        var i :| OccursAt(s[1..], t, i);
        assert s[i + 1..i + 1 + |t|] == s[1..][i..i + |t|];
        assert OccursAt(s, t, i + 1);
      }
      if exists i :: OccursAt(s, t, i) {
        var i :| OccursAt(s, t, i);
        if i > 0 {
          assert s[1..][i - 1..i - 1 + |t|] == s[i..i + |t|];
          assert OccursAt(s[1..], t, i - 1);
        }
      }
    }
  }

  lemma StartsWithAppend(a: string, b: string, p: string)
    requires |p| <= |a|
    ensures StartsWith(a + b, p) <==> StartsWith(a, p)
  {
    assert (a + b)[..|p|] == a[..|p|];
  }

  /**
   * `s.split(sep)` scanning left to right, with `cur` the segment read so
   * far: every occurrence of `sep` ends a segment, and the empty string
   * splits into one empty segment.
   */
  function SplitFrom(s: string, sep: string, cur: string): (r: seq<string>)
    requires |sep| > 0
    ensures |r| > 0
    decreases |s|
  {
    if |s| == 0 then [cur]
    else if StartsWith(s, sep) then [cur] + SplitFrom(s[|sep|..], sep, "")
    else SplitFrom(s[1..], sep, cur + [s[0]])
  }

  function Split(s: string, sep: string): (r: seq<string>)
    requires |sep| > 0
    ensures |r| > 0
  {
    SplitFrom(s, sep, "")
  }

  /** `xs.join(sep)` */
  function Join(xs: seq<string>, sep: string): string
  {
    if |xs| == 0 then ""
    else if |xs| == 1 then xs[0]
    else xs[0] + sep + Join(xs[1..], sep)
  }

  lemma {:induction false} JoinSplitFrom(s: string, sep: string, cur: string)
    requires |sep| > 0
    ensures Join(SplitFrom(s, sep, cur), sep) == cur + s
    decreases |s|
  {
    if |s| == 0 {
    } else if StartsWith(s, sep) {
      var rest := SplitFrom(s[|sep|..], sep, "");
      JoinSplitFrom(s[|sep|..], sep, "");
      assert ([cur] + rest)[1..] == rest;
      assert s == sep + s[|sep|..];
    } else {
      JoinSplitFrom(s[1..], sep, cur + [s[0]]);
      assert cur + [s[0]] + s[1..] == cur + s;
    }
  }

  /** Joining the segments of a split gives the string back. */
  lemma JoinSplit(s: string, sep: string)
    requires |sep| > 0
    ensures Join(Split(s, sep), sep) == s
  {
    JoinSplitFrom(s, sep, "");
  }

  lemma {:induction false} JoinAppend(xs: seq<string>, y: string, sep: string)
    requires |xs| > 0
    ensures Join(xs + [y], sep) == Join(xs, sep) + sep + y
  {
    if |xs| == 1 {
      assert xs + [y] == [xs[0], y];
      assert (xs + [y])[1..] == [y];
    } else {
      assert (xs + [y])[1..] == xs[1..] + [y];
      JoinAppend(xs[1..], y, sep);
    }
  }

  /** No occurrence of `sep` starts inside `x`. */
  ghost predicate NoMatch(x: string, sep: string)
  {
    forall j | 0 <= j < |x| :: !StartsWith(x[j..], sep)
  }

  lemma {:induction false} SplitOfNoMatch(x: string, sep: string, cur: string)
    requires |sep| > 0 && NoMatch(x, sep)
    ensures SplitFrom(x, sep, cur) == [cur + x]
    decreases |x|
  {
    if |x| == 0 {
      assert cur + x == cur;
    } else {
      assert x[0..] == x;
      assert !StartsWith(x, sep);
      forall j | 0 <= j < |x[1..]|
        ensures !StartsWith(x[1..][j..], sep)
      {
        assert x[1..][j..] == x[j + 1..];
      }
      SplitOfNoMatch(x[1..], sep, cur + [x[0]]);
      assert cur + [x[0]] + x[1..] == cur + x;
    }
  }

  /** No occurrence of `sep` in `cur + s` starts inside `cur`. */
  ghost predicate Fresh(cur: string, s: string, sep: string)
  {
    forall j | 0 <= j < |cur| :: !StartsWith((cur + s)[j..], sep)
  }

  lemma {:induction false} SegmentsFrom(s: string, sep: string, cur: string)
    requires |sep| > 0 && Fresh(cur, s, sep)
    ensures forall y | y in SplitFrom(s, sep, cur) :: NoMatch(y, sep)
    decreases |s|
  {
    if |s| == 0 {
      forall j | 0 <= j < |cur|
        ensures !StartsWith(cur[j..], sep)
      {
        assert (cur + s)[j..] == cur[j..];
      }
    } else if StartsWith(s, sep) {
      forall j | 0 <= j < |cur|
        ensures !StartsWith(cur[j..], sep)
      {
        assert (cur + s)[j..] == cur[j..] + s;
        if |sep| <= |cur[j..]| {
          StartsWithAppend(cur[j..], s, sep);
        }
      }
      SegmentsFrom(s[|sep|..], sep, "");
    } else {
      var cur' := cur + [s[0]];
      assert cur' + s[1..] == cur + s;
      forall j | 0 <= j < |cur'|
        ensures !StartsWith((cur' + s[1..])[j..], sep)
      {
        if j == |cur| {
          assert (cur + s)[j..] == s;
        }
      }
      SegmentsFrom(s[1..], sep, cur');
    }
  }

  /** No segment produced by `split(sep)` contains `sep`. */
  lemma SplitSegments(s: string, sep: string)
    requires |sep| > 0
    ensures forall y | y in Split(s, sep) :: NoMatch(y, sep)
  {
    SegmentsFrom(s, sep, "");
  }

  /**
   * For ", " and for any one-character separator, an occurrence of the
   * separator cannot straddle a join point, so splitting a joined string
   * splits its halves independently.
   */
  lemma {:induction false} SplitAppend(a: string, b: string, sep: string, cur: string)
    requires sep == ", " || |sep| == 1
    ensures SplitFrom(a + sep + b, sep, cur) == SplitFrom(a, sep, cur) + Split(b, sep)
    decreases |a|
  {
    var s := a + sep + b;
    if 0 < |a| < |sep| {
      assert s[1] == ',';
      assert !StartsWith(s, sep);
    }
    if |a| == 0 {
      assert s == sep + b;
      assert s[..|sep|] == sep;
      assert s[|sep|..] == b;
    } else if StartsWith(s, sep) {
      StartsWithAppend(a, sep + b, sep);
      assert s == a + (sep + b);
      assert s[|sep|..] == a[|sep|..] + sep + b;
      SplitAppend(a[|sep|..], b, sep, "");
    } else {
      if |sep| <= |a| {
        StartsWithAppend(a, sep + b, sep);
        assert s == a + (sep + b);
      }
      assert s[1..] == a[1..] + sep + b;
      SplitAppend(a[1..], b, sep, cur + [a[0]]);
    }
  }

  /** Splitting a join of separator-free parts gives the parts back. */
  lemma {:induction false} SplitJoin(xs: seq<string>, sep: string)
    requires sep == ", " || |sep| == 1
    requires |xs| > 0
    requires forall i | 0 <= i < |xs| :: NoMatch(xs[i], sep)
    ensures Split(Join(xs, sep), sep) == xs
  {
    SplitOfNoMatch(xs[0], sep, "");
    assert "" + xs[0] == xs[0];
    if |xs| > 1 {
      SplitAppend(xs[0], Join(xs[1..], sep), sep, "");
      SplitJoin(xs[1..], sep);
    }
  }

  lemma NoCommaNoMatch(x: string)
    requires ',' !in x
    ensures NoMatch(x, ",") && NoMatch(x, ", ")
  {
    forall j | 0 <= j < |x|
      ensures !StartsWith(x[j..], ",") && !StartsWith(x[j..], ", ")
    {
      assert x[j..][0] == x[j];
    }
  }

  lemma NoMatchComma(x: string)
    requires NoMatch(x, ",")
    ensures ',' !in x
  {
    forall j | 0 <= j < |x|
      ensures x[j] != ','
    {
      assert x[j..][..1] == [x[j]];
    }
  }
}
