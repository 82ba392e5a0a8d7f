/**
  The two Go standard-library parsers that the option loop of vault_resource.go
  calls: strconv.ParseBool (its fixed table of spellings) and time.ParseDuration
  (a simplified grammar: an optional sign, then one or more integer-and-unit
  segments, or the lone literal "0"). A duration is a count of nanoseconds that
  must fit Go's int64 time.Duration.
*/
module GoParse {
  import opened Wrappers

  // ---------------------------------------------------------------------------
  // strconv.ParseBool
  // ---------------------------------------------------------------------------

  const TrueSpellings: set<string> := {"1", "t", "T", "TRUE", "true", "True"}
  const FalseSpellings: set<string> := {"0", "f", "F", "FALSE", "false", "False"}

  /** strconv.ParseBool: a fixed table of accepted spellings; anything else is an error. */
  function ParseBool(s: string): (r: Option<bool>)
    ensures r == Some(true) <==> s in TrueSpellings
    ensures r == Some(false) <==> s in FalseSpellings
    ensures r.None? <==> s !in TrueSpellings + FalseSpellings
  {
    if s == "1" || s == "t" || s == "T" || s == "true" || s == "TRUE" || s == "True" then Some(true)
    else if s == "0" || s == "f" || s == "F" || s == "false" || s == "FALSE" || s == "False" then Some(false)
    else None
  }

  // ---------------------------------------------------------------------------
  // time.ParseDuration
  // ---------------------------------------------------------------------------

  /** The bounds of Go's time.Duration (an int64 count of nanoseconds). */
  const MaxDuration: int := 0x7fff_ffff_ffff_ffff
  const MinDuration: int := -0x8000_0000_0000_0000

  /**
    Nanoseconds per unit, as in Go's unitMap: ns, us, \U{00B5}s and \U{03BC}s
    (both micro signs), ms, s, m and h. Looked up character by character.
  */
  function UnitValue(u: string): (r: Option<nat>)
    ensures r.Some? ==> |u| > 0
  {
    if |u| == 1 then
      if u[0] == 's' then Some(1_000_000_000)
      else if u[0] == 'm' then Some(60_000_000_000)
      else if u[0] == 'h' then Some(3_600_000_000_000)
      else None
    else if |u| == 2 && u[1] == 's' then
      if u[0] == 'n' then Some(1)
      else if u[0] == 'u' || u[0] == '\U{00B5}' || u[0] == '\U{03BC}' then Some(1_000)
      else if u[0] == 'm' then Some(1_000_000)
      else None
    else None
  }

  predicate IsDigit(c: char) {
    '0' <= c <= '9'
  }

  /** A character that ends a unit name: the start of the next number. */
  predicate IsNumberChar(c: char) {
    IsDigit(c) || c == '.'
  }

  predicate AllDigits(s: string) {
    forall i :: 0 <= i < |s| ==> IsDigit(s[i])
  }

  /** Length of the longest prefix of s made of decimal digits. */
  function DigitRun(s: string): (n: nat)
    ensures n <= |s|
  {
    if s == [] || !IsDigit(s[0]) then 0 else 1 + DigitRun(s[1..])
  }

  /** DigitRun stops at the first character that is not a digit. */
  lemma {:induction false} DigitRunMaximal(s: string)
    ensures AllDigits(s[..DigitRun(s)])
    ensures DigitRun(s) < |s| ==> !IsDigit(s[DigitRun(s)])
  {
    if s != [] && IsDigit(s[0]) {
      DigitRunMaximal(s[1..]);
      assert s[..DigitRun(s)] == [s[0]] + s[1..][..DigitRun(s[1..])];
    }
  }

  /** Length of the longest prefix of s that can be a unit name (no digit, no '.'). */
  function UnitRun(s: string): (n: nat)
    ensures n <= |s|
  {
    if s == [] || IsNumberChar(s[0]) then 0 else 1 + UnitRun(s[1..])
  }

  /** UnitRun stops at the first character that can start a number. */
  lemma {:induction false} UnitRunMaximal(s: string)
    ensures forall i :: 0 <= i < UnitRun(s) ==> !IsNumberChar(s[i])
    ensures UnitRun(s) < |s| ==> IsNumberChar(s[UnitRun(s)])
  {
    if s != [] && !IsNumberChar(s[0]) {
      UnitRunMaximal(s[1..]);
    }
  }

  function DigitValue(c: char): nat
    requires IsDigit(c)
  {
    (c as int) - ('0' as int)
  }

  /** The number a string of decimal digits denotes. */
  function DecimalValue(s: string): nat
    requires AllDigits(s)
  {
    if s == [] then 0 else 10 * DecimalValue(s[..|s| - 1]) + DigitValue(s[|s| - 1])
  }

  /**
    The first integer-and-unit segment of s, as its value in nanoseconds and its
    length; None when s does not start with digits followed by a known unit.
  */
  function FirstSegment(s: string): (r: Option<(int, nat)>)
    ensures r.Some? ==> 0 < r.value.1 <= |s|
  {
    var n := DigitRun(s);
    if n == 0 then None
    else
      DigitRunMaximal(s);
      var rest := s[n..];
      var m := UnitRun(rest);
      if m == 0 then None
      else
        match UnitValue(rest[..m])
        case None => None
        case Some(unit) => Some((DecimalValue(s[..n]) * unit, n + m))
  }

  /**
    The total, in nanoseconds, of a sequence of segments such as "1h30m"; None
    when some segment is malformed. The empty string totals zero (it ends the
    recursion; ParseDuration rules it out at the top).
  */
  function SegmentsTotal(s: string): Option<int>
    decreases |s|
  {
    if s == [] then Some(0)
    else
      match FirstSegment(s)
      case None => None
      case Some((v, len)) =>
        match SegmentsTotal(s[len..])
        case None => None
        case Some(t) => Some(v + t)
  }

  /**
    time.ParseDuration: an optional sign, then "0" or a non-empty sequence of
    segments; the magnitude must fit an int64 (a negative one may reach 2^63).
  */
  function ParseDuration(s: string): (r: Option<int>)
    ensures r.Some? ==> MinDuration <= r.value <= MaxDuration
    ensures s == "" ==> r.None?
  {
    var signed := |s| > 0 && (s[0] == '-' || s[0] == '+');
    var negative := |s| > 0 && s[0] == '-';
    var body := if signed then s[1..] else s;
    if body == "0" then Some(0)
    else if body == "" then None
    else
      match SegmentsTotal(body)
      case None => None
      case Some(d) =>
        var v := if negative then -d else d;
        if MinDuration <= v <= MaxDuration then Some(v) else None
  }

  // ---------------------------------------------------------------------------
  // The inverse: writing durations out, and reading them back
  // ---------------------------------------------------------------------------

  /** One segment of a duration literal, such as "30m": its digits and its unit name. */
  datatype Segment = Segment(digits: string, unit: string)

  predicate ValidSegments(ss: seq<Segment>) {
    forall i :: 0 <= i < |ss| ==>
      |ss[i].digits| > 0 && AllDigits(ss[i].digits) && UnitValue(ss[i].unit).Some?
  }

  /** The literal the segments spell, written one after another. */
  function FormatSegments(ss: seq<Segment>): string {
    if ss == [] then "" else ss[0].digits + ss[0].unit + FormatSegments(ss[1..])
  }

  /** What the segments add up to, in nanoseconds. */
  function Nanoseconds(ss: seq<Segment>): int
    requires ValidSegments(ss)
  {
    if ss == [] then 0
    else DecimalValue(ss[0].digits) * UnitValue(ss[0].unit).value + Nanoseconds(ss[1..])
  }

  /** Unit names are non-empty and hold no character that can start a number. */
  lemma {:induction false} UnitNames(u: string)
    requires UnitValue(u).Some?
    ensures |u| > 0 && forall i :: 0 <= i < |u| ==> !IsNumberChar(u[i])
  {
  }

  /** DigitRun is the only length meeting its contract. */
  lemma {:induction false} DigitRunUnique(s: string, n: nat)
    requires n <= |s| && forall i :: 0 <= i < n ==> IsDigit(s[i])
    requires n < |s| ==> !IsDigit(s[n])
    ensures DigitRun(s) == n
  {
    if n > 0 {
      DigitRunUnique(s[1..], n - 1);
    }
  }

  /** UnitRun is the only length meeting its contract. */
  lemma {:induction false} UnitRunUnique(s: string, m: nat)
    requires m <= |s| && forall i :: 0 <= i < m ==> !IsNumberChar(s[i])
    requires m < |s| ==> IsNumberChar(s[m])
    ensures UnitRun(s) == m
  {
    if m > 0 {
      UnitRunUnique(s[1..], m - 1);
    }
  }

  /** Digits followed by something that is not a digit: the run stops where the digits do. */
  lemma {:induction false} DigitRunOfPrefix(d: string, rest: string)
    requires AllDigits(d)
    requires rest == [] || !IsDigit(rest[0])
    ensures DigitRun(d + rest) == |d|
  {
    DigitRunUnique(d + rest, |d|);
  }

  /** A unit name followed by a number or nothing: the run stops where the name does. */
  lemma {:induction false} UnitRunOfPrefix(u: string, rest: string)
    requires UnitValue(u).Some?
    requires rest == [] || IsDigit(rest[0])
    ensures UnitRun(u + rest) == |u|
  {
    UnitNames(u);
    UnitRunUnique(u + rest, |u|);
  }

  /** Reading one segment off the front of a duration literal. */
  lemma {:induction false} FirstSegmentOf(d: string, u: string, unit: nat, tail: string)
    requires |d| > 0 && AllDigits(d) && UnitValue(u) == Some(unit)
    requires tail == [] || IsDigit(tail[0])
    ensures FirstSegment(d + u + tail) == Some((DecimalValue(d) * unit, |d| + |u|))
  {
    var s := d + u + tail;
    assert DigitRun(s) == |d| && s[..|d|] == d by {
      assert s == d + (u + tail);
      DigitRunOfPrefix(d, u + tail);
    }
    assert UnitRun(s[|d|..]) == |u| && s[|d|..][..|u|] == u by {
      assert s[|d|..] == u + tail;
      UnitRunOfPrefix(u, tail);
    }
    FirstSegmentOfRuns(s, d, u, unit);
  }

  /** FirstSegment, once the digit run and the unit run of s are known. */
  lemma {:induction false} FirstSegmentOfRuns(s: string, d: string, u: string, unit: nat)
    requires |d| > 0 && AllDigits(d) && UnitValue(u) == Some(unit)
    requires DigitRun(s) == |d| && s[..|d|] == d
    requires UnitRun(s[|d|..]) == |u| && s[|d|..][..|u|] == u
    ensures FirstSegment(s) == Some((DecimalValue(d) * unit, |d| + |u|))
  {
  }

  /** Reading one segment off the front, then the rest of the literal. */
  lemma {:induction false} SegmentsTotalStep(d: string, u: string, unit: nat, tail: string, t: int)
    requires |d| > 0 && AllDigits(d) && UnitValue(u) == Some(unit)
    requires tail == [] || IsDigit(tail[0])
    requires SegmentsTotal(tail) == Some(t)
    ensures SegmentsTotal(d + u + tail) == Some(DecimalValue(d) * unit + t)
  {
    FirstSegmentOf(d, u, unit, tail);
    assert (d + u + tail)[|d| + |u|..] == tail;
  }

  /** The first segment of a non-empty sequence, and what it contributes to the literal and the total. */
  lemma {:induction false} SegmentsCons(ss: seq<Segment>)
    requires ss != [] && ValidSegments(ss)
    ensures |ss[0].digits| > 0 && AllDigits(ss[0].digits) && UnitValue(ss[0].unit).Some?
    ensures ValidSegments(ss[1..])
    ensures FormatSegments(ss) == ss[0].digits + ss[0].unit + FormatSegments(ss[1..])
    ensures FormatSegments(ss)[0] == ss[0].digits[0]
    ensures Nanoseconds(ss) == DecimalValue(ss[0].digits) * UnitValue(ss[0].unit).value + Nanoseconds(ss[1..])
  {
    assert forall i :: 0 <= i < |ss[1..]| ==> ss[1..][i] == ss[i + 1];
  }

  /** A literal spelled from at least one segment starts with a digit. */
  lemma {:induction false} FormatSegmentsLeadingDigit(ss: seq<Segment>)
    requires ss != [] && ValidSegments(ss)
    ensures |FormatSegments(ss)| > 0 && IsDigit(FormatSegments(ss)[0])
  {
    SegmentsCons(ss);
  }

  /** Every literal spelled from segments reads back as the sum of its segments. */
  lemma {:induction false} SegmentsTotalOfFormat(ss: seq<Segment>)
    requires ValidSegments(ss)
    ensures SegmentsTotal(FormatSegments(ss)) == Some(Nanoseconds(ss))
  {
    if ss == [] {
      assert FormatSegments(ss) == [];
    } else {
      SegmentsCons(ss);
      var d, u, tail, t := ss[0].digits, ss[0].unit, FormatSegments(ss[1..]), Nanoseconds(ss[1..]);
      var unit := UnitValue(u).value;
      assert tail == [] || IsDigit(tail[0]) by {
        if ss[1..] != [] {
          FormatSegmentsLeadingDigit(ss[1..]);
        }
      }
      assert SegmentsTotal(tail) == Some(t) by {
        SegmentsTotalOfFormat(ss[1..]);
      }
      calc {
        SegmentsTotal(FormatSegments(ss));
        SegmentsTotal(d + u + tail);
        { SegmentsTotalStep(d, u, unit, tail, t); }
        Some(DecimalValue(d) * unit + t);
        Some(Nanoseconds(ss));
      }
    }
  }

  /**
    A duration spelled as segments ("2h", "1h30m", "500ms", "-45s") parses to
    the sum of its segments, negated under a leading minus, while it fits an int64.
  */
  lemma {:induction false} ParseFormattedDuration(negative: bool, ss: seq<Segment>)
    requires ss != [] && ValidSegments(ss)
    ensures var s := (if negative then "-" else "") + FormatSegments(ss);
            var t := if negative then -Nanoseconds(ss) else Nanoseconds(ss);
            ParseDuration(s) == if MinDuration <= t <= MaxDuration then Some(t) else None
  {
    var f := FormatSegments(ss);
    SegmentsTotalOfFormat(ss);
    var s := (if negative then "-" else "") + f;
    if negative {
      assert s[1..] == f;
    } else {
      assert s == f;
    }
    assert f != "0" by {
      UnitNames(ss[0].unit);
      assert f == ss[0].digits + ss[0].unit + FormatSegments(ss[1..]);
    }
  }

  /** "2h", the update interval of the worked example, is two hours in nanoseconds. */
  lemma {:induction false} ParseTwoHours()
    ensures ParseDuration("2h") == Some(7_200_000_000_000)
  {
    var ss := [Segment("2", "h")];
    assert FormatSegments(ss) == "2h";
    assert Nanoseconds(ss) == 7_200_000_000_000;
    ParseFormattedDuration(false, ss);
    assert "" + "2h" == "2h";
  }

  /** A two-segment literal: one hour and thirty minutes. */
  lemma {:induction false} ParseHourAndHalf()
    ensures ParseDuration("1h30m") == Some(5_400_000_000_000)
  {
    var hm := [Segment("1", "h"), Segment("30", "m")];
    assert FormatSegments(hm[1..]) == "30m";
    assert FormatSegments(hm) == "1h30m";
    assert DecimalValue("30") == 30;
    assert Nanoseconds(hm[1..]) == 1_800_000_000_000;
    assert Nanoseconds(hm) == 5_400_000_000_000;
    ParseFormattedDuration(false, hm);
    assert "" + "1h30m" == "1h30m";
  }

  /** A literal with no digits, and a number with no unit, are both refused. */
  lemma {:induction false} ParseDurationRejects()
    ensures ParseDuration("abc") == None
    ensures ParseDuration("10") == None
  {
    assert DigitRun("abc") == 0;
    DigitRunUnique("10", 2);
    assert "10"[2..] == [];
  }
}
