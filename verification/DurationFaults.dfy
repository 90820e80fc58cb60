/**
 Durations further: what trimming takes, what each unit is worth, and exactly which text gives which error
 (src/duration.rs).
 */
module DurationFaults {
  import opened Results
  import opened Text
  import opened Durations

  // ----- trimming -----

  predicate AllSpace(s: string) {
    forall i :: 0 <= i < |s| ==> IsSpace(s[i])
  }

  lemma {:induction false} TrimStartTakes(s: string) returns (a: string)
    ensures s == a + TrimStart(s) && AllSpace(a)
  {
    if s != [] && IsSpace(s[0]) {
      var rest := TrimStartTakes(s[1..]);
      a := [s[0]] + rest;
      assert s == [s[0]] + s[1..];
    } else {
      a := "";
    }
  }

  lemma {:induction false} TrimEndTakes(s: string) returns (b: string)
    ensures s == TrimEnd(s) + b && AllSpace(b)
  {
    if s != [] && IsSpace(s[|s| - 1]) {
      var rest := TrimEndTakes(s[..|s| - 1]);
      b := rest + [s[|s| - 1]];
      assert s == s[..|s| - 1] + [s[|s| - 1]];
    } else {
      b := "";
    }
  }

  /** Trimming takes only space, from both ends, and all of it. */
  lemma TrimTakesSpace(s: string) returns (a: string, b: string)
    ensures s == a + Trim(s) + b && AllSpace(a) && AllSpace(b)
    ensures Trim(s) != "" ==> !IsSpace(Trim(s)[0]) && !IsSpace(Trim(s)[|Trim(s)| - 1])
  {
    a := TrimStartTakes(s);
    b := TrimEndTakes(TrimStart(s));
    if Trim(s) != "" {
      TrimShape(s);
    }
  }

  /** The space characters, by code point: those with the White_Space property. */
  lemma SpacesAre(c: char)
    ensures IsSpace(c) <==>
            || c as int in {9, 10, 11, 12, 13, 32, 0x85, 0xA0, 0x1680, 0x2028, 0x2029, 0x202F, 0x205F, 0x3000}
            || 0x2000 <= c as int <= 0x200A
  {
  }

  // ----- the units -----

  /** The seconds in one unit, by name. */
  function Worth(unit: string): Option<nat> {
    if unit in {"ns", "us", "\U{00B5}s", "ms"} then Some(0)
    else if unit == "s" then Some(1)
    else if unit == "m" then Some(60)
    else if unit == "h" then Some(3600)
    else None
  }

  lemma UnitsAre(unit: string)
    ensures unit in UNITS <==> Worth(unit).Some?
    ensures unit in UNITS ==> Multiplier(unit) == Worth(unit).value
  {
    assert UNITS == ["ns", "\U{00B5}s", "us", "ms", "s", "m", "h"];
  }

  /** A number with a unit is worth that many of it, modulo 2^64 seconds. */
  lemma NumberWithUnit(n: nat, unit: string)
    requires n < 0x1_0000_0000_0000_0000 && Worth(unit).Some?
    ensures DurationOf(DecimalText(n) + unit) == Done(Ok(n * Worth(unit).value % 0x1_0000_0000_0000_0000))
  {
    hide DurationOf, DecimalText, Worth;
    DecimalTextValue(n);
    UnitsAre(unit);
    OneTerm(Term(DecimalText(n), unit));
  }

  lemma OneTerm(t: Term)
    requires ValidTerm(t)
    ensures DurationOf(t.digits + t.unit) == Done(Ok(Secs(t)))
  {
    var s := t.digits + t.unit;
    RenderOne(t);
    RenderStart([t]);
    UnitEnd(t.unit);
    assert s[0] == t.digits[0] && s[|s| - 1] == t.unit[|t.unit| - 1];
    DigitIsNoSpace(s[0]);
    TrimNothing(s);
    hide ScanFrom, Trim, DurationOf;
    assert Denotes(s, [t], Secs(t));
    AcceptedExactly(s, Secs(t));
  }

  lemma RenderOne(t: Term)
    requires ValidTerm(t)
    ensures ValidTerms([t]) && Render([t]) == t.digits + t.unit && SumSecs([t]) == Secs(t)
    ensures SatAdd(0, Secs(t)) == Secs(t) && IsDigit(t.digits[0])
  {
    assert [t][1..] == [] && t.digits + t.unit + "" == t.digits + t.unit;
  }

  lemma DigitIsNoSpace(c: char)
    requires IsDigit(c)
    ensures !IsSpace(c)
  {
  }

  lemma UnitEnd(unit: string)
    requires unit in UNITS
    ensures unit != "" && !IsSpace(unit[|unit| - 1])
  {
    assert UNITS == ["ns", "\U{00B5}s", "us", "ms", "s", "m", "h"];
  }

  /** Two terms add up, and stop at the largest 64-bit number. */
  lemma TwoNumbersOfSeconds(a: nat, b: nat)
    requires a < 0x1_0000_0000_0000_0000 && b < 0x1_0000_0000_0000_0000
    ensures DurationOf(DecimalText(a) + "s" + (DecimalText(b) + "s"))
         == Done(Ok(if a + b < 0x1_0000_0000_0000_0000 then a + b else 0xFFFF_FFFF_FFFF_FFFF))
  {
    hide DurationOf, DecimalText, Trim;
    Seconds(a);
    Seconds(b);
    TrimmedNumber(a);
    TrimmedNumber(b);
    var x, y := DecimalText(a) + "s", DecimalText(b) + "s";
    ConcatAdds(x, y, a, b);
  }

  lemma Seconds(n: nat)
    requires n < 0x1_0000_0000_0000_0000
    ensures DurationOf(DecimalText(n) + "s") == Done(Ok(n))
  {
    hide DurationOf, DecimalText;
    NumberWithUnit(n, "s");
  }

  lemma TrimmedNumber(n: nat)
    ensures Trim(DecimalText(n) + "s") == DecimalText(n) + "s"
  {
    hide DecimalText;
    var s := DecimalText(n) + "s";
    assert IsDigit(s[0]) && s[|s| - 1] == 's';
    DigitIsNoSpace(s[0]);
    TrimNothing(s);
  }

  // ----- the errors -----

  /** A number up to where its digits end, and what follows. */
  predicate IsNumber(tail: string, digits: string, rest: string) {
    tail == digits + rest && digits != "" && IsDigits(digits) && (rest == "" || !IsDigit(rest[0]))
  }

  /** What is wrong at the start of `tail`. */
  ghost predicate BadTail(tail: string, e: DurationError) {
    match e
    case EmptyDuration => false
    case UnexpectedChar => tail != "" && !IsDigit(tail[0])
    case InvalidNumber =>
      exists digits, rest :: IsNumber(tail, digits, rest) && DecimalValue(digits) >= 0x1_0000_0000_0000_0000
    case MissingUnit => IsNumber(tail, tail, "") && DecimalValue(tail) < 0x1_0000_0000_0000_0000
    case UnknownUnit =>
      exists digits, rest :: IsNumber(tail, digits, rest) && DecimalValue(digits) < 0x1_0000_0000_0000_0000
                             && rest != "" && rest[0] < '\U{0080}' && NoUnit(rest)
  }

  predicate NoUnit(rest: string) {
    && !("ns" <= rest) && !("us" <= rest) && !("\U{00B5}s" <= rest) && !("ms" <= rest)
    && !("s" <= rest) && !("m" <= rest) && !("h" <= rest)
  }

  /** The tail is not the rest of the last unit: `m` before `s` would be `ms`. */
  predicate Apart(ts: seq<Term>, tail: string) {
    ts != [] && ts[|ts| - 1].unit == "m" ==> !("s" <= tail)
  }

  /** After trimming, `s` is the terms `ts` and then a tail that is wrong in this way. */
  ghost predicate FailsAt(s: string, ts: seq<Term>, tail: string, e: DurationError) {
    ValidTerms(ts) && Trim(s) == Render(ts) + tail && Apart(ts, tail) && BadTail(tail, e)
  }

  lemma NumberIs(tail: string, digits: string, rest: string)
    requires IsNumber(tail, digits, rest)
    ensures DigitRun(tail) == |digits| && tail[..|digits|] == digits && tail[|digits|..] == rest
  {
    DigitRunIs(digits, rest);
  }

  lemma NoUnitExactly(rest: string)
    ensures UnitAt(rest).None? <==> NoUnit(rest)
  {
  }

  lemma ScanTermFails(tail: string, e: DurationError)
    ensures tail != "" && ScanTerm(tail) == Bad(e) <==> BadTail(tail, e)
  {
    hide UnitAt, NoUnit, DigitRun, DecimalValue;
    if tail != "" && ScanTerm(tail) == Bad(e) {
      var n := DigitRun(tail);
      if n > 0 {
        assert IsNumber(tail, tail[..n], tail[n..]);
        NoUnitExactly(tail[n..]);
        assert n == |tail| ==> tail[..n] == tail;
      } else {
        NoDigits(tail);
      }
    }
    if BadTail(tail, e) {
      match e
      case EmptyDuration =>
      case UnexpectedChar => NoDigits(tail);
      case InvalidNumber =>
        var digits, rest :| IsNumber(tail, digits, rest) && DecimalValue(digits) >= 0x1_0000_0000_0000_0000;
        NumberIs(tail, digits, rest);
      case MissingUnit => NumberIs(tail, tail, "");
      case UnknownUnit =>
        var digits, rest :| IsNumber(tail, digits, rest) && DecimalValue(digits) < 0x1_0000_0000_0000_0000
                            && rest != "" && rest[0] < '\U{0080}' && NoUnit(rest);
        NumberIs(tail, digits, rest);
        NoUnitExactly(rest);
    }
  }

  lemma NoDigits(tail: string)
    requires tail != ""
    ensures DigitRun(tail) == 0 <==> !IsDigit(tail[0])
  {
  }

  lemma UnitAtApart(u: string, rest: string)
    requires u in UNITS && !(u == "m" && "s" <= rest)
    ensures UnitAt(u + rest) == Some(u) && !IsDigit(u[0])
  {
    var s := u + rest;
    assert UNITS == ["ns", "\U{00B5}s", "us", "ms", "s", "m", "h"];
    assert s[..|u|] == u && s[0] == u[0] && (|s| > 1 ==> s[1] == if |u| > 1 then u[1] else rest[0]);
    assert "ns" <= s ==> s[0] == "ns"[0];
    assert "\U{00B5}s" <= s ==> s[0] == "\U{00B5}s"[0];
    assert "us" <= s ==> s[0] == "us"[0];
    assert "ms" <= s ==> s[0] == "ms"[0] && |s| > 1 && s[1] == "ms"[1];
    assert "s" <= s ==> s[0] == "s"[0];
    assert "m" <= s ==> s[0] == "m"[0];
  }

  lemma ScanTermApart(t: Term, rest: string)
    requires ValidTerm(t) && !(t.unit == "m" && "s" <= rest)
    ensures ScanTerm(t.digits + t.unit + rest) == Got(t)
  {
    var s := t.digits + t.unit + rest;
    UnitAtApart(t.unit, rest);
    assert s == t.digits + (t.unit + rest);
    DigitRunIs(t.digits, t.unit + rest);
    assert s[..|t.digits|] == t.digits && s[|t.digits|..] == t.unit + rest;
  }

  lemma {:induction false} ScanFailsAfter(total: nat, ts: seq<Term>, tail: string, e: DurationError)
    requires ValidTerms(ts) && Apart(ts, tail) && tail != "" && ScanTerm(tail) == Bad(e)
    ensures ScanFrom(total, Render(ts) + tail) == Done(Err(e))
    decreases |ts|
  {
    hide ScanTerm, Secs, ValidTerm;
    if ts == [] {
      assert Render(ts) + tail == tail;
    } else {
      var t, rest := ts[0], Render(ts[1..]) + tail;
      RenderStart(ts[1..]);
      RenderStart(ts);
      TailApart(ts, tail);
      ScanTermApart(t, rest);
      var s := Render(ts) + tail;
      assert s == t.digits + t.unit + rest && s[|t.digits| + |t.unit|..] == rest;
      assert ts[1..] != [] ==> ts[1..][|ts[1..]| - 1] == ts[|ts| - 1];
      ScanFailsAfter(SatAdd(total, Secs(t)), ts[1..], tail, e);
    }
  }

  lemma TailApart(ts: seq<Term>, tail: string)
    requires ValidTerms(ts) && ts != [] && Apart(ts, tail)
    ensures !(ts[0].unit == "m" && "s" <= Render(ts[1..]) + tail)
  {
    RenderStart(ts[1..]);
    var rest := Render(ts[1..]) + tail;
    if ts[1..] == [] {
      assert rest == tail;
    } else {
      assert rest[0] == Render(ts[1..])[0];
    }
  }

  lemma {:induction false} ScanFailureIs(total: nat, s: string) returns (ts: seq<Term>, tail: string)
    requires ScanFrom(total, s).Done? && ScanFrom(total, s).r.Err?
    ensures ValidTerms(ts) && s == Render(ts) + tail && Apart(ts, tail)
    ensures tail != "" && ScanTerm(tail) == Bad(ScanFrom(total, s).r.error)
    decreases |s|
  {
    hide Secs, ValidTerm, SatAdd, ScanTerm;
    if ScanTerm(s).Bad? {
      ts, tail := [], s;
      assert Render(ts) + tail == s;
    } else {
      var t := ScanTerm(s).t;
      HasDigits(t);
      var s' := s[|t.digits| + |t.unit|..];
      var more;
      more, tail := ScanFailureIs(SatAdd(total, Secs(t)), s');
      ts := [t] + more;
      RenderPrepended(t, more, s, s', tail);
      if more == [] {
        assert Render(more) + tail == tail;
        GotIsGreedy(s, t, tail);
      }
    }
  }

  lemma GotIsGreedy(s: string, t: Term, rest: string)
    requires ScanTerm(s) == Got(t) && s == t.digits + t.unit + rest
    ensures !(t.unit == "m" && "s" <= rest)
  {
    var n := DigitRun(s);
    assert s[n..] == t.unit + rest;
    assert t.unit == "m" && "s" <= rest ==> "ms" <= t.unit + rest;
  }

  /** Each error, exactly: the empty one on nothing but space, the others by what stands after the last good term. */
  lemma ErrorsExactly(s: string, e: DurationError)
    ensures DurationOf(s) == Done(Err(e)) <==>
            if Trim(s) == "" then e == EmptyDuration else exists ts, tail :: FailsAt(s, ts, tail, e)
  {
    hide ScanFrom, ScanTerm, Trim, BadTail, ValidTerms, Apart;
    if Trim(s) != "" {
      if DurationOf(s) == Done(Err(e)) {
        var ts, tail := ScanFailureIs(0, Trim(s));
        ScanTermFails(tail, e);
        assert FailsAt(s, ts, tail, e);
      }
      forall ts, tail | FailsAt(s, ts, tail, e) ensures DurationOf(s) == Done(Err(e)) {
        ScanTermFails(tail, e);
        ScanFailsAfter(0, ts, tail, e);
      }
    }
  }
}
