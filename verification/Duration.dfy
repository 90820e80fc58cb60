/**
 Go-style duration strings (src/duration.rs). `num * 60` and `num * 3600` are unchecked in the code; they
 are modelled as they behave in a release build, wrapping at 64 bits.
 */
module Durations {
  import opened Results
  import opened Text

  const TWO_64: nat := 0x1_0000_0000_0000_0000
  const MAX_SECS: nat := TWO_64 - 1

  datatype DurationError = EmptyDuration | UnexpectedChar | InvalidNumber | MissingUnit | UnknownUnit

  /** `Panics`: the unknown-unit message slices one byte out of a longer character. */
  datatype Outcome = Done(r: Result<nat, DurationError>) | Panics

  // ----- trimming -----

  predicate IsSpace(c: char) {
    || '\t' <= c <= '\r' || c == ' ' || c == '\U{0085}' || c == '\U{00A0}' || c == '\U{1680}'
    || '\U{2000}' <= c <= '\U{200A}' || c == '\U{2028}' || c == '\U{2029}' || c == '\U{202F}'
    || c == '\U{205F}' || c == '\U{3000}'
  }

  function TrimStart(s: string): string {
    if s != [] && IsSpace(s[0]) then TrimStart(s[1..]) else s
  }

  function TrimEnd(s: string): string {
    if s != [] && IsSpace(s[|s| - 1]) then TrimEnd(s[..|s| - 1]) else s
  }

  function Trim(s: string): string {
    TrimEnd(TrimStart(s))
  }

  // ----- one number and unit -----

  function DigitRun(s: string): (n: nat)
    ensures n <= |s| && IsDigits(s[..n]) && (n < |s| ==> !IsDigit(s[n]))
  {
    if s != [] && IsDigit(s[0]) then
      var n := DigitRun(s[1..]);
      assert s[..n + 1] == [s[0]] + s[1..][..n];
      n + 1
    else 0
  }

  const UNITS: seq<string> := ["ns", "\U{00B5}s", "us", "ms", "s", "m", "h"]

  /** Seconds per unit; the units below a second count as nothing. */
  function Multiplier(unit: string): nat {
    if unit == "s" then 1 else if unit == "m" then 60 else if unit == "h" then 3600 else 0
  }

  /** The unit at the start of `s`, the longer spellings tried first. */
  function UnitAt(s: string): (u: Option<string>)
    ensures u.Some? ==> u.value in UNITS && u.value <= s
  {
    if "ns" <= s then Some(UNITS[0])
    else if "\U{00B5}s" <= s then Some(UNITS[1])
    else if "us" <= s then Some(UNITS[2])
    else if "ms" <= s then Some(UNITS[3])
    else if "s" <= s then Some(UNITS[4])
    else if "m" <= s then Some(UNITS[5])
    else if "h" <= s then Some(UNITS[6])
    else None
  }

  datatype Term = Term(digits: string, unit: string)

  datatype Scan = Got(t: Term) | Bad(e: DurationError) | ScanPanics

  function ScanTerm(s: string): (r: Scan)
    ensures r.Got? ==> ValidTerm(r.t) && r.t.digits + r.t.unit <= s
  {
    var n := DigitRun(s);
    if n == 0 then Bad(UnexpectedChar)
    else if DecimalValue(s[..n]) >= TWO_64 then Bad(InvalidNumber)
    else if n == |s| then Bad(MissingUnit)
    else match UnitAt(s[n..])
      case Some(u) => assert s == s[..n] + s[n..]; Got(Term(s[..n], u))
      case None => if s[n] < '\U{0080}' then Bad(UnknownUnit) else ScanPanics
  }

  function SatAdd(a: nat, b: nat): nat {
    if a + b > MAX_SECS then MAX_SECS else a + b
  }

  /** A non-empty digit run below 2^64 and a known unit. */
  predicate ValidTerm(t: Term) {
    t.digits != "" && IsDigits(t.digits) && DecimalValue(t.digits) < TWO_64 && t.unit in UNITS
  }

  /** What a term is meant to be worth, and what the code makes of it. */
  function TrueSecs(t: Term): nat
    requires ValidTerm(t)
  {
    DecimalValue(t.digits) * Multiplier(t.unit)
  }

  function Secs(t: Term): nat
    requires ValidTerm(t)
  {
    TrueSecs(t) % TWO_64
  }

  // ----- the scan -----

  function ScanFrom(total: nat, s: string): Outcome
    decreases |s|
  {
    if s == "" then Done(Ok(total)) else
    match ScanTerm(s)
    case Got(t) => ScanFrom(SatAdd(total, Secs(t)), s[|t.digits| + |t.unit|..])
    case Bad(e) => Done(Err(e))
    case ScanPanics => Panics
  }

  function DurationOf(s: string): Outcome {
    if Trim(s) == "" then Done(Err(EmptyDuration)) else ScanFrom(0, Trim(s))
  }

  method ParseDuration(text: string) returns (r: Outcome)
    ensures r == DurationOf(text)
  {
    hide ScanTerm, Secs, SatAdd;
    var s := Trim(text);
    if s == "" {
      return Done(Err(EmptyDuration));
    }
    var total, remaining := 0, s;
    while remaining != ""
      invariant ScanFrom(0, s) == ScanFrom(total, remaining)
      decreases |remaining|
    {
      match ScanTerm(remaining) {
        case Bad(e) => return Done(Err(e));
        case ScanPanics => return Panics;
        case Got(t) =>
          total := SatAdd(total, Secs(t));
          remaining := remaining[|t.digits| + |t.unit|..];
      }
    }
    return Done(Ok(total));
  }

  // ----- what the scan accepts -----

  predicate ValidTerms(ts: seq<Term>) {
    forall i :: 0 <= i < |ts| ==> ValidTerm(ts[i])
  }

  function Render(ts: seq<Term>): string {
    if ts == [] then "" else ts[0].digits + ts[0].unit + Render(ts[1..])
  }

  function SumSecs(ts: seq<Term>): nat
    requires ValidTerms(ts)
  {
    if ts == [] then 0 else Secs(ts[0]) + SumSecs(ts[1..])
  }

  lemma {:induction false} DigitRunIs(d: string, rest: string)
    requires IsDigits(d) && (rest == "" || !IsDigit(rest[0]))
    ensures DigitRun(d + rest) == |d|
  {
    if d == "" {
      assert d + rest == rest;
    } else {
      assert (d + rest)[1..] == d[1..] + rest;
      DigitRunIs(d[1..], rest);
    }
  }

  lemma UnitAtIs(u: string, rest: string)
    requires u in UNITS && (rest == "" || IsDigit(rest[0]))
    ensures UnitAt(u + rest) == Some(u) && !IsDigit(u[0])
  {
    var s := u + rest;
    assert s[..|u|] == u && s[0] == u[0] && (|s| > 1 ==> s[1] == if |u| > 1 then u[1] else rest[0]);
    assert "ns" <= s ==> s[0] == "ns"[0];
    assert "\U{00B5}s" <= s ==> s[0] == "\U{00B5}s"[0];
    assert "us" <= s ==> s[0] == "us"[0];
    assert "ms" <= s ==> s[0] == "ms"[0] && |s| > 1 && s[1] == "ms"[1];
    assert "s" <= s ==> s[0] == "s"[0];
    assert "m" <= s ==> s[0] == "m"[0];
  }

  lemma RenderStart(ts: seq<Term>)
    requires ValidTerms(ts)
    ensures Render(ts) == "" || IsDigit(Render(ts)[0])
    ensures Render(ts) == "" <==> ts == []
  {
    if ts != [] {
      assert ValidTerm(ts[0]);
      assert Render(ts)[0] == ts[0].digits[0];
    }
  }

  lemma ScanTermIs(t: Term, rest: string)
    requires ValidTerm(t) && (rest == "" || IsDigit(rest[0]))
    ensures ScanTerm(t.digits + t.unit + rest) == Got(t)
  {
    var s := t.digits + t.unit + rest;
    UnitAtIs(t.unit, rest);
    assert s == t.digits + (t.unit + rest);
    DigitRunIs(t.digits, t.unit + rest);
    assert s[..|t.digits|] == t.digits && s[|t.digits|..] == t.unit + rest;
  }

  lemma SatAddAssoc(total: nat, a: nat, b: nat)
    ensures SatAdd(SatAdd(total, a), b) == SatAdd(total, a + b)
  {
  }

  lemma {:induction false} ScanRendered(total: nat, ts: seq<Term>)
    requires ValidTerms(ts) && total <= MAX_SECS
    ensures ScanFrom(total, Render(ts)) == Done(Ok(SatAdd(total, SumSecs(ts))))
    decreases |ts|
  {
    hide ScanTerm, Secs, ValidTerm;
    if ts != [] {
      var t, rest := ts[0], Render(ts[1..]);
      RenderStart(ts);
      RenderStart(ts[1..]);
      ScanTermIs(t, rest);
      var s := Render(ts);
      assert s == t.digits + t.unit + rest && s[|t.digits| + |t.unit|..] == rest;
      ScanRendered(SatAdd(total, Secs(t)), ts[1..]);
      SatAddAssoc(total, Secs(t), SumSecs(ts[1..]));
    }
  }

  lemma {:induction false} AcceptedIsRendered(total: nat, s: string) returns (ts: seq<Term>)
    requires ScanFrom(total, s).Done? && ScanFrom(total, s).r.Ok?
    ensures ValidTerms(ts) && s == Render(ts)
    decreases |s|
  {
    hide Secs, ValidTerm;
    if s == "" {
      ts := [];
    } else {
      var t := ScanTerm(s).t;
      var n := |t.digits| + |t.unit|;
      var rest := AcceptedIsRendered(SatAdd(total, Secs(t)), s[n..]);
      ts := [t] + rest;
      assert ts[1..] == rest && s == t.digits + t.unit + s[n..];
    }
  }

  /** `s` is, after trimming, one or more terms that sum to `v` with saturation. */
  ghost predicate Denotes(s: string, ts: seq<Term>, v: nat) {
    ts != [] && ValidTerms(ts) && Trim(s) == Render(ts) && v == SatAdd(0, SumSecs(ts))
  }

  /** A string is accepted with value `v` exactly when it denotes `v`. */
  lemma AcceptedExactly(s: string, v: nat)
    ensures DurationOf(s) == Done(Ok(v)) <==> exists ts :: Denotes(s, ts, v)
  {
    hide ScanFrom, SumSecs, ValidTerm;
    if DurationOf(s) == Done(Ok(v)) {
      var ts := AcceptedIsRendered(0, Trim(s));
      ScanRendered(0, ts);
      assert Denotes(s, ts, v);
    }
    forall ts | Denotes(s, ts, v) ensures DurationOf(s) == Done(Ok(v)) {
      RenderStart(ts);
      ScanRendered(0, ts);
    }
  }

  lemma {:induction false} RenderConcat(a: seq<Term>, b: seq<Term>)
    requires ValidTerms(a) && ValidTerms(b)
    ensures ValidTerms(a + b) && Render(a + b) == Render(a) + Render(b) && SumSecs(a + b) == SumSecs(a) + SumSecs(b)
  {
    hide Secs, ValidTerm;
    if a == [] {
      assert a + b == b;
    } else {
      assert (a + b)[1..] == a[1..] + b;
      RenderConcat(a[1..], b);
    }
  }

  lemma TrimNothing(s: string)
    ensures s != "" && !IsSpace(s[0]) && !IsSpace(s[|s| - 1]) ==> Trim(s) == s
  {
  }

  lemma {:induction false} TrimEndShape(s: string)
    ensures TrimEnd(s) <= s && (TrimEnd(s) != "" ==> !IsSpace(TrimEnd(s)[|TrimEnd(s)| - 1]))
  {
    if s != [] && IsSpace(s[|s| - 1]) {
      TrimEndShape(s[..|s| - 1]);
    }
  }

  lemma {:induction false} TrimStartShape(s: string)
    ensures |TrimStart(s)| <= |s| && (TrimStart(s) != "" ==> !IsSpace(TrimStart(s)[0]))
  {
    if s != [] && IsSpace(s[0]) {
      TrimStartShape(s[1..]);
    }
  }

  lemma TrimShape(s: string)
    requires Trim(s) != ""
    ensures !IsSpace(Trim(s)[0]) && !IsSpace(Trim(s)[|Trim(s)| - 1])
  {
    hide TrimStart, TrimEnd;
    TrimStartShape(s);
    TrimEndShape(TrimStart(s));
  }

  /** Two accepted strings without surrounding space, joined, give the saturated sum. */
  lemma ConcatAdds(a: string, b: string, x: nat, y: nat)
    requires Trim(a) == a && Trim(b) == b
    requires DurationOf(a) == Done(Ok(x)) && DurationOf(b) == Done(Ok(y))
    ensures DurationOf(a + b) == Done(Ok(SatAdd(x, y)))
  {
    hide ScanFrom, SumSecs, ValidTerms, TrimStart, TrimEnd, DurationOf, Render, IsSpace;
    AcceptedExactly(a, x);
    AcceptedExactly(b, y);
    var ta :| Denotes(a, ta, x);
    var tb :| Denotes(b, tb, y);
    RenderStart(ta);
    RenderStart(tb);
    RenderConcat(ta, tb);
    TrimShape(a);
    TrimShape(b);
    TrimNothing(a + b);
    assert Denotes(a + b, ta + tb, SatAdd(x, y));
    AcceptedExactly(a + b, SatAdd(x, y));
  }

  lemma ScanTermAscii(s: string)
    requires forall i :: 0 <= i < |s| ==> s[i] < '\U{0080}'
    ensures !ScanTerm(s).ScanPanics?
  {
  }

  lemma {:induction false} ScanAscii(total: nat, s: string)
    requires forall i :: 0 <= i < |s| ==> s[i] < '\U{0080}'
    ensures ScanFrom(total, s).Done?
    decreases |s|
  {
    hide ScanTerm, Secs;
    ScanTermAscii(s);
    if s != "" && ScanTerm(s).Got? {
      var t := ScanTerm(s).t;
      ScanAscii(SatAdd(total, Secs(t)), s[|t.digits| + |t.unit|..]);
    }
  }

  lemma {:induction false} TrimStartKeeps(s: string)
    ensures forall c :: c in TrimStart(s) ==> c in s
  {
    if s != [] && IsSpace(s[0]) {
      TrimStartKeeps(s[1..]);
    }
  }

  predicate IsAscii(s: string) {
    forall c :: c in s ==> c < '\U{0080}'
  }

  /** On ASCII text the parser always answers. */
  lemma AsciiAnswered(s: string)
    requires IsAscii(s)
    ensures DurationOf(s).Done?
  {
    hide ScanFrom, TrimStart, TrimEnd;
    TrimStartKeeps(s);
    TrimEndShape(TrimStart(s));
    assert forall i :: 0 <= i < |Trim(s)| ==> Trim(s)[i] == TrimStart(s)[i] && TrimStart(s)[i] in s;
    ScanAscii(0, Trim(s));
  }

  // ----- when the scan panics -----

  /**
   After trimming, `s` is the terms `ts`, then a number below 2^64, then a character outside ASCII that starts
   no unit.
   */
  ghost predicate PanicsAt(s: string, ts: seq<Term>, digits: string, rest: string) {
    && ValidTerms(ts)
    && Trim(s) == Render(ts) + (digits + rest)
    && ForeignTerm(digits, rest)
  }

  predicate ForeignTerm(digits: string, rest: string) {
    && digits != "" && IsDigits(digits) && DecimalValue(digits) < TWO_64
    && rest != "" && rest[0] >= '\U{0080}' && !("\U{00B5}s" <= rest)
  }

  lemma StartsWithDigit(digits: string, rest: string)
    requires ForeignTerm(digits, rest)
    ensures digits != "" && IsDigit(digits[0])
  {
  }

  lemma ForeignTermPanics(digits: string, rest: string)
    requires ForeignTerm(digits, rest)
    ensures ScanTerm(digits + rest).ScanPanics?
  {
    DigitRunIs(digits, rest);
    var s := digits + rest;
    assert s[..|digits|] == digits && s[|digits|..] == rest;
    assert forall u :: u in UNITS && u <= rest ==> u[0] == rest[0];
  }

  lemma {:induction false} ForeignScanPanics(total: nat, ts: seq<Term>, digits: string, rest: string)
    requires ValidTerms(ts) && ForeignTerm(digits, rest)
    ensures ScanFrom(total, Render(ts) + (digits + rest)).Panics?
    decreases |ts|
  {
    hide ScanTerm, Secs, ValidTerm, ForeignTerm;
    StartsWithDigit(digits, rest);
    if ts == [] {
      ForeignTermPanics(digits, rest);
      assert Render(ts) + (digits + rest) == digits + rest;
    } else {
      var t, tail := ts[0], Render(ts[1..]) + (digits + rest);
      RenderStart(ts);
      RenderStart(ts[1..]);
      ScanTermIs(t, tail);
      var s := Render(ts) + (digits + rest);
      assert s == t.digits + t.unit + tail && s[|t.digits| + |t.unit|..] == tail;
      ForeignScanPanics(SatAdd(total, Secs(t)), ts[1..], digits, rest);
    }
  }

  lemma PanicTermIsForeign(s: string) returns (digits: string, rest: string)
    requires ScanTerm(s).ScanPanics?
    ensures s == digits + rest && ForeignTerm(digits, rest)
  {
    var n := DigitRun(s);
    digits, rest := s[..n], s[n..];
  }

  lemma RenderPrepended(t: Term, tail: seq<Term>, s: string, s': string, end: string)
    requires t.digits + t.unit <= s && s' == s[|t.digits| + |t.unit|..] && s' == Render(tail) + end
    ensures s == Render([t] + tail) + end
  {
    assert ([t] + tail)[1..] == tail;
    assert s == t.digits + t.unit + s';
  }

  lemma HasDigits(t: Term)
    requires ValidTerm(t)
    ensures t.digits != ""
  {
  }

  lemma {:induction false} PanicScanIsForeign(total: nat, s: string)
    returns (ts: seq<Term>, digits: string, rest: string)
    requires ScanFrom(total, s).Panics?
    ensures ValidTerms(ts) && s == Render(ts) + (digits + rest) && ForeignTerm(digits, rest)
    decreases |s|
  {
    hide ScanTerm, Secs, ValidTerm, ForeignTerm, SatAdd;
    if ScanTerm(s).ScanPanics? {
      digits, rest := PanicTermIsForeign(s);
      ts := [];
      assert Render(ts) + (digits + rest) == digits + rest;
    } else {
      var t := ScanTerm(s).t;
      HasDigits(t);
      var s' := s[|t.digits| + |t.unit|..];
      var tail: seq<Term>;
      tail, digits, rest := PanicScanIsForeign(SatAdd(total, Secs(t)), s');
      ts := [t] + tail;
      RenderPrepended(t, tail, s, s', digits + rest);
    }
  }

  /** The parser panics exactly on these texts, and answers every other. */
  lemma PanicsExactly(s: string)
    ensures DurationOf(s).Panics? <==> exists ts, digits, rest :: PanicsAt(s, ts, digits, rest)
  {
    hide ScanFrom, ValidTerm, ForeignTerm, Trim;
    if DurationOf(s).Panics? {
      var ts, digits, rest := PanicScanIsForeign(0, Trim(s));
      assert PanicsAt(s, ts, digits, rest);
    }
    forall ts, digits, rest | PanicsAt(s, ts, digits, rest) ensures DurationOf(s).Panics? {
      StartsWithDigit(digits, rest);
      ForeignScanPanics(0, ts, digits, rest);
    }
  }

  const FIVE_ACUTE := "5\U{00E9}"

  /** An input that panics: a digit and an accented letter. */
  lemma AccentedUnitPanics()
    ensures DurationOf(FIVE_ACUTE).Panics?
  {
    TrimNothing(FIVE_ACUTE);
    ForeignTermPanics("5", "\U{00E9}");
    assert FIVE_ACUTE == "5" + "\U{00E9}";
  }

  // ----- where the value is not the one written -----

  function SumTrue(ts: seq<Term>): nat
    requires ValidTerms(ts)
  {
    if ts == [] then 0 else TrueSecs(ts[0]) + SumTrue(ts[1..])
  }

  lemma {:induction false} WrapLoses(ts: seq<Term>)
    requires ValidTerms(ts)
    ensures SumSecs(ts) <= SumTrue(ts)
    ensures SumSecs(ts) == SumTrue(ts) <==> forall i :: 0 <= i < |ts| ==> TrueSecs(ts[i]) < TWO_64
    ensures SumSecs(ts) != SumTrue(ts) ==> SumTrue(ts) > MAX_SECS
  {
    hide ValidTerm, TrueSecs;
    if ts != [] {
      WrapLoses(ts[1..]);
      assert forall i :: 0 < i < |ts| ==> ts[i] == ts[1..][i - 1];
    }
  }

  /**
   The value is the saturated sum of what the terms say exactly when no single term overflows 64 bits, or
   the wrapped terms still saturate.
   */
  lemma ValueIsMeantExactly(s: string, ts: seq<Term>, v: nat)
    requires Denotes(s, ts, v)
    ensures v == SatAdd(0, SumTrue(ts)) <==>
            (forall i :: 0 <= i < |ts| ==> TrueSecs(ts[i]) < TWO_64) || SumSecs(ts) >= MAX_SECS
  {
    WrapLoses(ts);
  }

  function DecimalText(n: nat): (s: string)
    ensures s != "" && IsDigits(s)
  {
    if n < 10 then [(n + 48) as char] else DecimalText(n / 10) + [(n % 10 + 48) as char]
  }

  lemma {:induction false} DecimalTextValue(n: nat)
    ensures DecimalValue(DecimalText(n)) == n
  {
    var s := DecimalText(n);
    if n < 10 {
      assert s[..|s| - 1] == "";
    } else {
      DecimalTextValue(n / 10);
      assert s[..|s| - 1] == DecimalText(n / 10);
    }
  }

  /** Any number of hours is read modulo 2^64 seconds. */
  lemma HoursWrap(n: nat)
    requires n < TWO_64
    ensures DurationOf(DecimalText(n) + "h") == Done(Ok(n * 3600 % TWO_64))
  {
    hide ScanFrom, DecimalText, TrimStart, TrimEnd;
    DecimalTextValue(n);
    var t := Term(DecimalText(n), "h");
    var s := DecimalText(n) + "h";
    assert UNITS[6] == "h";
    assert ValidTerm(t) && Secs(t) == n * 3600 % TWO_64;
    assert Render([t]) == s by { assert [t][1..] == [] && s + "" == s; }
    assert SumSecs([t]) == Secs(t) by { assert [t][1..] == []; }
    assert IsDigit(s[0]) && s[|s| - 1] == 'h';
    TrimNothing(s);
    assert Denotes(s, [t], Secs(t));
    AcceptedExactly(s, Secs(t));
  }

  /** So the value written is not always the value read: these hours are read as 3584 seconds. */
  lemma OverflowIsNotSaturated()
    ensures DurationOf(DecimalText(5124095576030432) + "h") == Done(Ok(3584))
  {
    hide DurationOf, DecimalText;
    HoursWrap(5124095576030432);
  }
}
