/**
 * `Utils.TryParseRelativeDateTime` of the export client: expressions such
 * as `now`, `now-1d` or `now - 1w 2d 3h`, evaluated against the current
 * instant. The source matches the whitespace-free text against the
 * case-insensitive regular expression `^now(?:([-+])(\d+[wdhm])+)?$`; here
 * that matcher is written by hand (`Match`) and proved to accept exactly
 * the renderings of well-formed match trees (`Render`). Its `\d` is the
 * Unicode decimal-digit class (`IsDecimalDigit`), while `int.Parse` reads
 * only the ASCII digits: a term such as `now-\U{661}d` matches and then
 * throws.
 */
module RelativeTime {
  import opened Wrappers
  import opened Text
  import opened Ticks

  // ---------------------------------------------------------------- syntax

  /** The text with every whitespace character removed (the `\s+` replacement). */
  function StripWhiteSpace(s: string): (r: string)
    ensures |r| <= |s|
    ensures forall i :: 0 <= i < |r| ==> !IsWhiteSpace(r[i])
  {
    if s == [] then []
    else (if IsWhiteSpace(s[0]) then [] else [s[0]]) + StripWhiteSpace(s[1..])
  }

  predicate IsSign(c: char) {
    c == '+' || c == '-'
  }

  /** `[wdhm]` under the ignore-case option. */
  predicate IsUnitChar(c: char) {
    c == 'w' || c == 'd' || c == 'h' || c == 'm' || c == 'W' || c == 'D' || c == 'H' || c == 'M'
  }

  /** `now` under the ignore-case option. */
  predicate IsNowText(t: string) {
    && |t| == 3
    && (t[0] == 'n' || t[0] == 'N')
    && (t[1] == 'o' || t[1] == 'O')
    && (t[2] == 'w' || t[2] == 'W')
  }

  /** One capture of group 2: a digit run and its unit letter. */
  datatype Term = Term(digits: string, unit: char)

  /** A successful match: group 2 either did not participate, or captured `terms` after `sign`. */
  datatype RelMatch =
    | BareNow(nowText: string)
    | Offsets(nowText: string, sign: char, terms: seq<Term>)

  predicate WellFormedTerm(t: Term) {
    |t.digits| >= 1 && AllDecimalDigits(t.digits) && IsUnitChar(t.unit)
  }

  predicate WellFormedTerms(ts: seq<Term>) {
    forall i :: 0 <= i < |ts| ==> WellFormedTerm(ts[i])
  }

  predicate WellFormed(m: RelMatch) {
    && IsNowText(m.nowText)
    && (m.Offsets? ==> IsSign(m.sign) && |m.terms| >= 1 && WellFormedTerms(m.terms))
  }

  function RenderTerms(ts: seq<Term>): string {
    if ts == [] then [] else ts[0].digits + [ts[0].unit] + RenderTerms(ts[1..])
  }

  /** The text a match tree spells; the regular language is the set of renderings of well-formed trees. */
  function Render(m: RelMatch): string {
    match m
    case BareNow(n) => n
    case Offsets(n, sign, ts) => n + [sign] + RenderTerms(ts)
  }

  /** Length of the longest prefix of decimal digits. */
  function DigitRun(s: string): (k: nat)
    ensures k <= |s|
    ensures k < |s| ==> !IsDecimalDigit(s[k])
  {
    if s == [] || !IsDecimalDigit(s[0]) then 0 else 1 + DigitRun(s[1..])
  }

  /** The run is made of digits. */
  lemma {:induction false} DigitRunDigits(s: string)
    ensures AllDecimalDigits(s[..DigitRun(s)])
  {
    if s != [] && IsDecimalDigit(s[0]) {
      DigitRunDigits(s[1..]);
      var k := DigitRun(s);
      assert s[..k] == [s[0]] + s[1..][..k - 1];
    }
  }

  /** `(\d+[wdhm])*` followed by the end of the text. */
  function ParseTerms(s: string): Option<seq<Term>>
    decreases |s|
  {
    if s == [] then Some([])
    else
      var k := DigitRun(s);
      if k == 0 || k == |s| || !IsUnitChar(s[k]) then None
      else
        match ParseTerms(s[k + 1..])
        case None => None
        case Some(ts) => Some([Term(s[..k], s[k])] + ts)
  }

  /** The hand-written matcher for `^now(?:([-+])(\d+[wdhm])+)?$`, ignoring case. */
  function Match(s: string): Option<RelMatch> {
    if |s| < 3 || !IsNowText(s[..3]) then None
    else if |s| == 3 then Some(BareNow(s))
    else if !IsSign(s[3]) then None
    else
      match ParseTerms(s[4..])
      case None => None
      case Some(ts) => if ts == [] then None else Some(Offsets(s[..3], s[3], ts))
  }

  lemma {:induction false} ParseTermsSound(s: string, ts: seq<Term>)
    requires ParseTerms(s) == Some(ts)
    ensures WellFormedTerms(ts) && RenderTerms(ts) == s
    decreases |s|
  {
    if s != [] {
      var k := DigitRun(s);
      ParseTermsStep(s, ts);
      var rest := s[k + 1..];
      var tail := ParseTerms(rest).value;
      ParseTermsSound(rest, tail);
      DigitRunDigits(s);
      RenderStep(s, k, tail);
    }
  }

  /** A digit run, a unit letter and the rendering of well-formed terms render as one more term. */
  lemma RenderStep(s: string, k: nat, tail: seq<Term>)
    requires 0 < k < |s| && AllDecimalDigits(s[..k]) && IsUnitChar(s[k])
    requires WellFormedTerms(tail) && RenderTerms(tail) == s[k + 1..]
    ensures WellFormedTerms([Term(s[..k], s[k])] + tail)
    ensures RenderTerms([Term(s[..k], s[k])] + tail) == s
  {
    var t := Term(s[..k], s[k]);
    TermsCons(t, tail);
    RenderCons(t, tail);
    assert s[..k] + [s[k]] + s[k + 1..] == s;
  }

  /** One step of the term parser: a digit run, a unit letter, then the rest parsed. */
  lemma ParseTermsStep(s: string, ts: seq<Term>)
    requires s != [] && ParseTerms(s) == Some(ts)
    ensures var k := DigitRun(s);
      && 0 < k < |s| && IsUnitChar(s[k])
      && ParseTerms(s[k + 1..]).Some?
      && ts == [Term(s[..k], s[k])] + ParseTerms(s[k + 1..]).value
  {
    var k := DigitRun(s);
    if k == 0 || k == |s| || !IsUnitChar(s[k]) {
      assert false;
    } else if ParseTerms(s[k + 1..]).None? {
      assert false;
    }
  }

  lemma TermsCons(t: Term, ts: seq<Term>)
    requires WellFormedTerm(t) && WellFormedTerms(ts)
    ensures WellFormedTerms([t] + ts)
  {
    assert forall i :: 1 <= i < |[t] + ts| ==> ([t] + ts)[i] == ts[i - 1];
  }

  lemma RenderCons(t: Term, ts: seq<Term>)
    ensures RenderTerms([t] + ts) == t.digits + [t.unit] + RenderTerms(ts)
  {
    assert ([t] + ts)[1..] == ts;
  }

  lemma DigitRunOfTerm(d: string, u: char, rest: string)
    requires |d| >= 1 && AllDecimalDigits(d) && IsUnitChar(u)
    ensures DigitRun(d + [u] + rest) == |d|
    decreases |d|
  {
    var s := d + [u] + rest;
    if |d| > 1 {
      assert s[1..] == d[1..] + [u] + rest;
      DigitRunOfTerm(d[1..], u, rest);
    } else {
      assert s[1..] == [u] + rest;
    }
  }

  lemma {:induction false} ParseTermsComplete(ts: seq<Term>)
    requires WellFormedTerms(ts)
    ensures ParseTerms(RenderTerms(ts)) == Some(ts)
  {
    if ts != [] {
      var t := ts[0];
      var rest := RenderTerms(ts[1..]);
      var s := RenderTerms(ts);
      assert s == t.digits + [t.unit] + rest;
      DigitRunOfTerm(t.digits, t.unit, rest);
      var k := |t.digits|;
      assert s[..k] == t.digits && s[k] == t.unit && s[k + 1..] == rest;
      ParseTermsComplete(ts[1..]);
      assert [Term(s[..k], s[k])] + ts[1..] == ts;
    }
  }

  /** Every text the matcher accepts is the rendering of a well-formed match tree. */
  lemma MatchSound(s: string)
    ensures Match(s).Some? ==> WellFormed(Match(s).value) && Render(Match(s).value) == s
  {
    if |s| > 3 && IsNowText(s[..3]) && IsSign(s[3]) && ParseTerms(s[4..]).Some? {
      ParseTermsSound(s[4..], ParseTerms(s[4..]).value);
      assert s[..3] + [s[3]] + s[4..] == s;
    }
  }

  /** Every rendering of a well-formed match tree is accepted, with that tree. */
  lemma MatchComplete(m: RelMatch)
    requires WellFormed(m)
    ensures Match(Render(m)) == Some(m)
  {
    var s := Render(m);
    if m.Offsets? {
      assert s[..3] == m.nowText && s[3] == m.sign;
      assert s[4..] == RenderTerms(m.terms);
      ParseTermsComplete(m.terms);
    } else {
      assert s[..3] == s;
    }
  }

  // ------------------------------------------------------------- semantics

  /** What the call ends with: `false`, `true` with an instant, or an exception. */
  datatype Outcome = NotRelative | Relative(dt: int) | Threw

  /** `dt + span`, which throws when the sum leaves the `DateTime` range. */
  function AddTicks(dt: int, span: int): (r: Outcome)
    ensures r != NotRelative
  {
    if InDateRange(dt + span) then Relative(dt + span) else Threw
  }

  /**
   * The span one capture adds, when its digits fit in `int`: weeks go
   * through the 32-bit product `7 * value`; the upper-case unit letters the
   * ignore-case match lets through hit no `switch` case and add nothing.
   * (A `TimeSpan` too large for `long` also throws, but such a span lies
   * outside the `DateTime` range from any start, so `AddTicks` covers it.)
   */
  function TermSpan(t: Term, negate: int): int
    requires AllDigits(t.digits)
  {
    var value := DecimalValue(t.digits) * negate;
    match t.unit
    case 'w' => Wrap32(7 * value) * TicksPerDay
    case 'd' => value * TicksPerDay
    case 'h' => value * TicksPerHour
    case 'm' => value * TicksPerMinute
    case _ => 0
  }

  /**
   * `int.Parse` of a capture's digits succeeds: it reads only the ASCII
   * digits (any other decimal digit is a `FormatException`) and throws an
   * `OverflowException` above `int.MaxValue`.
   */
  predicate ParsesAsInt32(d: string) {
    |d| >= 1 && AllDigits(d) && DecimalValue(d) <= Int32Max
  }

  predicate IsLowerUnit(c: char) {
    c == 'w' || c == 'd' || c == 'h' || c == 'm'
  }

  /** One iteration of the `foreach` over the captures. */
  function ApplyTerm(dt: int, t: Term, negate: int): (r: Outcome)
    ensures r != NotRelative
  {
    if !ParsesAsInt32(t.digits) then Threw
    else if IsLowerUnit(t.unit) then AddTicks(dt, TermSpan(t, negate))
    else Relative(dt)
  }

  /** The captures applied in order, starting from `dt`. */
  function ApplyTerms(dt: int, ts: seq<Term>, negate: int): (r: Outcome)
    requires WellFormedTerms(ts)
    ensures r != NotRelative
    decreases |ts|
  {
    if ts == [] then Relative(dt)
    else
      match ApplyTerm(dt, ts[0], negate)
      case Relative(next) => ApplyTerms(next, ts[1..], negate)
      case _ => Threw
  }

  /** The whole call: blank text fails, a non-matching text fails, otherwise `now` plus the terms. */
  function RelativeSpec(text: string, now: int): Outcome {
    if IsBlank(text) then NotRelative
    else
      match Match(StripWhiteSpace(text))
      case None => NotRelative
      case Some(m) =>
        MatchSound(StripWhiteSpace(text));
        match m
        case BareNow(_) => Relative(now)
        case Offsets(_, sign, ts) => ApplyTerms(now, ts, if sign == '-' then -1 else 1)
  }

  /**
   * `TryParseRelativeDateTime`, with `DateTime.Now` passed in as `now`.
   */
  method TryParseRelativeDateTime(relativeDT: string, now: int) returns (outcome: Outcome)
    ensures outcome == RelativeSpec(relativeDT, now)
  {
    if IsBlank(relativeDT) {
      return NotRelative;
    }
    var withoutWhitespace := StripWhiteSpace(relativeDT);
    var found := Match(withoutWhitespace);
    if found.None? {
      return NotRelative;
    }
    MatchSound(withoutWhitespace);
    if found.value.BareNow? {
      return Relative(now);
    }
    var negate := if found.value.sign == '-' then -1 else 1;
    outcome := AccumulateCaptures(now, found.value.terms, negate);
  }

  /** The `foreach` over the captures of group 2, accumulating `dt` term by term. */
  method AccumulateCaptures(now: int, captures: seq<Term>, negate: int) returns (outcome: Outcome)
    requires WellFormedTerms(captures)
    ensures outcome == ApplyTerms(now, captures, negate)
  {
    var dt := now;
    var i := 0;
    while i < |captures|
      invariant 0 <= i <= |captures|
      invariant ApplyTerms(now, captures, negate) == ApplyTerms(dt, captures[i..], negate)
    {
      assert captures[i..][1..] == captures[i + 1..];
      var capture := captures[i];
      if !ParsesAsInt32(capture.digits) {
        return Threw;
      }
      if IsLowerUnit(capture.unit) {
        var span := TermSpan(capture, negate);
        if !InDateRange(dt + span) {
          return Threw;
        }
        dt := dt + span;
      }
      i := i + 1;
    }
    return Relative(dt);
  }

  // ------------------------------------------------------------ properties

  lemma {:induction false} StripBlank(s: string)
    ensures IsBlank(s) <==> StripWhiteSpace(s) == []
  {
    if s != [] {
      StripBlank(s[1..]);
      if IsBlank(s[1..]) && IsWhiteSpace(s[0]) {
        assert forall i :: 0 <= i < |s| ==> IsWhiteSpace(s[i]) by {
          forall i | 0 <= i < |s| ensures IsWhiteSpace(s[i]) {
            if i > 0 { assert s[i] == s[1..][i - 1]; }
          }
        }
      }
      if IsBlank(s) {
        assert forall i :: 0 <= i < |s| - 1 ==> IsWhiteSpace(s[1..][i]) by {
          forall i | 0 <= i < |s| - 1 ensures IsWhiteSpace(s[1..][i]) { assert s[1..][i] == s[i + 1]; }
        }
      }
    }
  }

  lemma {:induction false} StripNothing(s: string)
    requires forall i :: 0 <= i < |s| ==> !IsWhiteSpace(s[i])
    ensures StripWhiteSpace(s) == s
  {
    if s != [] {
      assert forall i :: 0 <= i < |s| - 1 ==> !IsWhiteSpace(s[1..][i]) by {
        forall i | 0 <= i < |s| - 1 ensures !IsWhiteSpace(s[1..][i]) { assert s[1..][i] == s[i + 1]; }
      }
      StripNothing(s[1..]);
      assert [s[0]] + s[1..] == s;
    }
  }

  /** Every accumulation that does not throw ends inside the `DateTime` range. */
  lemma {:induction false} ApplyTermsInRange(dt: int, ts: seq<Term>, negate: int)
    requires WellFormedTerms(ts) && InDateRange(dt)
    ensures ApplyTerms(dt, ts, negate).Relative? ==> InDateRange(ApplyTerms(dt, ts, negate).dt)
    decreases |ts|
  {
    if ts != [] {
      match ApplyTerm(dt, ts[0], negate)
      case Relative(next) =>
        ApplyTermsInRange(next, ts[1..], negate);
      case _ =>
    }
  }

  /** A relative text read against a valid clock always yields a valid `DateTime`. */
  lemma RelativeInRange(text: string, now: int)
    requires InDateRange(now)
    ensures RelativeSpec(text, now).Relative? ==> InDateRange(RelativeSpec(text, now).dt)
  {
    if !IsBlank(text) {
      var m := Match(StripWhiteSpace(text));
      if m.Some? {
        MatchSound(StripWhiteSpace(text));
        if m.value.Offsets? {
          ApplyTermsInRange(now, m.value.terms, if m.value.sign == '-' then -1 else 1);
        }
      }
    }
  }

  /** Whitespace anywhere in the text is irrelevant: the text means what its whitespace-free form means. */
  lemma WhiteSpaceIgnored(text: string, now: int)
    ensures RelativeSpec(text, now) == RelativeSpec(StripWhiteSpace(text), now)
  {
    var stripped := StripWhiteSpace(text);
    StripNothing(stripped);
    StripBlank(text);
    StripBlank(stripped);
  }

  /** What one capture adds to `dt` when it does not throw. */
  function Contribution(t: Term, negate: int): int {
    if AllDigits(t.digits) && IsLowerUnit(t.unit) then TermSpan(t, negate) else 0
  }

  /** Sum of what the captures add. */
  function SpanSum(ts: seq<Term>, negate: int): int
    requires WellFormedTerms(ts)
  {
    if ts == [] then 0 else Contribution(ts[0], negate) + SpanSum(ts[1..], negate)
  }

  /** Every capture's digits parse as an `int` and every partial sum stays in the `DateTime` range. */
  predicate NoOverflow(dt: int, ts: seq<Term>, negate: int)
    requires WellFormedTerms(ts)
  {
    forall k :: 0 <= k < |ts| ==>
      ParsesAsInt32(ts[k].digits) && InDateRange(dt + SpanSum(ts[..k + 1], negate))
  }

  lemma SpanSumPrefix(ts: seq<Term>, negate: int, k: nat)
    requires WellFormedTerms(ts) && k < |ts|
    ensures SpanSum(ts[..k + 1], negate) == Contribution(ts[0], negate) + SpanSum(ts[1..][..k], negate)
  {
    assert ts[..k + 1][0] == ts[0];
    assert ts[..k + 1][1..] == ts[1..][..k];
  }

  lemma NoOverflowStep(dt: int, ts: seq<Term>, negate: int)
    requires WellFormedTerms(ts) && ts != []
    requires ParsesAsInt32(ts[0].digits) && InDateRange(dt + Contribution(ts[0], negate))
    ensures NoOverflow(dt, ts, negate) <==> NoOverflow(dt + Contribution(ts[0], negate), ts[1..], negate)
  {
    if NoOverflow(dt, ts, negate) {
      NoOverflowTail(dt, ts, negate);
    }
    if NoOverflow(dt + Contribution(ts[0], negate), ts[1..], negate) {
      NoOverflowCons(dt, ts, negate);
    }
  }

  lemma NoOverflowTail(dt: int, ts: seq<Term>, negate: int)
    requires WellFormedTerms(ts) && ts != [] && NoOverflow(dt, ts, negate)
    ensures NoOverflow(dt + Contribution(ts[0], negate), ts[1..], negate)
  {
    var c := Contribution(ts[0], negate);
    var rest := ts[1..];
    forall k | 0 <= k < |rest|
      ensures ParsesAsInt32(rest[k].digits) && InDateRange(dt + c + SpanSum(rest[..k + 1], negate))
    {
      SpanSumPrefix(ts, negate, k + 1);
      assert rest[k] == ts[k + 1];
    }
  }

  lemma NoOverflowCons(dt: int, ts: seq<Term>, negate: int)
    requires WellFormedTerms(ts) && ts != []
    requires ParsesAsInt32(ts[0].digits) && InDateRange(dt + Contribution(ts[0], negate))
    requires NoOverflow(dt + Contribution(ts[0], negate), ts[1..], negate)
    ensures NoOverflow(dt, ts, negate)
  {
    var rest := ts[1..];
    forall k | 0 <= k < |ts|
      ensures ParsesAsInt32(ts[k].digits) && InDateRange(dt + SpanSum(ts[..k + 1], negate))
    {
      SpanSumPrefix(ts, negate, k);
      if k > 0 { assert ts[k] == rest[k - 1]; } else { assert rest[..0] == []; }
    }
  }

  /**
   * The accumulation in closed form: it throws exactly when a capture's
   * digits do not parse as an `int` (a non-ASCII digit, or a value above
   * `int.MaxValue`) or a partial sum leaves the `DateTime` range, and
   * otherwise ends at `dt` plus the signed sum of all spans.
   */
  lemma {:induction false} ApplyTermsClosedForm(dt: int, ts: seq<Term>, negate: int)
    requires WellFormedTerms(ts) && InDateRange(dt)
    ensures ApplyTerms(dt, ts, negate) != Threw <==> NoOverflow(dt, ts, negate)
    ensures ApplyTerms(dt, ts, negate).Relative? ==> ApplyTerms(dt, ts, negate).dt == dt + SpanSum(ts, negate)
    decreases |ts|
  {
    if ts != [] {
      var c := Contribution(ts[0], negate);
      if ParsesAsInt32(ts[0].digits) && InDateRange(dt + c) {
        FirstTermApplies(dt, ts, negate);
        ApplyTermsClosedForm(dt + c, ts[1..], negate);
        NoOverflowStep(dt, ts, negate);
      } else {
        FirstTermThrows(dt, ts, negate);
      }
    }
  }

  /** A first capture that fits and keeps the instant in range hands the rest its result. */
  lemma FirstTermApplies(dt: int, ts: seq<Term>, negate: int)
    requires WellFormedTerms(ts) && ts != [] && InDateRange(dt)
    requires ParsesAsInt32(ts[0].digits) && InDateRange(dt + Contribution(ts[0], negate))
    ensures ApplyTerms(dt, ts, negate) == ApplyTerms(dt + Contribution(ts[0], negate), ts[1..], negate)
  {
    assert ApplyTerm(dt, ts[0], negate) == Relative(dt + Contribution(ts[0], negate));
  }

  /** A first capture that does not parse, or leaves the range, makes the whole call throw. */
  lemma FirstTermThrows(dt: int, ts: seq<Term>, negate: int)
    requires WellFormedTerms(ts) && ts != [] && InDateRange(dt)
    requires !(ParsesAsInt32(ts[0].digits) && InDateRange(dt + Contribution(ts[0], negate)))
    ensures ApplyTerms(dt, ts, negate) == Threw && !NoOverflow(dt, ts, negate)
  {
    assert ApplyTerm(dt, ts[0], negate) == Threw;
    SpanSumPrefix(ts, negate, 0);
    assert ts[1..][..0] == [];
  }

  // -------------------------------------------------------------- examples

  lemma {:induction false} RenderTermsPlain(ts: seq<Term>)
    requires WellFormedTerms(ts)
    ensures forall i :: 0 <= i < |RenderTerms(ts)| ==> !IsWhiteSpace(RenderTerms(ts)[i])
  {
    if ts != [] {
      RenderTermsPlain(ts[1..]);
      var head := ts[0].digits + [ts[0].unit];
      assert forall i :: 0 <= i < |head| ==> !IsWhiteSpace(head[i]) by {
        forall i | 0 <= i < |head| ensures !IsWhiteSpace(head[i]) {
          if i < |ts[0].digits| { assert IsDecimalDigit(ts[0].digits[i]); }
        }
      }
    }
  }

  /** The meaning of the rendering of a well-formed match tree. */
  lemma SpecOfRendering(m: RelMatch, now: int)
    requires WellFormed(m)
    ensures RelativeSpec(Render(m), now) == match m
      case BareNow(_) => Relative(now)
      case Offsets(_, sign, ts) => ApplyTerms(now, ts, if sign == '-' then -1 else 1)
  {
    var text := Render(m);
    if m.Offsets? { RenderTermsPlain(m.terms); }
    assert forall i :: 0 <= i < |text| ==> !IsWhiteSpace(text[i]) by {
      forall i | 0 <= i < |text| ensures !IsWhiteSpace(text[i]) {
        if i >= 4 && m.Offsets? { assert text[i] == RenderTerms(m.terms)[i - 4]; }
      }
    }
    assert !IsBlank(text) by { assert !IsWhiteSpace(text[0]); }
    StripNothing(text);
    MatchComplete(m);
  }

  lemma OneDigit(c: char)
    requires IsAsciiDigit(c)
    ensures DecimalValue([c]) == DigitValue(c)
  {
    assert [c][..0] == [];
  }

  /** A bare `now` is the current instant. */
  lemma ExampleNow(now: int)
    ensures RelativeSpec("now", now) == Relative(now)
  {
    SpecOfRendering(BareNow("now"), now);
  }

  /** `now-1d` is one day earlier. */
  lemma ExampleMinusOneDay(now: int)
    requires InDateRange(now) && InDateRange(now - TicksPerDay)
    ensures RelativeSpec("now-1d", now) == Relative(now - TicksPerDay)
  {
    var ts := [Term("1", 'd')];
    var m := Offsets("now", '-', ts);
    assert Render(m) == "now-1d";
    SpecOfRendering(m, now);
    OneDigit('1');
    assert ApplyTerm(now, ts[0], -1) == Relative(now - TicksPerDay);
    assert ts[1..] == [];
  }

  /** The one sign applies to every term: `now-1w2d` is nine days earlier. */
  lemma ExampleMinusNineDays(now: int)
    requires InDateRange(now) && InDateRange(now - 9 * TicksPerDay)
    ensures RelativeSpec("now-1w2d", now) == Relative(now - 9 * TicksPerDay)
  {
    var ts := [Term("1", 'w'), Term("2", 'd')];
    var m := Offsets("now", '-', ts);
    assert RenderTerms(ts[1..]) == "2d" by { assert ts[1..][1..] == []; }
    assert Render(m) == "now-1w2d";
    SpecOfRendering(m, now);
    WeekThenTwoDays(now);
  }

  lemma WeekThenTwoDays(now: int)
    requires InDateRange(now) && InDateRange(now - 9 * TicksPerDay)
    ensures ApplyTerms(now, [Term("1", 'w'), Term("2", 'd')], -1) == Relative(now - 9 * TicksPerDay)
  {
    var ts := [Term("1", 'w'), Term("2", 'd')];
    OneDigit('1');
    OneDigit('2');
    assert Wrap32(-7) == -7 by { assert IsInt32(-7); }
    assert TermSpan(ts[0], -1) == -7 * TicksPerDay;
    assert ApplyTerm(now, ts[0], -1) == Relative(now - 7 * TicksPerDay);
    assert TermSpan(ts[1], -1) == -2 * TicksPerDay;
    assert ApplyTerm(now - 7 * TicksPerDay, ts[1], -1) == Relative(now - 9 * TicksPerDay);
    assert ts[1..][1..] == [];
    assert ApplyTerms(now - 7 * TicksPerDay, ts[1..], -1) == Relative(now - 9 * TicksPerDay);
  }

  /** An upper-case unit passes the ignore-case match but adds nothing: `NOW-1D` is `now`. */
  lemma ExampleUpperCaseUnit(now: int)
    requires InDateRange(now)
    ensures RelativeSpec("NOW-1D", now) == Relative(now)
  {
    var ts := [Term("1", 'D')];
    var m := Offsets("NOW", '-', ts);
    assert Render(m) == "NOW-1D";
    SpecOfRendering(m, now);
    OneDigit('1');
    assert ApplyTerm(now, ts[0], -1) == Relative(now);
    assert ts[1..] == [];
  }

  /**
   * `\d` matches every decimal digit but `int.Parse` reads only `0` to
   * `9`: `now-\U{661}d` (ARABIC-INDIC DIGIT ONE) is a relative text, and
   * evaluating it throws instead of going back one day.
   */
  lemma ExampleArabicIndicDigit(now: int)
    ensures Match("now-\U{661}d") == Some(Offsets("now", '-', [Term("\U{661}", 'd')]))
    ensures RelativeSpec("now-\U{661}d", now) == Threw
  {
    var ts := [Term("\U{661}", 'd')];
    var m := Offsets("now", '-', ts);
    assert WellFormed(m);
    assert Render(m) == "now-\U{661}d";
    MatchComplete(m);
    SpecOfRendering(m, now);
    assert !IsAsciiDigit(ts[0].digits[0]);
    assert ApplyTerm(now, ts[0], -1) == Threw;
  }

  // ------------------------------------------------------ the week overflow

  /**
   * The span of one capture with the week count computed in full width:
   * `n` weeks are always `7 * n` days.
   */
  function TermSpanIntended(t: Term, negate: int): (span: int)
    requires AllDigits(t.digits)
    ensures t.unit == 'w' ==> span == 7 * DecimalValue(t.digits) * negate * TicksPerDay
    ensures t.unit != 'w' ==> span == TermSpan(t, negate)
  {
    if t.unit == 'w' then 7 * (DecimalValue(t.digits) * negate) * TicksPerDay else TermSpan(t, negate)
  }

  /** One capture with the intended week span. */
  function ApplyTermIntended(dt: int, t: Term, negate: int): (r: Outcome)
    ensures r != NotRelative
  {
    if !ParsesAsInt32(t.digits) then Threw
    else if IsLowerUnit(t.unit) then AddTicks(dt, TermSpanIntended(t, negate))
    else Relative(dt)
  }

  /** The two agree on every week count whose day count fits in `int`, and on every other unit. */
  lemma WeekSpanAgrees(t: Term, negate: int)
    requires AllDigits(t.digits) && (negate == 1 || negate == -1)
    requires IsInt32(7 * (DecimalValue(t.digits) * negate))
    ensures TermSpan(t, negate) == TermSpanIntended(t, negate)
    ensures forall dt :: ApplyTerm(dt, t, negate) == ApplyTermIntended(dt, t, negate)
  {
  }

  /**
   * As written, `now+613566757w` is three days after `now`: `7 * 613566757`
   * is `2^32 + 3`, which the unchecked product wraps to `3`. The intended
   * span of about 11.7 million years leaves the `DateTime` range and throws.
   */
  lemma WeekOverflowExample(digits: string, now: int)
    requires |digits| >= 1 && AllDigits(digits) && DecimalValue(digits) == 613566757
    requires InDateRange(now) && InDateRange(now + 3 * TicksPerDay)
    ensures RelativeSpec(Render(Offsets("now", '+', [Term(digits, 'w')])), now) == Relative(now + 3 * TicksPerDay)
    ensures ApplyTermIntended(now, Term(digits, 'w'), 1) == Threw
  {
    var t := Term(digits, 'w');
    var m := Offsets("now", '+', [t]);
    assert WellFormed(m);
    SpecOfRendering(m, now);
    Wrap32OneTurn(7 * 613566757);
    assert TermSpan(t, 1) == 3 * TicksPerDay;
    assert ApplyTerm(now, t, 1) == Relative(now + 3 * TicksPerDay);
    assert [t][1..] == [];
    assert TermSpanIntended(t, 1) == 4294967299 * TicksPerDay;
  }
}
