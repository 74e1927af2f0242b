/**
 * The departure data the live-departure example reads and the one-line
 * summary it builds from it: `countdown` (the status word of one departure)
 * and `parse_response` (all departures folded, in order, into one string).
 */
module Departures {
  import opened Wrappers
  import RustInt

  /** The three fields of a departure record the summary uses. The countdown is the server's text token. */
  datatype Departure = Departure(countdown: string, symbol: string, direction: string)

  /** The transport or decoding error of a request, kept opaque. */
  datatype FetchError = FetchError(description: string)

  /** What one departure-monitor request yields: the departure list, or an error. */
  datatype FetchResult = Fetched(departures: seq<Departure>) | FetchFailed(error: FetchError)

  /** The countdown the server sends for a cancelled departure. */
  const CancelledSentinel: string := "-9999"

  /** The countdown as an integer, where text that does not parse as an `i32` counts as 0. */
  function LenientMinutes(c: string): int {
    match RustInt.ParseI32(c)
    case Some(v) => v
    case None => 0
  }

  /** The status word shown for one departure. */
  function Countdown(c: string): (r: string)
    ensures c == CancelledSentinel ==> r == "cancelled"
    ensures c == "" ==> r == "unknown"
    ensures c != CancelledSentinel && c != "" ==>
              r == if RustInt.ParseI32(c).Some? && RustInt.ParseI32(c).value > 0 then c + " min" else "now"
  {
    if c == CancelledSentinel then "cancelled"
    else if c == "" then "unknown"
    else if LenientMinutes(c) <= 0 then "now"
    else c + " min"
  }

  /** The text one departure contributes to the summary line. */
  function Segment(d: Departure): (seg: string)
    ensures |seg| >= 5 + |d.direction| && seg[..5] == " :: ("
    ensures seg[|seg| - |d.direction|..] == d.direction
  {
    var head := " :: (" + Countdown(d.countdown) + ") [" + d.symbol + "] ";
    assert head[..5] == " :: (";
    head + d.direction
  }

  /** The left fold of the source: `acc` grows by one segment per departure, front to back. */
  function FoldSegments(acc: string, ds: seq<Departure>): string
    decreases |ds|
  {
    if ds == [] then acc else FoldSegments(acc + Segment(ds[0]), ds[1..])
  }

  /** The reference meaning of the summary: the segments of all departures, concatenated in list order. */
  function Concatenated(ds: seq<Departure>): string
    decreases |ds|
  {
    if ds == [] then "" else Segment(ds[0]) + Concatenated(ds[1..])
  }

  lemma {:induction false} FoldIsConcatenation(acc: string, ds: seq<Departure>)
    ensures FoldSegments(acc, ds) == acc + Concatenated(ds)
    decreases |ds|
  {
    if ds != [] {
      var seg := Segment(ds[0]);
      FoldIsConcatenation(acc + seg, ds[1..]);
      assert Concatenated(ds) == seg + Concatenated(ds[1..]);
    }
  }

  lemma {:induction false} ConcatenatedEmptyIff(ds: seq<Departure>)
    ensures Concatenated(ds) == "" <==> ds == []
  {
    if ds != [] {
      assert Segment(ds[0])[0] == ' ';
    }
  }

  /** `parse_response`: the summary line of a departure list. */
  function ParseResponse(ds: seq<Departure>): (line: string)
    ensures line == Concatenated(ds)
    ensures line == "" <==> ds == []
  {
    FoldIsConcatenation("", ds);
    ConcatenatedEmptyIff(ds);
    FoldSegments("", ds)
  }

  /** The summary of a concatenated list is the concatenation of the summaries. */
  lemma {:induction false} ParseResponseAppend(a: seq<Departure>, b: seq<Departure>)
    ensures ParseResponse(a + b) == ParseResponse(a) + ParseResponse(b)
  {
    ConcatenatedAppend(a, b);
  }

  lemma {:induction false} ConcatenatedAppend(a: seq<Departure>, b: seq<Departure>)
    ensures Concatenated(a + b) == Concatenated(a) + Concatenated(b)
    decreases |a|
  {
    if a != [] {
      var seg := Segment(a[0]);
      assert (a + b)[0] == a[0];
      assert (a + b)[1..] == a[1..] + b;
      ConcatenatedAppend(a[1..], b);
      StringAssoc(seg, Concatenated(a[1..]), Concatenated(b));
    } else {
      assert a + b == b;
    }
  }

  lemma StringAssoc(x: string, y: string, z: string)
    ensures x + (y + z) == (x + y) + z
  {
  }

  /** A list of three departures gives their three segments, in order. */
  lemma ParseResponseOfThree(d0: Departure, d1: Departure, d2: Departure)
    ensures ParseResponse([d0, d1, d2]) == Segment(d0) + Segment(d1) + Segment(d2)
  {
    assert [d0, d1, d2][1..] == [d1, d2];
    assert [d1, d2][1..] == [d2];
    assert [d2][1..] == [];
    assert Concatenated([d2]) == Segment(d2);
    assert Concatenated([d1, d2]) == Segment(d1) + Segment(d2);
  }

  /** A single cancelled departure reads `cancelled`, followed by its line symbol and direction exactly as sent. */
  lemma CancelledDeparture(symbol: string, direction: string)
    ensures ParseResponse([Departure(CancelledSentinel, symbol, direction)])
         == " :: (cancelled) [" + symbol + "] " + direction
  {
    var d := Departure(CancelledSentinel, symbol, direction);
    assert [d][1..] == [];
    assert Concatenated([d]) == Segment(d) + "";
  }

  /** The sentinel and the empty token are tested before any parse: "-9999" itself parses to a negative number. */
  lemma SpecialTokens()
    ensures Countdown(CancelledSentinel) == "cancelled"
    ensures Countdown("") == "unknown"
    ensures RustInt.ParseI32(CancelledSentinel) == Some(-9999)
  {
    RustInt.ParseFormatRoundTrip(-9999);
    assert RustInt.FormatInt(-9999) == CancelledSentinel;
  }

  /** Leniency: a non-empty, non-sentinel token that is not an `i32` is shown as `now`. */
  lemma UnparseableIsNow(c: string)
    requires c != CancelledSentinel && c != ""
    requires RustInt.ParseI32(c) == None
    ensures Countdown(c) == "now"
  {
  }

  /** A token that parses to a positive `i32` is shown as its own text, unnormalised, followed by " min". */
  lemma PositiveKeepsText(c: string)
    requires RustInt.ParseI32(c).Some? && RustInt.ParseI32(c).value > 0
    ensures Countdown(c) == c + " min"
  {
    SpecialTokens();
  }

  /** For the decimal text of any 32-bit value: positive values show as "<text> min", the others as `now`, except the sentinel. */
  lemma CountdownOfNumber(v: int)
    requires RustInt.InI32(v) && v != -9999
    ensures Countdown(RustInt.FormatInt(v)) == if v > 0 then RustInt.FormatInt(v) + " min" else "now"
  {
    RustInt.ParseFormatRoundTrip(v);
    var c := RustInt.FormatInt(v);
    if c == CancelledSentinel {
      SpecialTokens();
    }
    RustInt.FormatNatDigits(if v < 0 then -v else v);
  }

  /** For every numeral the parse accepts, signed or padded with zeros ("-0", "+0", "00", "-007", "+005"): a positive value keeps its text, any other shows `now`. */
  lemma CountdownOfNumeral(sign: string, k: nat, n: nat)
    requires RustInt.IsSign(sign)
    requires RustInt.Numeral(sign, k, n) != CancelledSentinel
    ensures var c := RustInt.Numeral(sign, k, n);
            Countdown(c) == if sign != "-" && n > 0 && n <= RustInt.I32Max then c + " min" else "now"
  {
    RustInt.ParseNumeral(sign, k, n);
    RustInt.FormatNatDigits(n);
    assert RustInt.Numeral(sign, k, n) != "";
  }

  /** Zero written with a sign or padding, and padded negative numbers, all show `now`. */
  lemma ZeroTokensAreNow()
    ensures Countdown("-0") == "now" && Countdown("+0") == "now"
    ensures Countdown("00") == "now" && Countdown("-007") == "now"
  {
    assert RustInt.FormatNat(0) == "0" && RustInt.FormatNat(7) == "7";
    assert RustInt.Zeros(1) == "0" && RustInt.Zeros(2) == "00";
    assert RustInt.Numeral("-", 0, 0) == "-0";
    assert RustInt.Numeral("+", 0, 0) == "+0";
    assert RustInt.Numeral("", 1, 0) == "00";
    assert RustInt.Numeral("-", 2, 7) == "-007";
    CountdownOfNumeral("-", 0, 0);
    CountdownOfNumeral("+", 0, 0);
    CountdownOfNumeral("", 1, 0);
    CountdownOfNumeral("-", 2, 7);
  }

  /** A countdown beyond the `i32` range does not parse and is shown as `now`. */
  lemma OverflowIsNow(v: int)
    requires v > RustInt.I32Max
    ensures Countdown(RustInt.FormatInt(v)) == "now"
  {
    RustInt.ParseRejectsOverflow(v);
    RustInt.FormatNatDigits(v);
  }

  /** Leading zeros and a plus sign are accepted by the parse and kept in the displayed text. */
  lemma UnnormalisedText()
    ensures Countdown("007") == "007 min"
    ensures Countdown("+5") == "+5 min"
  {
    assert RustInt.AllDigits("007");
    assert RustInt.DigitsValue("007") == 7 by {
      assert "007"[..2] == "00";
      assert "00"[..1] == "0";
      assert "0"[..0] == "";
    }
    assert "+5"[1..] == "5";
    assert RustInt.DigitsValue("5") == 5 by {
      assert "5"[..0] == "";
    }
  }
}
