/** The time-token parser `hm` of src/main.rs: `H:M` on a 24-hour clock. */
module TimeParse {
  import opened RustText

  /** The `(hour, minute)` pair `hm` returns. */
  datatype HourMinute = HourMinute(hr: I32, min: I32)

  predicate OnClock(t: HourMinute) { 0 <= t.hr <= 23 && 0 <= t.min <= 59 }

  /** `hm`: split on `:`, insist on exactly two pieces, read each as an `i32`,
      and accept the pair only on the 24-hour clock. */
  function ParseHm(token: string): (r: Option<HourMinute>)
    ensures r.Some? ==> OnClock(r.value)
    ensures r.Some? ==> Count(token, ':') == 1
  {
    var time := Split(token, ':');
    if |time| != 2 then None
    else
      var hr := ParseI32(time[0]);
      var min := ParseI32(time[1]);
      if hr.Some? && min.Some? then
        if hr.value < 0 || hr.value > 23 || min.value < 0 || min.value > 59 then None
        else Some(HourMinute(hr.value, min.value))
      else None
  }

  /** The canonical text of a time: both fields in `{:02}`, joined by `:`,
      as the plan listing prints them. */
  function ClockText(t: HourMinute): string
  {
    Pad2(t.hr) + ":" + Pad2(t.min)
  }

  /** Reference reading of a time token, by position instead of by splitting:
      the token has one colon, at `i`, and the text on either side of it reads
      as the hour and the minute, both on the clock. */
  ghost predicate ClockAt(token: string, i: int, t: HourMinute)
  {
    0 <= i < |token| && token[i] == ':' && ':' !in token[..i] && ':' !in token[i + 1..]
    && ParseI32(token[..i]) == Some(t.hr) && ParseI32(token[i + 1..]) == Some(t.min)
    && OnClock(t)
  }

  /** What `hm` does to a token made of two colon-free pieces. */
  lemma ParseHmPieces(a: string, b: string)
    requires ':' !in a && ':' !in b
    ensures ParseHm(a + ":" + b) ==
      if ParseI32(a).Some? && ParseI32(b).Some? && OnClock(HourMinute(ParseI32(a).value, ParseI32(b).value))
      then Some(HourMinute(ParseI32(a).value, ParseI32(b).value))
      else None
  {
    SplitAround(a, b, ':');
  }

  /** `hm` accepts a token exactly when it has the reference reading. */
  lemma ParseHmMeaning(token: string, t: HourMinute)
    ensures ParseHm(token) == Some(t) <==> exists i :: ClockAt(token, i, t)
  {
    if ParseHm(token) == Some(t) {
      ParseHmFound(token, t);
    }
    if exists i :: ClockAt(token, i, t) {
      var i :| ClockAt(token, i, t);
      ParseHmAt(token, i, t);
    }
  }

  lemma ParseHmFound(token: string, t: HourMinute)
    requires ParseHm(token) == Some(t)
    ensures ClockAt(token, |Split(token, ':')[0]|, t)
  {
    var time := Split(token, ':');
    var i := |time[0]|;
    assert Join(time[1..], ':') == time[1];
    assert token == time[0] + [':'] + time[1];
    assert token[..i] == time[0] && token[i + 1..] == time[1];
  }

  lemma ParseHmAt(token: string, i: int, t: HourMinute)
    requires ClockAt(token, i, t)
    ensures ParseHm(token) == Some(t)
  {
    assert token == token[..i] + ":" + token[i + 1..];
    ParseHmPieces(token[..i], token[i + 1..]);
  }

  /** Round trip: every clock time is read back from its decimal text, with
      any number of leading zeros on either side (none included), and from
      the text the plan listing prints. */
  lemma ParseHmRoundTrip(hpad: nat, mpad: nat, t: HourMinute)
    requires OnClock(t)
    ensures ParseHm((Zeros(hpad) + NatText(t.hr)) + ":" + (Zeros(mpad) + NatText(t.min))) == Some(t)
    ensures ParseHm(ClockText(t)) == Some(t)
  {
    ParseI32Decimal(hpad, t.hr);
    ParseI32Decimal(mpad, t.min);
    ParseHmReads(Zeros(hpad) + NatText(t.hr), Zeros(mpad) + NatText(t.min), t);
    ParseHmReadsClockText(t);
  }

  lemma ParseHmReadsClockText(t: HourMinute)
    requires OnClock(t)
    ensures ParseHm(ClockText(t)) == Some(t)
  {
    Pad2ReadsBack(t.hr);
    Pad2ReadsBack(t.min);
    ParseHmReads(Pad2(t.hr), Pad2(t.min), t);
  }

  lemma ParseHmReads(a: string, b: string, t: HourMinute)
    requires AllDigits(a) && AllDigits(b) && OnClock(t)
    requires ParseI32(a) == Some(t.hr) && ParseI32(b) == Some(t.min)
    ensures ParseHm(a + ":" + b) == Some(t)
  {
    ParseHmPieces(a, b);
  }

  /** A well-formed token whose hour or minute is off the clock is refused. */
  lemma ParseHmOffClock(a: string, b: string, h: int, m: int)
    requires ':' !in a && ':' !in b
    requires ParseI32(a) == Some(h) && ParseI32(b) == Some(m)
    requires h < 0 || h > 23 || m < 0 || m > 59
    ensures ParseHm(a + ":" + b) == None
  {
    ParseHmPieces(a, b);
  }

  /** An empty piece on either side of the colon is refused. */
  lemma ParseHmEmptyPiece(s: string)
    ensures ParseHm(":" + s) == None && ParseHm(s + ":") == None
  {
    if ParseHm(s + ":").Some? {
      ParseHmFound(s + ":", ParseHm(s + ":").value);
    }
  }

  /** A piece that starts with neither a sign nor a digit is refused, on
      either side of the colon. */
  lemma ParseHmBadLead(a: string, b: string)
    requires ':' !in a && ':' !in b
    requires (|a| > 0 && a[0] != '+' && a[0] != '-' && !IsDigit(a[0]))
          || (|b| > 0 && b[0] != '+' && b[0] != '-' && !IsDigit(b[0]))
    ensures ParseHm(a + ":" + b) == None
  {
    ParseHmPieces(a, b);
  }

  /** Examples: a letter before the hour or before the minute. */
  lemma ParseHmLetters()
    ensures ParseHm("a9:00") == None && ParseHm("9:x5") == None
  {
    ParseHmBadLead("a9", "00");
    ParseHmBadLead("9", "x5");
    assert "a9:00" == "a9" + ":" + "00";
    assert "9:x5" == "9" + ":" + "x5";
  }

  /** Examples: a token is read with or without zero padding, and with the
      signs `str::parse` admits; `-0` is hour zero. */
  lemma ParseHmUnpadded()
    ensures ParseHm("9:5") == Some(HourMinute(9, 5))
  {
    ParseHmRoundTrip(0, 0, HourMinute(9, 5));
    assert "9:5" == (Zeros(0) + NatText(9)) + ":" + (Zeros(0) + NatText(5));
  }

  lemma ParseHmPadded()
    ensures ParseHm("09:05") == Some(HourMinute(9, 5))
  {
    ParseHmRoundTrip(1, 1, HourMinute(9, 5));
    assert "09:05" == (Zeros(1) + NatText(9)) + ":" + (Zeros(1) + NatText(5));
  }

  lemma ParseHmSigned()
    ensures ParseHm("-0:+30") == Some(HourMinute(0, 30))
  {
    SignedPieces();
    ParseHmPieces("-0", "+30");
    assert "-0:+30" == "-0" + ":" + "+30";
  }

  lemma SignedPieces()
    ensures ParseI32("-0") == Some(0) && ParseI32("+30") == Some(30)
  {
    ParseI32NegatedDecimal(0, 0);
    ParseI32Decimal(0, 30);
    assert "-0" == "-" + (Zeros(0) + NatText(0));
    assert "+30" == "+" + (Zeros(0) + NatText(30));
  }

  /** Examples: well-formed tokens off the clock are refused. */
  lemma ParseHmHour24()
    ensures ParseHm("24:00") == None
  {
    Hour24Pieces();
    ParseHmOffClock("24", "00", 24, 0);
    assert "24:00" == "24" + ":" + "00";
  }

  lemma Hour24Pieces()
    ensures ParseI32("24") == Some(24) && ParseI32("00") == Some(0)
  {
    ParseI32Decimal(0, 24);
    ParseI32Decimal(1, 0);
    assert "24" == Zeros(0) + NatText(24) && "00" == Zeros(1) + NatText(0);
  }

  lemma ParseHmMinute60()
    ensures ParseHm("10:60") == None
  {
    ParseI32Decimal(0, 10);
    ParseI32Decimal(0, 60);
    assert "10" == Zeros(0) + NatText(10) && "60" == Zeros(0) + NatText(60);
    ParseHmOffClock("10", "60", 10, 60);
    assert "10:60" == "10" + ":" + "60";
  }

  /** Examples: a token without a colon, or with two, is refused. */
  lemma ParseHmColons()
    ensures ParseHm("10") == None && ParseHm("1:2:3") == None
  {
    assert Count("10", ':') == 0;
    assert Count("1:2:3", ':') == 2;
  }
}
