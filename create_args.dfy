/** The creation grammar `parse_args` of src/main.rs: the argument vector,
    program name included, to the plan it asks to create. */
module CreateArgs {
  import opened RustText
  import opened TimeParse
  import opened Plans

  /** The time a pair of hour and minute fields holds, if both are present. */
  function SlotTime(hr: Option<I32>, min: Option<I32>): Option<HourMinute>
  {
    if hr.Some? && min.Some? then Some(HourMinute(hr.value, min.value)) else None
  }

  /** A pair of fields is either absent as a whole or a time on the clock. */
  predicate ClockSlot(hr: Option<I32>, min: Option<I32>)
  {
    (hr.None? && min.None?) || (SlotTime(hr, min).Some? && OnClock(SlotTime(hr, min).value))
  }

  /** What the client may submit: no id (the server assigns it), each slot
      whole and on the clock, and at least one of the two slots present. */
  predicate IsDraft(p: Plan)
  {
    p.id.None? && ClockSlot(p.fromHr, p.fromMin) && ClockSlot(p.toHr, p.toMin)
    && (p.fromHr.Some? || p.toHr.Some?)
  }

  /** `parse_args`: `[todo, hh:mm, title]` is an end-only plan,
      `[todo, hh:mm, ., title]` a start-only plan, `[todo, hh:mm, hh:mm, title]`
      a plan with both times; anything else is `None`. */
  function ParseArgs(args: seq<string>): (r: Option<Plan>)
    ensures r.Some? ==> IsDraft(r.value)
    ensures r.Some? ==> (|args| == 3 || |args| == 4) && r.value.title == args[|args| - 1]
  {
    if |args| == 3 && ParseHm(args[1]).Some? then
      var to := ParseHm(args[1]).value;
      Some(Plan(None, args[2], None, None, Some(to.hr), Some(to.min)))
    else if |args| == 4 && args[2] == "." && ParseHm(args[1]).Some? then
      var from := ParseHm(args[1]).value;
      Some(Plan(None, args[3], Some(from.hr), Some(from.min), None, None))
    else if |args| == 4 && args[2] != "." && ParseHm(args[1]).Some? && ParseHm(args[2]).Some? then
      var from, to := ParseHm(args[1]).value, ParseHm(args[2]).value;
      Some(Plan(None, args[3], Some(from.hr), Some(from.min), Some(to.hr), Some(to.min)))
    else None
  }

  /** Which argument vectors are accepted: three tokens whose first reads as
      a time, or four whose first reads as a time and whose second is the
      literal `.` or reads as a time too. Every other length, and every
      token that fails to read, gives `None`. */
  lemma ParseArgsAccepts(args: seq<string>)
    ensures ParseArgs(args).Some? <==>
      (|args| == 3 && ParseHm(args[1]).Some?)
      || (|args| == 4 && ParseHm(args[1]).Some? && (args[2] == "." || ParseHm(args[2]).Some?))
  {
  }

  /** What an accepted plan holds: the token count and the `.` sentinel
      decide which slots are present, and each present slot is exactly the
      time its token reads as. */
  lemma ParseArgsMeaning(args: seq<string>, p: Plan)
    requires ParseArgs(args) == Some(p)
    ensures |args| == 3 ==>
      SlotTime(p.fromHr, p.fromMin) == None && SlotTime(p.toHr, p.toMin) == ParseHm(args[1])
    ensures |args| == 4 && args[2] == "." ==>
      SlotTime(p.fromHr, p.fromMin) == ParseHm(args[1]) && SlotTime(p.toHr, p.toMin) == None
    ensures |args| == 4 && args[2] != "." ==>
      SlotTime(p.fromHr, p.fromMin) == ParseHm(args[1]) && SlotTime(p.toHr, p.toMin) == ParseHm(args[2])
  {
  }

  /** The arguments that ask for a draft, each time in `{:02}` form. */
  function ToArgs(program: string, d: Plan): (args: seq<string>)
    requires IsDraft(d)
  {
    if d.fromHr.None? then [program, ClockText(SlotTime(d.toHr, d.toMin).value), d.title]
    else if d.toHr.None? then [program, ClockText(SlotTime(d.fromHr, d.fromMin).value), ".", d.title]
    else [program, ClockText(SlotTime(d.fromHr, d.fromMin).value), ClockText(SlotTime(d.toHr, d.toMin).value), d.title]
  }

  /** Round trip: every draft is produced by some argument vector, namely its
      own times written out, so the grammar reaches every plan it may submit. */
  lemma ParseArgsToArgs(program: string, d: Plan)
    requires IsDraft(d)
    ensures ParseArgs(ToArgs(program, d)) == Some(d)
  {
    if d.fromHr.None? {
      var t := SlotTime(d.toHr, d.toMin).value;
      ParseArgsEndOnly(program, t, d.title);
      assert d == Plan(None, d.title, None, None, Some(t.hr), Some(t.min));
    } else if d.toHr.None? {
      var f := SlotTime(d.fromHr, d.fromMin).value;
      ParseArgsStartOnly(program, f, d.title);
      assert d == Plan(None, d.title, Some(f.hr), Some(f.min), None, None);
    } else {
      var f, t := SlotTime(d.fromHr, d.fromMin).value, SlotTime(d.toHr, d.toMin).value;
      ParseArgsBoth(program, f, t, d.title);
      assert d == Plan(None, d.title, Some(f.hr), Some(f.min), Some(t.hr), Some(t.min));
    }
  }

  lemma ParseArgsEndOnly(program: string, t: HourMinute, title: string)
    requires OnClock(t)
    ensures ParseArgs([program, ClockText(t), title]) == Some(Plan(None, title, None, None, Some(t.hr), Some(t.min)))
  {
    ParseHmReadsClockText(t);
  }

  lemma ParseArgsStartOnly(program: string, f: HourMinute, title: string)
    requires OnClock(f)
    ensures ParseArgs([program, ClockText(f), ".", title]) == Some(Plan(None, title, Some(f.hr), Some(f.min), None, None))
  {
    ParseHmReadsClockText(f);
  }

  lemma ParseArgsBoth(program: string, f: HourMinute, t: HourMinute, title: string)
    requires OnClock(f) && OnClock(t)
    ensures ParseArgs([program, ClockText(f), ClockText(t), title])
      == Some(Plan(None, title, Some(f.hr), Some(f.min), Some(t.hr), Some(t.min)))
  {
    ParseHmReadsClockText(f);
    ParseHmReadsClockText(t);
    assert |ClockText(t)| != 1;
  }

  /** Shapes are disjoint: `.` is never a time, so a four-token vector with
      `.` second is start-only or nothing, and a time token never serves as
      the sentinel. */
  lemma DotIsNotATime()
    ensures ParseHm(".") == None
  {
    assert Count(".", ':') == 0;
  }

  /** A created plan is listed with the separators of its absent slot and
      its present slot in `{:02}` form, whatever padding the user typed. */
  lemma RenderCreated(args: seq<string>, p: Plan)
    requires ParseArgs(args) == Some(p)
    ensures |args| == 3 ==> Render(p) == ":" + " - " + ClockText(ParseHm(args[1]).value) + " " + args[2]
    ensures |args| == 4 && args[2] == "." ==>
      Render(p) == ClockText(ParseHm(args[1]).value) + " - " + ":" + " " + args[3]
    ensures |args| == 4 && args[2] != "." ==>
      Render(p) == ClockText(ParseHm(args[1]).value) + " - " + ClockText(ParseHm(args[2]).value) + " " + args[3]
  {
    RenderNoId(p);
    if |args| == 3 {
      assert SlotText(p.toHr, p.toMin) == ClockText(ParseHm(args[1]).value);
      assert SlotText(p.fromHr, p.fromMin) == ":";
    } else if args[2] == "." {
      assert SlotText(p.fromHr, p.fromMin) == ClockText(ParseHm(args[1]).value);
      assert SlotText(p.toHr, p.toMin) == ":";
    } else {
      assert SlotText(p.fromHr, p.fromMin) == ClockText(ParseHm(args[1]).value);
      assert SlotText(p.toHr, p.toMin) == ClockText(ParseHm(args[2]).value);
    }
  }

  lemma RenderNoId(p: Plan)
    requires p.id.None?
    ensures Render(p) == SlotText(p.fromHr, p.fromMin) + " - " + SlotText(p.toHr, p.toMin) + " " + p.title
  {
    assert IdText(p.id) + SlotText(p.fromHr, p.fromMin) == SlotText(p.fromHr, p.fromMin);
  }

  /** Example: a time-like token in the title position is a title, so
      `todo 09:00 10:00` is an end-only plan titled `10:00`. */
  lemma ParseArgsNumericTitle()
    ensures ParseArgs(["todo", "09:00", "10:00"]) == Some(Plan(None, "10:00", None, None, Some(9), Some(0)))
  {
    ReadsNine();
  }

  /** Examples: the three shapes, and a minute off the clock. */
  lemma ParseArgsShapes()
    ensures ParseArgs(["todo", "09:00", ".", "Meeting"]) == Some(Plan(None, "Meeting", Some(9), Some(0), None, None))
    ensures ParseArgs(["todo", "09:00", "10:00", "Meeting"]) == Some(Plan(None, "Meeting", Some(9), Some(0), Some(10), Some(0)))
    ensures ParseArgs(["todo", "09:00", "Meeting"]) == Some(Plan(None, "Meeting", None, None, Some(9), Some(0)))
  {
    ReadsNine();
    ReadsTen();
  }

  lemma ParseArgsOffClock()
    ensures ParseArgs(["todo", "09:99", "Meeting"]) == None
  {
    Reads0999();
    ParseHmOffClock("09", "99", 9, 99);
    assert "09:99" == "09" + ":" + "99";
  }

  lemma Reads0999()
    ensures ParseI32("09") == Some(9) && ParseI32("99") == Some(99)
  {
    ParseI32Decimal(1, 9);
    ParseI32Decimal(0, 99);
    assert "09" == Zeros(1) + NatText(9) && "99" == Zeros(0) + NatText(99);
  }

  lemma ReadsNine()
    ensures ParseHm("09:00") == Some(HourMinute(9, 0))
  {
    ParseHmRoundTrip(1, 1, HourMinute(9, 0));
    assert "09:00" == (Zeros(1) + NatText(9)) + ":" + (Zeros(1) + NatText(0));
  }

  lemma ReadsTen()
    ensures ParseHm("10:00") == Some(HourMinute(10, 0))
  {
    ParseHmRoundTrip(0, 1, HourMinute(10, 0));
    assert "10:00" == (Zeros(0) + NatText(10)) + ":" + (Zeros(1) + NatText(0));
  }
}
