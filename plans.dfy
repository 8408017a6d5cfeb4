/** The `Plan` record of src/main.rs and its one-line rendering
    (`impl ToString for Plan`). */
module Plans {
  import opened RustText

  /** A plan as the server stores it and the client submits it: an id the
      server assigns, a title, and optional start and end hours and minutes. */
  datatype Plan = Plan(
    id: Option<I32>,
    title: string,
    fromHr: Option<I32>,
    fromMin: Option<I32>,
    toHr: Option<I32>,
    toMin: Option<I32>)

  /** One optional time field: `{:02}` when present, nothing when absent. */
  function FieldText(v: Option<I32>): (r: string)
    ensures AllNumeral(r)
    ensures v.None? <==> r == []
  {
    match v
    case None => ""
    case Some(n) => Pad2(n)
  }

  /** The optional `[id] ` prefix, the id written with `{}`. */
  function IdText(id: Option<I32>): (r: string)
    ensures id.None? <==> r == []
    ensures id.Some? ==> r[0] == '['
  {
    match id
    case None => ""
    case Some(n) => "[" + IntText(n) + "] "
  }

  /** One hour-and-minute slot: both fields around a `:` that is written
      even when the fields are absent. */
  function SlotText(hr: Option<I32>, min: Option<I32>): string
  {
    FieldText(hr) + ":" + FieldText(min)
  }

  /** The text `Plan::to_string` builds: the optional id prefix, the start
      slot, ` - `, the end slot, a space and the title. */
  function Render(p: Plan): string
  {
    IdText(p.id) + SlotText(p.fromHr, p.fromMin) + " - " + SlotText(p.toHr, p.toMin) + " " + p.title
  }

  /** `Plan::to_string`, pushing one piece after another onto `s`. */
  method ToString(p: Plan) returns (s: string)
    ensures s == Render(p)
  {
    s := "";
    match p.id {
      case Some(id) => s := s + "[" + IntText(id) + "] ";
      case None =>
    }
    assert s == IdText(p.id);
    s := PushSlot(s, p.fromHr, p.fromMin);
    s := s + " - ";
    s := PushSlot(s, p.toHr, p.toMin);
    s := s + " ";
    s := s + p.title;
  }

  /** The pushes of one slot: hour, `:`, minute. */
  method PushSlot(s: string, hr: Option<I32>, min: Option<I32>) returns (t: string)
    ensures t == s + SlotText(hr, min)
  {
    t := PushField(s, hr);
    t := t + ":";
    t := PushField(t, min);
  }

  /** One `if let Some(v) = field { s.push_str(&format!("{:02}", v)) }`. */
  method PushField(s: string, v: Option<I32>) returns (t: string)
    ensures t == s + FieldText(v)
  {
    t := s;
    match v {
      case Some(n) => t := t + Pad2(n);
      case None =>
    }
  }

  /** Numeral text followed by a character that cannot belong to a numeral
      ends exactly there, so two such texts that agree are the same split. */
  lemma CancelNumeral(x: string, y: string, c: char, rx: string, ry: string)
    requires AllNumeral(x) && AllNumeral(y) && !IsNumeral(c)
    requires x + [c] + rx == y + [c] + ry
    ensures x == y && rx == ry
  {
    var s := x + [c] + rx;
    assert !IsNumeral(s[|x|]) && !IsNumeral(s[|y|]);
    assert forall i :: 0 <= i < |x| ==> IsNumeral(s[i]);
    assert forall i :: 0 <= i < |y| ==> IsNumeral(s[i]);
    assert |x| == |y|;
    assert x == s[..|x|] && y == s[..|y|];
    assert rx == s[|x| + 1..] && ry == s[|y| + 1..];
  }

  lemma FieldTextInjective(a: Option<I32>, b: Option<I32>)
    requires FieldText(a) == FieldText(b)
    ensures a == b
  {
    if a.Some? && b.Some? {
      Pad2ReadsBack(a.value);
      Pad2ReadsBack(b.value);
    }
  }

  /** The id prefix can be told apart from what follows it, as long as that
      does not start with `[`. */
  lemma CancelIdText(a: Option<I32>, b: Option<I32>, rx: string, ry: string)
    requires rx != [] && ry != [] && rx[0] != '[' && ry[0] != '['
    requires IdText(a) + rx == IdText(b) + ry
    ensures a == b && rx == ry
  {
    var s := IdText(a) + rx;
    assert s[0] == (if a.Some? then '[' else rx[0]);
    assert s[0] == (if b.Some? then '[' else ry[0]);
    if a.Some? {
      assert b.Some?;
      CancelBracketed(IntText(a.value), IntText(b.value), rx, ry);
      IntTextReadsBack(a.value);
      IntTextReadsBack(b.value);
      assert a.value == b.value;
    } else {
      assert b.None?;
      assert IdText(a) + rx == rx && IdText(b) + ry == ry;
    }
  }

  lemma CancelBracketed(x: string, y: string, rx: string, ry: string)
    requires AllNumeral(x) && AllNumeral(y)
    requires "[" + x + "] " + rx == "[" + y + "] " + ry
    ensures x == y && rx == ry
  {
    var s := "[" + x + "] " + rx;
    assert s[1..] == x + [']'] + ([' '] + rx);
    assert s[1..] == y + [']'] + ([' '] + ry);
    CancelNumeral(x, y, ']', [' '] + rx, [' '] + ry);
    assert rx == ([' '] + rx)[1..];
  }

  /** A slot followed by a separator other than `:` or a numeral character
      can be told apart from what follows it. */
  lemma CancelSlot(h1: Option<I32>, m1: Option<I32>, h2: Option<I32>, m2: Option<I32>,
                   c: char, rx: string, ry: string)
    requires !IsNumeral(c)
    requires SlotText(h1, m1) + [c] + rx == SlotText(h2, m2) + [c] + ry
    ensures h1 == h2 && m1 == m2 && rx == ry
  {
    RegroupSlot(FieldText(h1), FieldText(m1), c, rx);
    RegroupSlot(FieldText(h2), FieldText(m2), c, ry);
    CancelNumeral(FieldText(h1), FieldText(h2), ':', FieldText(m1) + [c] + rx, FieldText(m2) + [c] + ry);
    CancelNumeral(FieldText(m1), FieldText(m2), c, rx, ry);
    FieldTextInjective(h1, h2);
    FieldTextInjective(m1, m2);
  }

  /** Rendering loses nothing: different plans never print the same line.
      This holds for every plan, also for values outside the clock, because
      `{:02}` neither truncates nor drops the sign. */
  lemma RenderInjective(p: Plan, q: Plan)
    requires Render(p) == Render(q)
    ensures p == q
  {
    RenderSplits(p);
    RenderSplits(q);
    CancelIdText(p.id, q.id, Tail(p), Tail(q));
    CancelSlot(p.fromHr, p.fromMin, q.fromHr, q.fromMin, ' ', Rest(p), Rest(q));
    assert Rest(p)[2..] == SlotText(p.toHr, p.toMin) + [' '] + p.title;
    assert Rest(q)[2..] == SlotText(q.toHr, q.toMin) + [' '] + q.title;
    CancelSlot(p.toHr, p.toMin, q.toHr, q.toMin, ' ', p.title, q.title);
  }

  /** Everything after the id prefix. */
  function Tail(p: Plan): string
  {
    SlotText(p.fromHr, p.fromMin) + [' '] + Rest(p)
  }

  /** Everything after the start slot and its space. */
  function Rest(p: Plan): string
  {
    "- " + (SlotText(p.toHr, p.toMin) + [' '] + p.title)
  }

  lemma RenderSplits(p: Plan)
    ensures Render(p) == IdText(p.id) + Tail(p)
    ensures Tail(p) != [] && Tail(p)[0] != '['
  {
    RegroupLine(IdText(p.id), SlotText(p.fromHr, p.fromMin), SlotText(p.toHr, p.toMin), p.title);
    RegroupSlot(FieldText(p.fromHr), FieldText(p.fromMin), ' ', Rest(p));
    var f := FieldText(p.fromHr);
    if f != [] {
      assert Tail(p)[0] == f[0];
    }
  }

  lemma RegroupLine(i: string, s1: string, s2: string, t: string)
    ensures i + s1 + " - " + s2 + " " + t == i + (s1 + [' '] + ("- " + (s2 + [' '] + t)))
  {
  }

  lemma RegroupSlot(f: string, g: string, c: char, r: string)
    ensures f + ":" + g + [c] + r == f + [':'] + (g + [c] + r)
  {
  }

  /** Example: a stored plan with an id and both times. */
  lemma RenderFullExample()
    ensures Render(Plan(Some(5), "Standup", Some(9), Some(30), Some(10), Some(0))) == "[5] 09:30 - 10:00 Standup"
  {
    var p := Plan(Some(5), "Standup", Some(9), Some(30), Some(10), Some(0));
    IdFive();
    SlotExamples();
    RenderOf(p, "[5] ", "09:30", "10:00");
    FullLine();
  }

  lemma FullLine()
    ensures "[5] " + "09:30" + " - " + "10:00" + " " + "Standup" == "[5] 09:30 - 10:00 Standup"
  {
  }

  lemma IdFive()
    ensures IdText(Some(5)) == "[5] "
  {
    assert IntText(5) == "5";
  }

  /** `Render` in terms of already known texts of its pieces. */
  lemma RenderOf(p: Plan, i: string, a: string, b: string)
    requires IdText(p.id) == i && SlotText(p.fromHr, p.fromMin) == a && SlotText(p.toHr, p.toMin) == b
    ensures Render(p) == i + a + " - " + b + " " + p.title
  {
  }

  lemma SlotExamples()
    ensures SlotText(Some(9), Some(30)) == "09:30" && SlotText(Some(10), Some(0)) == "10:00"
  {
    PadExamples();
  }

  /** Example: a new plan with only an end time keeps the separators of the
      absent start time. */
  lemma RenderEndOnlyExample()
    ensures Render(Plan(None, "X", None, None, Some(9), Some(30))) == ": - 09:30 X"
  {
    SlotExamples();
  }

  /** `{:02}` pads with a zero, leaves two digits alone, and neither truncates
      wider values nor pads after a minus sign. */
  lemma PadExamples()
    ensures Pad2(0) == "00" && Pad2(9) == "09" && Pad2(30) == "30" && Pad2(10) == "10"
    ensures Pad2(123) == "123" && Pad2(-5) == "-5"
  {
  }
}
