/**
 The physical lines of the printed feed: what lies between two line breaks of the document as it is sent, before any
 unfolding.  They are short whatever is printed, and valid UTF-8 whenever the texts are.
 */
module PhysicalLines {
  import Utf8
  import opened Decimals
  import opened Escaping
  import opened Folding
  import opened Feed

  const LIMIT: nat := 74

  /** `utf8` tells whether the texts are valid UTF-8. */
  ghost predicate Good(line: string, utf8: bool) {
    |line| <= LIMIT && (utf8 ==> Utf8.Valid(line))
  }

  ghost predicate AllGood(document: string, utf8: bool) {
    forall i :: 0 <= i < |Lines(document)| ==> Good(Lines(document)[i], utf8)
  }

  /** Both sides of a line break inside a valid text are valid. */
  lemma ValidAroundBreak(s: string, j: nat)
    requires Utf8.Valid(s) && BreakAt(s, j)
    ensures Utf8.Valid(s[..j]) && Utf8.Valid(s[j + 2..])
  {
    Utf8.CutBetweenRunes(s, j);
    Utf8.AfterAscii(s[j..]);
    assert s[j..][1..] == s[j + 1..];
    Utf8.AfterAscii(s[j + 1..]);
    assert s[j + 1..][1..] == s[j + 2..];
  }

  lemma FirstBreak(line: string, rest: string)
    ensures var j := NextBreak(line + CRLF + rest, 0);
            j <= |line| && (j < |line| ==> BreakAt(line, j))
  {
    var s := line + CRLF + rest;
    assert BreakAt(s, |line|);
    var j := NextBreak(s, 0);
    assert j < |line| ==> s[j] == line[j];
    assert s[|line|] == '\r';
  }

  /** One printed line, even with line breaks of its own. */
  lemma {:induction false} OneMore(line: string, rest: string, utf8: bool)
    requires Good(line, utf8) && AllGood(rest, utf8)
    ensures AllGood(line + CRLF + rest, utf8)
    decreases |line|
  {
    var s := line + CRLF + rest;
    var j := NextBreak(s, 0);
    FirstBreak(line, rest);
    assert s[..j] == line[..j];
    if j == |line| {
      assert s[j + 2..] == rest && line[..j] == line;
      assert Lines(s) == [line] + Lines(rest);
    } else {
      if utf8 {
        ValidAroundBreak(line, j);
      }
      assert s[j + 2..] == line[j + 2..] + CRLF + rest;
      OneMore(line[j + 2..], rest, utf8);
      assert Lines(s) == [line[..j]] + Lines(s[j + 2..]);
    }
  }

  lemma {:induction false} ContinuedGood(chunks: seq<string>, rest: string, utf8: bool)
    requires forall i :: 0 <= i < |chunks| ==> |chunks[i]| <= FOLD_AT && (utf8 ==> Utf8.Valid(chunks[i]))
    requires AllGood(rest, utf8)
    ensures AllGood(Continued(chunks) + rest, utf8)
  {
    if chunks == [] {
      assert Continued(chunks) + rest == rest;
    } else {
      ContinuedGood(chunks[1..], rest, utf8);
      var line := " " + chunks[0];
      if utf8 {
        Utf8.AsciiIsValid(" ");
        Utf8.ValidConcat(" ", chunks[0]);
      }
      OneMore(line, Continued(chunks[1..]) + rest, utf8);
      assert Continued(chunks) + rest == line + CRLF + (Continued(chunks[1..]) + rest);
    }
  }

  lemma FoldGood(line: string, rest: string, utf8: bool)
    requires utf8 ==> Utf8.Valid(line)
    requires AllGood(rest, utf8)
    ensures AllGood(Fold(line) + rest, utf8)
  {
    hide AllGood;
    var chunks := Split(line, FOLD_AT);
    SplitIsLossless(line, FOLD_AT);
    if utf8 {
      SplitKeepsUtf8(line, FOLD_AT);
    }
    ContinuedGood(chunks[1..], rest, utf8);
    OneMore(chunks[0], Continued(chunks[1..]) + rest, utf8);
    assert Fold(line) + rest == chunks[0] + CRLF + (Continued(chunks[1..]) + rest);
  }

  lemma {:induction false} FoldAllGood(lines: seq<string>, utf8: bool)
    requires utf8 ==> forall i :: 0 <= i < |lines| ==> Utf8.Valid(lines[i])
    ensures AllGood(FoldAll(lines), utf8)
  {
    if lines != [] {
      FoldAllGood(lines[1..], utf8);
      FoldGood(lines[0], FoldAll(lines[1..]), utf8);
    }
  }

  // ---------- The printed texts ----------

  ghost predicate ValidStage(stage: Stage) {
    Utf8.Valid(stage.env)
  }

  ghost predicate ValidRollout(r: Rollout) {
    && Utf8.Valid(r.id) && Utf8.Valid(r.product) && Utf8.Valid(r.title) && Utf8.Valid(r.descExt)
    && forall i :: 0 <= i < |r.stages| ==> ValidStage(r.stages[i])
  }

  ghost predicate ValidTexts(rs: seq<Rollout>, iso: int -> string) {
    (forall k :: 0 <= k < |rs| ==> ValidRollout(rs[k])) && forall t :: Utf8.Valid(iso(t))
  }

  ghost predicate ValidProps(ps: seq<Prop>) {
    forall i :: 0 <= i < |ps| ==> Utf8.Valid(LineOf(ps[i]))
  }

  lemma ValidProp(name: string, value: string)
    requires Utf8.Ascii(name) && Utf8.Valid(value)
    ensures Utf8.Valid(LineOf(Prop(name, value)))
  {
    Utf8.AsciiIsValid(name + ":");
    Utf8.ValidConcat(name + ":", value);
  }

  lemma AsciiProp(name: string, value: string)
    requires Utf8.Ascii(name) && Utf8.Ascii(value)
    ensures Utf8.Valid(LineOf(Prop(name, value)))
  {
    Utf8.AsciiIsValid(value);
    ValidProp(name, value);
  }

  lemma AsciiNumber(i: nat)
    ensures Utf8.Ascii("-" + Render(i))
  {
    hide Render;
  }

  lemma ValidUid(id: string, i: nat)
    requires Utf8.Valid(id)
    ensures Utf8.Valid(LineOf(Prop("UID", Uid(id, i))))
  {
    hide Utf8.Valid, Render;
    AsciiNumber(i);
    Utf8.AsciiIsValid("-" + Render(i));
    Utf8.AsciiIsValid("@releaseradar");
    Utf8.ValidConcat(id, "-" + Render(i));
    Utf8.ValidConcat(id + ("-" + Render(i)), "@releaseradar");
    assert id + ("-" + Render(i)) == id + "-" + Render(i);
    ValidProp("UID", Uid(id, i));
  }

  lemma ValidDash()
    ensures Utf8.Valid(" \U{E2}\U{80}\U{94} ")
  {
    var dash := "\U{E2}\U{80}\U{94}";
    assert Utf8.RuneLen(dash) == 3 && dash[3..] == "";
    Utf8.AsciiIsValid(" ");
    Utf8.ValidConcat(" ", dash);
    Utf8.ValidConcat(" " + dash, " ");
    assert " \U{E2}\U{80}\U{94} " == " " + dash + " ";
  }

  lemma ValidSummary(r: Rollout, stage: Stage)
    requires ValidRollout(r) && ValidStage(stage)
    ensures Utf8.Valid(LineOf(Prop("SUMMARY", Escape(Summary(r, stage)))))
  {
    hide Utf8.Valid, Escape;
    ValidDash();
    Utf8.AsciiIsValid("[");
    Utf8.AsciiIsValid("] ");
    Utf8.ValidConcat("[", stage.env);
    Utf8.ValidConcat("[" + stage.env, "] ");
    Utf8.ValidConcat("[" + stage.env + "] ", r.product);
    Utf8.ValidConcat("[" + stage.env + "] " + r.product, " \U{E2}\U{80}\U{94} ");
    Utf8.ValidConcat("[" + stage.env + "] " + r.product + " \U{E2}\U{80}\U{94} ", r.title);
    EscapeKeepsUtf8(Summary(r, stage));
    ValidProp("SUMMARY", Escape(Summary(r, stage)));
  }

  lemma ValidStatus(status: Status)
    ensures Utf8.Valid(LineOf(Prop("STATUS", StatusText(status))))
  {
    AsciiProp("STATUS", StatusText(status));
  }

  lemma ValidMarkers()
    ensures Utf8.Valid(LineOf(Prop("BEGIN", "VEVENT"))) && Utf8.Valid(LineOf(Prop("END", "VEVENT")))
  {
    AsciiProp("BEGIN", "VEVENT");
    AsciiProp("END", "VEVENT");
  }

  lemma ValidFrame()
    ensures Utf8.Valid(LineOf(Prop("BEGIN", "VCALENDAR"))) && Utf8.Valid(LineOf(Prop("END", "VCALENDAR")))
  {
    hide Utf8.Valid, LineOf;
    AsciiProp("BEGIN", "VCALENDAR");
    AsciiProp("END", "VCALENDAR");
  }

  lemma ValidIdentity()
    ensures Utf8.Valid(LineOf(Prop("VERSION", "2.0"))) && Utf8.Valid(LineOf(Prop("PRODID", "-//ReleaseRadar//EN")))
  {
    hide Utf8.Valid, LineOf;
    AsciiProp("VERSION", "2.0");
    AsciiProp("PRODID", "-//ReleaseRadar//EN");
  }

  lemma ValidScale()
    ensures Utf8.Valid(LineOf(Prop("CALSCALE", "GREGORIAN"))) && Utf8.Valid(LineOf(Prop("METHOD", "PUBLISH")))
  {
    hide Utf8.Valid, LineOf;
    AsciiProp("CALSCALE", "GREGORIAN");
    AsciiProp("METHOD", "PUBLISH");
  }

  lemma ValidNaming()
    ensures Utf8.Valid(LineOf(Prop("X-WR-CALNAME", "ReleaseRadar Rollouts")))
    ensures Utf8.Valid(LineOf(Prop("X-WR-TIMEZONE", "UTC")))
  {
    hide Utf8.Valid, LineOf;
    AsciiProp("X-WR-CALNAME", "ReleaseRadar Rollouts");
    AsciiProp("X-WR-TIMEZONE", "UTC");
  }

  lemma ValidHeader()
    ensures ValidProps(Header() + [Prop("END", "VCALENDAR")])
  {
    hide Utf8.Valid, LineOf;
    ValidFrame();
    ValidIdentity();
    ValidScale();
    ValidNaming();
  }

  lemma ValidTimes(r: Rollout, i: nat, now: int, iso: int -> string)
    requires i < |r.stages| && forall t :: Utf8.Valid(iso(t))
    ensures Utf8.Valid(LineOf(Prop("DTSTAMP", iso(now))))
    ensures Utf8.Valid(LineOf(Prop("DTSTART", iso(r.stages[i].startAt))))
    ensures Utf8.Valid(LineOf(Prop("DTEND", iso(EndOf(r.stages[i])))))
  {
    hide Utf8.Valid, LineOf, EndOf;
    ValidProp("DTSTAMP", iso(now));
    ValidProp("DTSTART", iso(r.stages[i].startAt));
    ValidProp("DTEND", iso(EndOf(r.stages[i])));
  }

  lemma ValidDescription(r: Rollout)
    requires ValidRollout(r)
    ensures Utf8.Valid(LineOf(Prop("DESCRIPTION", Escape(r.descExt))))
  {
    EscapeKeepsUtf8(r.descExt);
    ValidProp("DESCRIPTION", Escape(r.descExt));
  }

  lemma ValidEvent(r: Rollout, i: nat, now: int, iso: int -> string)
    requires i < |r.stages| && ValidRollout(r) && forall t :: Utf8.Valid(iso(t))
    ensures ValidProps(EventProps(r, i, now, iso))
  {
    hide Utf8.Valid, LineOf, Uid, Summary, Escape, StatusText, EndOf;
    ValidMarkers();
    ValidUid(r.id, i);
    ValidTimes(r, i, now, iso);
    ValidSummary(r, r.stages[i]);
    ValidDescription(r);
    ValidStatus(r.stages[i].status);
  }

  lemma {:induction false} ValidStages(r: Rollout, n: nat, now: int, iso: int -> string)
    requires n <= |r.stages| && ValidRollout(r) && forall t :: Utf8.Valid(iso(t))
    ensures ValidProps(StageProps(r, n, now, iso))
  {
    hide Utf8.Valid, LineOf, EventProps;
    if n > 0 {
      ValidStages(r, n - 1, now, iso);
      ValidEvent(r, n - 1, now, iso);
    }
  }

  lemma {:induction false} ValidRollouts(rs: seq<Rollout>, now: int, iso: int -> string)
    requires ValidTexts(rs, iso)
    ensures ValidProps(RolloutProps(rs, now, iso))
  {
    hide Utf8.Valid, LineOf, StageProps, ValidRollout;
    if rs != [] {
      var n := |rs| - 1;
      ValidRollouts(rs[..n], now, iso);
      ValidStages(rs[n], |rs[n].stages|, now, iso);
    }
  }

  lemma ValidCalendar(rs: seq<Rollout>, now: int, iso: int -> string)
    requires ValidTexts(rs, iso)
    ensures ValidProps(CalendarProps(rs, now, iso))
  {
    hide Utf8.Valid, LineOf, Header, RolloutProps, ValidTexts;
    ValidHeader();
    ValidRollouts(rs, now, iso);
    var close := [Prop("END", "VCALENDAR")];
    forall i | 0 <= i < |Header()| ensures Header()[i] == (Header() + close)[i] {}
    assert close[0] == (Header() + close)[|Header()|];
  }

  /**
   Every physical line of the feed has at most 74 octets, whatever the rollouts contain, and is valid UTF-8 whenever the
   texts of the rollouts are.
   */
  lemma FeedLinesAreGood(rs: seq<Rollout>, now: int, iso: int -> string, i: nat)
    requires i < |Lines(Document(rs, now, iso))|
    ensures |Lines(Document(rs, now, iso))[i]| <= 74
    ensures ValidTexts(rs, iso) ==> Utf8.Valid(Lines(Document(rs, now, iso))[i])
  {
    hide Utf8.Valid, LineOf, CalendarProps, Lines;
    var ps := CalendarProps(rs, now, iso);
    FoldAllGood(LinesOf(ps), false);
    if ValidTexts(rs, iso) {
      ValidCalendar(rs, now, iso);
      FoldAllGood(LinesOf(ps), true);
    }
  }
}
