/**
 A reader for the feed, and the proof that it gets back every event: unfold, split into content lines, split each line
 at its first colon, collect the properties between BEGIN:VEVENT and END:VEVENT, and unescape the texts.
 */
module FeedReader {
  import opened Options
  import opened Decimals
  import opened Escaping
  import opened Folding
  import opened Feed

  // ---------- The reader ----------

  function Colon(line: string, i: nat): (j: nat)
    requires i <= |line|
    ensures i <= j <= |line| && (j < |line| ==> line[j] == ':')
    ensures forall k :: i <= k < j ==> line[k] != ':'
    decreases |line| - i
  {
    if i == |line| || line[i] == ':' then i else Colon(line, i + 1)
  }

  function ReadProp(line: string): Option<Prop> {
    var j := Colon(line, 0);
    if j == |line| then None else Some(Prop(line[..j], line[j + 1..]))
  }

  function ReadProps(lines: seq<string>): Option<seq<Prop>> {
    if lines == [] then Some([])
    else
      var first, rest := ReadProp(lines[0]), ReadProps(lines[1..]);
      if first.None? || rest.None? then None else Some([first.value] + rest.value)
  }

  const BEGIN_EVENT: Prop := Prop("BEGIN", "VEVENT")
  const END_EVENT: Prop := Prop("END", "VEVENT")

  function Prefixed<T>(xs: seq<T>, o: Option<seq<T>>): Option<seq<T>> {
    if o.None? then None else Some(xs + o.value)
  }

  lemma PrefixedFacts<T>(xs: seq<T>, ys: seq<T>, o: Option<seq<T>>)
    ensures Prefixed(xs, Prefixed(ys, o)) == Prefixed(xs + ys, o)
    ensures Prefixed([], o) == o && Prefixed(xs, Some([])) == Some(xs)
  {
    if o.Some? {
      assert xs + (ys + o.value) == xs + ys + o.value;
      assert [] + o.value == o.value;
    }
    assert xs + [] == xs;
  }

  /** The property lists of the events; None if BEGIN and END do not balance. */
  function Scan(ps: seq<Prop>, current: Option<seq<Prop>>): Option<seq<seq<Prop>>> {
    if ps == [] then (if current.None? then Some([]) else None)
    else if ps[0] == BEGIN_EVENT then (if current.None? then Scan(ps[1..], Some([])) else None)
    else if ps[0] == END_EVENT then (if current.None? then None else Prefixed([current.value], Scan(ps[1..], None)))
    else Scan(ps[1..], if current.None? then None else Some(current.value + [ps[0]]))
  }

  function Lookup(ps: seq<Prop>, name: string): string {
    if ps == [] then "" else if ps[0].name == name then ps[0].value else Lookup(ps[1..], name)
  }

  datatype Event = Event(uid: string, stamp: string, start: string, end: string,
                         summary: string, description: string, status: string)

  function ReadEvent(body: seq<Prop>): Event {
    Event(Lookup(body, "UID"), Lookup(body, "DTSTAMP"), Lookup(body, "DTSTART"), Lookup(body, "DTEND"),
          Unescape(Lookup(body, "SUMMARY")), Unescape(Lookup(body, "DESCRIPTION")), Lookup(body, "STATUS"))
  }

  function ReadEvents(bodies: seq<seq<Prop>>): seq<Event> {
    seq(|bodies|, i requires 0 <= i < |bodies| => ReadEvent(bodies[i]))
  }

  function ReadCalendar(document: string): Option<seq<Event>> {
    var props := ReadProps(Lines(Unfold(document)));
    if props.None? then None
    else
      var bodies := Scan(props.value, None);
      if bodies.None? then None else Some(ReadEvents(bodies.value))
  }

  // ---------- What should come back ----------

  function EventOf(r: Rollout, i: nat, now: int, iso: int -> string): Event
    requires i < |r.stages|
  {
    var stage := r.stages[i];
    Event(r.id + "-" + Render(i) + "@releaseradar",
          iso(now),
          iso(stage.startAt),
          iso(stage.startAt + if stage.duration > 0 then stage.duration else 3_600_000_000_000),
          Normal("[" + stage.env + "] " + r.product + " \U{E2}\U{80}\U{94} " + r.title),
          Normal(r.descExt),
          if stage.status == Done then "CONFIRMED" else if stage.status == Blocked then "CANCELLED" else "TENTATIVE")
  }

  /** One event per stage, in order. */
  function EventsOf(rs: seq<Rollout>, now: int, iso: int -> string): seq<Event> {
    if rs == [] then []
    else
      var n := |rs| - 1;
      var r := rs[n];
      EventsOf(rs[..n], now, iso) + seq(|r.stages|, i requires 0 <= i < |r.stages| => EventOf(r, i, now, iso))
  }

  // ---------- Lines ----------

  /** The property can be told apart from its value, and its line is not taken for a continuation. */
  ghost predicate Named(p: Prop) {
    p.name != "" && !Blank(p.name[0]) && ':' !in p.name && '\r' !in p.name
  }

  ghost predicate AllNamed(ps: seq<Prop>) {
    forall i :: 0 <= i < |ps| ==> Named(ps[i])
  }

  ghost predicate AllUnbroken(ps: seq<Prop>) {
    forall i :: 0 <= i < |ps| ==> NoBreak(LineOf(ps[i]))
  }

  lemma NoReturnNoBreak(s: string)
    requires '\r' !in s
    ensures NoBreak(s)
  {}

  lemma ReadLine(p: Prop)
    requires Named(p)
    ensures ReadProp(LineOf(p)) == Some(p)
  {
    var line, n := LineOf(p), |p.name|;
    assert line[n] == ':' && line[..n] == p.name && line[n + 1..] == p.value;
    forall k | 0 <= k < n ensures line[k] != ':' {
      assert p.name[k] in p.name;
    }
    assert Colon(line, 0) == n;
  }

  lemma {:induction false} ReadLines(ps: seq<Prop>)
    requires AllNamed(ps)
    ensures ReadProps(LinesOf(ps)) == Some(ps)
  {
    if ps != [] {
      ReadLine(ps[0]);
      assert LinesOf(ps)[1..] == LinesOf(ps[1..]);
      ReadLines(ps[1..]);
      assert [ps[0]] + ps[1..] == ps;
    }
  }

  lemma NamedLinesArePlain(ps: seq<Prop>)
    requires AllNamed(ps)
    ensures forall i :: 0 <= i < |ps| ==> StartsPlain(LinesOf(ps)[i])
  {
    forall i | 0 <= i < |ps| ensures StartsPlain(LinesOf(ps)[i]) {
      assert LinesOf(ps)[i] == LineOf(ps[i]) && LineOf(ps[i])[0] == ps[i].name[0];
    }
  }

  // ---------- The printed properties ----------

  /** A name and a value free of carriage returns make an unbroken line. */
  lemma CleanLine(p: Prop)
    requires '\r' !in p.name && '\r' !in p.value
    ensures NoBreak(LineOf(p))
  {
    NoReturnNoBreak(LineOf(p));
  }

  lemma EscapedIsClean(s: string)
    ensures '\r' !in Escape(s)
  {
    UnescapeEscape(s);
    WellEscapedHasNoLineBreak(Escape(s));
  }

  lemma RenderIsClean(n: nat)
    ensures '\r' !in Render(n) && '-' !in Render(n)
  {}

  /** Between parts without carriage returns, line breaks can only come from the middle. */
  lemma BreakLocated(before: string, middle: string, after: string, j: nat)
    requires '\r' !in before && '\r' !in after && after != "" && after[0] != '\n'
    requires BreakAt(before + middle + after, j)
    ensures |before| <= j && BreakAt(middle, j - |before|)
  {
    var s, m, n := before + middle + after, |before|, |middle|;
    forall k | 0 <= k < m ensures s[k] != '\r' {
      assert before[k] in before;
    }
    forall k | m + n <= k < |s| ensures s[k] != '\r' {
      assert s[k] == after[k - m - n] && after[k - m - n] in after;
    }
    assert s[m + n] == after[0];
    assert m <= j < m + n ==> s[j] == middle[j - m];
    assert m <= j + 1 < m + n ==> s[j + 1] == middle[j + 1 - m];
  }

  /** The line of a UID is unbroken exactly if the rollout id is. */
  lemma UidLineIff(id: string, i: nat)
    ensures NoBreak(LineOf(Prop("UID", Uid(id, i)))) <==> NoBreak(id)
  {
    var after := "-" + Render(i) + "@releaseradar";
    var line := "UID:" + id + after;
    RenderIsClean(i);
    assert '\r' !in after;
    assert LineOf(Prop("UID", Uid(id, i))) == line;
    forall k | 0 <= k < |id| && BreakAt(id, k) ensures BreakAt(line, k + 4) {
      assert line[k + 4] == id[k] && line[k + 5] == id[k + 1];
    }
    forall j | 0 <= j < |line| && BreakAt(line, j) ensures 4 <= j && BreakAt(id, j - 4) {
      BreakLocated("UID:", id, after, j);
    }
    if k :| 0 <= k < |id| && BreakAt(id, k) {
      assert BreakAt(line, k + 4);
    }
  }

  ghost predicate CleanTimes(iso: int -> string) {
    forall t :: '\r' !in iso(t)
  }

  /** A property that is neither an event marker nor hard to read back. */
  ghost predicate Nice(p: Prop) {
    Named(p) && NoBreak(LineOf(p)) && p.name != "BEGIN" && p.name != "END"
  }

  ghost predicate AllNice(ps: seq<Prop>) {
    forall i :: 0 <= i < |ps| ==> Nice(ps[i])
  }

  lemma NiceProp(name: string, value: string)
    requires Named(Prop(name, value)) && name != "BEGIN" && name != "END" && '\r' !in value
    ensures Nice(Prop(name, value))
  {
    CleanLine(Prop(name, value));
  }

  lemma AllNiceFacts(ps: seq<Prop>)
    requires AllNice(ps)
    ensures AllNamed(ps) && AllUnbroken(ps)
    ensures forall k :: 0 <= k < |ps| ==> ps[k] != BEGIN_EVENT && ps[k] != END_EVENT
  {
    forall k | 0 <= k < |ps|
      ensures Named(ps[k]) && NoBreak(LineOf(ps[k])) && ps[k] != BEGIN_EVENT && ps[k] != END_EVENT {
      assert Nice(ps[k]);
    }
  }

  lemma NiceStart(stamp: string, start: string)
    requires '\r' !in stamp && '\r' !in start
    ensures Nice(Prop("DTSTAMP", stamp)) && Nice(Prop("DTSTART", start))
  {
    NiceProp("DTSTAMP", stamp);
    NiceProp("DTSTART", start);
  }

  lemma NiceEnd(end: string, status: Status)
    requires '\r' !in end
    ensures Nice(Prop("DTEND", end)) && Nice(Prop("STATUS", StatusText(status)))
  {
    NiceProp("DTEND", end);
    NiceProp("STATUS", StatusText(status));
  }

  lemma NiceTexts(summary: string, description: string)
    ensures Nice(Prop("SUMMARY", Escape(summary))) && Nice(Prop("DESCRIPTION", Escape(description)))
  {
    EscapedIsClean(summary);
    EscapedIsClean(description);
    NiceProp("SUMMARY", Escape(summary));
    NiceProp("DESCRIPTION", Escape(description));
  }

  /** The properties of an event after its UID. */
  lemma EventTailIsNice(r: Rollout, i: nat, now: int, iso: int -> string)
    requires i < |r.stages| && CleanTimes(iso)
    ensures AllNice(EventBody(r, i, now, iso)[1..])
  {
    hide Nice, Escape, Summary, StatusText, EndOf, Uid;
    var stage := r.stages[i];
    NiceStart(iso(now), iso(stage.startAt));
    NiceEnd(iso(EndOf(stage)), stage.status);
    NiceTexts(Summary(r, stage), r.descExt);
  }

  lemma UidIsNamed(id: string, i: nat)
    ensures Named(Prop("UID", Uid(id, i)))
  {}

  lemma Singleton(p: Prop)
    ensures AllNamed([p]) <==> Named(p)
    ensures AllUnbroken([p]) <==> NoBreak(LineOf(p))
  {
    assert [p][0] == p;
  }

  lemma Concatenated(a: seq<Prop>, b: seq<Prop>)
    ensures AllNamed(a + b) <==> AllNamed(a) && AllNamed(b)
    ensures AllUnbroken(a + b) <==> AllUnbroken(a) && AllUnbroken(b)
  {
    var s := a + b;
    assert forall i :: 0 <= i < |a| ==> a[i] == s[i];
    assert forall i :: 0 <= i < |b| ==> b[i] == s[|a| + i];
  }

  /** Everything in an event is printed cleanly, except that the UID carries the rollout id as it is. */
  lemma EventBodyFacts(r: Rollout, i: nat, now: int, iso: int -> string)
    requires i < |r.stages| && CleanTimes(iso)
    ensures AllNamed(EventBody(r, i, now, iso))
    ensures AllUnbroken(EventBody(r, i, now, iso)) <==> NoBreak(r.id)
    ensures forall k :: 0 <= k < |EventBody(r, i, now, iso)| ==>
              EventBody(r, i, now, iso)[k] != BEGIN_EVENT && EventBody(r, i, now, iso)[k] != END_EVENT
  {
    var body, uid := EventBody(r, i, now, iso), Prop("UID", Uid(r.id, i));
    assert body[0] == uid;
    EventTailIsNice(r, i, now, iso);
    UidLineIff(r.id, i);
    UidIsNamed(r.id, i);
    hide EventBody, NoBreak, Named, Uid;
    AllNiceFacts(body[1..]);
    Singleton(uid);
    Concatenated([uid], body[1..]);
    assert body == [uid] + body[1..];
  }

  lemma Markers()
    ensures Named(BEGIN_EVENT) && NoBreak(LineOf(BEGIN_EVENT)) && Named(END_EVENT) && NoBreak(LineOf(END_EVENT))
  {
    CleanLine(BEGIN_EVENT);
    CleanLine(END_EVENT);
  }

  lemma EventFacts(r: Rollout, i: nat, now: int, iso: int -> string)
    requires i < |r.stages| && CleanTimes(iso)
    ensures AllNamed(EventProps(r, i, now, iso))
    ensures AllUnbroken(EventProps(r, i, now, iso)) <==> NoBreak(r.id)
  {
    hide EventBody, NoBreak, Named;
    var body := EventBody(r, i, now, iso);
    EventBodyFacts(r, i, now, iso);
    Markers();
    Singleton(BEGIN_EVENT);
    Singleton(END_EVENT);
    Concatenated([BEGIN_EVENT], body);
    Concatenated([BEGIN_EVENT] + body, [END_EVENT]);
  }

  lemma {:induction false} StageFacts(r: Rollout, n: nat, now: int, iso: int -> string)
    requires n <= |r.stages| && CleanTimes(iso)
    ensures AllNamed(StageProps(r, n, now, iso))
    ensures AllUnbroken(StageProps(r, n, now, iso)) <==> n == 0 || NoBreak(r.id)
  {
    hide EventProps, NoBreak, Named;
    if n > 0 {
      StageFacts(r, n - 1, now, iso);
      EventFacts(r, n - 1, now, iso);
      Concatenated(StageProps(r, n - 1, now, iso), EventProps(r, n - 1, now, iso));
    }
  }

  /** No rollout that has a stage carries a line break in its id. */
  ghost predicate UnbrokenIds(rs: seq<Rollout>) {
    forall k :: 0 <= k < |rs| && rs[k].stages != [] ==> NoBreak(rs[k].id)
  }

  lemma {:induction false} RolloutFacts(rs: seq<Rollout>, now: int, iso: int -> string)
    requires CleanTimes(iso)
    ensures AllNamed(RolloutProps(rs, now, iso))
    ensures AllUnbroken(RolloutProps(rs, now, iso)) <==> UnbrokenIds(rs)
  {
    hide StageProps, NoBreak, Named;
    if rs != [] {
      var n := |rs| - 1;
      var r := rs[n];
      RolloutFacts(rs[..n], now, iso);
      StageFacts(r, |r.stages|, now, iso);
      Concatenated(RolloutProps(rs[..n], now, iso), StageProps(r, |r.stages|, now, iso));
      if UnbrokenIds(rs[..n]) && (r.stages == [] || NoBreak(r.id)) {
        assert UnbrokenIds(rs);
      } else if !UnbrokenIds(rs[..n]) {
        var k :| 0 <= k < n && rs[..n][k].stages != [] && !NoBreak(rs[..n][k].id);
        assert rs[k] == rs[..n][k];
      }
    }
  }

  lemma NiceVersion()
    ensures Nice(Prop("VERSION", "2.0"))
  {
    NiceProp("VERSION", "2.0");
  }

  lemma NiceProdId()
    ensures Nice(Prop("PRODID", "-//ReleaseRadar//EN"))
  {
    NiceProp("PRODID", "-//ReleaseRadar//EN");
  }

  lemma NiceCalScale()
    ensures Nice(Prop("CALSCALE", "GREGORIAN"))
  {
    NiceProp("CALSCALE", "GREGORIAN");
  }

  lemma NiceMethod()
    ensures Nice(Prop("METHOD", "PUBLISH"))
  {
    NiceProp("METHOD", "PUBLISH");
  }

  lemma NiceCalendarName()
    ensures Nice(Prop("X-WR-CALNAME", "ReleaseRadar Rollouts"))
  {
    NiceProp("X-WR-CALNAME", "ReleaseRadar Rollouts");
  }

  lemma NiceTimeZone()
    ensures Nice(Prop("X-WR-TIMEZONE", "UTC"))
  {
    NiceProp("X-WR-TIMEZONE", "UTC");
  }

  lemma HeaderTailIsNice()
    ensures AllNice(Header()[1..])
  {
    hide Nice;
    NiceVersion();
    NiceProdId();
    NiceCalScale();
    NiceMethod();
    NiceCalendarName();
    NiceTimeZone();
  }

  lemma OpenFacts()
    ensures var open := Prop("BEGIN", "VCALENDAR");
            Named(open) && NoBreak(LineOf(open)) && open != BEGIN_EVENT && open != END_EVENT && Header()[0] == open
  {
    CleanLine(Prop("BEGIN", "VCALENDAR"));
  }

  lemma CloseFacts()
    ensures var close := Prop("END", "VCALENDAR"); Named(close) && NoBreak(LineOf(close))
    ensures var close := Prop("END", "VCALENDAR"); close != BEGIN_EVENT && close != END_EVENT
  {
    CleanLine(Prop("END", "VCALENDAR"));
  }

  lemma HeaderFacts()
    ensures AllNamed(Header()) && AllUnbroken(Header())
    ensures forall k :: 0 <= k < |Header()| ==> Header()[k] != BEGIN_EVENT && Header()[k] != END_EVENT
  {
    var h, open := Header(), Prop("BEGIN", "VCALENDAR");
    assert |h| == 7;
    hide Header, NoBreak, Named, LineOf, Nice;
    OpenFacts();
    HeaderTailIsNice();
    AllNiceFacts(h[1..]);
    Singleton(open);
    Concatenated([open], h[1..]);
    assert h == [open] + h[1..];
  }

  lemma CalendarFacts(rs: seq<Rollout>, now: int, iso: int -> string)
    requires CleanTimes(iso)
    ensures AllNamed(CalendarProps(rs, now, iso))
    ensures AllUnbroken(CalendarProps(rs, now, iso)) <==> UnbrokenIds(rs)
  {
    hide Header, RolloutProps, NoBreak, Named;
    var close := Prop("END", "VCALENDAR");
    HeaderFacts();
    RolloutFacts(rs, now, iso);
    CloseFacts();
    Singleton(close);
    Concatenated(Header(), RolloutProps(rs, now, iso));
    Concatenated(Header() + RolloutProps(rs, now, iso), [close]);
  }

  /**
   The printed feed, unfolded and split into lines, is exactly the lines that were printed if and only if no rollout id
   with a stage contains a line break; ids are the only text printed unescaped.
   */
  lemma FeedIsLosslessIff(rs: seq<Rollout>, now: int, iso: int -> string)
    requires CleanTimes(iso)
    ensures Lines(Unfold(Document(rs, now, iso))) == LinesOf(CalendarProps(rs, now, iso)) <==> UnbrokenIds(rs)
  {
    hide CalendarProps, NoBreak, Named;
    var ps := CalendarProps(rs, now, iso);
    var lines := LinesOf(ps);
    CalendarFacts(rs, now, iso);
    NamedLinesArePlain(ps);
    ReadingUndoesPrintingIff(lines);
    assert forall i :: 0 <= i < |ps| ==> lines[i] == LineOf(ps[i]);
  }

  /** The frame of the calendar, read back: what comes before and after the events. */
  lemma CalendarFrame(rs: seq<Rollout>, now: int, iso: int -> string)
    requires CleanTimes(iso) && UnbrokenIds(rs)
    ensures var props := ReadProps(Lines(Unfold(Document(rs, now, iso))));
            && props.Some? && |props.value| >= 8
            && props.value[..7] ==
               [Prop("BEGIN", "VCALENDAR"), Prop("VERSION", "2.0"), Prop("PRODID", "-//ReleaseRadar//EN"),
                Prop("CALSCALE", "GREGORIAN"), Prop("METHOD", "PUBLISH"),
                Prop("X-WR-CALNAME", "ReleaseRadar Rollouts"), Prop("X-WR-TIMEZONE", "UTC")]
            && props.value[|props.value| - 1] == Prop("END", "VCALENDAR")
  {
    hide Document, Lines, Unfold, ReadProps, RolloutProps, LinesOf, NoBreak, Named;
    FeedIsLosslessIff(rs, now, iso);
    CalendarFacts(rs, now, iso);
    ReadLines(CalendarProps(rs, now, iso));
  }

  /** A description is printed exactly for rollouts that have one. */
  lemma DescriptionIff(r: Rollout, i: nat, now: int, iso: int -> string)
    requires i < |r.stages|
    ensures (exists p :: p in EventBody(r, i, now, iso) && p.name == "DESCRIPTION") <==> r.descExt != ""
  {
    hide Uid, Summary, Escape, StatusText, EndOf;
    var body := EventBody(r, i, now, iso);
    if r.descExt != "" {
      assert body[5].name == "DESCRIPTION" && body[5] in body;
    } else {
      forall p | p in body ensures p.name != "DESCRIPTION" {
        var k :| 0 <= k < |body| && body[k] == p;
      }
    }
  }

  // ---------- Events ----------

  ghost predicate NoMarkers(ps: seq<Prop>) {
    forall k :: 0 <= k < |ps| ==> ps[k] != BEGIN_EVENT && ps[k] != END_EVENT
  }

  lemma {:induction false} ScanBody(ps: seq<Prop>, read: seq<Prop>, rest: seq<Prop>)
    requires NoMarkers(ps)
    ensures Scan(ps + rest, Some(read)) == Scan(rest, Some(read + ps))
  {
    if ps == [] {
      assert ps + rest == rest && read + ps == read;
    } else {
      assert (ps + rest)[1..] == ps[1..] + rest;
      assert forall k :: 0 <= k < |ps[1..]| ==> ps[1..][k] == ps[k + 1];
      ScanBody(ps[1..], read + [ps[0]], rest);
      assert read + [ps[0]] + ps[1..] == read + ps;
    }
  }

  lemma {:induction false} ScanOutside(ps: seq<Prop>, rest: seq<Prop>)
    requires NoMarkers(ps)
    ensures Scan(ps + rest, None) == Scan(rest, None)
  {
    if ps == [] {
      assert ps + rest == rest;
    } else {
      assert (ps + rest)[1..] == ps[1..] + rest;
      assert forall k :: 0 <= k < |ps[1..]| ==> ps[1..][k] == ps[k + 1];
      ScanOutside(ps[1..], rest);
    }
  }

  lemma ScanEvent(body: seq<Prop>, rest: seq<Prop>)
    requires NoMarkers(body)
    ensures Scan([BEGIN_EVENT] + body + [END_EVENT] + rest, None) == Prefixed([body], Scan(rest, None))
  {
    var all := [BEGIN_EVENT] + body + [END_EVENT] + rest;
    assert all[1..] == body + ([END_EVENT] + rest);
    ScanBody(body, [], [END_EVENT] + rest);
    assert [] + body == body;
    assert ([END_EVENT] + rest)[1..] == rest;
  }

  function StageBodies(r: Rollout, n: nat, now: int, iso: int -> string): seq<seq<Prop>>
    requires n <= |r.stages|
  {
    seq(n, i requires 0 <= i < n => EventBody(r, i, now, iso))
  }

  function Bodies(rs: seq<Rollout>, now: int, iso: int -> string): seq<seq<Prop>> {
    if rs == [] then []
    else
      var n := |rs| - 1;
      Bodies(rs[..n], now, iso) + StageBodies(rs[n], |rs[n].stages|, now, iso)
  }

  lemma NoStageBodies(r: Rollout, now: int, iso: int -> string)
    ensures StageBodies(r, 0, now, iso) == []
  {}

  lemma StageBodiesSnoc(r: Rollout, n: nat, now: int, iso: int -> string)
    requires 0 < n <= |r.stages|
    ensures StageBodies(r, n, now, iso) == StageBodies(r, n - 1, now, iso) + [EventBody(r, n - 1, now, iso)]
  {}

  lemma EventShape(r: Rollout, i: nat, now: int, iso: int -> string)
    requires i < |r.stages|
    ensures EventProps(r, i, now, iso) == [BEGIN_EVENT] + EventBody(r, i, now, iso) + [END_EVENT]
  {
    hide EventBody;
  }

  lemma {:induction false} ScanStages(r: Rollout, n: nat, now: int, iso: int -> string, rest: seq<Prop>)
    requires n <= |r.stages| && CleanTimes(iso)
    ensures Scan(StageProps(r, n, now, iso) + rest, None) == Prefixed(StageBodies(r, n, now, iso), Scan(rest, None))
  {
    hide EventBody, Scan, Prefixed, StageBodies, EventProps;
    if n == 0 {
      NoStageBodies(r, now, iso);
      assert StageProps(r, 0, now, iso) + rest == rest;
      PrefixedFacts<seq<Prop>>([], [], Scan(rest, None));
    } else {
      var body := EventBody(r, n - 1, now, iso);
      var event := EventProps(r, n - 1, now, iso);
      EventBodyFacts(r, n - 1, now, iso);
      assert StageProps(r, n, now, iso) + rest == StageProps(r, n - 1, now, iso) + (event + rest);
      ScanStages(r, n - 1, now, iso, event + rest);
      ScanEvent(body, rest);
      EventShape(r, n - 1, now, iso);
      StageBodiesSnoc(r, n, now, iso);
      PrefixedFacts(StageBodies(r, n - 1, now, iso), [body], Scan(rest, None));
    }
  }

  lemma {:induction false} ScanRollouts(rs: seq<Rollout>, now: int, iso: int -> string, rest: seq<Prop>)
    requires CleanTimes(iso)
    ensures Scan(RolloutProps(rs, now, iso) + rest, None) == Prefixed(Bodies(rs, now, iso), Scan(rest, None))
  {
    hide StageProps, StageBodies, Scan;
    if rs == [] {
      assert RolloutProps(rs, now, iso) + rest == rest;
      PrefixedFacts<seq<Prop>>([], [], Scan(rest, None));
    } else {
      var n := |rs| - 1;
      var last := StageProps(rs[n], |rs[n].stages|, now, iso);
      assert RolloutProps(rs, now, iso) + rest == RolloutProps(rs[..n], now, iso) + (last + rest);
      ScanRollouts(rs[..n], now, iso, last + rest);
      ScanStages(rs[n], |rs[n].stages|, now, iso, rest);
      PrefixedFacts(Bodies(rs[..n], now, iso), StageBodies(rs[n], |rs[n].stages|, now, iso), Scan(rest, None));
    }
  }

  /** BEGIN and END balance, and the events are exactly the printed ones, in order. */
  lemma ScanCalendar(rs: seq<Rollout>, now: int, iso: int -> string)
    requires CleanTimes(iso)
    ensures Scan(CalendarProps(rs, now, iso), None) == Some(Bodies(rs, now, iso))
  {
    hide Header, RolloutProps, Bodies;
    var close := [Prop("END", "VCALENDAR")];
    HeaderFacts();
    CloseFacts();
    assert CalendarProps(rs, now, iso) == Header() + (RolloutProps(rs, now, iso) + close);
    ScanOutside(Header(), RolloutProps(rs, now, iso) + close);
    ScanRollouts(rs, now, iso, close);
    assert close[1..] == [] && Scan([], None) == Some([]);
    assert Scan(close, None) == Some([]);
    PrefixedFacts(Bodies(rs, now, iso), [], None);
  }

  // ---------- Fields ----------

  lemma LookupStep(p: Prop, rest: seq<Prop>, name: string)
    ensures Lookup([p] + rest, name) == if p.name == name then p.value else Lookup(rest, name)
  {
    assert ([p] + rest)[1..] == rest;
  }

  /** Looking a name up in six or seven properties with different names. */
  lemma LookupAll(a: Prop, b: Prop, c: Prop, d: Prop, e: Prop, more: seq<Prop>, name: string)
    ensures Lookup([a, b, c, d, e] + more, name) ==
            if a.name == name then a.value else if b.name == name then b.value else if c.name == name then c.value
            else if d.name == name then d.value else if e.name == name then e.value else Lookup(more, name)
  {
    var l4 := [e] + more;
    var l3 := [d] + l4;
    var l2 := [c] + l3;
    var l1 := [b] + l2;
    assert [a, b, c, d, e] + more == [a] + l1;
    LookupStep(a, l1, name);
    LookupStep(b, l2, name);
    LookupStep(c, l3, name);
    LookupStep(d, l4, name);
    LookupStep(e, more, name);
  }

  lemma LookupOptional(descExt: string, status: string, name: string)
    requires name != "STATUS"
    ensures var more := (if descExt == "" then [] else [Prop("DESCRIPTION", Escape(descExt))])
                        + [Prop("STATUS", status)];
            && Lookup(more, "STATUS") == status
            && (name == "DESCRIPTION" ==> Lookup(more, name) == Escape(descExt))
  {
    var last := Prop("STATUS", status);
    assert [last] + [] == [last];
    LookupStep(last, [], "STATUS");
    LookupStep(last, [], "DESCRIPTION");
    assert Lookup([], "DESCRIPTION") == "" == Escape("");
    if descExt == "" {
      assert [] + [last] == [last];
    } else {
      LookupStep(Prop("DESCRIPTION", Escape(descExt)), [last], "STATUS");
      LookupStep(Prop("DESCRIPTION", Escape(descExt)), [last], "DESCRIPTION");
    }
  }

  /** The printed values are the ones expected of the stage. */
  lemma PrintedValues(r: Rollout, i: nat, now: int, iso: int -> string)
    requires i < |r.stages|
    ensures var stage := r.stages[i];
            EventOf(r, i, now, iso) ==
            Event(Uid(r.id, i), iso(now), iso(stage.startAt), iso(EndOf(stage)),
                  Normal(Summary(r, stage)), Normal(r.descExt), StatusText(stage.status))
  {}

  lemma ReadEventBody(r: Rollout, i: nat, now: int, iso: int -> string)
    requires i < |r.stages|
    ensures ReadEvent(EventBody(r, i, now, iso)) == EventOf(r, i, now, iso)
  {
    hide Escape, Unescape, Normal, Uid, Summary, EndOf, StatusText, EventOf;
    PrintedValues(r, i, now, iso);
    var stage := r.stages[i];
    var a, b := Prop("UID", Uid(r.id, i)), Prop("DTSTAMP", iso(now));
    var c, d := Prop("DTSTART", iso(stage.startAt)), Prop("DTEND", iso(EndOf(stage)));
    var e := Prop("SUMMARY", Escape(Summary(r, stage)));
    var status := StatusText(stage.status);
    var more := (if r.descExt == "" then [] else [Prop("DESCRIPTION", Escape(r.descExt))]) + [Prop("STATUS", status)];
    var body := [a, b, c, d, e] + more;
    assert EventBody(r, i, now, iso) == body;
    LookupAll(a, b, c, d, e, more, "UID");
    LookupAll(a, b, c, d, e, more, "DTSTAMP");
    LookupAll(a, b, c, d, e, more, "DTSTART");
    LookupAll(a, b, c, d, e, more, "DTEND");
    LookupAll(a, b, c, d, e, more, "SUMMARY");
    LookupAll(a, b, c, d, e, more, "DESCRIPTION");
    LookupAll(a, b, c, d, e, more, "STATUS");
    LookupOptional(r.descExt, status, "DESCRIPTION");
    UnescapeEscape(Summary(r, stage));
    UnescapeEscape(r.descExt);
  }

  lemma {:induction false} ReadBodies(rs: seq<Rollout>, now: int, iso: int -> string)
    ensures ReadEvents(Bodies(rs, now, iso)) == EventsOf(rs, now, iso)
  {
    hide EventBody, EventOf, ReadEvent;
    if rs != [] {
      var n := |rs| - 1;
      var r := rs[n];
      var front, last := Bodies(rs[..n], now, iso), StageBodies(r, |r.stages|, now, iso);
      ReadBodies(rs[..n], now, iso);
      assert ReadEvents(front + last) == ReadEvents(front) + ReadEvents(last);
      forall i | 0 <= i < |r.stages| ensures ReadEvents(last)[i] == EventOf(r, i, now, iso) {
        ReadEventBody(r, i, now, iso);
      }
    }
  }

  /**
   Printing then reading is lossless: whenever no rollout id contains a line break, the reader gets back one event per
   stage, in order, with every field intact up to line break style.
   */
  lemma FeedRoundTrip(rs: seq<Rollout>, now: int, iso: int -> string)
    requires CleanTimes(iso) && UnbrokenIds(rs)
    ensures ReadCalendar(Document(rs, now, iso)) == Some(EventsOf(rs, now, iso))
  {
    hide Document, CalendarProps, Bodies, EventsOf, Scan, NoBreak, Named;
    FeedIsLosslessIff(rs, now, iso);
    CalendarFacts(rs, now, iso);
    ReadLines(CalendarProps(rs, now, iso));
    ScanCalendar(rs, now, iso);
    ReadBodies(rs, now, iso);
  }

  // ---------- Distinct UIDs ----------

  lemma LastDash(a: string, b: string, c: string, d: string)
    requires a + "-" + b == c + "-" + d && '-' !in b && '-' !in d
    ensures a == c && b == d
  {
    var s, t := a + "-" + b, c + "-" + d;
    forall k | |a| < k < |s| ensures s[k] != '-' {
      assert s[k] == b[k - |a| - 1] && b[k - |a| - 1] in b;
    }
    forall k | |c| < k < |t| ensures t[k] != '-' {
      assert t[k] == d[k - |c| - 1] && d[k - |c| - 1] in d;
    }
    assert s[|a|] == '-' && t[|c|] == '-';
    assert |a| == |c|;
    assert s[..|a|] == a && s[|a| + 1..] == b;
    assert t[..|c|] == c && t[|c| + 1..] == d;
  }

  /** Different stages never share a UID, however the rollout ids are chosen. */
  lemma UidsAreDistinct(id: string, i: nat, other: string, j: nat)
    ensures Uid(id, i) == Uid(other, j) <==> id == other && i == j
  {
    if Uid(id, i) == Uid(other, j) {
      var suffix := "@releaseradar";
      var x, y := id + "-" + Render(i), other + "-" + Render(j);
      assert x == (x + suffix)[..|x + suffix| - |suffix|] && y == (y + suffix)[..|y + suffix| - |suffix|];
      RenderIsClean(i);
      RenderIsClean(j);
      LastDash(id, Render(i), other, Render(j));
      RenderInjective(i, j);
    }
  }
}
