/**
 The iCalendar feed: one VEVENT per rollout stage, printed as folded content lines, and the reader that gets the
 events back.
 */
module Feed {
  import opened Decimals
  import opened Escaping
  import opened Folding

  datatype Status = Scheduled | Active | Blocked | Done | Failed

  /** Times are instants in nanoseconds; durations may be zero or negative. */
  datatype Stage = Stage(env: string, startAt: int, duration: int, status: Status)

  datatype Rollout = Rollout(id: string, product: string, title: string, descExt: string, stages: seq<Stage>)

  /** A content line. */
  datatype Prop = Prop(name: string, value: string)

  const HOUR: int := 3600 * 1_000_000_000

  // ---------- Printing ----------

  function Uid(id: string, i: nat): string {
    id + "-" + Render(i) + "@releaseradar"
  }

  /** `[env] product — title`; the dash is three octets of UTF-8. */
  function Summary(r: Rollout, stage: Stage): string {
    "[" + stage.env + "] " + r.product + " \U{E2}\U{80}\U{94} " + r.title
  }

  function EndOf(stage: Stage): (end: int)
    ensures end > stage.startAt
  {
    if stage.duration <= 0 then stage.startAt + HOUR else stage.startAt + stage.duration
  }

  function StatusText(s: Status): string {
    match s
    case Done => "CONFIRMED"
    case Blocked => "CANCELLED"
    case _ => "TENTATIVE"
  }

  function Header(): seq<Prop> {
    [Prop("BEGIN", "VCALENDAR"), Prop("VERSION", "2.0"), Prop("PRODID", "-//ReleaseRadar//EN"),
     Prop("CALSCALE", "GREGORIAN"), Prop("METHOD", "PUBLISH"), Prop("X-WR-CALNAME", "ReleaseRadar Rollouts"),
     Prop("X-WR-TIMEZONE", "UTC")]
  }

  /** `iso` renders an instant; `now` is the time of printing. */
  function EventBody(r: Rollout, i: nat, now: int, iso: int -> string): seq<Prop>
    requires i < |r.stages|
  {
    var stage := r.stages[i];
    [Prop("UID", Uid(r.id, i)), Prop("DTSTAMP", iso(now)), Prop("DTSTART", iso(stage.startAt)),
     Prop("DTEND", iso(EndOf(stage))), Prop("SUMMARY", Escape(Summary(r, stage)))]
    + (if r.descExt == "" then [] else [Prop("DESCRIPTION", Escape(r.descExt))])
    + [Prop("STATUS", StatusText(stage.status))]
  }

  function EventProps(r: Rollout, i: nat, now: int, iso: int -> string): seq<Prop>
    requires i < |r.stages|
  {
    [Prop("BEGIN", "VEVENT")] + EventBody(r, i, now, iso) + [Prop("END", "VEVENT")]
  }

  /** The events of the first `n` stages. */
  function StageProps(r: Rollout, n: nat, now: int, iso: int -> string): seq<Prop>
    requires n <= |r.stages|
  {
    if n == 0 then [] else StageProps(r, n - 1, now, iso) + EventProps(r, n - 1, now, iso)
  }

  function RolloutProps(rs: seq<Rollout>, now: int, iso: int -> string): seq<Prop> {
    if rs == [] then []
    else
      var n := |rs| - 1;
      RolloutProps(rs[..n], now, iso) + StageProps(rs[n], |rs[n].stages|, now, iso)
  }

  function CalendarProps(rs: seq<Rollout>, now: int, iso: int -> string): seq<Prop> {
    Header() + RolloutProps(rs, now, iso) + [Prop("END", "VCALENDAR")]
  }

  function LineOf(p: Prop): string {
    p.name + ":" + p.value
  }

  function LinesOf(ps: seq<Prop>): (lines: seq<string>)
    ensures |lines| == |ps|
  {
    seq(|ps|, i requires 0 <= i < |ps| => LineOf(ps[i]))
  }

  function Document(rs: seq<Rollout>, now: int, iso: int -> string): string {
    FoldAll(LinesOf(CalendarProps(rs, now, iso)))
  }

  // ---------- The writer ----------

  function Upto(s: string, n: nat): string {
    if |s| <= n then s else s[..n]
  }

  lemma {:induction false} ContinuedSnoc(chunks: seq<string>, chunk: string)
    ensures Continued(chunks + [chunk]) == Continued(chunks) + (" " + chunk + CRLF)
  {
    if chunks == [] {
      assert chunks + [chunk] == [chunk] && [chunk][1..] == [];
      assert Continued([chunk]) == " " + chunk + CRLF + Continued([]);
    } else {
      assert (chunks + [chunk])[1..] == chunks[1..] + [chunk];
      ContinuedSnoc(chunks[1..], chunk);
      Regroup(" " + chunks[0] + CRLF, Continued(chunks[1..]), " " + chunk, CRLF);
    }
  }

  lemma Appended(a: string, b: string, c: string, d: string)
    ensures a + (b + c) + d == a + (b + (c + d))
  {}

  lemma NothingContinued(chunks: seq<string>)
    requires chunks == []
    ensures Continued(chunks) == ""
  {}

  lemma ContinuedNext(chunks: seq<string>, i: nat)
    requires 1 <= i < |chunks|
    ensures Continued(chunks[1..i + 1]) == Continued(chunks[1..i]) + (" " + chunks[i] + CRLF)
  {
    ContinuedSnoc(chunks[1..i], chunks[i]);
    assert chunks[1..i + 1] == chunks[1..i] + [chunks[i]];
  }

  /** Wraps a writer that accepts `room` octets and then fails, possibly in the middle of a write. */
  class Folder {
    const room: nat
    var out: string
    var err: bool
    ghost var meant: string  // everything the caller asked to print

    /** What has been written is the document so far, cut off where the writer failed, and `err` says whether it was. */
    ghost predicate Valid()
      reads this
    {
      out == Upto(meant, room) && (err <==> |meant| > room)
    }

    constructor (room: nat)
      ensures Valid() && meant == "" && this.room == room
    {
      this.room := room;
      out, err, meant := "", false, "";
    }

    method Write(s: string)
      requires Valid()
      modifies this
      ensures Valid() && meant == old(meant) + s
    {
      if !err {
        if |s| <= room - |out| {
          out := out + s;
        } else {
          out := out + s[..room - |out|];
          err := true;
        }
      }
      meant := meant + s;
    }

    method Line(s: string)
      requires Valid()
      modifies this
      ensures Valid() && meant == old(meant) + Fold(s)
    {
      if err {
        meant := meant + Fold(s);
        return;
      }
      hide Continued, Upto, Valid;
      var chunks := SplitLine(s, FOLD_AT);
      var first := chunks[0] + CRLF;
      Write(first);
      ghost var done := "";
      assert Continued(chunks[1..1]) == "" by {
        NothingContinued(chunks[1..1]);
      }
      for i := 1 to |chunks|
        invariant Valid() && meant == old(meant) + (first + done) && done == Continued(chunks[1..i])
      {
        var next := " " + chunks[i] + CRLF;
        Write(next);
        ContinuedNext(chunks, i);
        Appended(old(meant), first, done, next);
        done := done + next;
      }
      assert chunks[1..|chunks|] == chunks[1..];
    }
  }

  lemma {:induction false} FoldAllSnoc(lines: seq<string>, line: string)
    ensures FoldAll(lines + [line]) == FoldAll(lines) + Fold(line)
  {
    if lines == [] {
      assert lines + [line] == [line] && [line][1..] == [];
      assert FoldAll([line]) == Fold(line) + FoldAll([]);
    } else {
      assert (lines + [line])[1..] == lines[1..] + [line];
      FoldAllSnoc(lines[1..], line);
    }
  }

  function Printed(ps: seq<Prop>): string {
    FoldAll(LinesOf(ps))
  }

  lemma PrintedSnoc(ps: seq<Prop>, p: Prop)
    ensures Printed(ps + [p]) == Printed(ps) + Fold(LineOf(p))
  {
    assert LinesOf(ps + [p]) == LinesOf(ps) + [LineOf(p)];
    FoldAllSnoc(LinesOf(ps), LineOf(p));
  }

  method PrintAll(f: Folder, ps: seq<Prop>, ghost done: seq<Prop>)
    requires f.Valid() && f.meant == Printed(done)
    modifies f
    ensures f.Valid() && f.meant == Printed(done + ps)
  {
    assert done + ps[..0] == done;
    for i := 0 to |ps|
      invariant f.Valid() && f.meant == Printed(done + ps[..i])
    {
      f.Line(LineOf(ps[i]));
      PrintedSnoc(done + ps[..i], ps[i]);
      assert done + ps[..i] + [ps[i]] == done + ps[..i + 1];
    }
    assert ps[..|ps|] == ps;
  }

  method PrintStages(f: Folder, r: Rollout, now: int, iso: int -> string, ghost done: seq<Prop>)
    requires f.Valid() && f.meant == Printed(done)
    modifies f
    ensures f.Valid() && f.meant == Printed(done + StageProps(r, |r.stages|, now, iso))
  {
    hide EventProps, Printed;
    assert done + StageProps(r, 0, now, iso) == done;
    for i := 0 to |r.stages|
      invariant f.Valid() && f.meant == Printed(done + StageProps(r, i, now, iso))
    {
      ghost var before := done + StageProps(r, i, now, iso);
      PrintAll(f, EventProps(r, i, now, iso), before);
      assert before + EventProps(r, i, now, iso) == done + StageProps(r, i + 1, now, iso);
    }
  }

  /** The writer receives the document, or as much of it as it accepts together with an error. */
  method WriteICS(room: nat, rs: seq<Rollout>, now: int, iso: int -> string) returns (out: string, err: bool)
    ensures out == Upto(Document(rs, now, iso), room)
    ensures err <==> |Document(rs, now, iso)| > room
  {
    hide Header, StageProps;
    var f := new Folder(room);
    PrintAll(f, Header(), []);
    assert [] + Header() == Header() + RolloutProps([], now, iso);
    for k := 0 to |rs|
      invariant f.Valid() && f.room == room
      invariant f.meant == Printed(Header() + RolloutProps(rs[..k], now, iso))
    {
      ghost var done := Header() + RolloutProps(rs[..k], now, iso);
      PrintStages(f, rs[k], now, iso, done);
      assert rs[..k + 1][..k] == rs[..k];
      assert done + StageProps(rs[k], |rs[k].stages|, now, iso) == Header() + RolloutProps(rs[..k + 1], now, iso);
    }
    assert rs[..|rs|] == rs;
    PrintAll(f, [Prop("END", "VCALENDAR")], Header() + RolloutProps(rs, now, iso));
    out, err := f.out, f.err;
  }
}
