/**
 The feed round trip holds exactly for unbroken rollout ids: whatever the reader returns is free of line breaks, so a
 broken id can never come back.
 */
module FeedExactness {
  import opened Options
  import opened Folding
  import opened Feed
  import opened FeedReader

  ghost predicate UnbrokenValues(ps: seq<Prop>) {
    forall i :: 0 <= i < |ps| ==> NoBreak(ps[i].value)
  }

  ghost predicate UnbrokenBodies(bodies: seq<seq<Prop>>) {
    forall i :: 0 <= i < |bodies| ==> UnbrokenValues(bodies[i])
  }

  lemma {:induction false} ReadPropsUnbroken(lines: seq<string>)
    requires forall i :: 0 <= i < |lines| ==> NoBreak(lines[i])
    requires ReadProps(lines).Some?
    ensures UnbrokenValues(ReadProps(lines).value)
  {
    hide NoBreak;
    if lines != [] {
      ReadPropsUnbroken(lines[1..]);
      NoBreakParts(lines[0], Colon(lines[0], 0) + 1);
    }
  }

  lemma {:induction false} ScanUnbroken(ps: seq<Prop>, current: Option<seq<Prop>>)
    requires UnbrokenValues(ps) && (current.Some? ==> UnbrokenValues(current.value))
    requires Scan(ps, current).Some?
    ensures UnbrokenBodies(Scan(ps, current).value)
    decreases ps
  {
    hide NoBreak;
    if ps != [] {
      var rest := ps[1..];
      if ps[0] == BEGIN_EVENT {
        ScanUnbroken(rest, Some([]));
      } else if ps[0] == END_EVENT {
        ScanUnbroken(rest, None);
      } else {
        ScanUnbroken(rest, if current.None? then None else Some(current.value + [ps[0]]));
      }
    }
  }

  lemma {:induction false} LookupUnbroken(ps: seq<Prop>, name: string)
    requires UnbrokenValues(ps)
    ensures NoBreak(Lookup(ps, name))
  {
    if ps != [] {
      LookupUnbroken(ps[1..], name);
    }
  }

  /** No UID the reader returns, from any document, contains a line break. */
  lemma ReadUidsUnbroken(document: string, i: nat)
    requires ReadCalendar(document).Some? && i < |ReadCalendar(document).value|
    ensures NoBreak(ReadCalendar(document).value[i].uid)
  {
    hide NoBreak, Lines, Unfold, Scan, ReadProps, Lookup;
    var lines := Lines(Unfold(document));
    LinesHaveNoBreak(Unfold(document));
    ReadPropsUnbroken(lines);
    var props := ReadProps(lines).value;
    ScanUnbroken(props, None);
    LookupUnbroken(Scan(props, None).value[i], "UID");
  }

  /** The event of stage `i` of rollout `k` follows those of the rollouts and stages before. */
  lemma {:induction false} EveryStageHasItsEvent(rs: seq<Rollout>, now: int, iso: int -> string, k: nat, i: nat)
    returns (e: nat)
    requires k < |rs| && i < |rs[k].stages|
    ensures e == |EventsOf(rs[..k], now, iso)| + i < |EventsOf(rs, now, iso)|
    ensures EventsOf(rs, now, iso)[e] == EventOf(rs[k], i, now, iso)
  {
    hide EventOf;
    var n := |rs| - 1;
    if k < n {
      e := EveryStageHasItsEvent(rs[..n], now, iso, k, i);
      assert rs[..n][..k] == rs[..k];
    } else {
      e := |EventsOf(rs[..n], now, iso)| + i;
    }
  }

  lemma EventUid(r: Rollout, i: nat, now: int, iso: int -> string)
    requires i < |r.stages|
    ensures EventOf(r, i, now, iso).uid == Uid(r.id, i)
  {}

  /** The UID is unbroken exactly if the rollout id is. */
  lemma UidIff(id: string, i: nat)
    ensures NoBreak(Uid(id, i)) <==> NoBreak(id)
  {
    UidLineIff(id, i);
    var uid := Uid(id, i);
    var line := LineOf(Prop("UID", uid));
    assert line == "UID:" + uid && line[4..] == uid;
    if NoBreak(line) {
      NoBreakParts(line, 4);
    }
    if NoBreak(uid) {
      forall j | 0 <= j < |line| ensures !BreakAt(line, j) {
        if j >= 4 {
          assert !BreakAt(uid, j - 4);
        }
      }
    }
  }

  /**
   Printing then reading gives back one event per stage, in order and with every field, if and only if no rollout id
   with a stage contains a line break.
   */
  lemma FeedRoundTripIff(rs: seq<Rollout>, now: int, iso: int -> string)
    requires CleanTimes(iso)
    ensures ReadCalendar(Document(rs, now, iso)) == Some(EventsOf(rs, now, iso)) <==> UnbrokenIds(rs)
  {
    hide Document, ReadCalendar, EventsOf, EventOf, NoBreak, Uid;
    var read := ReadCalendar(Document(rs, now, iso));
    if UnbrokenIds(rs) {
      FeedRoundTrip(rs, now, iso);
    } else {
      var k :| 0 <= k < |rs| && rs[k].stages != [] && !NoBreak(rs[k].id);
      var e := EveryStageHasItsEvent(rs, now, iso, k, 0);
      EventUid(rs[k], 0, now, iso);
      UidIff(rs[k].id, 0);
      if read == Some(EventsOf(rs, now, iso)) {
        ReadUidsUnbroken(Document(rs, now, iso), e);
      }
    }
  }

  /** Such an id exists, so the condition is not idle. */
  lemma BrokenIdIsNotReadBack(now: int, iso: int -> string)
    requires CleanTimes(iso)
    ensures var rs := [Rollout("a\r\nb", "p", "t", "", [Stage("prod1", 0, 1, Scheduled)])];
            ReadCalendar(Document(rs, now, iso)) != Some(EventsOf(rs, now, iso))
  {
    hide Document, ReadCalendar, EventsOf;
    var rs := [Rollout("a\r\nb", "p", "t", "", [Stage("prod1", 0, 1, Scheduled)])];
    FeedRoundTripIff(rs, now, iso);
    assert BreakAt(rs[0].id, 1);
  }

  // ---------- Distinct UIDs ----------

  ghost predicate DistinctUids(events: seq<Event>) {
    forall e, f :: 0 <= e < f < |events| ==> events[e].uid != events[f].uid
  }

  /** Rollouts that have a stage have different ids. */
  ghost predicate DistinctIds(rs: seq<Rollout>) {
    forall k, l :: 0 <= k < l < |rs| && rs[k].stages != [] && rs[l].stages != [] ==> rs[k].id != rs[l].id
  }

  /** Every event comes from a stage. */
  lemma {:induction false} EventOrigin(rs: seq<Rollout>, now: int, iso: int -> string, e: nat) returns (k: nat, i: nat)
    requires e < |EventsOf(rs, now, iso)|
    ensures k < |rs| && i < |rs[k].stages| && EventsOf(rs, now, iso)[e] == EventOf(rs[k], i, now, iso)
  {
    hide EventOf;
    var n := |rs| - 1;
    var front := EventsOf(rs[..n], now, iso);
    if e < |front| {
      k, i := EventOrigin(rs[..n], now, iso, e);
    } else {
      k, i := n, e - |front|;
    }
  }

  lemma {:induction false} UidsDiffer(rs: seq<Rollout>, now: int, iso: int -> string, e: nat, f: nat)
    requires DistinctIds(rs) && e < f < |EventsOf(rs, now, iso)|
    ensures EventsOf(rs, now, iso)[e].uid != EventsOf(rs, now, iso)[f].uid
  {
    hide Uid, EventOf;
    var n := |rs| - 1;
    var front := EventsOf(rs[..n], now, iso);
    if f < |front| {
      UidsDiffer(rs[..n], now, iso, e, f);
    } else if e < |front| {
      var k, i := EventOrigin(rs[..n], now, iso, e);
      EventUid(rs[k], i, now, iso);
      EventUid(rs[n], f - |front|, now, iso);
      UidsAreDistinct(rs[k].id, i, rs[n].id, f - |front|);
    } else {
      EventUid(rs[n], e - |front|, now, iso);
      EventUid(rs[n], f - |front|, now, iso);
      UidsAreDistinct(rs[n].id, e - |front|, rs[n].id, f - |front|);
    }
  }

  /** Two rollouts with the same id clash in the UIDs of their first stages. */
  lemma UidsClash(rs: seq<Rollout>, now: int, iso: int -> string, k: nat, l: nat)
    requires k < l < |rs| && rs[k].stages != [] && rs[l].stages != [] && rs[k].id == rs[l].id
    ensures !DistinctUids(EventsOf(rs, now, iso))
  {
    hide EventsOf;
    var e := EveryStageHasItsEvent(rs, now, iso, k, 0);
    var f := EveryStageHasItsEvent(rs, now, iso, l, 0);
    var g := EveryStageHasItsEvent(rs[..l], now, iso, k, 0);
    assert rs[..l][..k] == rs[..k];
    assert EventsOf(rs, now, iso)[e].uid == EventsOf(rs, now, iso)[f].uid;
  }

  /** The UIDs of the feed are pairwise different if and only if the ids of the rollouts with stages are. */
  lemma FeedUidsDistinctIff(rs: seq<Rollout>, now: int, iso: int -> string)
    ensures DistinctUids(EventsOf(rs, now, iso)) <==> DistinctIds(rs)
  {
    hide EventsOf;
    if DistinctIds(rs) {
      forall e, f | 0 <= e < f < |EventsOf(rs, now, iso)|
        ensures EventsOf(rs, now, iso)[e].uid != EventsOf(rs, now, iso)[f].uid
      {
        UidsDiffer(rs, now, iso, e, f);
      }
    } else {
      var k, l :| 0 <= k < l < |rs| && rs[k].stages != [] && rs[l].stages != [] && rs[k].id == rs[l].id;
      UidsClash(rs, now, iso, k, l);
    }
  }
}
