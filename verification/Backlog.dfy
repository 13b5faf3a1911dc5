/**
 How far a client's pipe can lag behind broadcasts that overtook each other.

 A history is the last accepted revision followed by the frames still on their way to one client, oldest
 first.  Revisions are taken in order but enqueued in any order, so a frame may be older than one
 before it; every such frame was in flight (revision taken, not yet enqueued) when the newer one was
 enqueued.  `Bounded` says that, for every entry, the older frames behind it together with the older
 revisions still in flight are fewer than a client's buffer.
 */
module Backlog {
  import Hub
  import opened Sets

  function CountBelow(s: seq<int>, x: int): nat {
    if s == [] then 0 else (if s[0] < x then 1 else 0) + CountBelow(s[1..], x)
  }

  function Below(xs: set<int>, x: int): set<int> {
    set r | r in xs && r < x
  }

  predicate Bounded(history: seq<int>, inflight: set<int>) {
    history == [] ||
    (&& CountBelow(history[1..], history[0]) + |Below(inflight, history[0])| < Hub.CLIENT_BUFFER
     && Bounded(history[1..], inflight))
  }

  lemma {:induction false} CountBelowConcat(s: seq<int>, t: seq<int>, x: int)
    ensures CountBelow(s + t, x) == CountBelow(s, x) + CountBelow(t, x)
  {
    if s == [] {
      assert s + t == t;
    } else {
      assert (s + t)[1..] == s[1..] + t;
      CountBelowConcat(s[1..], t, x);
    }
  }

  lemma {:induction false} CountBelowAll(s: seq<int>, x: int)
    requires forall i :: 0 <= i < |s| ==> s[i] < x
    ensures CountBelow(s, x) == |s|
  {
    if s != [] {
      CountBelowAll(s[1..], x);
    }
  }

  /** Enqueueing moves a revision from the in-flight set to the end of the pipe. */
  lemma {:induction false} BoundedEnqueue(history: seq<int>, x: int, inflight: set<int>)
    requires Bounded(history, inflight) && x in inflight && |inflight| <= Hub.CLIENT_BUFFER
    ensures Bounded(history + [x], inflight - {x})
  {
    var rest := inflight - {x};
    if history == [] {
      SubsetSize(Below(rest, x), rest);
      assert history + [x] == [x];
    } else {
      var x0 := history[0];
      BoundedEnqueue(history[1..], x, inflight);
      CountBelowConcat(history[1..], [x], x0);
      assert (history + [x])[1..] == history[1..] + [x];
      assert Below(rest, x0) == Below(inflight, x0) - {x};
      assert CountBelow([x], x0) == if x < x0 then 1 else 0;
    }
  }

  /** Delivery elsewhere, or a drop at a full buffer, only takes revisions out of flight. */
  lemma {:induction false} BoundedFewer(history: seq<int>, inflight: set<int>, fewer: set<int>)
    requires Bounded(history, inflight) && fewer <= inflight
    ensures Bounded(history, fewer)
  {
    if history != [] {
      BoundedFewer(history[1..], inflight, fewer);
      SubsetSize(Below(fewer, history[0]), Below(inflight, history[0]));
    }
  }

  /** A newly taken revision is newer than everything in the pipe. */
  lemma {:induction false} BoundedAssign(history: seq<int>, r: int, inflight: set<int>)
    requires Bounded(history, inflight) && forall i :: 0 <= i < |history| ==> history[i] <= r
    ensures Bounded(history, inflight + {r})
  {
    if history != [] {
      BoundedAssign(history[1..], r, inflight);
      assert Below(inflight + {r}, history[0]) == Below(inflight, history[0]);
    }
  }

  /** Skipping a stale frame keeps the accepted revision in front. */
  lemma BoundedSkip(last: int, frame: int, rest: seq<int>, inflight: set<int>)
    requires Bounded([last, frame] + rest, inflight)
    ensures Bounded([last] + rest, inflight)
    ensures Bounded([frame] + rest, inflight)
  {
    assert ([last, frame] + rest)[1..] == [frame] + rest;
    assert ([frame] + rest)[1..] == rest && ([last] + rest)[1..] == rest;
  }

  /** A full buffer cannot consist of stale frames only: this is what makes dropping safe. */
  lemma FullBufferHasNews(last: int, wire: seq<int>, queue: seq<int>, inflight: set<int>)
    requires Bounded([last] + (wire + queue), inflight)
    requires |queue| >= Hub.CLIENT_BUFFER && last !in queue
    ensures exists f :: f in queue && f > last
  {
    assert ([last] + (wire + queue))[1..] == wire + queue;
    CountBelowConcat(wire, queue, last);
    if forall i :: 0 <= i < |queue| ==> queue[i] < last {
      CountBelowAll(queue, last);
    } else {
      var i :| 0 <= i < |queue| && queue[i] >= last;
      assert queue[i] in queue;
    }
  }
}
