/** The live capture ring (live.go): a bounded window on everything that was recorded, polled with cursors. */
module Live {
  import opened Bytes

  const SNAPLEN: nat := 256

  datatype Packet = Packet(ts: int, data: bytes)

  /** A retained packet: at most SNAPLEN octets of it, and its full length. */
  datatype Rec = Rec(ts: int, data: bytes, origLen: nat)

  function Retained(p: Packet): (r: Rec)
    ensures r.data <= p.data && |r.data| <= SNAPLEN && r.origLen == |p.data|
  {
    Rec(p.ts, p.data[..Min(|p.data|, SNAPLEN)], |p.data|)
  }

  // -- The window on a history ----------------------------------------------------------------------------------------

  /** The index of the oldest record of a history that is still in the ring. */
  function Oldest(h: seq<Rec>, max: nat): nat { if |h| > max then |h| - max else 0 }

  function Window(h: seq<Rec>, max: nat): seq<Rec> { h[Oldest(h, max)..] }

  /** What a poll returns. */
  datatype Poll = Poll(recs: seq<Rec>, newCursor: nat, firstNo: nat, dropped: nat)

  function Later(a: nat, b: nat): nat { if a < b then b else a }

  /** The index of the first record that a poll returns. */
  function From(h: seq<Rec>, max: nat, cursor: nat, limit: int): nat {
    var start := Later(cursor, Oldest(h, max));
    if limit > 0 && |h| - start > limit then |h| - limit else start
  }

  function Since(h: seq<Rec>, max: nat, cursor: nat, limit: int): Poll {
    var dropped := if cursor < Oldest(h, max) then Oldest(h, max) - cursor else 0;
    var from := From(h, max, cursor, limit);
    if Later(cursor, Oldest(h, max)) >= |h| then Poll([], |h|, |h|, dropped) else Poll(h[from..], |h|, from + 1, dropped)
  }

  function RecordAt(h: seq<Rec>, max: nat, no: nat): Option<Rec> {
    if Oldest(h, max) < no <= |h| then Some(h[no - 1]) else None
  }

  lemma WindowSlice(h: seq<Rec>, max: nat, off: nat)
    requires Oldest(h, max) + off <= |h|
    ensures Window(h, max)[off..] == h[Oldest(h, max) + off..]
  {
  }

  // -- The ring ---------------------------------------------------------------------------------------------------------

  class LiveTap {
    const max: nat
    var buf: seq<Rec>
    var link: int
    var total: nat              // seq in the source
    ghost var history: seq<Rec> // everything recorded since the last reset

    ghost predicate Valid()
      reads this
    {
      total == |history| && buf == Window(history, max)
    }

    constructor (max: nat)
      ensures Valid() && this.max == max && history == []
    {
      this.max, buf, link, total, history := max, [], 0, 0, [];
    }

    method Reset(linkType: int)
      modifies this
      ensures Valid() && history == [] && link == linkType
    {
      buf := [];
      link := linkType;
      total := 0;
      history := [];
    }

    method Record(p: Packet)
      requires Valid()
      modifies `buf, `total, `history
      ensures Valid() && history == old(history) + [Retained(p)]
    {
      var n := |p.data|;
      var keep := n;
      if keep > SNAPLEN {
        keep := SNAPLEN;
      }
      var rec := Rec(p.ts, p.data[..keep], n);
      buf := buf + [rec];
      if |buf| > max {
        buf := buf[|buf| - max..];
      }
      total := total + 1;
      history := history + [rec];
    }

    method SinceCursor(cursor: nat, limit: int) returns (poll: Poll, linkType: int)
      requires Valid()
      ensures poll == Since(history, max, cursor, limit) && linkType == link
    {
      linkType := link;
      var firstIdx := total - |buf|;
      var start, dropped := cursor, 0;
      if start < firstIdx {
        dropped := firstIdx - start;
        start := firstIdx;
      }
      if start >= total {
        return Poll([], total, total, dropped), linkType;
      }
      var off := start - firstIdx;
      var avail := buf[off..];
      if limit > 0 && |avail| > limit {
        off := off + |avail| - limit;
        avail := buf[off..];
      }
      WindowSlice(history, max, off);
      poll := Poll(avail, total, firstIdx + off + 1, dropped);
    }

    method AtOrdinal(no: nat) returns (r: Option<Rec>)
      requires Valid()
      ensures r == RecordAt(history, max, no)
    {
      var firstIdx := total - |buf|;
      if no < firstIdx + 1 || no > total {
        return None;
      }
      return Some(buf[no - 1 - firstIdx]);
    }
  }

  // -- What polls are worth ---------------------------------------------------------------------------------------------

  /** A poll returns a suffix of the history that begins no earlier than the cursor, under the ordinals at which the
      records can be looked up, and none of them is older than what the ring holds. */
  lemma PollIsSuffix(h: seq<Rec>, max: nat, cursor: nat, limit: int)
    ensures var p := Since(h, max, cursor, limit);
            && p.newCursor == |h| && |p.recs| <= max && (limit > 0 ==> |p.recs| <= limit)
            && (p.recs != [] ==> p.firstNo > cursor && p.firstNo - 1 + |p.recs| == |h| && h[p.firstNo - 1..] == p.recs)
            && forall i | 0 <= i < |p.recs| :: RecordAt(h, max, p.firstNo + i) == Some(p.recs[i])
  {
  }

  /** Everything between the cursor and the end is returned or counted as dropped, exactly when the limit does not bite:
      what the limit cuts off is neither. */
  lemma PollConserves(h: seq<Rec>, max: nat, cursor: nat, limit: int)
    requires cursor <= |h|
    ensures var p := Since(h, max, cursor, limit);
            cursor + p.dropped + |p.recs| == p.newCursor <==> limit <= 0 || |h| - Later(cursor, Oldest(h, max)) <= limit
  {
  }

  /** A cursor from before a reset: of what has been recorded since, the first records up to that cursor are neither returned
      nor counted as dropped. So nothing is lost without notice if and only if the cursor was 0 or nothing has come yet. */
  lemma StaleCursorSkips(h: seq<Rec>, max: nat, cursor: nat)
    ensures var p := Since(h, max, cursor, 0);
            && |h| - (p.dropped + |p.recs|) == Min(cursor, |h|)
            && (p.dropped + |p.recs| == |h| <==> cursor == 0 || h == [])
  {
  }

  // -- Chained polls ------------------------------------------------------------------------------------------------------

  datatype Event = Recorded(rec: Rec) | Polled(limit: int)

  /** A poller that hands every cursor it gets to the next poll: what it was given, with ordinals, and how much it was
      told it had missed. */
  datatype Poller = Poller(cursor: nat, got: seq<(nat, Rec)>, missed: nat)

  function Numbered(p: Poll): seq<(nat, Rec)> { seq(|p.recs|, i requires 0 <= i < |p.recs| => (p.firstNo + i, p.recs[i])) }

  function PollOnce(h: seq<Rec>, max: nat, s: Poller, limit: int): Poller {
    var p := Since(h, max, s.cursor, limit);
    Poller(p.newCursor, s.got + Numbered(p), s.missed + p.dropped)
  }

  /** How many of the records that a poll finds its limit has no room for. */
  function CutOff(h: seq<Rec>, max: nat, cursor: nat, limit: int): nat {
    var found := |h| - Later(cursor, Oldest(h, max));
    if 0 < limit < found then found - limit else 0
  }

  function RunHistory(h: seq<Rec>, events: seq<Event>): seq<Rec>
    decreases |events|
  {
    if events == [] then h
    else RunHistory(if events[0].Recorded? then h + [events[0].rec] else h, events[1..])
  }

  function RunPoller(h: seq<Rec>, max: nat, s: Poller, events: seq<Event>): Poller
    decreases |events|
  {
    if events == [] then s
    else match events[0]
         case Recorded(rec) => RunPoller(h + [rec], max, s, events[1..])
         case Polled(limit) => RunPoller(h, max, PollOnce(h, max, s, limit), events[1..])
  }

  /** What the limits of all polls of a run have cut off. */
  function RunCutOff(h: seq<Rec>, max: nat, s: Poller, events: seq<Event>): nat
    decreases |events|
  {
    if events == [] then 0
    else match events[0]
         case Recorded(rec) => RunCutOff(h + [rec], max, s, events[1..])
         case Polled(limit) =>
           CutOff(h, max, s.cursor, limit) + RunCutOff(h, max, PollOnce(h, max, s, limit), events[1..])
  }

  /** Every poll of the run has room for what it finds. */
  predicate NoneBites(h: seq<Rec>, max: nat, s: Poller, events: seq<Event>)
    decreases |events|
  {
    events == [] ||
    match events[0]
    case Recorded(rec) => NoneBites(h + [rec], max, s, events[1..])
    case Polled(limit) =>
      (limit <= 0 || |h| - Later(s.cursor, Oldest(h, max)) <= limit)
      && NoneBites(h, max, PollOnce(h, max, s, limit), events[1..])
  }

  /** The ordinals that were given are increasing, so that none came twice; each came with its own record; and with those
      that were reported missing and those that were cut off they make up everything up to the cursor. */
  predicate Accounted(h: seq<Rec>, s: Poller, cut: nat) {
    && s.cursor <= |h|
    && (forall i | 0 <= i < |s.got| :: 1 <= s.got[i].0 <= s.cursor && s.got[i].1 == h[s.got[i].0 - 1])
    && (forall i, j | 0 <= i < j < |s.got| :: s.got[i].0 < s.got[j].0)
    && |s.got| + s.missed + cut == s.cursor
  }

  lemma PollCounts(h: seq<Rec>, max: nat, cursor: nat, limit: int)
    requires cursor <= |h|
    ensures var p := Since(h, max, cursor, limit); cursor + p.dropped + |p.recs| + CutOff(h, max, cursor, limit) == |h|
  {
  }

  lemma PollAccounted(h: seq<Rec>, max: nat, s: Poller, limit: int, cut: nat)
    requires Accounted(h, s, cut)
    ensures Accounted(h, PollOnce(h, max, s, limit), cut + CutOff(h, max, s.cursor, limit))
    ensures PollOnce(h, max, s, limit).cursor == |h|
  {
    hide Since, From, RecordAt, CutOff;
    var p := Since(h, max, s.cursor, limit);
    PollIsSuffix(h, max, s.cursor, limit);
    PollCounts(h, max, s.cursor, limit);
    var t := PollOnce(h, max, s, limit);
    forall i | 0 <= i < |t.got|
      ensures 1 <= t.got[i].0 <= |h| && t.got[i].1 == h[t.got[i].0 - 1]
      ensures i >= |s.got| ==> t.got[i].0 == p.firstNo + (i - |s.got|)
      ensures i < |s.got| ==> t.got[i] == s.got[i]
    {
      if i >= |s.got| {
        var k := i - |s.got|;
        assert t.got[i] == (p.firstNo + k, p.recs[k]);
        assert p.recs[k] == h[p.firstNo - 1..][k];
      }
    }
  }

  /** Over any run of recordings and polls, with any limits and a ring of any size: every record that a poll could have seen
      was returned once, or counted as missed once, or cut off once by a limit. */
  lemma {:induction false} ChainedPolls(h: seq<Rec>, max: nat, s: Poller, events: seq<Event>, cut: nat)
    requires Accounted(h, s, cut)
    ensures Accounted(RunHistory(h, events), RunPoller(h, max, s, events), cut + RunCutOff(h, max, s, events))
    ensures events != [] && events[|events| - 1].Polled? ==>
              RunPoller(h, max, s, events).cursor == |RunHistory(h, events)|
    decreases |events|
  {
    hide PollOnce, CutOff;
    if events != [] {
      match events[0]
      case Recorded(rec) =>
        assert Accounted(h + [rec], s, cut);
        ChainedPolls(h + [rec], max, s, events[1..], cut);
      case Polled(limit) =>
        PollAccounted(h, max, s, limit, cut);
        ChainedPolls(h, max, PollOnce(h, max, s, limit), events[1..], cut + CutOff(h, max, s.cursor, limit));
    }
  }

  lemma {:induction false} CutOffExactly(h: seq<Rec>, max: nat, s: Poller, events: seq<Event>)
    ensures RunCutOff(h, max, s, events) == 0 <==> NoneBites(h, max, s, events)
    decreases |events|
  {
    hide PollOnce, Oldest, Later;
    if events != [] {
      match events[0]
      case Recorded(rec) => CutOffExactly(h + [rec], max, s, events[1..]);
      case Polled(limit) => CutOffExactly(h, max, PollOnce(h, max, s, limit), events[1..]);
    }
  }

  /** What a limit cuts off is lost without notice. Over a whole run from the start that ends in a poll, everything recorded was
      returned or reported missing if and only if every poll had room for what it found. */
  lemma LimitLosesSilently(max: nat, events: seq<Event>)
    requires events != [] && events[|events| - 1].Polled?
    ensures var s := RunPoller([], max, Poller(0, [], 0), events);
            |s.got| + s.missed == |RunHistory([], events)| <==> NoneBites([], max, Poller(0, [], 0), events)
  {
    hide RunPoller, RunHistory, NoneBites, RunCutOff;
    ChainedPolls([], max, Poller(0, [], 0), events, 0);
    CutOffExactly([], max, Poller(0, [], 0), events);
  }

  /** At every poll of the run no more has been recorded since the cursor than the ring holds. */
  predicate KeepsUp(h: seq<Rec>, max: nat, s: Poller, events: seq<Event>)
    decreases |events|
  {
    events == [] ||
    match events[0]
    case Recorded(rec) => KeepsUp(h + [rec], max, s, events[1..])
    case Polled(limit) => |h| - s.cursor <= max && KeepsUp(h, max, PollOnce(h, max, s, limit), events[1..])
  }

  lemma {:induction false} MissedExactly(h: seq<Rec>, max: nat, s: Poller, events: seq<Event>)
    requires s.cursor <= |h|
    ensures s.missed <= RunPoller(h, max, s, events).missed
    ensures s.missed == RunPoller(h, max, s, events).missed <==> KeepsUp(h, max, s, events)
    decreases |events|
  {
    hide From;
    if events != [] {
      match events[0]
      case Recorded(rec) => MissedExactly(h + [rec], max, s, events[1..]);
      case Polled(limit) => MissedExactly(h, max, PollOnce(h, max, s, limit), events[1..]);
    }
  }

  /** Over a whole run from the start that ends in a poll, the poller holds every record that was made, in order, if and only if
      no limit bit and no more was ever recorded between two polls than the ring holds. */
  lemma NothingMissed(max: nat, events: seq<Event>)
    requires events != [] && events[|events| - 1].Polled?
    ensures var start := Poller(0, [], 0);
            var h, got := RunHistory([], events), RunPoller([], max, start, events).got;
            (|got| == |h| && forall i | 0 <= i < |h| :: got[i] == (i + 1, h[i])) <==>
            NoneBites([], max, start, events) && KeepsUp([], max, start, events)
  {
    hide RunPoller, RunHistory, NoneBites, RunCutOff, KeepsUp;
    var start := Poller(0, [], 0);
    var h, s := RunHistory([], events), RunPoller([], max, start, events);
    ChainedPolls([], max, start, events, 0);
    CutOffExactly([], max, start, events);
    MissedExactly([], max, start, events);
    if |s.got| == |h| {
      forall i | 0 <= i < |h| ensures s.got[i] == (i + 1, h[i]) { Consecutive(h, s, i); }
    }
  }

  /** As many increasing ordinals as there are records are all of them. */
  lemma {:induction false} OrdinalsReach(h: seq<Rec>, s: Poller, i: nat, j: nat)
    requires Accounted(h, s, 0) && i <= j < |s.got|
    ensures s.got[i].0 + (j - i) <= s.got[j].0
    decreases j
  {
    if i < j { OrdinalsReach(h, s, i, j - 1); }
  }

  lemma Consecutive(h: seq<Rec>, s: Poller, i: nat)
    requires Accounted(h, s, 0) && |s.got| == |h| && i < |h|
    ensures s.got[i] == (i + 1, h[i])
  {
    OrdinalsReach(h, s, 0, i);
    OrdinalsReach(h, s, i, |h| - 1);
  }
}
