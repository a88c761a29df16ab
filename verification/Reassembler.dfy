/** reassembly.go in its own form: flow objects updated in place, and the table that owns them. */
module Reassembler {
  import opened Bytes
  import opened FlowSpec
  import opened ReassemblySafety

  datatype FlowKey = FlowKey(src: int, srcPort: u16, dst: int, dstPort: u16)

  class FlowState {
    const key: FlowKey
    var next: u32
    var have: bool
    var buf: bytes
    var pending: map<u32, bytes>
    var last: int
    var overflow: bool
    ghost var fed: seq<Segment>  // every segment this flow has been given

    ghost function Value(): Flow
      reads this
    {
      Flow(next, have, buf, pending, overflow)
    }

    constructor (key: FlowKey)
      ensures this.key == key && Value() == FRESH && fed == []
    {
      this.key := key;
      next, have, buf, pending, last, overflow := 0, false, [], map[], 0, false;
      fed := [];
    }
  }

  class StreamReassembler {
    const ports: set<u16>
    const allPorts: bool
    const maxFlow: int
    const idle: int
    var flows: map<FlowKey, FlowState>
    var latestTS: int
    var emitted: seq<FlowState>  // the calls of the emit callback, in order
    ghost var created: set<FlowState>

    ghost predicate Live(fs: FlowState)
      reads this
    {
      fs.key in flows && flows[fs.key] == fs
    }

    /** Every flow ever created is either live, under its own key, or was emitted exactly once. */
    ghost predicate Conserves()
      reads this
    {
      && (forall k | k in flows :: flows[k] in created && flows[k].key == k)
      && (forall fs | fs in emitted :: fs in created && !Live(fs))
      && (forall i, j | 0 <= i < j < |emitted| :: emitted[i] != emitted[j])
      && (forall fs | fs in created :: Live(fs) || fs in emitted)
    }

    /** Moreover every flow holds what the segments it was fed lead to. */
    ghost predicate Valid()
      reads this, created
    {
      Conserves() && forall fs {:trigger fs.Value()} | fs in created :: fs.Value() == Run(fs.fed, maxFlow)
    }

    constructor (ports: set<u16>, allPorts: bool, maxFlow: int, idle: int)
      ensures Valid() && flows == map[] && emitted == [] && created == {}
      ensures this.ports == ports && this.allPorts == allPorts && this.maxFlow == maxFlow && this.idle == idle
    {
      this.ports, this.allPorts, this.maxFlow, this.idle := ports, allPorts, maxFlow, idle;
      flows, latestTS, emitted, created := map[], 0, [], {};
    }

    method AppendInOrder(fs: FlowState, payload: bytes)
      modifies fs`next, fs`buf, fs`overflow
      ensures fs.Value() == FlowSpec.AppendInOrder(old(fs.Value()), payload, maxFlow)
    {
      if maxFlow > 0 && |fs.buf| >= maxFlow {
        fs.overflow := true;
        fs.next := Add32(fs.next, |payload|);
        return;
      }
      if maxFlow > 0 && |fs.buf| + |payload| > maxFlow {
        var take := maxFlow - |fs.buf|;
        fs.buf := fs.buf + payload[..take];
        fs.overflow := true;
      } else {
        fs.buf := fs.buf + payload;
      }
      fs.next := Add32(fs.next, |payload|);
    }

    method DrainPending(fs: FlowState)
      modifies fs`next, fs`buf, fs`overflow, fs`pending
      ensures fs.Value() == FlowSpec.DrainPending(old(fs.Value()), maxFlow)
    {
      while fs.next in fs.pending
        invariant fs.have == old(fs.have)
        invariant FlowSpec.DrainPending(fs.Value(), maxFlow) == FlowSpec.DrainPending(old(fs.Value()), maxFlow)
        decreases |fs.pending|
      {
        var cp := fs.pending[fs.next];
        RestSize(fs.pending, fs.next);
        fs.pending := fs.pending - {fs.next};
        AppendInOrder(fs, cp);
      }
    }

    method Integrate(fs: FlowState, seqno: u32, payload: bytes)
      modifies fs`next, fs`buf, fs`overflow, fs`pending
      ensures fs.Value() == FlowSpec.Integrate(old(fs.Value()), seqno, payload, maxFlow)
    {
      if seqno == fs.next {
        AppendInOrder(fs, payload);
        DrainPending(fs);
      } else if SeqAfter(seqno, fs.next) {
        if seqno !in fs.pending && |fs.pending| >= MAX_PENDING_SEGS {
          fs.overflow := true;
          return;
        }
        fs.pending := fs.pending[seqno := payload];
      } else {
        var end := Add32(seqno, |payload|);
        if SeqAfter(end, fs.next) {
          var skip := Sub32(fs.next, seqno);
          if skip < |payload| {
            AppendInOrder(fs, payload[skip..]);
            DrainPending(fs);
          }
        }
      }
    }

    /** Emits the flow of a key and removes it; nothing when there is none. */
    method Complete(key: FlowKey)
      requires Conserves()
      modifies this`flows, this`emitted
      ensures Conserves() && flows == old(flows) - {key}
      ensures emitted == old(emitted) + if key in old(flows) then [old(flows)[key]] else []
    {
      if key in flows {
        emitted := emitted + [flows[key]];
        flows := flows - {key};
      }
    }

    /** Whether a flow has been quiet for the idle window, against the newest time seen. */
    predicate Idle(fs: FlowState)
      reads this`latestTS, fs`last
    {
      idle > 0 && latestTS - fs.last >= idle
    }

    /** Removes and emits exactly the idle flows. */
    method SweepIdle()
      requires Conserves()
      modifies this`flows, this`emitted
      ensures Conserves() && old(emitted) <= emitted
      ensures forall k :: k in flows <==> k in old(flows) && !Idle(old(flows)[k])
      ensures forall k | k in flows :: flows[k] == old(flows)[k]
    {
      if idle <= 0 {
        return;
      }
      var keys := flows.Keys;
      while keys != {}
        invariant Conserves() && old(emitted) <= emitted
        invariant keys <= flows.Keys
        invariant forall k :: k in flows <==> k in keys || (k in old(flows) && !Idle(old(flows)[k]))
        invariant forall k | k in flows :: k in old(flows) && flows[k] == old(flows)[k]
        decreases keys
      {
        var key :| key in keys;
        keys := keys - {key};
        if latestTS - flows[key].last >= idle {
          Complete(key);
        }
      }
    }

    /** Emits every flow that is still live: then every flow ever created has been emitted. */
    method Flush()
      requires Conserves()
      modifies this`flows, this`emitted
      ensures Conserves() && flows == map[] && old(emitted) <= emitted
      ensures forall fs | fs in created :: fs in emitted
    {
      var keys := flows.Keys;
      while keys != {}
        invariant Conserves() && old(emitted) <= emitted
        invariant flows.Keys == keys
        decreases keys
      {
        var key :| key in keys;
        keys := keys - {key};
        Complete(key);
      }
    }

    predicate Carved(key: FlowKey) { allPorts || key.dstPort in ports }

    /** The live flow of a key, created when there is none. */
    method Lookup(key: FlowKey) returns (fs: FlowState)
      requires Conserves()
      modifies this`flows, this`created
      ensures Conserves() && key in flows && fs == flows[key]
      ensures key in old(flows) ==> flows == old(flows) && created == old(created)
      ensures key !in old(flows) ==>
                && fresh(fs) && fs.fed == [] && fs.Value() == Run(fs.fed, maxFlow)
                && flows == old(flows)[key := fs] && created == old(created) + {fs}
    {
      if key in flows {
        fs := flows[key];
      } else {
        fs := new FlowState(key);
        flows := flows[key := fs];
        created := created + {fs};
      }
    }

    /** The part of consume that works on the flow alone. */
    method Feed(fs: FlowState, seg: Segment, ts: int)
      requires fs.Value() == Run(fs.fed, maxFlow)
      modifies fs
      ensures fs.fed == old(fs.fed) + [seg] && fs.last == ts
      ensures fs.Value() == Run(fs.fed, maxFlow)
    {
      ghost var was := fs.Value();
      fs.last := ts;
      if seg.syn {
        fs.next := Add32(seg.seqno, 1);
        fs.have := true;
      }
      if |seg.payload| > 0 {
        if !fs.have {
          fs.next := seg.seqno;
          fs.have := true;
        }
        Integrate(fs, seg.seqno, seg.payload);
      }
      RunStep(fs.fed, seg, maxFlow);
      fs.fed := fs.fed + [seg];
    }

    /** Gives the segment to the live flow of its key, or to a new one. */
    method FeedFlow(key: FlowKey, seg: Segment, ts: int) returns (fs: FlowState)
      requires Valid()
      modifies this`flows, this`created, if key in flows then {flows[key]} else {}
      ensures Valid() && fs.key == key && fs.last == ts
      ensures key in old(flows) ==> fs == old(flows)[key] && fs.fed == old(flows[key].fed) + [seg]
      ensures key !in old(flows) ==> fresh(fs) && fs.fed == [seg]
      ensures created == old(created) + {fs} && flows == old(flows)[key := fs]
    {
      hide Run;
      fs := Lookup(key);
      assert fs.Value() == Run(fs.fed, maxFlow) by {
        if key in old(flows) { assert old(flows[key].Value()) == fs.Value(); }
      }
      Feed(fs, seg, ts);
      forall g | g in created && g != fs
        ensures g.Value() == Run(g.fed, maxFlow)
      {
        assert g.Value() == old(g.Value());
      }
    }

    /** What ends the handling of a segment: FIN and RST emit its flow, then idle flows are swept. */
    method Settle(key: FlowKey, seg: Segment)
      requires Valid()
      modifies this`flows, this`emitted
      ensures Valid() && old(emitted) <= emitted
      ensures forall k :: k in flows <==>
                k in old(flows) && !Idle(old(flows)[k]) && !(k == key && (seg.fin || seg.rst))
      ensures forall k | k in flows :: flows[k] == old(flows)[k]
    {
      hide Run;
      if seg.fin || seg.rst {
        Complete(key);
      }
      SweepIdle();
      forall g | g in created
        ensures g.Value() == Run(g.fed, maxFlow)
      {
        assert g.Value() == old(g.Value());
      }
    }

    /** Feeds one segment, of a carved port, to the live flow of its key or to a new one. FIN and RST
        emit that flow; flows that have gone idle are emitted too, and no other flow is touched. */
    method Consume(key: FlowKey, seg: Segment, ts: int) returns (ghost fs: FlowState?)
      requires Valid()
      modifies this, if key in flows then {flows[key]} else {}
      ensures Valid() && old(emitted) <= emitted
      ensures !Carved(key) ==> fs == null && unchanged(this) && forall f | f in created :: unchanged(f)
      ensures Carved(key) ==>
                && fs != null && fs.key == key && fs.last == ts
                && (key in old(flows) ==> fs == old(flows)[key] && fs.fed == old(flows[key].fed) + [seg])
                && (key !in old(flows) ==> fresh(fs) && fs.fed == [seg])
                && created == old(created) + {fs}
                && latestTS == (if ts > old(latestTS) then ts else old(latestTS))
      ensures Carved(key) ==> forall k :: k in flows <==>
                && k in old(flows)[key := fs]
                && !Idle(old(flows)[key := fs][k]) && !(k == key && (seg.fin || seg.rst))
      ensures Carved(key) ==> forall k | k in flows :: flows[k] == old(flows)[key := fs][k]
    {
      hide Run;
      fs := null;
      if !allPorts && key.dstPort !in ports {
        return;
      }
      if ts > latestTS {
        latestTS := ts;
      }
      var f := FeedFlow(key, seg, ts);
      fs := f;
      Settle(key, seg);
    }
  }

  /** Every flow the table has ever owned, live or emitted, holds exactly its stretch of the stream its
      segments carry, and says so when it does not hold all of it. */
  lemma OwnedFlowIsExact(r: StreamReassembler, fs: FlowState, st: Stream)
    requires r.Valid() && fs in r.created
    requires st.Valid() && Carried(st, fs.fed) && Seeded(fs.fed)
    ensures Base(st, fs.fed) <= Offset(st, fs.next) <= |st.data|
    ensures fs.buf == Capped(st.data[Base(st, fs.fed)..Offset(st, fs.next)], r.maxFlow)
    ensures fs.overflow <==> RunRefuses(fs.fed, r.maxFlow) || 0 < r.maxFlow < Offset(st, fs.next) - Base(st, fs.fed)
  {
    RunTracks(st, fs.fed, r.maxFlow);
    assert fs.Value() == Run(fs.fed, r.maxFlow);
  }

  /** And whatever its segments carried, the cap has only hidden the end of what was sequenced, and overflow says whether
      it did, or whether a segment was refused. */
  lemma OwnedFlowIsCapped(r: StreamReassembler, fs: FlowState)
    requires r.Valid() && fs in r.created
    ensures fs.buf == Capped(Run(fs.fed, 0).buf, r.maxFlow) && fs.next == Run(fs.fed, 0).next
    ensures fs.overflow <==> RunRefuses(fs.fed, r.maxFlow) || 0 < r.maxFlow < |Run(fs.fed, 0).buf|
  {
    hide Run, RunRefuses;
    CapIsAView(fs.fed, r.maxFlow);
    assert fs.Value() == Run(fs.fed, r.maxFlow);
  }
}
