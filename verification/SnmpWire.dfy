/** SNMP PDUs as octets (snmp.go): parsing a request, encoding a response, and the manager's view of both. */
module SnmpWire {
  import opened Bytes
  import opened Ber
  import opened SnmpAgent

  function EncodeVarbind(vb: Varbind): bytes {
    Tlv(TAG_SEQUENCE, Tlv(TAG_OID, EncodeOid(vb.oid)) + Tlv(vb.tag, vb.content))
  }

  function EncodeVarbinds(vbs: seq<Varbind>): bytes {
    if vbs == [] then [] else EncodeVarbind(vbs[0]) + EncodeVarbinds(vbs[1..])
  }

  /** The four fields every PDU has. */
  function PduBody(reqId: bytes, f2: int64, f3: int64, vbs: seq<Varbind>): bytes {
    Tlv(TAG_INTEGER, reqId) + Tlv(TAG_INTEGER, IntContent(f2)) + Tlv(TAG_INTEGER, IntContent(f3))
    + Tlv(TAG_SEQUENCE, EncodeVarbinds(vbs))
  }

  /** The OIDs of the varbinds in a list, from p on: elements that are not sequences, or do not begin with an
      OID, are passed over, and the first unreadable one ends the list. */
  function CollectOids(b: bytes, p: nat): seq<Oid>
    decreases |b| - p
  {
    if p >= |b| then []
    else
      match Field(b, p)
      case None => []
      case Some(vb) =>
        (if vb.0 == TAG_SEQUENCE && NameOf(vb.1).Some? then [NameOf(vb.1).value] else []) + CollectOids(b, vb.3)
  }

  function NameOf(vb: bytes): Option<Oid> {
    match Field(vb, 0)
    case None => None
    case Some(name) => if name.0 == TAG_OID then Some(DecodeOid(name.1)) else None
  }

  method ReadOids(vbList: bytes) returns (oids: seq<Oid>)
    ensures oids == CollectOids(vbList, 0)
  {
    hide Field, DecodeOid;
    oids := [];
    var pos := 0;
    while pos < |vbList|
      invariant oids + CollectOids(vbList, pos) == CollectOids(vbList, 0)
      decreases |vbList| - pos
    {
      FieldMovesOn(vbList, pos);
      var vb := Field(vbList, pos);
      if vb.None? {
        assert CollectOids(vbList, pos) == [];
        return;
      }
      var found: seq<Oid> := [];
      if vb.value.0 == TAG_SEQUENCE {
        var name := Field(vb.value.1, 0);
        if name.Some? && name.value.0 == TAG_OID {
          found := [DecodeOid(name.value.1)];
        }
      }
      assert CollectOids(vbList, pos) == found + CollectOids(vbList, vb.value.3);
      oids := oids + found;
      pos := vb.value.3;
    }
  }

  lemma FieldMovesOn(b: bytes, p: nat)
    ensures Field(b, p).Some? ==> p + 2 <= Field(b, p).value.3 <= |b|
  {
  }

  /** A request as the agent reads it. */
  datatype Request = Request(reqId: bytes, f2: int64, f3: int64, oids: seq<Oid>)

  function ParsePdu(pdu: bytes): Option<Request> {
    match Field(pdu, 0)
    case None => None
    case Some(id) =>
    match Field(pdu, id.3)
    case None => None
    case Some(f2) =>
    match Field(pdu, f2.3)
    case None => None
    case Some(f3) =>
    match Field(pdu, f3.3)
    case None => None
    case Some(list) => Some(Request(id.1, DecodeInt(f2.1), DecodeInt(f3.1), CollectOids(list.1, 0)))
  }

  function NullOf(o: Oid): Varbind { Varbind(o, TAG_NULL, []) }

  function OidsOf(vbs: seq<Varbind>): seq<Oid> {
    if vbs == [] then [] else [vbs[0].oid] + OidsOf(vbs[1..])
  }

  /** The manager's reading of a varbind list. */
  function DecodeVarbinds(b: bytes, p: nat): seq<Varbind>
    decreases |b| - p
  {
    if p >= |b| then []
    else
      match Field(b, p)
      case None => []
      case Some(vb) =>
      match Field(vb.1, 0)
      case None => []
      case Some(name) =>
      match Field(vb.1, name.3)
      case None => []
      case Some(v) => [Varbind(DecodeOid(name.1), v.0, v.1)] + DecodeVarbinds(b, vb.3)
  }

  ghost predicate Wellformed(vbs: seq<Varbind>) {
    forall i | 0 <= i < |vbs| ::
      Encodable(vbs[i].oid) && forall k | 0 <= k < |vbs[i].oid| :: vbs[i].oid[k] < 0x8000_0000_0000_0000
  }

  lemma VarbindFields(vb: Varbind)
    requires |EncodeVarbind(vb)| < 0x1_0000_0000
    requires Encodable(vb.oid) && forall k | 0 <= k < |vb.oid| :: vb.oid[k] < 0x8000_0000_0000_0000
    ensures var inner := Tlv(TAG_OID, EncodeOid(vb.oid)) + Tlv(vb.tag, vb.content);
            && NameOf(inner) == Some(vb.oid)
            && var name := Field(inner, 0);
            && name.Some? && DecodeOid(name.value.1) == vb.oid
            && var v := Field(inner, name.value.3);
            && v.Some? && v.value.0 == vb.tag && v.value.1 == vb.content
  {
    hide Tlv, Field, EncodeOid, DecodeOid;
    var t1, t2 := Tlv(TAG_OID, EncodeOid(vb.oid)), Tlv(vb.tag, vb.content);
    TlvIsLonger(TAG_SEQUENCE, t1 + t2);
    TlvIsLonger(TAG_OID, EncodeOid(vb.oid));
    TlvIsLonger(vb.tag, vb.content);
    assert t1 + t2 == [] + t1 + t2 && t1 + t2 == t1 + t2 + [];
    FieldIs(t1 + t2, [], TAG_OID, EncodeOid(vb.oid), t2);
    FieldIs(t1 + t2, t1, vb.tag, vb.content, []);
    OidRoundTrip(vb.oid);
  }

  /** The agent recovers the OIDs of an encoded list, the manager its varbinds. */
  lemma {:induction false} VarbindsRoundTrip(pre: bytes, vbs: seq<Varbind>)
    requires Wellformed(vbs) && |EncodeVarbinds(vbs)| < 0x1_0000_0000
    ensures CollectOids(pre + EncodeVarbinds(vbs), |pre|) == OidsOf(vbs)
    ensures DecodeVarbinds(pre + EncodeVarbinds(vbs), |pre|) == vbs
    decreases |vbs|
  {
    hide Tlv, Field, EncodeOid, DecodeOid, NameOf, Encodable;
    if vbs != [] {
      var vb, rest := vbs[0], vbs[1..];
      var inner := Tlv(TAG_OID, EncodeOid(vb.oid)) + Tlv(vb.tag, vb.content);
      var t, b := EncodeVarbind(vb), pre + EncodeVarbinds(vbs);
      assert b == pre + t + EncodeVarbinds(rest);
      TlvIsLonger(TAG_SEQUENCE, inner);
      FieldIs(b, pre, TAG_SEQUENCE, inner, EncodeVarbinds(rest));
      VarbindFields(vb);
      VarbindsRoundTrip(pre + t, rest);
      assert vbs == [vb] + rest;
    }
  }

  /** The four fields of a PDU, read back. */
  lemma PduFields(reqId: bytes, f2: int64, f3: int64, vbs: seq<Varbind>)
    requires |PduBody(reqId, f2, f3, vbs)| < 0x1_0000_0000
    ensures var b := PduBody(reqId, f2, f3, vbs);
            var a1 := Field(b, 0);
            && a1.Some? && a1.value.1 == reqId
            && var a2 := Field(b, a1.value.3);
            && a2.Some? && a2.value.1 == IntContent(f2)
            && var a3 := Field(b, a2.value.3);
            && a3.Some? && a3.value.1 == IntContent(f3)
            && var a4 := Field(b, a3.value.3);
            && a4.Some? && a4.value.1 == EncodeVarbinds(vbs)
  {
    hide Tlv, Field, IntContent, EncodeVarbinds;
    var b := PduBody(reqId, f2, f3, vbs);
    var t1, t2 := Tlv(TAG_INTEGER, reqId), Tlv(TAG_INTEGER, IntContent(f2));
    var t3, t4 := Tlv(TAG_INTEGER, IntContent(f3)), Tlv(TAG_SEQUENCE, EncodeVarbinds(vbs));
    TlvIsLonger(TAG_INTEGER, reqId);
    TlvIsLonger(TAG_INTEGER, IntContent(f2));
    TlvIsLonger(TAG_INTEGER, IntContent(f3));
    TlvIsLonger(TAG_SEQUENCE, EncodeVarbinds(vbs));
    assert b == [] + t1 + (t2 + t3 + t4) && b == t1 + t2 + (t3 + t4) && b == (t1 + t2) + t3 + t4 && b == (t1 + t2 + t3) + t4 + [];
    FieldIs(b, [], TAG_INTEGER, reqId, t2 + t3 + t4);
    FieldIs(b, t1, TAG_INTEGER, IntContent(f2), t3 + t4);
    FieldIs(b, t1 + t2, TAG_INTEGER, IntContent(f3), t4);
    FieldIs(b, t1 + t2 + t3, TAG_SEQUENCE, EncodeVarbinds(vbs), []);
  }

  /** The agent reads of a request exactly what the manager put in: its id, its two numbers and its OIDs. */
  lemma RequestRoundTrip(reqId: bytes, f2: int64, f3: int64, vbs: seq<Varbind>)
    requires Wellformed(vbs) && |PduBody(reqId, f2, f3, vbs)| < 0x1_0000_0000
    ensures ParsePdu(PduBody(reqId, f2, f3, vbs)) == Some(Request(reqId, f2, f3, OidsOf(vbs)))
  {
    hide Field, Tlv, PduBody, EncodeVarbinds, CollectOids, Wellformed, IntContent, DecodeInt;
    PduFields(reqId, f2, f3, vbs);
    ListIsShorter(reqId, f2, f3, vbs);
    var empty: bytes := [];
    assert empty + EncodeVarbinds(vbs) == EncodeVarbinds(vbs);
    VarbindsRoundTrip(empty, vbs);
    IntRoundTrip(f2);
    IntRoundTrip(f3);
  }

  lemma ListIsShorter(reqId: bytes, f2: int64, f3: int64, vbs: seq<Varbind>)
    ensures |EncodeVarbinds(vbs)| <= |PduBody(reqId, f2, f3, vbs)|
  {
    hide Tlv, EncodeVarbinds, IntContent;
    TlvIsLonger(TAG_SEQUENCE, EncodeVarbinds(vbs));
  }

  // -- One exchange --------------------------------------------------------------------------------------

  /** The response PDU for given results. */
  function ResponsePdu(reqId: bytes, r: Results): bytes
    requires -0x8000 <= r.errStatus < 0x8000 && -0x8000_0000 <= r.errIndex < 0x8000_0000
  {
    Tlv(PDU_RESPONSE, PduBody(reqId, r.errStatus, r.errIndex, r.varbinds))
  }

  /** What the manager decodes from a response. */
  function DecodeResponse(b: bytes): Option<(bytes, Results)> {
    match Field(b, 0)
    case None => None
    case Some(outer) =>
      if outer.0 != PDU_RESPONSE then None
      else
        var pdu := outer.1;
        match Field(pdu, 0)
        case None => None
        case Some(id) =>
        match Field(pdu, id.3)
        case None => None
        case Some(st) =>
        match Field(pdu, st.3)
        case None => None
        case Some(ix) =>
        match Field(pdu, ix.3)
        case None => None
        case Some(list) => Some((id.1, Results(DecodeInt(st.1), DecodeInt(ix.1), DecodeVarbinds(list.1, 0))))
  }

  lemma ResponseRoundTrip(reqId: bytes, r: Results)
    requires -0x8000 <= r.errStatus < 0x8000 && -0x8000_0000 <= r.errIndex < 0x8000_0000
    requires Wellformed(r.varbinds) && |ResponsePdu(reqId, r)| < 0x1_0000_0000
    ensures DecodeResponse(ResponsePdu(reqId, r)) == Some((reqId, r))
  {
    hide Field, Tlv, PduBody, EncodeVarbinds, DecodeVarbinds, Wellformed, IntContent, DecodeInt;
    var body := PduBody(reqId, r.errStatus, r.errIndex, r.varbinds);
    var t := Tlv(PDU_RESPONSE, body);
    TlvIsLonger(PDU_RESPONSE, body);
    assert t == [] + t + [];
    FieldIs(t, [], PDU_RESPONSE, body, []);
    PduFields(reqId, r.errStatus, r.errIndex, r.varbinds);
    ListIsShorter(reqId, r.errStatus, r.errIndex, r.varbinds);
    var empty: bytes := [];
    assert empty + EncodeVarbinds(r.varbinds) == EncodeVarbinds(r.varbinds);
    VarbindsRoundTrip(empty, r.varbinds);
    IntRoundTrip(r.errStatus);
    IntRoundTrip(r.errIndex);
  }

  /** servePDU: an unreadable PDU or one of another kind is not answered. */
  method ServePdu(mib: seq<Entry>, tag: byte, pdu: bytes, version: int) returns (resp: Option<bytes>, ghost res: Results)
    requires Sorted(mib) && |pdu| < 0x8000_0000
    ensures resp.Some? <==> ParsePdu(pdu).Some? && (tag == PDU_GET || tag == PDU_GET_NEXT || tag == PDU_GET_BULK)
    ensures resp.Some? ==>
              var req := ParsePdu(pdu).value;
              && 0 <= res.errStatus <= 2 && 0 <= res.errIndex <= |req.oids| < 0x8000_0000
              && resp == Some(ResponsePdu(req.reqId, res))
              && (tag == PDU_GET ==> GetResult(mib, req.oids, version, res))
              && (tag == PDU_GET_NEXT ==> NextResult(mib, req.oids, version, res))
              && (tag == PDU_GET_BULK ==>
                    res == Results(0, 0, Rows(mib, req.oids, ClampInt(req.f2, 0, 256), ClampInt(req.f3, 0, 1024), |req.oids|)))
  {
    hide Field, Sorted, CollectOids, DecodeInt, NextVarbind, Answers, Rows;
    res := Results(0, 0, []);
    var parsed := ParsePdu(pdu);
    if parsed.None? {
      return None, res;
    }
    var req := parsed.value;
    OidsAreFew(pdu);
    var r: Results;
    if tag == PDU_GET {
      r := ServeGet(mib, req.oids, version);
    } else if tag == PDU_GET_NEXT {
      r := ServeGetNext(mib, req.oids, version);
    } else if tag == PDU_GET_BULK {
      r := ServeGetBulk(mib, req.oids, req.f2, req.f3);
    } else {
      return None, res;
    }
    res := r;
    resp := Some(ResponsePdu(req.reqId, r));
  }

  lemma {:induction false} CollectedAreFew(b: bytes, p: nat)
    requires p <= |b|
    ensures |CollectOids(b, p)| <= |b| - p
    decreases |b| - p
  {
    hide Field, NameOf;
    if p < |b| && Field(b, p).Some? {
      FieldMovesOn(b, p);
      CollectedAreFew(b, Field(b, p).value.3);
    }
  }

  lemma OidsAreFew(pdu: bytes)
    ensures ParsePdu(pdu).Some? ==> |ParsePdu(pdu).value.oids| <= |pdu|
  {
    hide DecodeInt, CollectOids, ReadTlv;
    if ParsePdu(pdu).Some? {
      var p := Field(pdu, Field(pdu, Field(pdu, 0).value.3).value.3).value.3;
      CollectedAreFew(Field(pdu, p).value.1, 0);
    }
  }

  // -- A walk ------------------------------------------------------------------------------------------------

  /** What a manager is told when it asks for the successor of one OID. */
  function StepResult(mib: seq<Entry>, o: Oid, version: int): Results {
    if version == 0 && NextEntry(mib, o).None? then Results(2, 1, []) else Results(0, 0, [NextVarbind(mib, o)])
  }

  /** The request and its answer can be encoded. */
  ghost predicate Fits(mib: seq<Entry>, o: Oid, reqId: bytes, version: int) {
    && Wellformed([NullOf(o)]) && Wellformed(StepResult(mib, o, version).varbinds)
    && |PduBody(reqId, 0, 0, [NullOf(o)])| < 0x8000_0000
    && |ResponsePdu(reqId, StepResult(mib, o, version))| < 0x1_0000_0000
  }

  lemma OneResult(mib: seq<Entry>, o: Oid, version: int, res: Results)
    requires NextResult(mib, [o], version, res)
    ensures res == StepResult(mib, o, version)
  {
    if res.errStatus == 0 {
      assert res.varbinds == [res.varbinds[0]];
    }
  }

  /** One step of a walk, octets to octets, in either version: the manager asks for the successor of o and decodes the first
      entry above o, or the end of the view. */
  method WalkStep(mib: seq<Entry>, o: Oid, reqId: bytes, version: int) returns (answer: Option<(bytes, Results)>)
    requires Sorted(mib) && Fits(mib, o, reqId, version)
    ensures answer == Some((reqId, StepResult(mib, o, version)))
  {
    hide Field, Sorted, PduBody, ResponsePdu, DecodeResponse, ParsePdu, Wellformed, NextVarbind, Answers, Rows, NextResult, GetResult,
         StepResult;
    var pdu := PduBody(reqId, 0, 0, [NullOf(o)]);
    RequestRoundTrip(reqId, 0, 0, [NullOf(o)]);
    OidOfOne(o);
    var resp, res := ServePdu(mib, PDU_GET_NEXT, pdu, version);
    OneResult(mib, o, version, res);
    answer := DecodeResponse(resp.value);
    ResponseRoundTrip(reqId, res);
  }

  lemma OidOfOne(o: Oid)
    ensures OidsOf([NullOf(o)]) == [o]
  {
    assert [NullOf(o)][1..] == [];
  }

  function BoundAll(entries: seq<Entry>): seq<Varbind> { seq(|entries|, i requires 0 <= i < |entries| => BoundOf(entries[i])) }

  /** No entry of the MIB has the tag that ends a walk. */
  predicate NoEndMarks(mib: seq<Entry>) { forall e | e in mib :: e.tag != END_OF_MIB_VIEW }

  lemma WalkNext(mib: seq<Entry>, o: Oid, sofar: seq<Varbind>)
    requires Sorted(mib) && NextEntry(mib, o).Some?
    ensures var e := NextEntry(mib, o).value;
            && e in mib && NextVarbind(mib, o) == BoundOf(e)
            && sofar + BoundAll(Walk(mib, o)) == sofar + [BoundOf(e)] + BoundAll(Walk(mib, e.oid))
            && FirstAbove(mib, o) < FirstAbove(mib, e.oid) <= |mib|
  {
    hide Compare, FirstAbove, Sorted;
    var e := NextEntry(mib, o).value;
    var k := FirstAbove(mib, o);
    FirstAboveOfEntry(mib, k);
    assert BoundAll([e] + Walk(mib, e.oid)) == [BoundOf(e)] + BoundAll(Walk(mib, e.oid));
  }

  /** A whole walk over encoded PDUs, under any request ids and in either version: the manager decodes the entries above its
      start, each once, in increasing order, and stops. */
  method WalkOverWire(mib: seq<Entry>, start: Oid, ids: nat -> bytes, version: int) returns (found: seq<Varbind>)
    requires Sorted(mib) && NoEndMarks(mib)
    requires forall k :: Fits(mib, start, ids(k), version)
    requires forall e, k | e in mib :: Fits(mib, e.oid, ids(k), version)
    ensures found == BoundAll(mib[FirstAbove(mib, start)..])
  {
    hide Sorted, FirstAbove, Walk, Fits, BoundAll;
    found := [];
    var o := start;
    WalkIsAllAbove(mib, start);
    assert found + BoundAll(Walk(mib, start)) == BoundAll(Walk(mib, start));
    while true
      invariant forall k :: Fits(mib, o, ids(k), version)
      invariant found + BoundAll(Walk(mib, o)) == BoundAll(Walk(mib, start))
      decreases |mib| - FirstAbove(mib, o)
    {
      var answer := WalkStep(mib, o, ids(|found|), version);
      var res := answer.value.1;
      if res.errStatus != 0 || res.varbinds[0].tag == END_OF_MIB_VIEW {
        WalkEnds(mib, o, found);
        return;
      }
      WalkNext(mib, o, found);
      found := found + [res.varbinds[0]];
      o := res.varbinds[0].oid;
    }
  }

  lemma WalkEnds(mib: seq<Entry>, o: Oid, sofar: seq<Varbind>)
    requires Sorted(mib) && NextEntry(mib, o).None?
    ensures sofar + BoundAll(Walk(mib, o)) == sofar
  {
    hide Compare, FirstAbove, Sorted;
    assert BoundAll([]) == [];
  }
}
