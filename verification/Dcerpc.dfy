/** The connection-oriented DCERPC layer over the spoolss pipe (dcerpc.go). */
module Dcerpc {
  import opened Bytes
  import opened Ndr
  import opened Spoolss

  const PT_REQUEST: byte := 0
  const PT_RESPONSE: byte := 2
  const PT_FAULT: byte := 3
  const PT_BIND: byte := 11
  const PT_BIND_ACK: byte := 12
  const REASM_MAX: nat := 0x40_0000
  const STATUS_PROTOCOL_ERROR: u32 := 0x1c01_000b

  predicate FirstFrag(flags: byte) { flags % 2 == 1 }
  predicate LastFrag(flags: byte) { flags / 2 % 2 == 1 }
  predicate ObjectUuid(flags: byte) { flags / 0x80 == 1 }

  datatype Header = Header(ptype: byte, flags: byte, callId: u32, body: bytes)

  function ParseHeader(p: bytes): Option<Header> {
    if |p| < 16 || p[0] != 5 then None
    else
      var fragLen := U16LE(p, 8);
      var end := if 16 <= fragLen <= |p| then fragLen else |p|;
      Some(Header(p[2], p[3], U32LE(p, 12), p[16..end]))
  }

  function BuildHeader(ptype: byte, flags: byte, fragLen: u16, callId: u32): (h: bytes)
    ensures |h| == 16
  {
    [5, 0, ptype, flags, 0x10, 0, 0, 0] + Put16LE(fragLen) + Put16LE(0) + Put32LE(callId)
  }

  /** A complete PDU: the header and the body it announces. */
  function BuildPdu(ptype: byte, flags: byte, callId: u32, body: bytes): bytes {
    BuildHeader(ptype, flags, (16 + |body|) % 0x1_0000, callId) + body
  }

  function BuildResponse(callId: u32, contId: u16, stub: bytes): bytes {
    BuildPdu(PT_RESPONSE, 3, callId, Put32LE(|stub| % 0x1_0000_0000) + Put16LE(contId) + [0, 0] + stub)
  }

  function BuildFault(callId: u32, contId: u16, status: u32): bytes {
    BuildPdu(PT_FAULT, 3, callId, Put32LE(0) + Put16LE(contId) + [0, 0] + Put32LE(status) + Zeros(4))
  }

  const SEC_ADDR: bytes := [0x5C, 0x50, 0x49, 0x50, 0x45, 0x5C, 0x73, 0x70, 0x6F, 0x6F, 0x6C, 0x73, 0x73]
  const NDR_UUID_LE: bytes := [0x04, 0x5D, 0x88, 0x8A, 0xEB, 0x1C, 0xC9, 0x11, 0x9F, 0xE8, 0x08, 0x00, 0x2B, 0x10, 0x48, 0x60]

  function BuildBindAck(callId: u32, maxXmit: u16, maxRecv: u16): bytes {
    var head := Put16LE(maxXmit) + Put16LE(maxRecv) + [1, 0, 0, 0] + Put16LE(|SEC_ADDR| + 1) + SEC_ADDR + [0];
    BuildPdu(PT_BIND_ACK, 3, callId,
             head + Zeros(Pad4(|head|)) + [1, 0, 0, 0] + [0, 0] + [0, 0] + NDR_UUID_LE + Put16LE(2) + Put16LE(0))
  }

  /** The reassembly of one fragmented request. */
  datatype Reasm = Reasm(stub: bytes, active: bool, callId: u32, opnum: u16, cont: u16)

  const IDLE: Reasm := Reasm([], false, 0, 0, 0)

  /** One pipe: the DCERPC state and the print-job state behind it. */
  datatype Pipe = Pipe(bound: bool, reasm: Reasm, spool: Spool)

  /** Hands a complete request to the dispatcher and answers under the ids of its first fragment. */
  function Finish(p: Pipe, cap: int): (Pipe, Option<bytes>) {
    var (spool, resp) := Dispatch(p.spool, p.reasm.opnum, p.reasm.stub, cap);
    (Pipe(p.bound, IDLE, spool),
     Some(match resp
          case None => BuildFault(p.reasm.callId, p.reasm.cont, STATUS_PROTOCOL_ERROR)
          case Some(stub) => BuildResponse(p.reasm.callId, p.reasm.cont, stub)))
  }

  function HandleRequest(p: Pipe, flags: byte, callId: u32, body: bytes, cap: int): (Pipe, Option<bytes>) {
    if |body| < 8 then (p, None)
    else
      var contId, opnum := U16LE(body, 4), U16LE(body, 6);
      var off := if ObjectUuid(flags) then 24 else 8;
      if |body| < off then (p, None)
      else
        var stub := body[off..];
        if FirstFrag(flags) then
          var q := p.(reasm := Reasm(stub, true, callId, opnum, contId));
          if LastFrag(flags) then Finish(q, cap) else (q, None)
        else if !p.reasm.active then (p, None)
        else if |p.reasm.stub| + |stub| > REASM_MAX then
          (p.(reasm := IDLE), Some(BuildFault(callId, contId, STATUS_PROTOCOL_ERROR)))
        else
          var q := p.(reasm := p.reasm.(stub := p.reasm.stub + stub));
          if LastFrag(flags) then Finish(q, cap) else (q, None)
  }

  function HandleBind(p: Pipe, callId: u32, body: bytes): (Pipe, Option<bytes>) {
    if |body| < 8 then (p, None)
    else
      var maxXmit := if U16LE(body, 0) == 0 then 4280 else U16LE(body, 0);
      var maxRecv := if U16LE(body, 2) == 0 then 4280 else U16LE(body, 2);
      (p.(bound := true), Some(BuildBindAck(callId, maxXmit, maxRecv)))
  }

  function OnWrite(p: Pipe, pdu: bytes, cap: int): (Pipe, Option<bytes>) {
    match ParseHeader(pdu)
    case None => (p, None)
    case Some(h) =>
      if h.ptype == PT_BIND then HandleBind(p, h.callId, h.body)
      else if h.ptype == PT_REQUEST then HandleRequest(p, h.flags, h.callId, h.body, cap)
      else (p, None)
  }

  /** The dcerpc backend of one pipe handle. */
  class Backend {
    const disp: Dispatcher
    var bound: bool
    var reasm: bytes
    var reasmActive: bool
    var reasmCallId: u32
    var reasmOpnum: u16
    var reasmCont: u16

    ghost function Value(): Pipe
      reads this, disp
    {
      Pipe(bound, Reasm(reasm, reasmActive, reasmCallId, reasmOpnum, reasmCont), disp.Value())
    }

    constructor (disp: Dispatcher)
      ensures this.disp == disp && Value() == Pipe(false, IDLE, disp.Value())
    {
      this.disp := disp;
      bound, reasm, reasmActive, reasmCallId, reasmOpnum, reasmCont := false, [], false, 0, 0, 0;
    }

    method ResetReasm()
      modifies this
      ensures Value() == old(Value()).(reasm := IDLE)
    {
      reasm := [];
      reasmActive := false;
      reasmCallId := 0;
      reasmOpnum := 0;
      reasmCont := 0;
    }

    method Request(flags: byte, callId: u32, body: bytes) returns (resp: Option<bytes>)
      requires |body| < 0x1000_0000 && |reasm| < 0x1000_0000
      modifies this, disp
      ensures (Value(), resp) == HandleRequest(old(Value()), flags, callId, body, disp.cap)
    {
      hide Dispatch;
      if |body| < 8 { return None; }
      var contId := U16LE(body, 4);
      var opnum := U16LE(body, 6);
      var off := 8;
      if ObjectUuid(flags) {
        if |body| < off + 16 { return None; }
        off := off + 16;
      }
      var stub := body[off..];
      if FirstFrag(flags) {
        reasm := stub;
        reasmActive := true;
        reasmCallId := callId;
        reasmOpnum := opnum;
        reasmCont := contId;
      } else {
        if !reasmActive { return None; }
        if |reasm| + |stub| > REASM_MAX {
          ResetReasm();
          return Some(BuildFault(callId, contId, STATUS_PROTOCOL_ERROR));
        }
        reasm := reasm + stub;
      }
      if !LastFrag(flags) { return None; }
      var fullStub, rCallId, rOpnum, rCont := reasm, reasmCallId, reasmOpnum, reasmCont;
      ResetReasm();
      var respStub := disp.Call(rOpnum, fullStub);
      if respStub.None? { return Some(BuildFault(rCallId, rCont, STATUS_PROTOCOL_ERROR)); }
      resp := Some(BuildResponse(rCallId, rCont, respStub.value));
    }

    method Write(p: bytes) returns (resp: Option<bytes>)
      requires |p| < 0x1000_0000 && |reasm| < 0x1000_0000
      modifies this, disp
      ensures (Value(), resp) == OnWrite(old(Value()), p, disp.cap)
    {
      hide HandleRequest;
      match ParseHeader(p)
      case None => resp := None;
      case Some(h) =>
        if h.ptype == PT_BIND {
          if |h.body| < 8 { return None; }
          var maxXmit := U16LE(h.body, 0);
          var maxRecv := U16LE(h.body, 2);
          if maxXmit == 0 { maxXmit := 4280; }
          if maxRecv == 0 { maxRecv := 4280; }
          bound := true;
          resp := Some(BuildBindAck(h.callId, maxXmit, maxRecv));
        } else if h.ptype == PT_REQUEST {
          resp := Request(h.flags, h.callId, h.body);
        } else {
          resp := None;
        }
    }
  }
}
