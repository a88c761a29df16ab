/** The spoolss print-job state machine (spoolss.go) and the byte cap it applies (limits.go). */
module Spoolss {
  import opened Bytes
  import opened Ndr

  const OP_OPEN_PRINTER: u16 := 1
  const OP_START_DOC: u16 := 17
  const OP_WRITE: u16 := 19
  const OP_END_DOC: u16 := 23
  const OP_CLOSE_PRINTER: u16 := 29
  const OP_OPEN_PRINTER_EX: u16 := 69
  const HANDLE_LEN: nat := 20

  /** dst with as much of src as fits under cap (cap <= 0: all of it). */
  function AppendCapped(dst: bytes, src: bytes, cap: int): bytes {
    if cap > 0 then
      var room := cap - |dst|;
      if room <= 0 then dst
      else if |src| > room then dst + src[..room]
      else dst + src
    else dst + src
  }

  /** The first cap bytes of s; all of them when cap is not positive. */
  function FirstBytes(s: bytes, cap: int): bytes { if 0 < cap < |s| then s[..cap] else s }

  /** The document name of a StartDoc stub. */
  function ParseStartDoc(stub: bytes): Option<seq<u16>> {
    if HANDLE_LEN + 8 > |stub| then None
    else if U32LE(stub, HANDLE_LEN + 4) == 0 then Some([])
    else if HANDLE_LEN + 20 > |stub| then None
    else
      var doc := ReadIf(stub, Some(HANDLE_LEN + 20), U32LE(stub, HANDLE_LEN + 8));
      var out := ReadIf(stub, After(doc), U32LE(stub, HANDLE_LEN + 12));
      var dt := ReadIf(stub, After(out), U32LE(stub, HANDLE_LEN + 16));
      if dt.None? then None else Some(doc.value.0)
  }

  /** A deferred string: read at off when its pointer is not null. */
  function ReadIf(stub: bytes, off: Option<nat>, ref: u32): (r: Option<(seq<u16>, nat)>)
    ensures off.None? ==> r.None?
  {
    match off
    case None => None
    case Some(o) => if ref == 0 then Some(([], o)) else ReadString(stub, o)
  }

  function After(r: Option<(seq<u16>, nat)>): Option<nat> { if r.None? then None else Some(r.value.1) }

  /** The data of a WritePrinter stub; cbBuf, when present and not too large, is its length. */
  function ParseWrite(stub: bytes): Option<bytes> {
    if HANDLE_LEN + 4 > |stub| then None
    else
      var maxCount := U32LE(stub, HANDLE_LEN);
      var end := HANDLE_LEN + 4 + maxCount;
      if end > |stub| then None
      else
        var raw := stub[HANDLE_LEN + 4..end];
        match ReadU32(stub, Aligned(stub, end, 4))
        case Some(cb) => Some(if cb <= maxCount then raw[..cb] else raw)
        case None => Some(raw)
  }

  /** A captured print job. */
  datatype Job = Job(name: seq<u16>, data: bytes)

  /** The per-session capture state, with the jobs captured so far. */
  datatype Spool = Spool(name: seq<u16>, buf: bytes, open: bool, captured: seq<Job>)

  /** One call of the dispatcher: the new state and the response stub, None for a fault. */
  function Dispatch(st: Spool, opnum: u16, stub: bytes, cap: int): (Spool, Option<bytes>) {
    if opnum == OP_OPEN_PRINTER || opnum == OP_OPEN_PRINTER_EX then
      (Spool([], [], false, st.captured), Some(Zeros(HANDLE_LEN + 4)))
    else if opnum == OP_START_DOC then
      (match ParseStartDoc(stub)
       case None => (st, None)
       case Some(name) => (Spool(name, [], true, st.captured), Some(Put32LE(1) + Zeros(4))))
    else if opnum == OP_WRITE then
      (match ParseWrite(stub)
       case None => (st, None)
       case Some(data) =>
         (st.(buf := AppendCapped(st.buf, data, cap)), Some(Put32LE(|data| % 0x1_0000_0000) + Zeros(4))))
    else if opnum == OP_END_DOC then
      if |stub| < HANDLE_LEN then (st, None)
      else if st.open then
        (Spool(st.name, [], false, st.captured + [Job(st.name, st.buf)]), Some(Zeros(4)))
      else (st, Some(Zeros(4)))
    else if opnum == OP_CLOSE_PRINTER then
      (Spool([], [], false, st.captured), Some(Zeros(HANDLE_LEN + 4)))
    else
      (st, Some(Zeros(4)))
  }

  /** The dispatcher closure with the spoolssJob it updates. */
  class Dispatcher {
    const cap: int
    var name: seq<u16>
    var buf: bytes
    var open: bool
    var captured: seq<Job>

    ghost function Value(): Spool
      reads this
    {
      Spool(name, buf, open, captured)
    }

    constructor (cap: int)
      ensures this.cap == cap && Value() == Spool([], [], false, [])
    {
      this.cap := cap;
      name, buf, open, captured := [], [], false, [];
    }

    method Call(opnum: u16, stub: bytes) returns (resp: Option<bytes>)
      requires |stub| < 0x1_0000_0000
      modifies this
      ensures (Value(), resp) == Dispatch(old(Value()), opnum, stub, cap)
    {
      if opnum == OP_OPEN_PRINTER || opnum == OP_OPEN_PRINTER_EX {
        name, buf, open := [], [], false;
        resp := Some(Zeros(HANDLE_LEN + 4));
      } else if opnum == OP_START_DOC {
        var parsed := StartDocName(stub);
        if parsed.None? { return None; }
        name := parsed.value;
        buf := [];
        open := true;
        resp := Some(Put32LE(1) + Zeros(4));
      } else if opnum == OP_WRITE {
        var data := WriteData(stub);
        if data.None? { return None; }
        buf := AppendCapped(buf, data.value, cap);
        resp := Some(Put32LE(|data.value| % 0x1_0000_0000) + Zeros(4));
      } else if opnum == OP_END_DOC {
        if |stub| < HANDLE_LEN { return None; }
        if open {
          captured := captured + [Job(name, buf)];
          open := false;
          buf := [];
        }
        resp := Some(Zeros(4));
      } else if opnum == OP_CLOSE_PRINTER {
        name, buf, open := [], [], false;
        resp := Some(Zeros(HANDLE_LEN + 4));
      } else {
        resp := Some(Zeros(4));
      }
    }
  }

  method StartDocName(stub: bytes) returns (name: Option<seq<u16>>)
    requires |stub| < 0x1_0000_0000
    ensures name == ParseStartDoc(stub)
  {
    hide ReadString;
    var r := new Reader(stub);
    var ok := r.Skip(HANDLE_LEN);
    if !ok { return None; }
    var level := r.U32();
    if level.None? { return None; }
    var infoRef := r.U32();
    if infoRef.None? { return None; }
    if infoRef.value == 0 { return Some([]); }
    var docRef := r.U32();
    if docRef.None? { return None; }
    var outRef := r.U32();
    if outRef.None? { return None; }
    var dtRef := r.U32();
    if dtRef.None? { return None; }
    name := Some([]);
    if docRef.value != 0 {
      name := r.NdrString();
      if name.None? { return None; }
    }
    if outRef.value != 0 {
      var out := r.NdrString();
      if out.None? { return None; }
    }
    if dtRef.value != 0 {
      var dt := r.NdrString();
      if dt.None? { return None; }
    }
  }

  method WriteData(stub: bytes) returns (data: Option<bytes>)
    requires |stub| < 0x1_0000_0000
    ensures data == ParseWrite(stub)
  {
    var r := new Reader(stub);
    var ok := r.Skip(HANDLE_LEN);
    if !ok { return None; }
    var maxCount := r.U32();
    if maxCount.None? { return None; }
    if maxCount.value > |stub| { return None; }
    var raw := r.Take(maxCount.value);
    if raw.None? { return None; }
    data := raw;
    var padded := r.Align(4);
    var cb := r.U32();
    if cb.Some? && cb.value <= maxCount.value {
      data := Some(raw.value[..cb.value]);
    }
  }
}
