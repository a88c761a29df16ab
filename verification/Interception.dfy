/** A captured print connection from its packets to its document (carve.go over reassembly.go). */
module Interception {
  import opened Bytes
  import opened FlowSpec
  import opened ReassemblyLoss
  import opened ReassemblyOrder
  import opened ReassemblySafety
  import opened Carve
  import opened Ipp

  /** onStream for port 631: what is carved of an assembled flow; an envelope that is not recognised is carved as it is. */
  function CarveIpp(buf: bytes): Carved {
    match UnwrapIpp(buf)
    case Some(r) => r
    case None => Carved(buf, None)
  }

  /** What one direction of a print connection carries: a POST whose body, chunked or not, is one IPP message. */
  ghost predicate IsPrintRequest(data: bytes, headers: bytes, head: bytes, elements: seq<Element>, document: bytes,
                                 chunks: seq<Chunk>, end: bytes, trailer: bytes) {
    && POST <= headers && NoInnerBlankLine(headers)
    && |head| == 8 && document != [] && (forall e | e in elements :: ValidElement(e))
    && (IsChunked(headers) ==>
          (forall c | c in chunks :: ValidChunk(c)) && ValidEnd(end) && Joined(chunks) == Message(head, elements, document))
    && data == headers + BLANK_LINE +
               (if IsChunked(headers) then WriteChunks(chunks) + (end + CRLF + trailer) else Message(head, elements, document))
  }

  lemma RequestIsCarved(data: bytes, headers: bytes, head: bytes, elements: seq<Element>, document: bytes,
                        chunks: seq<Chunk>, end: bytes, trailer: bytes)
    requires IsPrintRequest(data, headers, head, elements, document, chunks, end, trailer)
    ensures CarveIpp(data) == Carved(document, FormatOf(NoteAll(map[], elements)))
  {
    hide UnwrapIpp, IsChunked, WriteChunks, Message;
    DocumentIsRecovered(headers, head, elements, document, chunks, end, trailer);
  }

  /** The segments of a print connection, behind its SYN, in any order, cut and repeated in any way, every one meeting the
      guard in the state it finds: once all octets have arrived, the document is carved whole, whatever the chunking of the
      HTTP body and whatever the cap allows beyond it. */
  lemma PrintConnectionIsCarved(st: Stream, segs: seq<Segment>, maxFlow: int, headers: bytes, head: bytes, elements: seq<Element>,
                                document: bytes, chunks: seq<Chunk>, end: bytes, trailer: bytes)
    requires st.Valid() && Carried(st, segs) && segs != [] && segs[0].syn && AllKeep(st, segs, maxFlow)
    requires forall x | 0 <= x < |st.data| :: HasArrived(st, segs, x)
    requires IsPrintRequest(st.data, headers, head, elements, document, chunks, end, trailer)
    requires maxFlow <= 0 || |st.data| <= maxFlow
    ensures CarveIpp(Run(segs, maxFlow).buf) == Carved(document, FormatOf(NoteAll(map[], elements)))
  {
    hide Run, CarveIpp, Carried, HasArrived, AllKeep, IsPrintRequest;
    KeptIsComplete(st, segs, maxFlow);
    RequestIsCarved(st.data, headers, head, elements, document, chunks, end, trailer);
  }

  /** In particular for one division into pieces, in any order and each any number of times, if there is room for what waits. */
  lemma PrintConnectionInPieces(p: Partition, order: seq<nat>, maxFlow: int, headers: bytes, head: bytes, elements: seq<Element>,
                                document: bytes, chunks: seq<Chunk>, end: bytes, trailer: bytes)
    requires p.Valid() && (forall i | 0 <= i < |order| :: order[i] < p.Pieces()) && Fits(p, 0, order)
    requires forall i | 0 <= i < p.Pieces() :: i in Arrived(order)
    requires IsPrintRequest(p.st.data, headers, head, elements, document, chunks, end, trailer)
    requires maxFlow <= 0 || |p.st.data| <= maxFlow
    ensures CarveIpp(Run([Syn(p)] + Segments(p, order), maxFlow).buf) == Carved(document, FormatOf(NoteAll(map[], elements)))
  {
    hide Run, CarveIpp, IsPrintRequest;
    AllArrivedIsComplete(p, [Syn(p)], 0, order, maxFlow);
    assert p.st.data[p.cuts[0]..] == p.st.data;
    RequestIsCarved(p.st.data, headers, head, elements, document, chunks, end, trailer);
  }
}
