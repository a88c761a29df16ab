/** The IPP envelope (ipp.go): attribute groups, the attribute encoders, and the parser that finds the document. */
module Ipp {
  import opened Bytes

  const END_OF_ATTRIBUTES: byte := 3

  // -- The parser -----------------------------------------------------------------------------------------------------

  type Attrs = map<bytes, bytes>

  /** Where the attribute at i ends and what it holds, when all of it is there. i is behind its tag. */
  function AttrAt(b: bytes, i: nat): (r: Option<(bytes, bytes, nat)>)
    ensures r.Some? ==> i < r.value.2 <= |b|
  {
    if i + 2 > |b| then None
    else
      var n := i + 2 + U16BE(b, i) as int;
      if n + 2 > |b| then None
      else
        var v := n + 2 + U16BE(b, n) as int;
        if v > |b| then None else Some((b[i + 2..n], b[n + 2..v], v))
  }

  /** The first value of each name; the values without a name belong to the attribute before them and are dropped. */
  function Note(attrs: Attrs, name: bytes, value: bytes): Attrs {
    if name == [] || name in attrs then attrs else attrs[name := value]
  }

  function ParseFrom(b: bytes, i: nat, attrs: Attrs): (Attrs, bytes)
    requires i <= |b|
    decreases |b| - i
  {
    if i == |b| then (attrs, [])
    else if b[i] == END_OF_ATTRIBUTES then (attrs, b[i + 1..])
    else if b[i] <= 5 then ParseFrom(b, i + 1, attrs)
    else match AttrAt(b, i + 1)
         case None => (attrs, [])
         case Some((name, value, next)) => ParseFrom(b, next, Note(attrs, name, value))
  }

  /** Name and value, if all of them is there. */
  method ReadAttr(b: bytes, start: nat) returns (r: Option<(bytes, bytes, nat)>)
    ensures r == AttrAt(b, start)
  {
    hide U16BE;
    var i := start;
    if i + 2 > |b| {
      return None;
    }
    var nameLen := U16BE(b, i);
    i := i + 2;
    if i + nameLen as int > |b| {
      return None;
    }
    var name := b[i..i + nameLen as int];
    i := i + nameLen as int;
    if i + 2 > |b| {
      return None;
    }
    var valLen := U16BE(b, i);
    i := i + 2;
    if i + valLen as int > |b| {
      return None;
    }
    r := Some((name, b[i..i + valLen as int], i + valLen as int));
  }

  /** parseIPP: the attributes, and the document behind the end tag. */
  method ParseIpp(b: bytes) returns (attrs: Attrs, document: bytes)
    ensures (attrs, document) == ParseFrom(b, 0, map[])
  {
    hide AttrAt;
    attrs, document := map[], [];
    var i := 0;
    while i < |b|
      invariant 0 <= i <= |b|
      invariant ParseFrom(b, i, attrs) == ParseFrom(b, 0, map[])
      decreases |b| - i
    {
      var tag := b[i];
      i := i + 1;
      if tag <= 5 {
        if tag == END_OF_ATTRIBUTES {
          return attrs, b[i..];
        }
        continue;
      }
      var r := ReadAttr(b, i);
      if r == None {
        return;
      }
      var (name, val, next) := r.value;
      i := next;
      // A value without a name belongs to the attribute before it: only the first is kept.
      if name != [] && name !in attrs {
        attrs := attrs[name := val];
      }
    }
  }

  // -- Truncation -----------------------------------------------------------------------------------------------------

  lemma AttrInLonger(a: bytes, b: bytes, i: nat)
    requires a <= b && AttrAt(a, i).Some?
    ensures AttrAt(b, i) == AttrAt(a, i)
  {
    assert U16BE(b, i) == U16BE(a, i);
    var n := i + 2 + U16BE(a, i) as int;
    assert U16BE(b, n) == U16BE(a, n);
    assert b[i + 2..n] == a[i + 2..n];
    var v := n + 2 + U16BE(a, n) as int;
    assert b[n + 2..v] == a[n + 2..v];
  }

  /** Of a message cut off anywhere, inside an attribute or behind the end tag, a beginning of the document is found, whatever
      the message is. */
  lemma {:induction false} TruncatedDocument(a: bytes, b: bytes, i: nat, attrs: Attrs)
    requires a <= b && i <= |a|
    ensures ParseFrom(a, i, attrs).1 <= ParseFrom(b, i, attrs).1
    decreases |a| - i
  {
    hide AttrAt, Note;
    if i < |a| {
      assert b[i] == a[i];
      if a[i] == END_OF_ATTRIBUTES {
        assert a[i + 1..] <= b[i + 1..];
      } else if a[i] <= 5 {
        TruncatedDocument(a, b, i + 1, attrs);
      } else if AttrAt(a, i + 1).Some? {
        AttrInLonger(a, b, i + 1);
        var (name, value, next) := AttrAt(a, i + 1).value;
        TruncatedDocument(a, b, next, Note(attrs, name, value));
      }
    }
  }

  // -- Envelopes --------------------------------------------------------------------------------------------------------

  datatype Element = Group(tag: byte) | Attr(tag: byte, name: bytes, value: bytes)

  predicate ValidElement(e: Element) {
    match e
    case Group(tag) => tag <= 5 && tag != END_OF_ATTRIBUTES
    case Attr(tag, name, value) => tag > 5 && |name| < 0x1_0000 && |value| < 0x1_0000
  }

  /** writeAttr, for lengths that fit their fields. */
  function WriteAttr(tag: byte, name: bytes, value: bytes): bytes {
    [tag] + ((Put16BE(|name| % 0x1_0000) + name) + (Put16BE(|value| % 0x1_0000) + value))
  }

  function WriteElement(e: Element): bytes {
    match e
    case Group(tag) => [tag]
    case Attr(tag, name, value) => WriteAttr(tag, name, value)
  }

  function Envelope(elements: seq<Element>): bytes {
    if elements == [] then [] else WriteElement(elements[0]) + Envelope(elements[1..])
  }

  function NoteAll(attrs: Attrs, elements: seq<Element>): Attrs
    decreases |elements|
  {
    if elements == [] then attrs
    else NoteAll(if elements[0].Attr? then Note(attrs, elements[0].name, elements[0].value) else attrs, elements[1..])
  }

  /** A length field and what it counts. */
  lemma FieldRead(b: bytes, pre: bytes, v: bytes, post: bytes)
    requires |v| < 0x1_0000 && b == pre + (Put16BE(|v|) + v) + post
    ensures |pre| + 2 + |v| <= |b| && U16BE(b, |pre|) == |v| && b[|pre| + 2..|pre| + 2 + |v|] == v
  {
    hide Put16BE, U16BE;
    assert b[|pre|..|pre| + 2] == Put16BE(|v|);
    Get16BE(b, |pre|, |v|);
  }

  lemma AttrRead(pre: bytes, e: Element, post: bytes)
    requires e.Attr? && ValidElement(e)
    ensures var b := pre + WriteElement(e) + post;
            && |pre| < |b| && b[|pre|] == e.tag
            && AttrAt(b, |pre| + 1) == Some((e.name, e.value, |pre| + |WriteElement(e)|))
  {
    hide Put16BE, U16BE;
    var f1, f2 := Put16BE(|e.name|) + e.name, Put16BE(|e.value|) + e.value;
    Regrouped(pre, [e.tag], f1, f2, post);
    var b := pre + WriteElement(e) + post;
    FieldRead(b, pre + [e.tag], e.name, f2 + post);
    FieldRead(b, pre + [e.tag] + f1, e.value, post);
  }

  lemma Regrouped(pre: bytes, t: bytes, f1: bytes, f2: bytes, post: bytes)
    ensures pre + (t + (f1 + f2)) + post == (pre + t) + f1 + (f2 + post)
    ensures pre + (t + (f1 + f2)) + post == (pre + t + f1) + f2 + post
  {
  }

  /** Reading an envelope from where it starts, wherever that is. */
  lemma {:induction false} EnvelopeRead(pre: bytes, elements: seq<Element>, document: bytes, attrs: Attrs)
    requires forall e | e in elements :: ValidElement(e)
    ensures ParseFrom(pre + (Envelope(elements) + [END_OF_ATTRIBUTES] + document), |pre|, attrs) == (NoteAll(attrs, elements), document)
    decreases |elements|
  {
    hide AttrAt, WriteElement, Note;
    var tail := Envelope(elements) + [END_OF_ATTRIBUTES] + document;
    var b := pre + tail;
    if elements == [] {
      assert b[|pre|] == END_OF_ATTRIBUTES && b[|pre| + 1..] == document;
    } else {
      var e, w := elements[0], WriteElement(elements[0]);
      var rest := Envelope(elements[1..]) + [END_OF_ATTRIBUTES] + document;
      assert e in elements && forall x | x in elements[1..] :: x in elements;
      assert tail == w + rest && b == (pre + w) + rest && b == pre + w + rest;
      EnvelopeRead(pre + w, elements[1..], document, if e.Attr? then Note(attrs, e.name, e.value) else attrs);
      if e.Attr? {
        AttrRead(pre, e, rest);
      } else {
        GroupRead(pre, e, rest);
      }
    }
  }

  lemma GroupRead(pre: bytes, e: Element, post: bytes)
    requires e.Group?
    ensures var b := pre + WriteElement(e) + post;
            |WriteElement(e)| == 1 && |pre| < |b| && b[|pre|] == e.tag
  {
  }

  /** Every well-formed request gives back its document, and for every name the first value it was given. */
  lemma EnvelopeRoundTrip(elements: seq<Element>, document: bytes)
    requires forall e | e in elements :: ValidElement(e)
    ensures ParseFrom(Envelope(elements) + [END_OF_ATTRIBUTES] + document, 0, map[]) == (NoteAll(map[], elements), document)
  {
    var b := Envelope(elements) + [END_OF_ATTRIBUTES] + document;
    EnvelopeRead([], elements, document, map[]);
    assert [] + b == b;
  }

  lemma {:induction false} NoteAllIsFirst(attrs: Attrs, elements: seq<Element>, name: bytes)
    requires name != []
    ensures var all := NoteAll(attrs, elements);
            && (name in all <==> name in attrs || exists i | 0 <= i < |elements| :: elements[i].Attr? && elements[i].name == name)
            && (name in attrs ==> all[name] == attrs[name])
            && (forall i | 0 <= i < |elements| && name !in attrs && elements[i].Attr? && elements[i].name == name
                           && (forall k | 0 <= k < i :: elements[k].Attr? ==> elements[k].name != name) ::
                  name in all && all[name] == elements[i].value)
    decreases |elements|
  {
    if elements != [] {
      var e, rest := elements[0], elements[1..];
      var next := if e.Attr? then Note(attrs, e.name, e.value) else attrs;
      NoteAllIsFirst(next, rest, name);
      assert forall i | 1 <= i < |elements| :: elements[i] == rest[i - 1];
      assert forall i | 0 <= i < |rest| :: rest[i] == elements[i + 1];
    }
  }

  /** The elements of a 1setOf: only the first carries the name. */
  function StrSet(tag: byte, name: bytes, values: seq<bytes>): (s: seq<Element>)
    ensures |s| == |values|
  {
    seq(|values|, i requires 0 <= i < |values| => Attr(tag, if i == 0 then name else [], values[i]))
  }

  lemma {:induction false} EnvelopeSplits(a: seq<Element>, b: seq<Element>)
    ensures Envelope(a + b) == Envelope(a) + Envelope(b)
  {
    if a == [] {
      assert a + b == b;
    } else {
      assert (a + b)[1..] == a[1..] + b;
      EnvelopeSplits(a[1..], b);
    }
  }

  /** writeStrSet. */
  method WriteStrSet(buf: bytes, tag: byte, name: bytes, values: seq<bytes>) returns (r: bytes)
    ensures r == buf + Envelope(StrSet(tag, name, values))
  {
    hide WriteAttr;
    r := buf;
    ghost var all := StrSet(tag, name, values);
    for i := 0 to |values|
      invariant r == buf + Envelope(all[..i])
    {
      var n := if i > 0 then [] else name;
      r := r + WriteAttr(tag, n, values[i]);
      assert all[..i + 1] == all[..i] + [all[i]];
      EnvelopeSplits(all[..i], [all[i]]);
      assert Envelope([all[i]]) == WriteElement(all[i]) + [];
    }
    assert all[..|values|] == all;
  }

  lemma {:induction false} NamelessIsDropped(attrs: Attrs, elements: seq<Element>)
    requires forall e | e in elements :: e.Attr? && e.name == []
    ensures NoteAll(attrs, elements) == attrs
    decreases |elements|
  {
    if elements != [] {
      assert elements[0] in elements && forall e | e in elements[1..] :: e in elements;
      NamelessIsDropped(attrs, elements[1..]);
    }
  }

  /** A parser that keeps the first value of a name reads a set as its first member. */
  lemma SetReadsAsFirst(attrs: Attrs, tag: byte, name: bytes, values: seq<bytes>)
    requires values != [] && name != [] && name !in attrs
    ensures NoteAll(attrs, StrSet(tag, name, values)) == attrs[name := values[0]]
  {
    var s := StrSet(tag, name, values);
    NamelessIsDropped(attrs[name := values[0]], s[1..]);
  }
}
