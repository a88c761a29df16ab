/** DNS messages (dnsmsg.go): names with and without compression, records and questions. */
module Dns {
  import opened Bytes

  const DOT: byte := 46
  const MAX_STEPS: nat := 128
  const MAX_LABEL: nat := 63

  // -- Dotted names -----------------------------------------------------------------------------------------------

  function Join(labels: seq<bytes>): bytes {
    if labels == [] then [] else if |labels| == 1 then labels[0] else labels[0] + [DOT] + Join(labels[1..])
  }

  /** strings.Split at the dots. */
  function Split(s: bytes): (labels: seq<bytes>)
    ensures labels != []
  {
    if s == [] then [[]]
    else
      var rest := Split(s[1..]);
      if s[0] == DOT then [[]] + rest else [[s[0]] + rest[0]] + rest[1..]
  }

  lemma {:induction false} SplitOne(s: bytes)
    requires DOT !in s
    ensures Split(s) == [s]
  {
    if s != [] {
      assert s[0] in s;
      SplitOne(s[1..]);
      assert [s[0]] + s[1..] == s;
    }
  }

  lemma {:induction false} SplitDot(s: bytes, rest: bytes)
    requires DOT !in s
    ensures Split(s + [DOT] + rest) == [s] + Split(rest)
  {
    var all := s + [DOT] + rest;
    var empty: bytes := [];
    if s == [] {
      assert all[1..] == rest && Split(all) == [empty] + Split(rest);
    } else {
      assert s[0] in s && all[1..] == s[1..] + [DOT] + rest;
      SplitDot(s[1..], rest);
      var tail := [s[1..]] + Split(rest);
      assert [s[0]] + s[1..] == s && tail[1..] == Split(rest);
    }
  }

  lemma {:induction false} SplitJoin(labels: seq<bytes>)
    requires labels != [] && forall l | l in labels :: DOT !in l
    ensures Split(Join(labels)) == labels
  {
    assert labels[0] in labels;
    if |labels| == 1 {
      SplitOne(labels[0]);
    } else {
      assert forall l | l in labels[1..] :: l in labels;
      SplitJoin(labels[1..]);
      SplitDot(labels[0], Join(labels[1..]));
    }
  }

  // -- Encoding -----------------------------------------------------------------------------------------------------

  function Cut(lab: bytes): (l: bytes)
    ensures |l| <= MAX_LABEL
  {
    if |lab| > MAX_LABEL then lab[..MAX_LABEL] else lab
  }

  function EncodeLabels(labels: seq<bytes>): bytes {
    if labels == [] then [] else [|Cut(labels[0])| as byte] + Cut(labels[0]) + EncodeLabels(labels[1..])
  }

  function TrimDot(name: bytes): bytes { if name != [] && name[|name| - 1] == DOT then name[..|name| - 1] else name }

  function EncodeName(name: bytes): bytes {
    if TrimDot(name) == [] then [0] else EncodeLabels(Split(TrimDot(name))) + [0]
  }

  lemma {:induction false} EncodeLabelsSplits(a: seq<bytes>, b: seq<bytes>)
    ensures EncodeLabels(a + b) == EncodeLabels(a) + EncodeLabels(b)
  {
    if a == [] {
      assert a + b == b;
    } else {
      assert (a + b)[1..] == a[1..] + b;
      EncodeLabelsSplits(a[1..], b);
    }
  }

  method WriteName(name: bytes) returns (out: bytes)
    ensures out == EncodeName(name)
  {
    var n := TrimDot(name);
    if n == [] {
      return [0];
    }
    var labels := Split(n);
    out := [];
    hide EncodeLabels;
    NoLabels();
    for i := 0 to |labels|
      invariant out == EncodeLabels(labels[..i])
    {
      var lab := labels[i];
      if |lab| > 63 {
        lab := lab[..63];
      }
      OneMoreLabel(labels, i);
      out := out + ([|lab| as byte] + lab);
    }
    assert labels[..|labels|] == labels;
    out := out + [0];
  }

  lemma NoLabels()
    ensures EncodeLabels([]) == []
  {
  }

  lemma OneMoreLabel(labels: seq<bytes>, i: nat)
    requires i < |labels|
    ensures EncodeLabels(labels[..i + 1]) == EncodeLabels(labels[..i]) + ([|Cut(labels[i])| as byte] + Cut(labels[i]))
  {
    assert labels[..i + 1] == labels[..i] + [labels[i]];
    EncodeLabelsSplits(labels[..i], [labels[i]]);
    var one := [|Cut(labels[i])| as byte] + Cut(labels[i]);
    assert EncodeLabels([labels[i]]) == one + EncodeLabels([]);
    assert one + [] == one;
  }

  /** The labels of an ordinary name: none of them empty, no dot in them. */
  predicate Ordinary(labels: seq<bytes>) { forall l | l in labels :: l != [] && DOT !in l }

  lemma {:induction false} JoinEndsInLabel(labels: seq<bytes>)
    requires labels != [] && Ordinary(labels)
    ensures Join(labels) != [] && Join(labels)[|Join(labels)| - 1] != DOT
  {
    assert labels[0] in labels;
    if |labels| == 1 {
      assert labels[0][|labels[0]| - 1] in labels[0];
    } else {
      assert forall l | l in labels[1..] :: l in labels;
      JoinEndsInLabel(labels[1..]);
      var rest := Join(labels[1..]);
      var all := labels[0] + [DOT] + rest;
      assert all[|all| - 1] == rest[|rest| - 1];
    }
  }

  lemma EncodeJoined(labels: seq<bytes>)
    requires Ordinary(labels)
    ensures EncodeName(Join(labels)) == EncodeLabels(labels) + [0]
  {
    if labels != [] {
      JoinEndsInLabel(labels);
      SplitJoin(labels);
    }
  }

  // -- Parsing ------------------------------------------------------------------------------------------------------

  datatype Walk = Done(labels: seq<bytes>) | Malformed | OutOfSteps

  function Prepend(labels: seq<bytes>, w: Walk): Walk { if w.Done? then Done(labels + w.labels) else w }

  /** Where a compression pointer at off leads. */
  function PointerAt(b: bytes, off: nat): nat
    requires off + 1 < |b| && b[off] >= 0xC0
  {
    (b[off] as int - 0xC0) * 0x100 + b[off + 1] as int
  }

  /** The labels of the name at off, when n octets of length or pointer may be looked at. */
  function LabelsAt(b: bytes, off: nat, n: nat): Walk
    decreases n
  {
    if off >= |b| then Malformed
    else if n == 0 then OutOfSteps
    else
      var l := b[off] as int;
      if l == 0 then Done([])
      else if l >= 0xC0 then
        if off + 1 >= |b| || PointerAt(b, off) >= off then Malformed else LabelsAt(b, PointerAt(b, off), n - 1)
      else if off + 1 + l > |b| then Malformed
      else Prepend([b[off + 1..off + 1 + l]], LabelsAt(b, off + 1 + l, n - 1))
  }

  /** Where the name at off ends in place: behind its zero, or behind its first pointer. */
  function EndOf(b: bytes, off: nat): (e: Option<nat>)
    ensures e.Some? ==> off < e.value <= |b|
    decreases |b| - off
  {
    if off >= |b| then None
    else
      var l := b[off] as int;
      if l == 0 then Some(off + 1)
      else if l >= 0xC0 then (if off + 1 >= |b| then None else Some(off + 2))
      else if off + 1 + l > |b| then None
      else EndOf(b, off + 1 + l)
  }

  /** A parsed name and the offset behind it. */
  datatype Parsed = Parsed(name: bytes, next: nat)

  function NameAt(b: bytes, off: nat): Option<Parsed> {
    var w := LabelsAt(b, off, MAX_STEPS);
    if w.Done? && EndOf(b, off).Some? then Some(Parsed(Join(w.labels), EndOf(b, off).value)) else None
  }

  /** A name that can be read has its end in bounds. */
  lemma {:induction false} ReadableEnds(b: bytes, off: nat, n: nat)
    requires LabelsAt(b, off, n).Done?
    ensures EndOf(b, off).Some?
    decreases n
  {
    var l := b[off] as int;
    if 0 < l < 0xC0 {
      ReadableEnds(b, off + 1 + l, n - 1);
    }
  }

  /** One step of the walk: a label or a pointer is passed. */
  predicate StepsTo(b: bytes, off: nat, to: nat, labels: seq<bytes>) {
    off < |b| &&
    (var l := b[off] as int;
     if l >= 0xC0 then off + 1 < |b| && PointerAt(b, off) < off && to == PointerAt(b, off) && labels == []
     else l > 0 && off + 1 + l <= |b| && to == off + 1 + l && labels == [b[off + 1..off + 1 + l]])
  }

  lemma LabelsStep(b: bytes, off: nat, n: nat, to: nat, labels: seq<bytes>)
    requires n > 0 && StepsTo(b, off, to, labels)
    ensures LabelsAt(b, off, n) == Prepend(labels, LabelsAt(b, to, n - 1))
    ensures EndOf(b, off) == if b[off] >= 0xC0 then Some(off + 2) else EndOf(b, to)
  {
    NothingBefore(LabelsAt(b, to, n - 1));
  }

  lemma LabelsStop(b: bytes, off: nat, n: nat)
    ensures off >= |b| || (n > 0 && b[off] != 0 && forall to, labels :: !StepsTo(b, off, to, labels)) ==> LabelsAt(b, off, n) == Malformed
    ensures off < |b| && n == 0 ==> LabelsAt(b, off, n) == OutOfSteps
    ensures off < |b| && n > 0 && b[off] == 0 ==> LabelsAt(b, off, n) == Done([]) && EndOf(b, off) == Some(off + 1)
  {
    if off < |b| && n > 0 && b[off] != 0 {
      var l := b[off] as int;
      if l >= 0xC0 {
        if off + 1 < |b| {
          assert PointerAt(b, off) < off ==> StepsTo(b, off, PointerAt(b, off), []);
        }
      } else if off + 1 + l <= |b| {
        assert StepsTo(b, off, off + 1 + l, [b[off + 1..off + 1 + l]]);
      }
    }
  }

  /** parseName. */
  method ParseName(b: bytes, start: nat) returns (r: Option<Parsed>)
    ensures r == NameAt(b, start)
    ensures r.Some? ==> start < r.value.next <= |b|
  {
    hide LabelsAt, EndOf, Prepend, Join;
    var labels: seq<bytes> := [];
    var jumped := false;
    var next := 0;
    var safety := 0;
    var off := start;
    NothingBefore(LabelsAt(b, start, MAX_STEPS));
    while true
      invariant 0 <= safety <= MAX_STEPS && 0 <= off
      invariant LabelsAt(b, start, MAX_STEPS) == Prepend(labels, LabelsAt(b, off, MAX_STEPS - safety))
      invariant if jumped then EndOf(b, start) == Some(next) else EndOf(b, start) == EndOf(b, off)
      decreases MAX_STEPS - safety
    {
      LabelsStop(b, off, MAX_STEPS - safety);
      NoneAfter(labels);
      if off >= |b| {
        return None;
      }
      if safety == MAX_STEPS {
        return None;
      }
      ghost var n := MAX_STEPS - safety;
      safety := safety + 1;
      var l := b[off] as int;
      if l == 0 {
        off := off + 1;
        if !jumped {
          next := off;
        }
        return Some(Parsed(Join(labels), next));
      }
      if l >= 0xC0 {
        if off + 1 >= |b| {
          return None;
        }
        var ptr := (l - 0xC0) * 0x100 + b[off + 1] as int;
        if ptr >= off {
          return None;
        }
        LabelsStep(b, off, n, ptr, []);
        NothingBefore(LabelsAt(b, ptr, n - 1));
        if !jumped {
          next := off + 2;
        }
        jumped := true;
        off := ptr;
      } else {
        if off + 1 + l > |b| {
          return None;
        }
        var lab := b[off + 1..off + 1 + l];
        LabelsStep(b, off, n, off + 1 + l, [lab]);
        PrependTwice(labels, lab, LabelsAt(b, off + 1 + l, n - 1));
        labels := labels + [lab];
        off := off + 1 + l;
      }
    }
  }

  lemma NoneAfter(labels: seq<bytes>)
    ensures Prepend(labels, Done([])) == Done(labels)
    ensures Prepend(labels, Malformed) == Malformed && Prepend(labels, OutOfSteps) == OutOfSteps
  {
    assert labels + [] == labels;
  }

  lemma PrependTwice(labels: seq<bytes>, lab: bytes, w: Walk)
    ensures Prepend(labels, Prepend([lab], w)) == Prepend(labels + [lab], w)
  {
    if w.Done? {
      assert labels + ([lab] + w.labels) == labels + [lab] + w.labels;
    }
  }

  /** The rule that pointers lead backwards does not end every walk: behind a label that is read again and again, a
      pointer to it is a backward pointer each time. Only the step limit stops the walk. */
  lemma {:induction false} BackwardPointersCanLoop(n: nat)
    ensures LabelsAt([1, 97, 0xC0, 0], 0, n) == OutOfSteps
    decreases n
  {
    var b: bytes := [1, 97, 0xC0, 0];
    if n >= 2 {
      BackwardPointersCanLoop(n - 2);
      assert LabelsAt(b, 2, n - 1) == LabelsAt(b, 0, n - 2);
    } else if n == 1 {
      assert LabelsAt(b, 2, 0) == OutOfSteps;
    }
  }

  /** Where the walk goes from an offset; None where it stops. */
  function StepFrom(b: bytes, off: nat): Option<nat> {
    if off >= |b| || b[off] == 0 then None
    else
      var l := b[off] as int;
      if l >= 0xC0 then (if off + 1 >= |b| || PointerAt(b, off) >= off then None else Some(PointerAt(b, off)))
      else if off + 1 + l > |b| then None
      else Some(off + 1 + l)
  }

  /** The offset the walk has reached after n steps. */
  function Visited(b: bytes, off: nat, n: nat): Option<nat>
    decreases n
  {
    if n == 0 then Some(off)
    else match StepFrom(b, off)
         case None => None
         case Some(to) => Visited(b, to, n - 1)
  }

  /** The walk is still under way after n steps, inside the message. */
  predicate UnderWay(b: bytes, off: nat, n: nat) { Visited(b, off, n).Some? && Visited(b, off, n).value < |b| }

  lemma {:induction false} OutOfStepsIsUnderWay(b: bytes, off: nat, n: nat)
    ensures LabelsAt(b, off, n) == OutOfSteps <==> UnderWay(b, off, n)
    decreases n
  {
    if n > 0 && StepFrom(b, off).Some? {
      OutOfStepsIsUnderWay(b, StepFrom(b, off).value, n - 1);
    }
  }

  lemma {:induction false} VisitedLater(b: bytes, off: nat, i: nat, n: nat)
    ensures Visited(b, off, i + n) == if Visited(b, off, i).None? then None else Visited(b, Visited(b, off, i).value, n)
    decreases i
  {
    hide StepFrom;
    if i > 0 && StepFrom(b, off).Some? {
      VisitedLater(b, StepFrom(b, off).value, i - 1, n);
    }
  }

  lemma UnderWayBefore(b: bytes, off: nat, i: nat, n: nat)
    requires i <= n && UnderWay(b, off, n)
    ensures UnderWay(b, off, i)
  {
    hide Visited;
    VisitedLater(b, off, i, n - i);
    if i < n {
      StepsInside(b, Visited(b, off, i).value, n - i);
    }
  }

  lemma StepsInside(b: bytes, off: nat, n: nat)
    requires n > 0 && Visited(b, off, n).Some?
    ensures off < |b|
  {
  }

  lemma {:induction false} Pigeonhole(places: seq<nat>, m: nat)
    requires |places| > m && forall k | 0 <= k < |places| :: places[k] < m
    ensures exists i, j :: 0 <= i < j < |places| && places[i] == places[j]
    decreases m
  {
    var last := |places| - 1;
    if i :| 0 <= i < last && places[i] == places[last] {
    } else {
      // Give the place of the last pigeon to whoever sits in the highest.
      var rest := seq(last, k requires 0 <= k < last => if places[k] == m - 1 then places[last] else places[k]);
      Pigeonhole(rest, m - 1);
      var i, j :| 0 <= i < j < last && rest[i] == rest[j];
      assert places[i] == places[j];
    }
  }

  /** The walk comes back to an offset it has been at. */
  ghost predicate Loops(b: bytes, off: nat) {
    exists i, j :: i < j && UnderWay(b, off, i) && Visited(b, off, i) == Visited(b, off, j)
  }

  lemma {:induction false} LoopsForEver(b: bytes, off: nat, i: nat, j: nat, n: nat)
    requires i < j && UnderWay(b, off, i) && Visited(b, off, i) == Visited(b, off, j)
    ensures UnderWay(b, off, n)
    decreases n
  {
    hide Visited;
    if n <= j {
      UnderWayBefore(b, off, n, j);
    } else {
      LoopsForEver(b, off, i, j, n - (j - i));
      VisitedLater(b, off, i, n - j);
      VisitedLater(b, off, j, n - j);
    }
  }

  /** A walk that does not come back to an offset ends by itself, within as many steps as the message has octets; one that does
      comes to no end, whatever number of steps it is given. */
  lemma WalkEndsUnlessItLoops(b: bytes, off: nat)
    ensures Loops(b, off) <==> LabelsAt(b, off, |b|) == OutOfSteps
    ensures Loops(b, off) ==> forall n :: LabelsAt(b, off, n) == OutOfSteps
  {
    hide LabelsAt, Visited;
    if Loops(b, off) {
      var i, j :| i < j && UnderWay(b, off, i) && Visited(b, off, i) == Visited(b, off, j);
      forall n ensures LabelsAt(b, off, n) == OutOfSteps {
        LoopsForEver(b, off, i, j, n);
        OutOfStepsIsUnderWay(b, off, n);
      }
    } else if LabelsAt(b, off, |b|) == OutOfSteps {
      OutOfStepsIsUnderWay(b, off, |b|);
      ManyStepsLoop(b, off);
    }
  }

  lemma ManyStepsLoop(b: bytes, off: nat)
    requires UnderWay(b, off, |b|)
    ensures Loops(b, off)
  {
    hide Visited;
    var n := |b| + 1;
    forall k | 0 <= k < n ensures Visited(b, off, k).Some? && Visited(b, off, k).value < |b| { UnderWayBefore(b, off, k, |b|); }
    var places: seq<nat> := seq(n, k requires 0 <= k < n => Visited(b, off, k).value);
    Pigeonhole(places, |b|);
    var i, j :| 0 <= i < j < |places| && places[i] == places[j];
    assert UnderWay(b, off, i) && Visited(b, off, i) == Visited(b, off, j);
  }

  /** More steps do not change what was read. */
  lemma {:induction false} MoreSteps(b: bytes, off: nat, n: nat, m: nat)
    requires n <= m && LabelsAt(b, off, n).Done?
    ensures LabelsAt(b, off, m) == LabelsAt(b, off, n)
    decreases n
  {
    var l := b[off] as int;
    if l >= 0xC0 {
      MoreSteps(b, PointerAt(b, off), n - 1, m - 1);
    } else if l > 0 {
      MoreSteps(b, off + 1 + l, n - 1, m - 1);
    }
  }

  /** Octets behind what was read do not change it. */
  lemma {:induction false} LongerInput(b: bytes, more: bytes, off: nat, n: nat)
    requires LabelsAt(b, off, n).Done?
    ensures LabelsAt(b + more, off, n) == LabelsAt(b, off, n) && EndOf(b + more, off) == EndOf(b, off)
    decreases n
  {
    var l := b[off] as int;
    if l >= 0xC0 {
      LongerInput(b, more, PointerAt(b, off), n - 1);
    } else if l > 0 {
      assert (b + more)[off + 1..off + 1 + l] == b[off + 1..off + 1 + l];
      LongerInput(b, more, off + 1 + l, n - 1);
    }
  }

  function CutAll(labels: seq<bytes>): seq<bytes> { seq(|labels|, i requires 0 <= i < |labels| => Cut(labels[i])) }

  /** Labels written out are read back (cut to 63 octets), and then whatever stands behind them is read. */
  lemma {:induction false} LabelsRead(pre: bytes, labels: seq<bytes>, rest: bytes, n: nat)
    requires (forall l | l in labels :: l != []) && |labels| <= n
    ensures var b := pre + EncodeLabels(labels) + rest;
            var at := |pre| + |EncodeLabels(labels)|;
            && LabelsAt(b, |pre|, n) == Prepend(CutAll(labels), LabelsAt(b, at, n - |labels|))
            && EndOf(b, |pre|) == EndOf(b, at)
    decreases |labels|
  {
    hide LabelsAt, EndOf, Prepend, Cut;
    var b := pre + EncodeLabels(labels) + rest;
    if labels == [] {
      NothingBefore(LabelsAt(b, |pre|, n));
    } else {
      var c := Cut(labels[0]);
      var head := [|c| as byte] + c;
      var tail := EncodeLabels(labels[1..]);
      assert labels[0] in labels && forall l | l in labels[1..] :: l in labels;
      CutKeeps(labels[0]);
      Rejoined(pre, head, tail, rest);
      LabelsRead(pre + head, labels[1..], rest, n - 1);
      HeadStep(pre, c, tail + rest);
      LabelsStep(b, |pre|, n, |pre| + 1 + |c|, [c]);
      var w := LabelsAt(b, |pre| + |EncodeLabels(labels)|, n - |labels|);
      PrependAll(c, CutAll(labels[1..]), w);
      assert CutAll(labels) == [c] + CutAll(labels[1..]);
    }
  }

  lemma Rejoined(a: bytes, b: bytes, c: bytes, d: bytes)
    ensures a + (b + c) + d == a + b + c + d == a + b + (c + d)
  {
  }

  lemma CutKeeps(lab: bytes)
    requires lab != []
    ensures Cut(lab) != []
  {
  }

  lemma HeadStep(pre: bytes, c: bytes, tail: bytes)
    requires 0 < |c| <= MAX_LABEL
    ensures StepsTo(pre + ([|c| as byte] + c) + tail, |pre|, |pre| + 1 + |c|, [c])
  {
    var b := pre + ([|c| as byte] + c) + tail;
    assert b[|pre|] == |c| as byte && b[|pre| + 1..|pre| + 1 + |c|] == c;
  }

  lemma NothingBefore(w: Walk)
    ensures Prepend([], w) == w
  {
    if w.Done? {
      assert [] + w.labels == w.labels;
    }
  }

  lemma PrependAll(lab: bytes, labels: seq<bytes>, w: Walk)
    ensures Prepend([lab], Prepend(labels, w)) == Prepend([lab] + labels, w)
  {
    if w.Done? {
      assert [lab] + (labels + w.labels) == [lab] + labels + w.labels;
    }
  }

  /** An encoded name is read back with its labels cut to 63 octets, and its end is found, wherever it stands; exactly
      when there are no more than 127 labels. */
  lemma EncodedNameRead(pre: bytes, labels: seq<bytes>, post: bytes)
    requires Ordinary(labels)
    ensures var b := pre + EncodeName(Join(labels)) + post;
            NameAt(b, |pre|) ==
            if |labels| < MAX_STEPS then Some(Parsed(Join(CutAll(labels)), |pre| + |EncodeName(Join(labels))|)) else None
  {
    hide LabelsAt, EndOf, Join, EncodeName, EncodeLabels;
    EncodeJoined(labels);
    var zero: bytes := [0];
    Rejoined(pre, EncodeLabels(labels), zero, post);
    if |labels| < MAX_STEPS {
      LabelsRead(pre, labels, zero + post, MAX_STEPS);
      ZeroRead(pre + EncodeLabels(labels), post, MAX_STEPS - |labels|);
      NoneAfter(CutAll(labels));
    } else {
      TooManyLabels(pre, labels, zero + post);
    }
  }

  lemma ZeroRead(pre: bytes, post: bytes, n: nat)
    requires n > 0
    ensures var b := pre + ([0] + post);
            LabelsAt(b, |pre|, n) == Done([]) && EndOf(b, |pre|) == Some(|pre| + 1)
  {
    var b := pre + ([0] + post);
    assert b[|pre|] == 0;
    LabelsStop(b, |pre|, n);
  }

  /** 128 labels use up all steps before the end of the name can be seen. */
  lemma TooManyLabels(pre: bytes, labels: seq<bytes>, rest: bytes)
    requires (forall l | l in labels :: l != []) && |labels| >= MAX_STEPS && rest != []
    ensures !LabelsAt(pre + EncodeLabels(labels) + rest, |pre|, MAX_STEPS).Done?
  {
    hide LabelsAt, EndOf, EncodeLabels;
    var head, tail := labels[..MAX_STEPS], labels[MAX_STEPS..];
    assert labels == head + tail && forall l | l in head :: l in labels;
    EncodeLabelsSplits(head, tail);
    Rejoined(pre, EncodeLabels(head), EncodeLabels(tail), rest);
    var b := pre + EncodeLabels(head) + (EncodeLabels(tail) + rest);
    LabelsRead(pre, head, EncodeLabels(tail) + rest, MAX_STEPS);
    LabelsStop(b, |pre| + |EncodeLabels(head)|, 0);
  }

  lemma JoinFirst(labels: seq<bytes>)
    requires labels != []
    ensures Join(labels) == if |labels| == 1 then labels[0] else labels[0] + [DOT] + Join(labels[1..])
  {
  }

  lemma {:induction false} CutShortens(labels: seq<bytes>)
    ensures |Join(CutAll(labels))| <= |Join(labels)|
    ensures (exists i | 0 <= i < |labels| :: |labels[i]| > MAX_LABEL) ==> |Join(CutAll(labels))| < |Join(labels)|
  {
    if labels != [] {
      var rest := labels[1..];
      CutShortens(rest);
      CutFirst(labels);
      hide Join, CutAll;
      JoinFirst(labels);
      JoinFirst(CutAll(labels));
      if i :| 0 < i < |labels| && |labels[i]| > MAX_LABEL {
        assert |rest[i - 1]| > MAX_LABEL;
      }
    }
  }

  lemma CutFirst(labels: seq<bytes>)
    requires labels != []
    ensures CutAll(labels) == [Cut(labels[0])] + CutAll(labels[1..]) && CutAll(labels)[1..] == CutAll(labels[1..])
  {
  }

  lemma CutFits(labels: seq<bytes>)
    requires forall l | l in labels :: |l| <= MAX_LABEL
    ensures CutAll(labels) == labels
  {
  }

  /** A dotted name of non-empty labels travels exactly when it has at most 127 labels of at most 63 octets. */
  lemma NameRoundTrip(pre: bytes, labels: seq<bytes>, post: bytes)
    requires Ordinary(labels)
    ensures var name := Join(labels);
            NameAt(pre + EncodeName(name) + post, |pre|) == Some(Parsed(name, |pre| + |EncodeName(name)|))
            <==> |labels| <= 127 && forall l | l in labels :: |l| <= MAX_LABEL
  {
    hide NameAt, EncodeName, Join;
    EncodedNameRead(pre, labels, post);
    if l :| l in labels && |l| > MAX_LABEL {
      CutShortens(labels);
    } else {
      CutFits(labels);
    }
  }

  /** Compression, by section 4.1.4 of RFC 1035: labels and a pointer to an earlier name make those labels followed by
      the labels of that name; the name ends in place behind the pointer. */
  lemma CompressedNameRead(pre: bytes, labels: seq<bytes>, target: nat, post: bytes, n: nat)
    requires (forall l | l in labels :: l != [] && |l| <= MAX_LABEL) && target < |pre| && target < 0x4000
    requires LabelsAt(pre, target, n).Done? && n + |labels| < MAX_STEPS
    ensures var pointer := [0xC0 + target / 0x100, target % 0x100];
            var b := pre + EncodeLabels(labels) + pointer + post;
            NameAt(b, |pre|) ==
            Some(Parsed(Join(labels + LabelsAt(pre, target, n).labels), |pre| + |EncodeLabels(labels)| + 2))
  {
    hide LabelsAt, EndOf, Join, EncodeLabels, CutAll, PointerAt;
    var pointer: bytes := [0xC0 + target / 0x100, target % 0x100];
    var encoded := EncodeLabels(labels);
    Rejoined(pre, encoded, pointer, post);
    Regrouped(pre, encoded, pointer, post);
    var b := pre + encoded + (pointer + post);
    LabelsRead(pre, labels, pointer + post, MAX_STEPS);
    CutFits(labels);
    PointerRead(pre + encoded, target, post);
    var m := MAX_STEPS - |labels|;
    LabelsStep(b, |pre + encoded|, m, target, []);
    NothingBefore(LabelsAt(b, target, m - 1));
    LongerInput(pre, encoded + (pointer + post), target, n);
    MoreSteps(b, target, n, m - 1);
  }

  lemma Regrouped(a: bytes, b: bytes, c: bytes, d: bytes)
    ensures a + b + c + d == a + b + (c + d) == a + (b + (c + d))
  {
  }

  lemma PointerRead(pre: bytes, target: nat, post: bytes)
    requires target < |pre| && target < 0x4000
    ensures var b := pre + ([0xC0 + target / 0x100, target % 0x100] + post);
            StepsTo(b, |pre|, target, []) && b[|pre|] >= 0xC0
  {
    var b := pre + ([0xC0 + target / 0x100, target % 0x100] + post);
    assert b[|pre|] == 0xC0 + target / 0x100 && b[|pre| + 1] == target % 0x100;
  }
}
