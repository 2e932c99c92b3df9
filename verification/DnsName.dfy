/** parse_qname of src/dns.cpp: domain names on the wire (RFC 1035 sections 3.1 and 4.1.4).

    `Expand` is the reference: a name is its labels, read recursively and through pointers, with
    a budget of steps. The loop is proved to compute it for every message and every offset. */
module DnsName {
  import opened Bytes

  /** Iterations of the loop: labels, pointers and the terminator all count. */
  const BUDGET: nat := 16

  predicate IsPointer(lab: byte) {
    lab >= 0xc0
  }

  /** The low six bits of the first octet, and the second. */
  function PointerTarget(hi: byte, lo: byte): nat
    requires IsPointer(hi)
  {
    (hi - 0xc0) * 256 + lo
  }

  function Expand(msg: seq<byte>, off: nat, steps: nat): Option<seq<seq<byte>>>
    decreases steps, |msg|
  {
    if off >= |msg| || steps == 0 then None else
    var lab := msg[off];
    if lab == 0 then Some([])
    else if IsPointer(lab) then
      if off + 1 >= |msg| then None else Expand(msg, PointerTarget(lab, msg[off + 1]), steps - 1)
    else if off + 1 + lab > |msg| then None
    else Prepend([msg[off + 1..off + 1 + lab]], Expand(msg, off + 1 + lab, steps - 1))
  }

  /** One step, on the octets: 0 ends the name; 192 and above is a pointer of 14 bits; anything else is the
      length of a label, which must fit. */
  lemma ExpandStep(msg: seq<byte>, off: nat, steps: nat)
    requires off < |msg| && steps > 0
    ensures msg[off] == 0 ==> Expand(msg, off, steps) == Some([])
    ensures msg[off] >= 192 ==>
              Expand(msg, off, steps)
              == if off + 1 == |msg| then None else
                 var hi: int, lo: int := msg[off] - 192, msg[off + 1];
                 Expand(msg, hi * 256 + lo, steps - 1)
    ensures 0 < msg[off] < 192 ==>
              Expand(msg, off, steps)
              == if off + 1 + msg[off] > |msg| then None
                 else Prepend([msg[off + 1..off + 1 + msg[off]]], Expand(msg, off + 1 + msg[off], steps - 1))
  {
  }

  function Prepend(done: seq<seq<byte>>, o: Option<seq<seq<byte>>>): Option<seq<seq<byte>>> {
    match o
    case None => None
    case Some(labels) => Some(done + labels)
  }

  /** Where the name ends in place: past its terminator, or past the first pointer. */
  function EndOfName(msg: seq<byte>, off: nat, steps: nat): (end: nat)
    ensures off <= end
    decreases steps, |msg|
  {
    if off >= |msg| || steps == 0 then off
    else if msg[off] == 0 then off + 1
    else if IsPointer(msg[off]) then off + 2
    else EndOfName(msg, off + 1 + msg[off], steps - 1)
  }

  function Text(lbl: seq<byte>): string {
    seq(|lbl|, i requires 0 <= i < |lbl| => lbl[i] as char)
  }

  /** Labels separated by dots, none at the end. */
  function Join(labels: seq<seq<byte>>): string {
    if labels == [] then "" else if |labels| == 1 then Text(labels[0])
    else Text(labels[0]) + "." + Join(labels[1..])
  }

  /** The octets of each label as characters, with one dot between two labels. */
  lemma JoinWrittenOut(lbl: seq<byte>, rest: seq<seq<byte>>)
    ensures |Text(lbl)| == |lbl| && forall i :: 0 <= i < |lbl| ==> Text(lbl)[i] == lbl[i] as char
    ensures Join([]) == "" && Join([lbl]) == Text(lbl)
    ensures rest != [] ==> Join([lbl] + rest) == Text(lbl) + "." + Join(rest)
  {
    assert ([lbl] + rest)[1..] == rest;
  }

  /** Every lbl followed by a dot. */
  function Dotted(labels: seq<seq<byte>>): string {
    if labels == [] then "" else Dotted(labels[..|labels| - 1]) + Text(labels[|labels| - 1]) + "."
  }

  lemma {:induction false} DottedFront(lbl: seq<byte>, rest: seq<seq<byte>>)
    ensures Dotted([lbl] + rest) == Text(lbl) + "." + Dotted(rest)
  {
    if rest == [] {
      assert [lbl] + rest == [lbl] && [lbl][..0] == [];
    } else {
      var init := rest[..|rest| - 1];
      DottedFront(lbl, init);
      assert ([lbl] + rest)[..|rest|] == [lbl] + init;
      LastDot(Text(lbl) + ".", Dotted(init), Text(rest[|rest| - 1]));
    }
  }

  lemma LastDot(front: string, middle: string, last: string)
    ensures front + middle + last + "." == front + (middle + last + ".")
  {
  }

  lemma {:induction false} DottedIsJoined(labels: seq<seq<byte>>)
    requires labels != []
    ensures Dotted(labels) == Join(labels) + "."
  {
    DottedFront(labels[0], labels[1..]);
    assert [labels[0]] + labels[1..] == labels;
    if |labels| > 1 {
      DottedIsJoined(labels[1..]);
    }
  }

  /** The name and the offset after it, by the reference. */
  function NameWithin(msg: seq<byte>, off: nat, steps: nat): Option<(string, nat)> {
    match Expand(msg, off, steps)
    case None => None
    case Some(labels) => Some((Join(labels), EndOfName(msg, off, steps)))
  }

  function NameAt(msg: seq<byte>, off: nat): Option<(string, nat)> {
    NameWithin(msg, off, BUDGET)
  }

  method ParseQname(msg: seq<byte>, start: nat) returns (r: Option<(string, nat)>)
    ensures r == NameAt(msg, start)
  {
    var name, jumped := "", false;
    var off: nat, hops: nat, end: nat := start, 0, start;
    ghost var done: seq<seq<byte>> := [];
    PrependNothing(Expand(msg, start, BUDGET));
    while off < |msg| && hops < BUDGET
      invariant hops <= BUDGET
      invariant name == Dotted(done)
      invariant Expand(msg, start, BUDGET) == Prepend(done, Expand(msg, off, BUDGET - hops))
      invariant EndOfName(msg, start, BUDGET) == if jumped then end else EndOfName(msg, off, BUDGET - hops)
      decreases BUDGET - hops
    {
      hops := hops + 1;
      var lab := msg[off];
      if lab == 0 {
        off := off + 1;
        if !jumped {
          end := off;
        }
        off := if jumped then end else off;
        name := WithoutFinalDot(name, done);
        assert done + [] == done;
        r := Some((name, off));
        return;
      }
      if IsPointer(lab) {
        if off + 1 >= |msg| {
          return None;
        }
        var ptr := PointerTarget(lab, msg[off + 1]);
        if !jumped {
          end := off + 2;
        }
        off := ptr;
        jumped := true;
        continue;
      }
      off := off + 1;
      if off + lab > |msg| {
        return None;
      }
      ghost var lbl := msg[off..off + lab];
      LabelStep(done, lbl, Expand(msg, off + lab, BUDGET - hops));
      name := name + Text(msg[off..off + lab]);
      name := name + ".";
      done := done + [lbl];
      off := off + lab;
    }
    return None;
  }

  method WithoutFinalDot(name: string, ghost labels: seq<seq<byte>>) returns (t: string)
    requires name == Dotted(labels)
    ensures t == Join(labels)
  {
    if labels != [] {
      DottedIsJoined(labels);
    }
    t := name;
    if t != "" && t[|t| - 1] == '.' {
      t := t[..|t| - 1];
    }
  }

  lemma PrependNothing(o: Option<seq<seq<byte>>>)
    ensures Prepend([], o) == o
  {
    if o.Some? {
      assert [] + o.value == o.value;
    }
  }

  lemma LabelStep(done: seq<seq<byte>>, lbl: seq<byte>, rest: Option<seq<seq<byte>>>)
    ensures Prepend(done, Prepend([lbl], rest)) == Prepend(done + [lbl], rest)
    ensures Dotted(done + [lbl]) == Dotted(done) + Text(lbl) + "."
  {
    if rest.Some? {
      assert done + ([lbl] + rest.value) == (done + [lbl]) + rest.value;
    }
    assert (done + [lbl])[..|done|] == done;
  }

  // ---------------------------------------------------------------- encoding

  predicate ValidLabel(lbl: seq<byte>) {
    1 <= |lbl| <= 63
  }

  predicate ValidLabels(labels: seq<seq<byte>>) {
    forall i :: 0 <= i < |labels| ==> ValidLabel(labels[i])
  }

  function Encode(labels: seq<seq<byte>>): (e: seq<byte>)
    requires ValidLabels(labels)
    ensures |e| == EncodedLength(labels)
  {
    if labels == [] then [0] else [|labels[0]|] + labels[0] + Encode(labels[1..])
  }

  function EncodedLength(labels: seq<seq<byte>>): nat {
    if labels == [] then 1 else 1 + |labels[0]| + EncodedLength(labels[1..])
  }

  /** The message holds these labels, without pointers, at that offset. */
  ghost predicate EncodedAt(msg: seq<byte>, off: nat, labels: seq<seq<byte>>)
    decreases |labels|
  {
    if labels == [] then off < |msg| && msg[off] == 0
    else
      var n := |labels[0]|;
      && ValidLabel(labels[0]) && off + 1 + n <= |msg|
      && msg[off] == n && msg[off + 1..off + 1 + n] == labels[0]
      && EncodedAt(msg, off + 1 + n, labels[1..])
  }

  lemma {:induction false} EncodePlaces(before: seq<byte>, labels: seq<seq<byte>>, after: seq<byte>)
    requires ValidLabels(labels)
    ensures EncodedAt(before + Encode(labels) + after, |before|, labels)
    decreases |labels|
  {
    var msg := before + Encode(labels) + after;
    if labels != [] {
      var head := [|labels[0]|] + labels[0];
      EncodePlaces(before + head, labels[1..], after);
      assert msg == (before + head) + Encode(labels[1..]) + after;
      assert msg[|before| + 1..|before| + 1 + |labels[0]|] == labels[0];
    }
  }

  lemma {:induction false} EncodedAtCopy(msg: seq<byte>, copy: seq<byte>, off: nat, labels: seq<seq<byte>>)
    requires EncodedAt(msg, off, labels)
    requires off + EncodedLength(labels) <= |copy|
    requires forall k :: off <= k < off + EncodedLength(labels) && k < |msg| ==> copy[k] == msg[k]
    ensures EncodedAt(copy, off, labels)
    decreases |labels|
  {
    if labels != [] {
      var n := |labels[0]|;
      EncodedAtCopy(msg, copy, off + 1 + n, labels[1..]);
      assert copy[off + 1..off + 1 + n] == msg[off + 1..off + 1 + n];
    }
  }

  lemma {:induction false} EncodedAtFits(msg: seq<byte>, off: nat, labels: seq<seq<byte>>)
    requires EncodedAt(msg, off, labels)
    ensures off + EncodedLength(labels) <= |msg|
    decreases |labels|
  {
    if labels != [] {
      EncodedAtFits(msg, off + 1 + |labels[0]|, labels[1..]);
    }
  }

  /** Reading an encoded name gives back its labels if and only if the budget covers them and the
      terminator. */
  lemma {:induction false} ExpandEncoded(msg: seq<byte>, off: nat, labels: seq<seq<byte>>, steps: nat)
    requires EncodedAt(msg, off, labels)
    ensures Expand(msg, off, steps) == if |labels| < steps then Some(labels) else None
    ensures |labels| < steps ==> EndOfName(msg, off, steps) == off + EncodedLength(labels)
    decreases |labels|
  {
    if labels != [] && steps > 0 {
      ExpandEncoded(msg, off + 1 + |labels[0]|, labels[1..], steps - 1);
      assert [labels[0]] + labels[1..] == labels;
    }
  }

  /** parse_qname inverts the encoding of every name of at most 15 labels, wherever it stands in a
      message, and refuses every longer one. */
  lemma ParseInvertsEncode(msg: seq<byte>, before: seq<byte>, labels: seq<seq<byte>>, after: seq<byte>)
    requires ValidLabels(labels) && msg == before + Encode(labels) + after
    ensures NameAt(msg, |before|)
            == if |labels| <= 15 then Some((Join(labels), |before| + |Encode(labels)|)) else None
  {
    assert EncodedAt(msg, |before|, labels) by {
      EncodePlaces(before, labels, after);
    }
    NameEncoded(msg, |before|, labels);
  }

  lemma NameEncoded(msg: seq<byte>, off: nat, labels: seq<seq<byte>>)
    requires EncodedAt(msg, off, labels)
    ensures NameAt(msg, off) == if |labels| <= 15 then Some((Join(labels), off + EncodedLength(labels))) else None
  {
    NameWithinEncoded(msg, off, labels, BUDGET);
  }

  lemma NameWithinEncoded(msg: seq<byte>, off: nat, labels: seq<seq<byte>>, steps: nat)
    requires EncodedAt(msg, off, labels)
    ensures NameWithin(msg, off, steps)
            == if |labels| < steps then Some((Join(labels), off + EncodedLength(labels))) else None
  {
    ExpandEncoded(msg, off, labels, steps);
  }

  /** A pointer to an encoded name costs one more step. */
  lemma ExpandPointer(msg: seq<byte>, off: nat, target: nat, labels: seq<seq<byte>>)
    requires EncodedAt(msg, target, labels)
    requires off + 1 < |msg| && IsPointer(msg[off]) && PointerTarget(msg[off], msg[off + 1]) == target
    ensures NameAt(msg, off) == if |labels| <= 14 then Some((Join(labels), off + 2)) else None
  {
    PointerWithin(msg, off, target, labels, BUDGET - 1);
  }

  lemma PointerWithin(msg: seq<byte>, off: nat, target: nat, labels: seq<seq<byte>>, steps: nat)
    requires EncodedAt(msg, target, labels)
    requires off + 1 < |msg| && IsPointer(msg[off]) && PointerTarget(msg[off], msg[off + 1]) == target
    ensures NameWithin(msg, off, steps + 1) == if |labels| < steps then Some((Join(labels), off + 2)) else None
  {
    ExpandEncoded(msg, target, labels, steps);
  }

  // ---------------------------------------------------------------- names in copied messages

  /** More steps change nothing once the name is complete. */
  lemma {:induction false} ExpandMore(msg: seq<byte>, off: nat, n: nat, m: nat)
    requires n <= m && Expand(msg, off, n).Some?
    ensures Expand(msg, off, m) == Expand(msg, off, n)
    decreases n
  {
    var lab := msg[off];
    if lab != 0 {
      ExpandMore(msg, if IsPointer(lab) then PointerTarget(lab, msg[off + 1]) else off + 1 + lab, n - 1, m - 1);
    }
  }

  /** Every octet that reading the name takes lies in lo..hi, and the budget suffices. */
  predicate Stays(msg: seq<byte>, off: nat, steps: nat, lo: nat, hi: nat)
    decreases steps, |msg|
  {
    && hi <= |msg| && lo <= off < hi && steps > 0
    && var lab := msg[off];
       || lab == 0
       || (if IsPointer(lab) then off + 1 < hi && Stays(msg, PointerTarget(lab, msg[off + 1]), steps - 1, lo, hi)
           else off + 1 + lab <= hi && Stays(msg, off + 1 + lab, steps - 1, lo, hi))
  }

  /** Such a name reads the same in any message that has the same octets there. */
  lemma {:induction false} ExpandCopied(msg: seq<byte>, copy: seq<byte>, off: nat, steps: nat, lo: nat, hi: nat, n: nat)
    requires Stays(msg, off, steps, lo, hi) && n <= steps
    requires hi <= |copy| && forall k :: lo <= k < hi ==> copy[k] == msg[k]
    ensures Expand(copy, off, n) == Expand(msg, off, n)
    decreases steps
  {
    var lab := msg[off];
    if n > 0 && lab != 0 {
      if IsPointer(lab) {
        ExpandCopied(msg, copy, PointerTarget(lab, msg[off + 1]), steps - 1, lo, hi, n - 1);
      } else {
        ExpandCopied(msg, copy, off + 1 + lab, steps - 1, lo, hi, n - 1);
        assert copy[off + 1..off + 1 + lab] == msg[off + 1..off + 1 + lab];
      }
    }
  }

  /** Where a name ends in place depends only on the octets up to there. */
  lemma {:induction false} EndCopied(msg: seq<byte>, copy: seq<byte>, off: nat, steps: nat)
    requires Expand(msg, off, steps).Some? && EndOfName(msg, off, steps) <= |copy|
    requires forall k :: off <= k < EndOfName(msg, off, steps) && k < |msg| ==> copy[k] == msg[k]
    ensures off < EndOfName(msg, off, steps) <= |msg|
    ensures EndOfName(copy, off, steps) == EndOfName(msg, off, steps)
    decreases steps
  {
    var lab := msg[off];
    if lab != 0 && !IsPointer(lab) {
      assert Expand(msg, off + 1 + lab, steps - 1).Some?;
      EndCopied(msg, copy, off + 1 + lab, steps - 1);
    }
  }

  lemma {:induction false} EncodedStays(msg: seq<byte>, off: nat, labels: seq<seq<byte>>, steps: nat, lo: nat, hi: nat)
    requires EncodedAt(msg, off, labels) && |labels| < steps
    requires lo <= off && off + EncodedLength(labels) <= hi <= |msg|
    ensures Stays(msg, off, steps, lo, hi)
    decreases |labels|
  {
    if labels != [] {
      EncodedStays(msg, off + 1 + |labels[0]|, labels[1..], steps - 1, lo, hi);
    }
  }
}
