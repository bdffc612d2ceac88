/**
 Whole runs of the label arena: whatever sequence of operations follows, bytes that were handed out as
 a string are never overwritten in the array they were handed out from.
 */
module LabelRuns {
  import opened Bytes
  import opened LabelSpace
  import opened LabelArena

  datatype Op =
    | NewNode
    | SetText(id: int, text: Bytes)
    | ClearText(id: int)
    | FreeText(id: int)
    | SplitText(id: int, front: int, k: int)
    | MergeText(front: int, id: int)
    | CollapseText(front: int, dead: int, id: int)
    | PinKey(id: int)
    | ExposeKey(id: int)
    | StartPut
    | EndPut
    | PackExact
    | ClearAll(small: bool)

  /** The handed-out bytes of the array in use are what they were when they were given out. */
  ghost predicate Intact(a: Arena)
    reads a
  {
    forall b :: b in a.handed ==> 0 <= b < |a.buf| && a.buf[b] == a.handed[b]
  }

  lemma ValidIntact(a: Arena)
    requires a.Valid()
    ensures Intact(a) && |a.texts| == |a.labels|
  {
    var v := a.V();
    forall b | b in a.handed
      ensures 0 <= b < |a.buf| && a.buf[b] == a.handed[b]
    {
      assert HandedOk(v, b);
    }
  }

  predicate IsId(a: Arena, id: int)
    reads a
  {
    0 <= id < |a.labels|
  }

  /** The label of `id` is not empty. */
  method Labelled(a: Arena, id: int) returns (r: bool)
    requires a.Valid()
    ensures |a.texts| == |a.labels| && (r <==> IsId(a, id) && a.texts[id] != [])
  {
    ValidIntact(a);
    if IsId(a, id) {
      LargeBit(a.V(), id);
      r := a.labels[id].plen != 0;
    } else {
      r := false;
    }
  }

  /** Operations on two or three labels, skipped where their callers would not call them. */
  method StepTogether(a: Arena, op: Op)
    requires a.Valid() && (op.SplitText? || op.MergeText? || op.CollapseText?)
    modifies a
    ensures a.Valid() && a.Respects(old(a.backing), old(a.handed))
  {
    ValidIntact(a);
    match op
    case SplitText(id, front, k) =>
      var there := Labelled(a, id);
      var taken := Labelled(a, front);
      if there && IsId(a, front) && !taken {
        var n := a.LengthOf(id);
        if 0 < k < n && a.live + RawLen(k) + RawLen(n - k) <= MAX_ARENA {
          a.Split(id, front, k);
        }
      }
    case MergeText(front, id) =>
      var there := Labelled(a, id);
      var before := Labelled(a, front);
      if there && before && id != front {
        var n := a.LengthOf(id);
        var m := a.LengthOf(front);
        if a.live + RawLen(m + n) <= MAX_ARENA {
          a.Merge(front, id);
        }
      }
    case CollapseText(front, dead, id) =>
      var there := Labelled(a, id);
      var before := Labelled(a, front);
      var gone := Labelled(a, dead);
      if there && before && gone && id != front && front != dead && id != dead {
        var ok := a.TryCollapse(front, dead, id);
      }
  }

  method Step(a: Arena, op: Op)
    requires a.Valid()
    modifies a
    ensures a.Valid() && a.Respects(old(a.backing), old(a.handed))
  {
    ValidIntact(a);
    match op
    case NewNode => a.AddNode();
    case SetText(id, text) =>
      if IsId(a, id) && a.live + RawLen(|text|) <= MAX_ARENA {
        a.SetPrefix(id, text);
      }
    case ClearText(id) =>
      if IsId(a, id) {
        a.ClearLabel(id);
      }
    case FreeText(id) =>
      if IsId(a, id) {
        a.FreeSubtreeLabel(id);
      }
    case SplitText(_, _, _) => StepTogether(a, op);
    case MergeText(_, _) => StepTogether(a, op);
    case CollapseText(_, _, _) => StepTogether(a, op);
    case PinKey(id) =>
      var there := Labelled(a, id);
      if there && a.hasEntryCallback {
        var s := a.Pin(id);
      }
    case ExposeKey(id) =>
      var there := Labelled(a, id);
      if there {
        var s := a.Expose(id);
      }
    case StartPut => a.BeginPut();
    case EndPut => a.FinishPut();
    case PackExact =>
      if !a.recycling {
        a.CompactExact();
      }
    case ClearAll(small) => a.Reset(small);
  }

  /** After any run, bytes handed out before it still read as they did, unless the array was replaced. */
  method Run(a: Arena, ops: seq<Op>)
    requires a.Valid()
    modifies a
    ensures a.Valid() && a.Respects(old(a.backing), old(a.handed))
    ensures a.backing == old(a.backing) ==>
              forall b :: b in old(a.handed) ==> 0 <= b < |a.buf| && 0 <= b < |old(a.buf)| && a.buf[b] == old(a.buf)[b]
  {
    ValidIntact(a);
    for i := 0 to |ops|
      invariant a.Valid() && a.Respects(old(a.backing), old(a.handed))
    {
      Step(a, ops[i]);
    }
    ValidIntact(a);
  }
}
