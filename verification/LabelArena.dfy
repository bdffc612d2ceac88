/**
 The label arena of the arena engine (arena_radix.go): allocation, release, splitting, merging and
 collapsing of edge labels in one byte slice.  The ghost field `texts` is the meaning of the labels;
 `handed` holds the bytes of the current backing array that were given out as zero-copy strings.
 */
module LabelArena {
  import opened Bytes
  import opened Spans
  import opened LabelSpace

  class Arena {
    var buf: Bytes
    var size: int
    var labels: seq<Label>
    var spans: seq<Span>
    var put: Span
    var recycling: bool
    var live: int
    var exposed: bool
    const hasEntryCallback: bool
    ghost var texts: seq<Bytes>
    ghost var handed: map<int, Byte>
    ghost var backing: nat

    ghost function V(): View
      reads this
    {
      View(buf, size, labels, texts, spans, put, handed, exposed)
    }

    /** The full invariant: sound geometry, an exact live count, no hand-off span outside a Put, and nothing
        handed out from an arena that is neither exposed nor able to pin. */
    ghost predicate Valid()
      reads this
    {
      && Sound(V()) && live == Total(texts)
      && (0 < put.len ==> recycling)
      && (!exposed && !hasEntryCallback ==> handed == map[])
    }

    /** The part of the invariant that does not count the bytes of labels being moved. */
    ghost predicate ValidOwing(owed: int)
      reads this
    {
      && Sound(V()) && live == Total(texts) + owed
      && (0 < put.len ==> recycling)
      && (!exposed && !hasEntryCallback ==> handed == map[])
    }

    /** Bytes handed out before stay handed out, as long as the backing array is the same. */
    ghost predicate Respects(backing0: nat, handed0: map<int, Byte>)
      reads this
    {
      backing0 <= backing
        && (backing == backing0 ==> forall b :: b in handed0 ==> b in handed && handed[b] == handed0[b])
    }

    constructor (entryCallback: bool)
      ensures Valid() && texts == [] && handed == map[] && hasEntryCallback == entryCallback && !recycling
    {
      hasEntryCallback := entryCallback;
      buf, size, labels, spans, put := [], 0, [], [], NONE;
      recycling, live, exposed := false, 0, false;
      texts, handed, backing := [], map[], 0;
    }

    // -------------------------------------------------------------------------------------------
    // Reading
    // -------------------------------------------------------------------------------------------

    /** nodePrefixLen and nodePrefix: the length comes from the header for long labels. */
    method Load(id: int) returns (s: Bytes)
      requires Valid() && 0 <= id < |labels|
      ensures s == texts[id]
    {
      assert LabelOk(V(), id);
      var l := labels[id];
      if l.plen == 0 {
        return [];
      }
      if l.plen < LARGE {
        return buf[l.off..l.off + l.plen];
      }
      HeaderRoundTrip(|texts[id]|);
      return buf[l.off..l.off + FromLe32(buf[l.off - 4..l.off])];
    }

    // -------------------------------------------------------------------------------------------
    // Releasing
    // -------------------------------------------------------------------------------------------

    /** releasePrefixSpanLocked for bytes that no label owns any more. */
    method Release(off: int, pLen: nat, isLarge: bool, pinned: bool, ghost r: Span, ghost owed: int)
      requires ValidOwing(owed) && isLarge == (pLen >= LARGE)
      requires r == Span(if isLarge then off - 4 else off, RawLen(pLen))
      requires 0 < pLen && Clear(V(), r) && Unlabelled(V(), r)
      requires !(exposed || pinned) ==> NoneHanded(V(), r)
      modifies `size, `spans, `put, `live
      ensures ValidOwing(owed - r.len) && Kept(old(V()), r, V())
      ensures pinned || exposed ==> V() == old(V())
      ensures !pinned && !exposed ==> Freed(old(V()), r, V())
    {
      ghost var v := V();
      live := live - if isLarge then pLen + 4 else pLen;
      if pinned || exposed {
        return;
      }
      assert TableFits(v) && |v.labels| == |v.texts|;
      hide Sound, Kept, TrimKeeps, Within, Unlabelled, Total, Freed, TrimmedBytes;
      if off + pLen == size {
        var newEnd := if isLarge then off - 4 else off;
        CutEnd(v, r, newEnd);
        spans, put, size := TrimTail(spans, put, newEnd);
        TrimmedKept(v, r, V(), newEnd);
        FreeSpaceChanged(v, r, V());
        TrimmedFreed(v, r, V(), newEnd);
        return;
      }
      Recycle(Span(if isLarge then off - 4 else off, if isLarge then pLen + 4 else pLen));
    }

    /** Vacant bytes inside the arena go to the hand-off span of a running Put or to the table. */
    method Recycle(raw: Span)
      requires Sound(V()) && (0 < put.len ==> recycling)
      requires Vacant(V(), raw) && raw.off + raw.len < size
      modifies `spans, `put
      ensures Sound(V()) && (0 < put.len ==> recycling) && Kept(old(V()), raw, V())
      ensures Freed(old(V()), raw, V())
    {
      ghost var v := V();
      assert TableFits(v) && |v.labels| == |v.texts|;
      hide Sound, Kept, Within, Unlabelled, Total, RecordedBytes, Freed;
      if recycling {
        if 0 < put.len {
          if put.off + put.len == raw.off {
            put := Span(put.off, put.len + raw.len);
            PutGrew(v, raw, V());
            GrownFreed(v, raw, V());
            FreeSpaceChanged(v, raw, V());
            return;
          }
          if raw.off + raw.len == put.off {
            put := Span(raw.off, put.len + raw.len);
            PutGrew(v, raw, V());
            GrownFreed(v, raw, V());
            FreeSpaceChanged(v, raw, V());
            return;
          }
        }
        if raw.len > put.len {
          if 0 < put.len {
            spans := RecordFree(spans, put, size);
          }
          put := raw;
          ReplacedFreed(v, raw, V());
          PutReplaced(v, raw, V());
          FreeSpaceChanged(v, raw, V());
          return;
        }
      }
      spans := RecordFree(spans, raw, size);
      RecordedFreed(v, raw, V());
      Recorded(v, raw, V());
      FreeSpaceChanged(v, raw, V());
    }

    /** clearNodePrefix. */
    method ClearLabel(id: int)
      requires Valid() && 0 <= id < |labels|
      modifies `labels, `texts, `size, `spans, `put, `live
      ensures Valid() && texts == old(texts)[id := []] && |labels| == |old(labels)| && labels[id].plen == 0
      ensures old(texts[id] != [] && !labels[id].pinned && !exposed) ==>
                Freed(old(V()), old(Raw(labels[id], texts[id])), V())
    {
      hide Freed;
      assert LabelOk(V(), id);
      var l := labels[id];
      if l.plen == 0 {
        labels := labels[id := l.(off := 0, first := 0, pinned := false)];
        Relabelled(old(V()), id, labels[id]);
        return;
      }
      var s := Load(id);
      ghost var v := V();
      Dropped(v, id);
      TotalUpdate(texts, id, []);
      labels := labels[id := NO_LABEL];
      texts := texts[id := []];
      ghost var w := V();
      Release(l.off, |s|, l.plen == LARGE, l.pinned, Raw(l, s), RawLen(|s|));
      if !l.pinned && !exposed {
        SameFreed(v, w, Raw(l, s), V());
      }
    }

    // -------------------------------------------------------------------------------------------
    // Allocating
    // -------------------------------------------------------------------------------------------

    /** A raw span from the hand-off span, else from the table. */
    method TakeRaw(need: nat) returns (raw: int, ok: bool)
      requires Sound(V()) && (0 < put.len ==> recycling) && 0 < need
      modifies `spans, `put
      ensures !ok ==> V() == old(V())
      ensures Sound(V()) && (0 < put.len ==> recycling)
      ensures ok ==>
                Taken(old(V()), Span(raw, need), V()) && Vacant(V(), Span(raw, need)) && 0 <= raw && raw + need < size
      ensures !ok ==> put.len < need && forall i :: 0 <= i < |spans| ==> spans[i].len < need
    {
      ghost var v := V();
      assert TableFits(v) && |v.labels| == |v.texts|;
      hide Sound, Taken, Vacant;
      if put.len >= need {
        raw := put.off;
        put := if put.len == need then NONE else Span(put.off + need, put.len - need);
        TookPut(v, need);
        return raw, true;
      }
      if |spans| == 0 {
        return 0, false;
      }
      spans, raw, ok := TakeFree(spans, need, size);
      if ok {
        TookSpan(v, spans, Span(raw, need));
      }
    }

    /** tryTakeFreePrefixPayloadSpanLocked: a span from the hand-off span or the table, with its header written. */
    method TryTake(n: nat) returns (off: int, ok: bool)
      requires Sound(V()) && (0 < put.len ==> recycling) && 0 < n && RawLen(n) <= MAX_ARENA
      modifies `spans, `put, `buf
      ensures !ok ==> V() == old(V())
      ensures Sound(V()) && (0 < put.len ==> recycling) && |buf| == |old(buf)|
      ensures ok ==> Taken(old(V()), RawAt(off, n), V()) && Vacant(V(), RawAt(off, n))
      ensures ok ==> |Header(n)| <= off && off + n < size <= |buf| && buf[off - |Header(n)|..off] == Header(n)
      ensures ok ==> SameOutside(old(buf), RawAt(off, n), buf)
    {
      ghost var v := V();
      assert TableFits(v) && |v.labels| == |v.texts|;
      off, ok := TakeRaw(RawLen(n));
      ghost var r := Span(off, RawLen(n));
      assert TableFits(V());
      hide Sound, Taken, Vacant;
      if ok && n >= LARGE {
        ghost var w := V();
        WriteVacant(w, r, off, Le32(n));
        buf := Write(buf, off, Le32(n));
        TakenWrite(v, r, w, V());
        off := off + 4;
      }
    }

    /** append: the header and the bytes of `s` at the end of the arena. */
    method Append(s: Bytes) returns (off: int)
      requires Sound(V()) && s != [] && size + RawLen(|s|) <= |buf|
      modifies `size, `buf
      ensures Sound(V()) && |buf| == |old(buf)| && size == old(size) + RawLen(|s|)
      ensures Ready(V(), off, s) && Taken(old(V()), RawAt(off, |s|), V())
      ensures SameOutside(old(buf), RawAt(off, |s|), buf)
    {
      hide Sound, Taken, Vacant, TableOk, OffTail, FreeOf, Le32;
      ghost var v := V();
      SoundTable(v);
      ghost var r := Span(size, RawLen(|s|));
      Extended(v, r);
      ghost var w := v.(size := size + r.len);
      WriteVacant(w, r, size, Header(|s|) + s);
      buf := Write(buf, size, Header(|s|) + s);
      Payload(buf, size, s);
      off := size + |Header(|s|)|;
      size := size + RawLen(|s|);
      TakenWrite(v, r, w, V());
    }

    // -------------------------------------------------------------------------------------------
    // A new backing array
    // -------------------------------------------------------------------------------------------

    /** The loop of rebuildPrefixArenaWithCapLocked: all labels, one after the other. */
    method Pack() returns (packed: Bytes, moved: seq<Label>)
      requires Valid()
      ensures Sound(Packed(packed, moved, texts)) && |packed| == live && |moved| == |labels|
    {
      hide Sound, Total, Le32, Spells, Clear, LabelFor;
      packed, moved := [], [];
      ghost var v := V();
      LiveFits(v);
      SoundTable(v);
      EmptyPack();
      assert texts[..|labels|] == texts && texts[..0] == [];
      var id := 0;
      while id < |labels|
        invariant 0 <= id <= |labels| && |packed| == Total(texts[..id])
        invariant Sound(Packed(packed, moved, texts[..id])) && |moved| == id
      {
        var l := labels[id];
        PackedLabel(v, id, |packed|);
        TotalPrefix(texts, id);
        ghost var packed0, moved0 := packed, moved;
        if l.plen == 0 {
          moved := moved + [l.(off := 0, pinned := false)];
        } else {
          var p := Load(id);
          moved := moved + [l.(off := |packed| + |Header(|p|)|, pinned := false)];
          packed := packed + Header(|p|) + p;
        }
        PackedOne(packed0, moved0, texts[..id], texts[id], moved[id]);
        assert texts[..id + 1] == texts[..id] + [texts[id]];
        assert texts[id] == [] ==> packed0 + Header(|texts[id]|) + texts[id] == packed;
        id := id + 1;
      }
    }

    /** rebuildPrefixArenaWithCapLocked: all labels packed into a fresh array of the given capacity. */
    method Rebuild(newCap: nat)
      requires Valid() && live <= newCap <= MAX_ARENA
      modifies this
      ensures Valid() && texts == old(texts) && |labels| == |old(labels)| && recycling == old(recycling)
      ensures size == live == old(live) && |buf| == newCap && !exposed && handed == map[] && spans == [] && put == NONE
      ensures backing == old(backing) + 1
    {
      var packed, moved := Pack();
      labels := moved;
      size := |packed|;
      buf := packed + seq(newCap - |packed|, i => 0);
      live := |packed|;
      spans, put, exposed, handed, backing := [], NONE, false, map[], backing + 1;
      Reseated(Packed(packed, moved, texts), buf);
    }

    /** growPrefixArenaNoCompactLocked: a larger array with the same offsets. */
    method Grow(needed: nat)
      requires Valid() && size + needed <= MAX_ARENA
      modifies `buf, `exposed, `handed, `backing
      ensures Valid() && size + needed <= |buf| && !exposed && handed == map[] && backing == old(backing) + 1
    {
      var newCap := Max(2 * |buf|, Max(size + needed, 64));
      if newCap > MAX_ARENA {
        newCap := MAX_ARENA;
      }
      ghost var v := V();
      buf := buf[..size] + seq(newCap - size, i => 0);
      exposed, handed, backing := false, map[], backing + 1;
      Reseated(v, buf);
    }

    /** compactPrefixArenaLocked. */
    method Compact(extra: nat)
      requires Valid() && live + extra <= MAX_ARENA
      modifies this
      ensures Valid() && texts == old(texts) && |labels| == |old(labels)| && recycling == old(recycling)
      ensures size == live == old(live) && size + extra <= |buf| && !exposed && handed == map[]
      ensures backing == old(backing) + 1
    {
      var newCap := Max(2 * (live + extra), 64);
      if newCap > MAX_ARENA {
        newCap := MAX_ARENA;
      }
      Rebuild(newCap);
    }

    /** compactPrefixArenaExactLocked: the arena is packed to its live bytes, unless it already is. */
    method CompactExact()
      requires Valid() && !recycling
      modifies this
      ensures Valid() && texts == old(texts) && |labels| == |old(labels)| && !recycling
      ensures size == |buf| == live == old(live) && !exposed
      ensures Respects(old(backing), old(handed))
    {
      if live == 0 {
        forall id | 0 <= id < |labels|
          ensures texts[id] == []
        {
          TotalUpdate(texts, id, []);
        }
        ghost var v := V();
        buf, size, spans, put, exposed, handed, backing := [], 0, [], NONE, false, map[], backing + 1;
        Emptied(v);
        return;
      }
      if size == live && |buf| == live && !exposed {
        return;
      }
      LiveFits(V());
      Rebuild(live);
    }

    /** ensurePrefixArenaCap.  The source panics when the live bytes leave no room; that is the precondition. */
    method EnsureCap(needed: nat)
      requires Valid() && live + needed <= MAX_ARENA
      modifies this
      ensures Valid() && texts == old(texts) && |labels| == |old(labels)| && recycling == old(recycling)
      ensures size + needed <= |buf| && live == old(live)
      ensures Respects(old(backing), old(handed))
      ensures backing == old(backing) ==> V() == old(V())
    {
      if size + needed > MAX_ARENA {
        if live < size {
          Compact(needed);
        }
      }
      if size + needed <= |buf| {
        return;
      }
      if live < size && (exposed || 2 * live <= size) {
        Compact(needed);
        return;
      }
      Grow(needed);
    }

    // -------------------------------------------------------------------------------------------
    // Setting labels
    // -------------------------------------------------------------------------------------------

    /** A new node has no label. */
    method AddNode()
      requires Valid()
      modifies `labels, `texts
      ensures Valid() && texts == old(texts) + [[]] && |labels| == |old(labels)| + 1
    {
      OneMore(V());
      TotalAppend(texts, []);
      labels := labels + [NO_LABEL];
      texts := texts + [[]];
    }

    /** Bytes for `s`: recycled ones if there are any, else the end of the arena. */
    method Obtain(s: Bytes) returns (off: int)
      requires Valid() && s != [] && live + RawLen(|s|) <= MAX_ARENA
      modifies this
      ensures Valid() && texts == old(texts) && |labels| == |old(labels)| && live == old(live)
      ensures Respects(old(backing), old(handed)) && recycling == old(recycling)
      ensures |texts| == |labels| && Ready(V(), off, s)
    {
      var ok;
      off, ok := TryTake(|s|);
      assert TableFits(V()) && |labels| == |texts|;
      hide Sound, Taken, Vacant, Total;
      if ok {
        FillTaken(V(), off, s);
        buf := Write(buf, off, s);
      } else {
        EnsureCap(RawLen(|s|));
        off := Append(s);
      }
    }

    /** The label of `id` is set to bytes that already spell `s`. */
    method Install(id: int, off: int, s: Bytes, ghost owed: int)
      requires ValidOwing(owed) && 0 <= id < |labels| && texts[id] == [] && s != [] && Ready(V(), off, s)
      modifies `labels, `texts, `live
      ensures ValidOwing(owed) && texts == old(texts)[id := s] && labels == old(labels)[id := LabelFor(off, s, false)]
    {
      ReadyClaim(V(), off, s, false);
      Placed(V(), id, off, s, false);
      TotalUpdate(texts, id, s);
      labels := labels[id := LabelFor(off, s, false)];
      texts := texts[id := s];
      live := live + RawLen(|s|);
    }

    /** setNodePrefix and setLargeNodePrefix. */
    method SetPrefix(id: int, s: Bytes)
      requires Valid() && 0 <= id < |labels| && live + RawLen(|s|) <= MAX_ARENA
      modifies this
      ensures Valid() && texts == old(texts)[id := s] && |labels| == |old(labels)|
      ensures Respects(old(backing), old(handed)) && recycling == old(recycling)
    {
      hide Sound, Total, Ready, Freed, Raw, LabelFor;
      LabelIs(V(), id);
      TotalUpdate(texts, id, []);
      if s == [] || labels[id].plen != 0 {
        ClearLabel(id);
      }
      if s != [] {
        var off := Obtain(s);
        Install(id, off, s, 0);
      }
    }

    // -------------------------------------------------------------------------------------------
    // Splitting a label
    // -------------------------------------------------------------------------------------------

    /** Bytes for a copy of `buf[src..src + n]`, without moving any label. */
    method CopySlice(src: int, n: nat) returns (off: int)
      requires Sound(V()) && (0 < put.len ==> recycling) && 0 < n && Clear(V(), Span(src, n))
      requires size + RawLen(n) <= |buf|
      modifies `spans, `put, `buf, `size
      ensures Sound(V()) && (0 < put.len ==> recycling) && size <= old(size) + RawLen(n)
      ensures Ready(V(), off, old(buf[src..src + n])) && Taken(old(V()), RawAt(off, n), V())
      ensures SameOutside(old(buf), RawAt(off, n), buf)
    {
      hide Sound, Vacant, Ready, Taken, SameOutside, Clear, Spells, LabelOk, TableOk, OffTail, FreeOf, Write, Le32;
      ghost var v, r0 := V(), Span(src, n);
      InBounds(v, r0);
      var ok;
      off, ok := TryTake(n);
      ghost var w, r := V(), RawAt(off, n);
      if ok {
        StillThere(v, r, w, r0);
        SliceOutside(v.buf, r, w.buf, r0);
        InBounds(w, r0);
        var s := buf[src..src + n];
        FillTaken(w, off, s);
        FillOutside(v.buf, w.buf, off, s);
        buf := Write(buf, off, s);
        TakenWrite(v, r, w, V());
      } else {
        off := Append(buf[src..src + n]);
      }
    }

    /** setNodePrefixFromArenaSliceLocked: copy bytes of the arena, which nobody may reuse meanwhile. */
    method SetFromSlice(id: int, src: int, n: nat, ghost owed: int)
      requires ValidOwing(owed) && 0 <= id < |labels| && texts[id] == [] && 0 < n && Clear(V(), Span(src, n))
      requires size + RawLen(n) <= |buf|
      modifies `spans, `put, `buf, `size, `labels, `texts, `live
      ensures ValidOwing(owed) && texts == old(texts[id := buf[src..src + n]]) && |labels| == |old(labels)|
      ensures labels == old(labels)[id := labels[id]]
      ensures Taken(old(V()), RawAt(labels[id].off, n), V()) && SameOutside(old(buf), RawAt(labels[id].off, n), buf)
      ensures size <= old(size) + RawLen(n)
    {
      ghost var v := V();
      assert TableFits(v) && |v.labels| == |v.texts|;
      hide Sound, Vacant, Total, Ready, Taken, SameOutside;
      ghost var s := buf[src..src + n];
      var off := CopySlice(src, n);
      ghost var w := V();
      ReadyBytes(w, off, s);
      Install(id, off, buf[off..off + n], owed);
      TakenWrite(v, RawAt(off, n), w, V());
    }

    /** Both halves are short: they share the bytes of the old label, whose header, if any, becomes free. */
    method SplitShort(c: int, m: int, k: nat, ghost t: Bytes)
      requires Valid() && 0 <= c < |labels| && 0 <= m < |labels| && c != m && texts[m] == []
      requires t == texts[c] && 0 < k < |t| && k < LARGE && |t| - k < LARGE
      modifies `labels, `texts, `spans, `live
      ensures Valid() && texts == old(texts)[m := t[..k]][c := t[k..]]
    {
      hide Sound, Total, Claimable, Unlabelled, NoneHanded, Within, Kept, Spells, Clear, SplitView, LabelFor, Le32,
        RecordedBytes;
      var len := LengthOf(c);
      ghost var v := V();
      LabelFacts(v, c);
      HalfLabels(v.buf, v.labels[c], t, k, v.buf, v.labels[c].pinned);
      SplitViews(v, c, m, k, v.labels[c].pinned, v.buf);
      SplitTotal(texts, c, m, k);
      var l, wasLarge := labels[c], labels[c].plen == LARGE;
      labels := labels[m := Label(l.off, k, l.first, l.pinned)];
      labels := labels[c := Label(l.off + k, len - k, buf[l.off + k], l.pinned)];
      texts := texts[m := t[..k]][c := t[k..]];
      ghost var w := V();
      SplitViewIs(v, c, m, k, l.pinned, w);
      if wasLarge {
        live := live - 4;
        if !l.pinned && !exposed {
          SoundTable(w);
          FreeOfClaim(w, Span(l.off - 4, 4));
          spans := RecordFree(spans, Span(l.off - 4, 4), size);
          Recorded(w, Span(l.off - 4, 4), V());
          FreeSpaceChanged(w, Span(l.off - 4, 4), V());
        }
      }
    }

    /** nodePrefixLen. */
    method LengthOf(id: int) returns (n: nat)
      requires Valid() && 0 <= id < |labels|
      ensures n == |texts[id]|
    {
      var s := Load(id);
      n := |s|;
    }

    /** The first half is long, the second short, and nobody holds the bytes: the header is rewritten in place. */
    method SplitLong(c: int, m: int, k: nat, ghost t: Bytes)
      requires Valid() && 0 <= c < |labels| && 0 <= m < |labels| && c != m && texts[m] == []
      requires t == texts[c] && LARGE <= k < |t| && |t| - k < LARGE && !labels[c].pinned && !exposed
      modifies `labels, `texts, `buf
      ensures Valid() && texts == old(texts)[m := t[..k]][c := t[k..]] && |buf| == |old(buf)|
    {
      hide Sound, Total, Claimable, Unlabelled, NoneHanded, Le32, Spells, Clear, Write, SplitView, LabelFor;
      var len := LengthOf(c);
      ghost var v := V();
      LabelFacts(v, c);
      var l := labels[c];
      SplitViews(v, c, m, k, false, Write(v.buf, l.off - 4, Le32(k)));
      SplitTotal(texts, c, m, k);
      HalfLabels(v.buf, l, t, k, Write(v.buf, l.off - 4, Le32(k)), false);
      buf := Write(buf, l.off - 4, Le32(k));
      labels := labels[m := Label(l.off, LARGE, buf[l.off], false)];
      labels := labels[c := Label(l.off + k, len - k, buf[l.off + k], false)];
      texts := texts[m := t[..k]][c := t[k..]];
      SplitViewIs(v, c, m, k, false, V());
    }

    /** The label of `id` is dropped; its bytes are owed to the live count until they are released. */
    method Orphan(id: int, ghost owed: int) returns (l: Label)
      requires ValidOwing(owed) && 0 <= id < |labels| && |texts| == |labels| && texts[id] != []
      modifies `labels, `texts
      ensures l == old(labels[id]) && texts == old(texts)[id := []] && labels == old(labels)[id := NO_LABEL]
      ensures ValidOwing(owed + RawLen(|old(texts[id])|)) && |texts| == |labels|
      ensures Claimable(V(), Raw(l, old(texts[id])), l.pinned)
    {
      Dropped(V(), id);
      TotalUpdate(texts, id, []);
      l := labels[id];
      labels := labels[id := NO_LABEL];
      texts := texts[id := []];
    }

    /** The two halves of a dropped label are copied, first into `m`, then into `c`. */
    method CopyHalves(c: int, m: int, k: nat, len: nat, l: Label, ghost t: Bytes, ghost owed: int)
      requires ValidOwing(owed) && 0 <= c < |labels| && 0 <= m < |labels| && c != m && |texts| == |labels|
      requires texts[m] == [] && texts[c] == []
      requires 0 < k < |t| == len && Spells(buf, l, t) && Claimable(V(), Raw(l, t), l.pinned)
      requires size + RawLen(k) + RawLen(len - k) <= |buf|
      modifies `spans, `put, `buf, `size, `labels, `texts, `live
      ensures ValidOwing(owed) && texts == old(texts)[m := t[..k]][c := t[k..]] && |labels| == |old(labels)| == |texts|
      ensures Claimable(V(), Raw(l, t), l.pinned)
    {
      hide Sound, Total, Claimable, Taken, SameOutside, Clear, Spells, Le32;
      ghost var r, v := Raw(l, t), V();
      PartsClear(v, r, l, t, k);
      SetFromSlice(m, l.off, k, owed);
      ghost var w := V();
      SoundTable(w);
      CopiedBesides(v, m, w, r, Span(l.off + k, len - k), l.pinned);
      SetFromSlice(c, l.off + k, len - k, owed);
      SoundTable(V());
      ClaimReleasable(w, r, l.pinned);
      CopiedBesides(w, c, V(), r, r, l.pinned);
    }

    /** The label of `c` is dropped and both halves are copied; its old bytes are owed. */
    method CopyApart(c: int, m: int, k: nat, len: nat, ghost t: Bytes) returns (l: Label)
      requires Valid() && 0 <= c < |labels| && 0 <= m < |labels| && c != m && |texts| == |labels| && texts[m] == []
      requires t == texts[c] && 0 < k < |t| == len && size + RawLen(k) + RawLen(len - k) <= |buf|
      modifies `spans, `put, `buf, `size, `labels, `texts, `live
      ensures l == old(labels[c]) && texts == old(texts)[m := t[..k]][c := t[k..]]
      ensures |labels| == |old(labels)| == |texts|
      ensures ValidOwing(RawLen(len)) && Claimable(V(), Raw(l, t), l.pinned)
    {
      hide Sound, Total, Claimable, Clear, Spells, Le32;
      LabelFacts(V(), c);
      l := Orphan(c, 0);
      CopyHalves(c, m, k, len, l, t, RawLen(len));
    }

    /** Both halves are copied; the old bytes are released only afterwards. */
    method SplitCopy(c: int, m: int, k: nat, ghost t: Bytes)
      requires Valid() && 0 <= c < |labels| && 0 <= m < |labels| && c != m && |texts| == |labels| && texts[m] == []
      requires t == texts[c] && 0 < k < |t| && live + RawLen(k) + RawLen(|t| - k) <= MAX_ARENA
      modifies this
      ensures Valid() && texts == old(texts)[m := t[..k]][c := t[k..]] && |labels| == |old(labels)|
      ensures Respects(old(backing), old(handed)) && recycling == old(recycling)
    {
      hide Sound, Total, Claimable, Clear, Spells, Le32, Unlabelled, NoneHanded, Kept;
      var len := LengthOf(c);
      EnsureCap(RawLen(k) + RawLen(len - k));
      SoundTable(V());
      LargeBit(V(), c);
      var l := CopyApart(c, m, k, len, t);
      ClaimReleasable(V(), Raw(l, t), l.pinned);
      Release(l.off, len, l.plen == LARGE, l.pinned, Raw(l, t), RawLen(len));
    }

    /** splitNodePrefixLocked: `m` gets the first `k` bytes of the label of `c`, and `c` keeps the rest. */
    method Split(c: int, m: int, k: nat)
      requires Valid() && 0 <= c < |labels| && 0 <= m < |labels| && c != m && |texts| == |labels| && texts[m] == []
      requires 0 < k < |texts[c]| && live + RawLen(k) + RawLen(|texts[c]| - k) <= MAX_ARENA
      modifies this
      ensures Valid() && texts == old(texts[m := texts[c][..k]][c := texts[c][k..]]) && |labels| == |old(labels)|
      ensures Respects(old(backing), old(handed)) && recycling == old(recycling)
    {
      hide Sound, Total;
      SoundTable(V());
      var len := LengthOf(c);
      if k < LARGE && len - k < LARGE {
        SplitShort(c, m, k, texts[c]);
        SoundTable(V());
      } else if k >= LARGE && len - k < LARGE && !labels[c].pinned && !exposed {
        SplitLong(c, m, k, texts[c]);
        SoundTable(V());
      } else {
        SplitCopy(c, m, k, texts[c]);
      }
    }

    // -------------------------------------------------------------------------------------------
    // Merging two labels
    // -------------------------------------------------------------------------------------------

    /** The label of `c` directly follows that of `p`, and no header has to change: `c` takes over the bytes. */
    method MergeShort(p: int, c: int, ghost tp: Bytes, ghost tc: Bytes)
      requires Valid() && 0 <= p < |labels| && 0 <= c < |labels| && p != c && |texts| == |labels|
      requires tp == texts[p] && tc == texts[c] && tp != [] && tc != [] && |tp| + |tc| < LARGE
      requires labels[p].off + |tp| == labels[c].off
      modifies `labels, `texts
      ensures Valid() && texts == old(texts)[p := []][c := tp + tc] && |labels| == |old(labels)|
    {
      hide Sound, Total, Claimable, Spells, Clear, MergedView, LabelFor, Le32;
      ghost var v := V();
      LabelFacts(v, p);
      LabelFacts(v, c);
      MergeLabels(v, p, c);
      var l, k := labels[p], labels[c];
      MergeShortView(v, p, c, l.pinned || k.pinned);
      MergeTotal(texts, p, c);
      labels := labels[c := Label(l.off, l.plen + k.plen, l.first, l.pinned || k.pinned)];
      labels := labels[p := NO_LABEL];
      texts := texts[p := []][c := tp + tc];
      MergedViewIs(v, p, c, l.pinned || k.pinned, V());
    }

    /** A long label of `p` that nobody holds is extended over the following short label by rewriting its header. */
    method MergeLong(p: int, c: int, ghost tp: Bytes, ghost tc: Bytes)
      requires Valid() && 0 <= p < |labels| && 0 <= c < |labels| && p != c && |texts| == |labels|
      requires tp == texts[p] && tc == texts[c] && LARGE <= |tp| && 0 < |tc| < LARGE && |tp| + |tc| <= MAX_ARENA
      requires labels[p].off + |tp| == labels[c].off && !labels[p].pinned && !exposed
      modifies `labels, `texts, `buf, `live
      ensures Valid() && texts == old(texts)[p := []][c := tp + tc] && |labels| == |old(labels)| && |buf| == |old(buf)|
    {
      hide Sound, Total, Claimable, Spells, Clear, MergedView, LabelFor, Le32, Write;
      ghost var v := V();
      var len1 := LengthOf(p);
      var len2 := LengthOf(c);
      LabelFacts(v, p);
      LabelFacts(v, c);
      MergeLabels(v, p, c);
      var l, k := labels[p], labels[c];
      MergeLongView(v, p, c, Write(v.buf, l.off - 4, Le32(len1 + len2)));
      MergeTotal(texts, p, c);
      buf := Write(buf, l.off - 4, Le32(len1 + len2));
      labels := labels[c := Label(l.off, LARGE, l.first, k.pinned)];
      labels := labels[p := NO_LABEL];
      texts := texts[p := []][c := tp + tc];
      MergedViewIs(v, p, c, k.pinned, V());
    }

    /** The labels of `p` and `c` give way to the prepared bytes for `c`; their bytes are owed. */
    method Replace(p: int, c: int, off: int, s: Bytes) returns (l: Label, k: Label)
      requires Valid() && 0 <= p < |labels| && 0 <= c < |labels| && p != c && |texts| == |labels|
      requires texts[p] != [] && texts[c] != [] && s != [] && Ready(V(), off, s)
      modifies `labels, `texts, `live
      ensures l == old(labels[p]) && k == old(labels[c]) && |labels| == |old(labels)| == |texts|
      ensures texts == old(texts)[p := []][c := s] && ValidOwing(old(RawLen(|texts[p]|) + RawLen(|texts[c]|)))
      ensures Claimable(V(), old(Raw(labels[p], texts[p])), l.pinned)
      ensures Claimable(V(), old(Raw(labels[c], texts[c])), k.pinned)
      ensures Apart(old(Raw(labels[c], texts[c])), old(Raw(labels[p], texts[p])))
    {
      hide Sound, Total, Claimable, Ready;
      ghost var v := V();
      ReadyApart(v, off, s, p);
      ReadyApart(v, off, s, c);
      RawsApart(v, p, c);
      l := Orphan(p, 0);
      ghost var v1, rp := V(), old(Raw(labels[p], texts[p]));
      ReadyStays(v, p, off, s);
      k := Orphan(c, old(RawLen(|texts[p]|)));
      ReadyStays(v1, c, off, s);
      ClaimStays(v1, c, rp, l.pinned);
      ghost var v2 := V();
      Install(c, off, s, old(RawLen(|texts[p]|) + RawLen(|texts[c]|)));
      ClaimBesides(v2, c, off, s, false, rp, l.pinned);
      ClaimBesides(v2, c, off, s, false, old(Raw(labels[c], texts[c])), k.pinned);
    }

    /** Two dropped labels are released one after the other. */
    method ReleaseTwo(k: Label, len2: nat, l: Label, len1: nat, ghost rc: Span, ghost rp: Span)
      requires ValidOwing(RawLen(len1) + RawLen(len2)) && 0 < len1 && 0 < len2 && |texts| == |labels|
      requires rp == RawAt(l.off, len1) && rc == RawAt(k.off, len2) && Apart(rc, rp)
      requires (k.plen == LARGE <==> len2 >= LARGE) && (l.plen == LARGE <==> len1 >= LARGE)
      requires Claimable(V(), rp, l.pinned) && Claimable(V(), rc, k.pinned)
      modifies `size, `spans, `put, `live
      ensures Valid()
    {
      hide Sound, Total, Claimable, Clear, Unlabelled, NoneHanded, Kept, Le32;
      ClaimReleasable(V(), rc, k.pinned);
      ClaimReleasable(V(), rp, l.pinned);
      ghost var v := V();
      Release(k.off, len2, k.plen == LARGE, k.pinned, rc, RawLen(len1) + RawLen(len2));
      ReleasedBesides(v, rc, V(), rp);
      Release(l.off, len1, l.plen == LARGE, l.pinned, rp, RawLen(len1));
    }

    /** The concatenation goes to new bytes; both old labels are released afterwards. */
    method MergeCopy(p: int, c: int, s: Bytes)
      requires Valid() && 0 <= p < |labels| && 0 <= c < |labels| && p != c && |texts| == |labels|
      requires texts[p] != [] && texts[c] != [] && s == texts[p] + texts[c] && live + RawLen(|s|) <= MAX_ARENA
      modifies this
      ensures Valid() && texts == old(texts)[p := []][c := s] && |labels| == |old(labels)|
      ensures Respects(old(backing), old(handed)) && recycling == old(recycling)
    {
      hide Sound, Total, Claimable, Ready;
      ghost var tp, tc := texts[p], texts[c];
      var len1 := LengthOf(p);
      var len2 := LengthOf(c);
      var off := Obtain(s);
      LargeBit(V(), p);
      LargeBit(V(), c);
      var l, k := Replace(p, c, off, s);
      ReleaseTwo(k, len2, l, len1, Raw(k, tc), Raw(l, tp));
    }

    /** mergeNodePrefixesLocked: `c` gets the concatenation, `p` loses its label. */
    method Merge(p: int, c: int)
      requires Valid() && 0 <= p < |labels| && 0 <= c < |labels| && p != c && |texts| == |labels|
      requires texts[p] != [] && texts[c] != [] && live + RawLen(|texts[p]| + |texts[c]|) <= MAX_ARENA
      modifies this
      ensures Valid() && texts == old(texts[p := []][c := texts[p] + texts[c]]) && |labels| == |old(labels)|
      ensures Respects(old(backing), old(handed)) && recycling == old(recycling)
    {
      hide Sound, Total;
      ghost var tp, tc := texts[p], texts[c];
      var s1 := Load(p);
      var s2 := Load(c);
      var adjacent := labels[p].off + |s1| == labels[c].off;
      if |s1| < LARGE && |s2| < LARGE && |s1| + |s2| < LARGE && adjacent {
        MergeShort(p, c, tp, tc);
        SoundTable(V());
        return;
      }
      if |s1| < LARGE && |s2| < LARGE && |s1| + |s2| <= 512 {
        TotalUpdate(texts, c, []);
        ClearLabel(c);
        TotalUpdate(texts, p, []);
        ClearLabel(p);
        SetPrefix(c, s1 + s2);
        assert texts == old(texts)[p := []][c := s1 + s2];
        return;
      }
      if |s1| >= LARGE && |s2| < LARGE && adjacent && !labels[p].pinned && !exposed {
        MergeLong(p, c, tp, tc);
        SoundTable(V());
        return;
      }
      MergeCopy(p, c, s1 + s2);
    }

    // -------------------------------------------------------------------------------------------
    // Collapsing a parent, a dead leaf and the remaining child
    // -------------------------------------------------------------------------------------------

    /** tryCollapseSiblingPrefixInPlaceLocked: the child's bytes move over those of the dead leaf that follow the
        parent's. */
    method TryCollapse(p: int, d: int, c: int) returns (ok: bool)
      requires Valid() && 0 <= p < |labels| && 0 <= d < |labels| && 0 <= c < |labels| && p != d && d != c && p != c
      requires |texts| == |labels|
      requires texts[p] != [] && texts[d] != [] && texts[c] != []
      modifies `labels, `texts, `buf, `size, `spans, `put, `live
      ensures Valid() && |labels| == |old(labels)|
      ensures ok ==> texts == old(texts[p := []][d := []][c := texts[p] + texts[c]])
      ensures ok <==> old(Collapsible(V(), p, d, c))
      ensures !ok ==> V() == old(V())
    {
      hide Sound, Total, Spells, Clear;
      var l, dl, k := labels[p], labels[d], labels[c];
      LengthField(V(), p);
      LengthField(V(), d);
      LengthField(V(), c);
      if l.plen == LARGE || dl.plen == LARGE || k.plen == LARGE || dl.plen < k.plen || l.plen + k.plen >= LARGE ||
         l.off + l.plen != dl.off || l.pinned || dl.pinned || exposed {
        return false;
      }
      ShortLabel(V(), p);
      ShortLabel(V(), d);
      ShortLabel(V(), c);
      Collapse(p, d, c);
      ok := true;
    }

    /** The body of the collapse, once its conditions hold. */
    method Collapse(p: int, d: int, c: int)
      requires Valid() && Collapsible(V(), p, d, c) && labels[c].plen == |texts[c]| && labels[d].plen == |texts[d]|
      requires labels[p].plen == |texts[p]|
      modifies `labels, `texts, `buf, `size, `spans, `put, `live
      ensures Valid() && |labels| == |old(labels)|
      ensures texts == old(texts[p := []][d := []][c := texts[p] + texts[c]])
    {
      hide Sound, Total, Claimable, Spells, Clear, LabelFor, Le32, CollapsedView, Write;
      ghost var v := V();
      var dl, k := labels[d], labels[c];
      ShortLabel(v, c);
      CollapsedSound(v, p, d, c);
      JoinLabels(p, d, c);
      CollapseRelease(dl.off + k.plen, dl.plen - k.plen, k.off, k.plen, k.pinned, dl.plen);
    }

    /** The child's bytes move behind the parent's, and the labels of the parent and the leaf go. */
    method JoinLabels(p: int, d: int, c: int)
      requires Valid() && Collapsible(V(), p, d, c) && labels[c].plen == |texts[c]| && labels[p].plen == |texts[p]|
      modifies `labels, `texts, `buf
      ensures ValidOwing(|old(texts[d])|) && V() == old(CollapsedView(V(), p, d, c))
      ensures |labels| == |old(labels)| == |texts|
      ensures texts == old(texts[p := []][d := []][c := texts[p] + texts[c]])
    {
      hide Sound, Total, Claimable, Spells, Clear, LabelFor, Le32, CollapsedView, Write;
      ghost var v := V();
      ghost var tp, tc := texts[p], texts[c];
      var l, dl, k := labels[p], labels[d], labels[c];
      ShortLabel(v, p);
      ShortLabel(v, c);
      CollapsedLabel(v, p, c);
      CollapsedSound(v, p, d, c);
      CollapseTotal(texts, p, d, c);
      buf := Write(buf, dl.off, buf[k.off..k.off + k.plen]);
      labels := labels[c := Label(l.off, l.plen + k.plen, l.first, false)];
      labels := labels[p := NO_LABEL][d := NO_LABEL];
      texts := texts[p := []][d := []][c := tp + tc];
      CollapsedViewIs(v, p, d, c, V());
    }

    /** The tail of the dead leaf's bytes and the child's old bytes are released, as one span when they touch. */
    method CollapseRelease(extraOff: int, extra: nat, childOff: int, childLen: nat, pinned: bool, ghost owed: int)
      requires ValidOwing(owed) && |texts| == |labels| && 0 < childLen && extra + childLen == owed < LARGE && !exposed
      requires extra > 0 ==>
                 Claimable(V(), Span(extraOff, extra), false) && Apart(Span(extraOff, extra), Span(childOff, childLen))
      requires Claimable(V(), Span(childOff, childLen), pinned)
      modifies `size, `spans, `put, `live
      ensures Valid()
    {
      hide Sound, Total, Claimable, Clear, Unlabelled, NoneHanded, Kept;
      ghost var rc := Span(childOff, childLen);
      ClaimReleasable(V(), rc, pinned);
      if extra > 0 {
        ghost var re := Span(extraOff, extra);
        ClaimReleasable(V(), re, false);
        if !pinned && extraOff + extra == childOff {
          JoinClaims(V(), re, false, rc, false, false);
          ClaimReleasable(V(), Span(extraOff, childLen + extra), false);
          Release(extraOff, childLen + extra, false, false, Span(extraOff, childLen + extra), owed);
          return;
        }
        ghost var v := V();
        Release(extraOff, extra, false, false, re, owed);
        ReleasedBesides(v, re, V(), rc);
      }
      Release(childOff, childLen, false, pinned, rc, childLen);
    }

    // -------------------------------------------------------------------------------------------
    // Handing out strings, the Put hand-off and clearing
    // -------------------------------------------------------------------------------------------

    /** eraseInternal pins the label it gives to the entry callback as the key. */
    method Pin(id: int) returns (s: Bytes)
      requires Valid() && hasEntryCallback && 0 <= id < |labels| && |texts| == |labels| && texts[id] != []
      modifies `labels, `handed
      ensures Valid() && s == texts[id] && |labels| == |old(labels)|
      ensures handed == old(HandedWith(V(), id))
    {
      s := Load(id);
      HandOut(V(), id, true, exposed);
      handed := HandedWith(V(), id);
      labels := labels[id := labels[id].(pinned := true)];
    }

    /** exposeDepth1PrefixIfNeeded marks the whole array before an iterator gives out one of its labels. */
    method Expose(id: int) returns (s: Bytes)
      requires Valid() && 0 <= id < |labels| && |texts| == |labels| && texts[id] != []
      modifies `exposed, `handed
      ensures Valid() && s == texts[id] && exposed
      ensures handed == old(HandedWith(V(), id))
    {
      s := Load(id);
      HandOut(V(), id, labels[id].pinned, true);
      handed := HandedWith(V(), id);
      assert labels[id := labels[id].(pinned := labels[id].pinned)] == labels;
      exposed := true;
    }

    method BeginPut()
      requires Valid()
      modifies `recycling
      ensures Valid() && recycling
    {
      recycling := true;
    }

    /** finishPutPrefixRecycleLocked: what the Put did not use goes back to the table. */
    method FinishPut()
      requires Valid()
      modifies `recycling, `put, `spans
      ensures Valid() && !recycling && put.len == 0
    {
      recycling := false;
      ghost var v := V();
      SoundTable(v);
      if 0 < put.len {
        var sp := put;
        put := NONE;
        spans := RecordFree(spans, sp, size);
        PutFlushed(v, V());
      }
    }

    /** freeSubtreeNodeLocked: like a release, but a full table is not searched. */
    method FreeSubtreeLabel(id: int)
      requires Valid() && 0 <= id < |labels| && |texts| == |labels|
      modifies `labels, `texts, `size, `spans, `put, `live
      ensures Valid() && texts == old(texts)[id := []] && |labels| == |old(labels)|
    {
      hide Sound, Total, Claimable, Spells, Unlabelled, NoneHanded, TrimKeeps, Within, Kept, Freed, RecordedBytes,
        TrimmedBytes;
      LargeBit(V(), id);
      if labels[id].plen == 0 {
        return;
      }
      if labels[id].plen == LARGE {
        ClearLabel(id);
        return;
      }
      ShortLabel(V(), id);
      var l := Orphan(id, 0);
      live := live - l.plen;
      ghost var v, r := V(), Span(l.off, l.plen);
      SoundTable(v);
      ClaimReleasable(v, r, l.pinned);
      if !l.pinned && !exposed {
        if l.off + l.plen == size {
          CutEnd(v, r, l.off);
          spans, put, size := TrimTail(spans, put, l.off);
          TrimmedKept(v, r, V(), l.off);
          FreeSpaceChanged(v, r, V());
        } else if |spans| < SLOTS {
          spans := RecordFree(spans, Span(l.off, l.plen), size);
          Recorded(v, r, V());
          FreeSpaceChanged(v, r, V());
        }
      }
    }

    /** compactDataStructuresLocked on the labels: node `live[k]` becomes node `k`.  Only nodes without a label are
        left out. */
    method Renumber(live: seq<int>)
      requires Valid() && Renumbers(texts, live) && |texts| == |labels|
      modifies `labels, `texts
      ensures Valid() && |labels| == |live| && texts == Picked(old(texts), live)
    {
      hide Sound, Total, Renumbers;
      RenumberedSound(V(), live);
      RenumberedTotal(texts, live);
      InRange(texts, live);
      labels := Picked(labels, live);
      texts := Picked(texts, live);
    }

    /** clearEmptyArenaStateLocked on the arena: a small private array is reused, any other is given up. */
    method Reset(small: bool)
      requires Valid()
      modifies this
      ensures Valid() && texts == [[]] && |labels| == 1 && live == 0 && size == 0 && !recycling && spans == []
      ensures put == NONE
      ensures Respects(old(backing), old(handed))
    {
      hide Sound, Total, TableFits;
      ghost var v := V();
      labels, texts, live := [NO_LABEL], [[]], 0;
      spans, put, recycling := [], NONE, false;
      NothingHanded(v);
      SoundTable(v);
      if !exposed && (!hasEntryCallback || size == 0) && |buf| <= 4096 && small {
        size := 0;
      } else {
        buf, size, exposed, handed, backing := [], 0, false, map[], backing + 1;
      }
      FreshView(V());
    }
  }

  // ---------------------------------------------------------------------------------------------
  // What a release does to the free space
  // ---------------------------------------------------------------------------------------------

  lemma CutEnd(v: View, r: Span, newEnd: int)
    requires TableFits(v) && 0 < r.len && Clear(v, r) && r.off + r.len == v.size && newEnd == r.off
    ensures TableOk(v.spans, newEnd) && 0 <= newEnd
    ensures 0 < v.put.len ==> v.put.off + v.put.len <= newEnd
  {
    forall i | 0 <= i < |v.spans|
      ensures v.spans[i].off + v.spans[i].len <= newEnd
    {
      assert Apart(v.spans[i], r);
    }
  }

  lemma TrimmedKept(v: View, r: Span, v': View, newEnd: int)
    requires TableFits(v) && 0 < r.len && Clear(v, r) && r.off + r.len == v.size && newEnd == r.off
    requires v' == v.(spans := v'.spans, put := v'.put, size := v'.size)
    requires TableOk(v'.spans, v'.size) && OffTail(v'.spans, v'.size) && 0 <= v'.size <= newEnd
    requires v'.put == NONE
             || (0 < v.put.len && v'.put == v.put && FreeOf(v'.spans, v.put) && v.put.off + v.put.len < v'.size)
    requires TrimKeeps(v.spans, v.put, newEnd, v'.spans, v'.size)
    ensures TableFits(v') && Kept(v, r, v')
  {
    forall t: Span | 0 < t.len && Clear(v, t) && Apart(r, t)
      ensures Clear(v', t)
    {
      assert FreeOf(v'.spans, t);
    }
  }

  lemma PutGrew(v: View, r: Span, v': View)
    requires TableFits(v) && 0 < r.len && Clear(v, r) && r.off + r.len < v.size && 0 < v.put.len
    requires v' == v.(put := v'.put)
    requires v.put.off + v.put.len == r.off || r.off + r.len == v.put.off
    requires v'.put == Span(if v.put.off + v.put.len == r.off then v.put.off else r.off, v.put.len + r.len)
    ensures TableFits(v') && Kept(v, r, v')
  {
    forall i | 0 <= i < |v.spans|
      ensures Apart(v.spans[i], v'.put)
    {
      assert Apart(v.spans[i], v.put) && Apart(v.spans[i], r);
    }
  }

  lemma PutReplaced(v: View, r: Span, v': View)
    requires TableFits(v) && 0 < r.len && Clear(v, r) && r.off + r.len < v.size && v' == v.(put := r, spans := v'.spans)
    requires TableOk(v'.spans, v.size) && OffTail(v'.spans, v.size)
    requires if 0 < v.put.len then Within(v.spans, v.put, v'.spans) else v'.spans == v.spans
    ensures TableFits(v') && Kept(v, r, v')
  {
    assert FreeOf(v'.spans, r);
    forall t: Span | 0 < t.len && Clear(v, t) && Apart(r, t)
      ensures Clear(v', t)
    {
      assert FreeOf(v'.spans, t);
    }
  }

  lemma Recorded(v: View, r: Span, v': View)
    requires TableFits(v) && 0 < r.len && Clear(v, r) && r.off + r.len < v.size && v' == v.(spans := v'.spans)
    requires TableOk(v'.spans, v.size) && OffTail(v'.spans, v.size) && Within(v.spans, r, v'.spans)
    ensures TableFits(v') && Kept(v, r, v')
  {
    if 0 < v.put.len {
      assert FreeOf(v'.spans, v.put);
    }
    forall t: Span | 0 < t.len && Clear(v, t) && Apart(r, t)
      ensures Clear(v', t)
    {
      assert FreeOf(v'.spans, t);
    }
  }

  // ---------------------------------------------------------------------------------------------
  // What an allocation does to the free space
  // ---------------------------------------------------------------------------------------------

  /** Byte `b` is in the free-span table, in the hand-off span, or beyond the end of the arena. */
  predicate FreeByte(v: View, b: int) {
    HasByte(v.spans, b) || In(v.put, b) || v.size <= b
  }

  /** The bytes of `r` become free and those that were free stay so, except for the bytes `lost` to dead slack: none,
      or with a full table one span that is no longer than any span left in it. */
  ghost predicate FreedBut(v: View, r: Span, lost: Span, v': View) {
    && (forall b :: FreeByte(v', b) || In(lost, b) <==> FreeByte(v, b) || In(r, b))
    && (forall b :: In(lost, b) ==> !FreeByte(v', b))
    && (0 < lost.len ==> |v.spans| == SLOTS && forall i :: 0 <= i < |v'.spans| ==> lost.len <= v'.spans[i].len)
  }

  ghost predicate Freed(v: View, r: Span, v': View) {
    exists lost :: FreedBut(v, r, lost, v')
  }

  /** Without a full table nothing leaks. */
  lemma FreedAll(v: View, r: Span, v': View)
    requires Freed(v, r, v') && |v.spans| < SLOTS
    ensures forall b :: FreeByte(v', b) <==> FreeByte(v, b) || In(r, b)
  {
    var lost :| FreedBut(v, r, lost, v');
    assert forall b :: !In(lost, b);
  }

  lemma SameFreed(v: View, w: View, r: Span, v': View)
    requires w.spans == v.spans && w.put == v.put && w.size == v.size && Freed(w, r, v')
    ensures Freed(v, r, v')
  {
    var lost :| FreedBut(w, r, lost, v');
    assert forall b :: FreeByte(w, b) <==> FreeByte(v, b);
    assert FreedBut(v, r, lost, v');
  }

  lemma GrownFreed(v: View, r: Span, v': View)
    requires 0 < r.len && 0 < v.put.len && v' == v.(put := v'.put)
    requires v.put.off + v.put.len == r.off || r.off + r.len == v.put.off
    requires v'.put == Span(if v.put.off + v.put.len == r.off then v.put.off else r.off, v.put.len + r.len)
    ensures Freed(v, r, v')
  {
    assert FreedBut(v, r, NONE, v');
  }

  lemma RecordedFreed(v: View, r: Span, v': View)
    requires TableFits(v) && 0 < r.len && Clear(v, r) && v' == v.(spans := v'.spans)
    requires RecordedBytes(v.spans, r, v'.spans)
    ensures Freed(v, r, v')
  {
    hide RecordedBytes;
    var lost := Lost(v.spans, r, v'.spans, v.size);
    forall b | In(lost, b)
      ensures !In(v.put, b) && b < v.size
    {
      assert HasByte(v.spans, b) || In(r, b);
    }
    assert FreedBut(v, r, lost, v');
  }

  lemma ReplacedFreed(v: View, r: Span, v': View)
    requires TableFits(v) && 0 < r.len && Clear(v, r) && v' == v.(put := r, spans := v'.spans)
    requires if 0 < v.put.len then RecordedBytes(v.spans, v.put, v'.spans) else v'.spans == v.spans
    ensures Freed(v, r, v')
  {
    hide RecordedBytes;
    if 0 < v.put.len {
      var lost := Lost(v.spans, v.put, v'.spans, v.size);
      forall b | In(lost, b)
        ensures !In(r, b) && b < v.size
      {
        assert HasByte(v.spans, b) || In(v.put, b);
      }
      assert FreedBut(v, r, lost, v');
    } else {
      assert FreedBut(v, r, NONE, v');
    }
  }

  lemma TrimmedFreed(v: View, r: Span, v': View, newEnd: int)
    requires 0 < r.len && r.off + r.len == v.size && newEnd == r.off && v'.size <= newEnd && 0 <= v.put.len
    requires TrimmedBytes(v.spans, v.put, newEnd, v'.spans, v'.size)
    requires v'.put == (if 0 < v.put.len && v.put.off < v'.size then v.put else NONE)
    ensures Freed(v, r, v')
  {
    forall b
      ensures FreeByte(v', b) <==> FreeByte(v, b) || In(r, b)
    {
    }
    assert FreedBut(v, r, NONE, v');
  }

  /** Only bytes of `r` differ. */
  predicate SameOutside(buf: Bytes, r: Span, buf': Bytes) {
    |buf'| == |buf| && forall b :: 0 <= b < |buf| && !(r.off <= b < r.off + r.len) ==> buf'[b] == buf[b]
  }

  /** The bytes `r` come out of the free space; everything that was clear stays clear and is apart from them. */
  ghost predicate Taken(v: View, r: Span, v': View) {
    forall t: Span {:trigger Clear(v', t)} {:trigger Clear(v, t)} :: 0 < t.len && Clear(v, t) ==>
      Clear(v', t) && Apart(r, t)
  }

  /** Vacant bytes at payload offset `off` already hold `s` and its header. */
  ghost predicate Ready(v: View, off: int, s: Bytes)
    requires |v.labels| == |v.texts|
  {
    && Vacant(v, RawAt(off, |s|)) && |Header(|s|)| <= off && off + |s| <= |v.buf|
    && v.buf[off..off + |s|] == s && v.buf[off - |Header(|s|)|..off] == Header(|s|)
  }

  lemma LabelIs(v: View, id: int)
    requires Sound(v) && 0 <= id < |v.labels|
    ensures LabelOk(v, id)
  {
  }

  lemma Relabelled(v: View, id: int, l: Label)
    requires Sound(v) && 0 <= id < |v.labels| && v.texts[id] == [] && l.plen == 0
    ensures Sound(v.(labels := v.labels[id := l]))
  {
    var v' := v.(labels := v.labels[id := l]);
    forall k | 0 <= k < |v'.labels| ensures LabelOk(v', k) {
      assert LabelOk(v, k);
    }
    forall i, j ensures LabelsApart(v', i, j) {
      assert LabelsApart(v, i, j);
    }
    forall b | b in v'.handed ensures HandedOk(v', b) {
      assert HandedOk(v, b);
    }
  }

  /** What has been taken is clear of labels and of handed-out bytes. */
  lemma TakenVacant(v: View, r: Span, v': View)
    requires Sound(v) && TableFits(v') && v' == v.(spans := v'.spans, put := v'.put, size := v'.size)
    requires Taken(v, r, v') && 0 < r.len && Clear(v', r)
    ensures Sound(v') && Vacant(v', r)
  {
    forall id | 0 <= id < |v.labels| && v.texts[id] != []
      ensures Apart(Raw(v.labels[id], v.texts[id]), r)
    {
      assert LabelOk(v, id);
    }
    forall b | b in v.handed
      ensures Apart(r, Span(b, 1))
    {
      assert HandedOk(v, b);
    }
    assert Kept(v, r, v');
    FreeSpaceChanged(v, r, v');
  }

  lemma TookPut(v: View, need: int)
    requires Sound(v) && 0 < need <= v.put.len
    ensures var v' := v.(put := if v.put.len == need then NONE else Span(v.put.off + need, v.put.len - need));
            Taken(v, Span(v.put.off, need), v') && Sound(v') && Vacant(v', Span(v.put.off, need))
              && v.put.off + need < v.size && 0 <= v.put.off
  {
    var v' := v.(put := if v.put.len == need then NONE else Span(v.put.off + need, v.put.len - need));
    var r := Span(v.put.off, need);
    forall i | 0 <= i < |v.spans|
      ensures Apart(v.spans[i], r) && Apart(v.spans[i], v'.put)
    {
      assert Apart(v.spans[i], v.put);
    }
    forall t: Span | 0 < t.len && Clear(v, t)
      ensures Clear(v', t) && Apart(r, t)
    {
    }
    TakenVacant(v, r, v');
  }

  lemma TookSpan(v: View, spans: seq<Span>, r: Span)
    requires Sound(v) && TableOk(spans, v.size) && OffTail(spans, v.size) && Keeps(v.spans, spans)
    requires 0 < r.len && FreeOf(spans, r) && 0 <= r.off && r.off + r.len < v.size
    requires forall t: Span {:trigger FreeOf(v.spans, t)} :: 0 < t.len && FreeOf(v.spans, t) ==> Apart(r, t)
    ensures Taken(v, r, v.(spans := spans)) && Sound(v.(spans := spans)) && Vacant(v.(spans := spans), r)
  {
    var v' := v.(spans := spans);
    if 0 < v.put.len {
      assert FreeOf(v.spans, v.put);
      assert FreeOf(spans, v.put);
      assert Apart(r, v.put);
    }
    forall t: Span | 0 < t.len && Clear(v, t)
      ensures Clear(v', t) && Apart(r, t)
    {
      assert FreeOf(v.spans, t);
      assert FreeOf(spans, t);
    }
    TakenVacant(v, r, v');
  }

  lemma TakenWrite(v: View, r: Span, w: View, w': View)
    requires Taken(v, r, w) && w'.spans == w.spans && w'.put == w.put && w'.size == w.size
    ensures Taken(v, r, w')
  {
    forall t: Span | 0 < t.len && Clear(v, t)
      ensures Clear(w', t) && Apart(r, t)
    {
      assert Clear(w, t);
    }
  }

  lemma Extended(v: View, r: Span)
    requires Sound(v) && r.off == v.size && 0 < r.len && v.size + r.len <= |v.buf|
    ensures Sound(v.(size := v.size + r.len)) && Vacant(v.(size := v.size + r.len), r)
    ensures Taken(v, r, v.(size := v.size + r.len))
  {
    var v' := v.(size := v.size + r.len);
    forall t: Span | 0 < t.len && Clear(v, t)
      ensures Clear(v', t) && Apart(r, t)
    {
    }
    TakenVacant(v, r, v');
  }

  lemma Payload(buf: Bytes, at: int, s: Bytes)
    requires 0 <= at && at + RawLen(|s|) <= |buf| && buf[at..at + RawLen(|s|)] == Header(|s|) + s
    ensures var off := at + |Header(|s|)|; buf[at..off] == Header(|s|) && buf[off..off + |s|] == s
  {
    hide Le32;
    TwoParts(buf, at, Header(|s|), s);
  }

  lemma TwoParts(buf: Bytes, at: int, a: Bytes, b: Bytes)
    requires 0 <= at && at + |a| + |b| <= |buf| && buf[at..at + |a| + |b|] == a + b
    ensures buf[at..at + |a|] == a && buf[at + |a|..at + |a| + |b|] == b
  {
    var all := buf[at..at + |a| + |b|];
    assert all[..|a|] == a && all[|a|..] == b;
    assert buf[at..at + |a|] == all[..|a|];
    assert buf[at + |a|..at + |a| + |b|] == all[|a|..];
  }

  // ---------------------------------------------------------------------------------------------
  // A new backing array
  // ---------------------------------------------------------------------------------------------

  function Max(a: int, b: int): int {
    if a < b then b else a
  }

  /** An arena that holds nothing but the labels for `texts`. */
  ghost function Packed(buf: Bytes, labels: seq<Label>, texts: seq<Bytes>): View {
    View(buf, |buf|, labels, texts, [], NONE, map[], false)
  }

  lemma EmptyPack()
    ensures Sound(Packed([], [], [])) && Total([]) == 0
  {
  }

  lemma PackedLabel(v: View, id: int, at: nat)
    requires Sound(v) && 0 <= id < |v.labels| == |v.texts|
    ensures v.labels[id].plen == 0 <==> v.texts[id] == []
    ensures v.texts[id] != [] ==>
              v.labels[id].(off := at + |Header(|v.texts[id]|)|, pinned := false)
                == LabelFor(at + |Header(|v.texts[id]|)|, v.texts[id], false)
  {
    assert LabelOk(v, id);
  }

  lemma {:induction false} TotalAppend(texts: seq<Bytes>, t: Bytes)
    ensures Total(texts + [t]) == Total(texts) + RawLen(|t|)
  {
    if texts == [] {
      assert texts + [t] == [t];
      assert [t][1..] == [];
    } else {
      TotalAppend(texts[1..], t);
      assert (texts + [t])[1..] == texts[1..] + [t];
    }
  }

  lemma {:induction false} TotalPrefix(texts: seq<Bytes>, i: nat)
    requires i < |texts|
    ensures Total(texts[..i + 1]) == Total(texts[..i]) + RawLen(|texts[i]|)
    ensures Total(texts[..i + 1]) <= Total(texts)
    decreases |texts| - i
  {
    assert texts[..i + 1] == texts[..i] + [texts[i]];
    TotalAppend(texts[..i], texts[i]);
    if i + 1 < |texts| {
      TotalPrefix(texts, i + 1);
    } else {
      assert texts[..i + 1] == texts;
    }
  }

  /** Packing one more label. */
  lemma PackedOne(buf: Bytes, labels: seq<Label>, texts: seq<Bytes>, t: Bytes, l: Label)
    requires Sound(Packed(buf, labels, texts)) && |buf| + RawLen(|t|) <= MAX_ARENA
    requires t == [] ==> l.plen == 0
    requires t != [] ==> l == LabelFor(|buf| + |Header(|t|)|, t, l.pinned)
    ensures Sound(Packed(buf + Header(|t|) + t, labels + [l], texts + [t]))
  {
    hide Sound, Le32;
    var b := buf + Header(|t|) + t;
    if t == [] {
      assert b == buf by {
        assert Header(0) == [];
      }
      PackedNone(buf, labels, texts, l);
    } else {
      assert b[..|buf|] == buf && b[|buf|..] == Header(|t|) + t;
      PackedMore(buf, b, labels, texts, t, l);
    }
  }

  lemma PackedNone(buf: Bytes, labels: seq<Label>, texts: seq<Bytes>, l: Label)
    requires Sound(Packed(buf, labels, texts)) && l.plen == 0
    ensures Sound(Packed(buf, labels + [l], texts + [[]]))
  {
    hide Sound;
    var v := Packed(buf, labels, texts);
    SoundTable(v);
    OneMore(v);
    Relabelled(v.(labels := labels + [NO_LABEL], texts := texts + [[]]), |labels|, l);
    assert (labels + [NO_LABEL])[|labels| := l] == labels + [l];
  }

  lemma PackedMore(buf: Bytes, b: Bytes, labels: seq<Label>, texts: seq<Bytes>, t: Bytes, l: Label)
    requires Sound(Packed(buf, labels, texts)) && t != [] && |b| == |buf| + RawLen(|t|) <= MAX_ARENA
    requires b[..|buf|] == buf && b[|buf|..] == Header(|t|) + t
    requires l == LabelFor(|buf| + |Header(|t|)|, t, l.pinned)
    ensures Sound(Packed(b, labels + [l], texts + [t]))
  {
    hide Sound, Vacant, Claimable, Le32;
    var v, n := Packed(buf, labels, texts), |labels|;
    SoundTable(v);
    var r, off := Span(|buf|, RawLen(|t|)), |buf| + |Header(|t|)|;
    assert buf[..|buf|] == buf;
    Reseated(v, b);
    Extended(v.(buf := b), r);
    var v2 := v.(buf := b, size := |b|);
    OneMore(v2);
    OneMoreClaim(v2, r, l.pinned);
    Payload(b, |buf|, t);
    Placed(v2.(labels := labels + [NO_LABEL], texts := texts + [[]]), n, off, t, l.pinned);
    assert (labels + [NO_LABEL])[n := l] == labels + [l];
    assert (texts + [[]])[n := t] == texts + [t];
  }

  lemma OneMoreClaim(v: View, r: Span, pinned: bool)
    requires |v.labels| == |v.texts| && Vacant(v, r)
    ensures Claimable(v.(labels := v.labels + [NO_LABEL], texts := v.texts + [[]]), r, pinned)
  {
  }

  lemma SameSlice(a: Bytes, b: Bytes, n: int, lo: int, hi: int)
    requires 0 <= lo <= hi <= n <= |a| && n <= |b| && a[..n] == b[..n]
    ensures a[lo..hi] == b[lo..hi]
  {
    forall i | lo <= i < hi ensures a[i] == b[i] {
      assert a[..n][i] == b[..n][i];
    }
  }

  /** The same bytes in a different array; nothing of it is handed out yet. */
  lemma Reseated(v: View, buf: Bytes)
    requires Sound(v) && v.size <= |buf| <= MAX_ARENA && buf[..v.size] == v.buf[..v.size]
    ensures Sound(v.(buf := buf, handed := map[], exposed := false))
  {
    var v' := v.(buf := buf, handed := map[], exposed := false);
    forall id | 0 <= id < |v'.labels| ensures LabelOk(v', id) {
      assert LabelOk(v, id);
      var l, t := v.labels[id], v.texts[id];
      if t != [] {
        SameSlice(buf, v.buf, v.size, l.off, l.off + |t|);
        SameSlice(buf, v.buf, v.size, l.off - |Header(|t|)|, l.off);
      }
    }
    forall i, j ensures LabelsApart(v', i, j) {
      assert LabelsApart(v, i, j);
    }
  }

  lemma Emptied(v: View)
    requires Sound(v) && forall id :: 0 <= id < |v.labels| ==> v.texts[id] == []
    ensures Sound(View([], 0, v.labels, v.texts, [], NONE, map[], false))
  {
    var v' := View([], 0, v.labels, v.texts, [], NONE, map[], false);
    forall id | 0 <= id < |v'.labels| ensures LabelOk(v', id) {
      assert LabelOk(v, id);
    }
    forall i, j ensures LabelsApart(v', i, j) {
    }
  }

  // ---------------------------------------------------------------------------------------------
  // The live count
  // ---------------------------------------------------------------------------------------------

  ghost function Interval(lo: int, hi: int): (r: set<int>)
    ensures forall b :: b in r <==> lo <= b < hi
    ensures |r| == if lo <= hi then hi - lo else 0
    decreases hi - lo
  {
    if lo >= hi then {} else {lo} + Interval(lo + 1, hi)
  }

  ghost function OwnBytes(v: View, id: nat): set<int>
    requires id < |v.labels| == |v.texts|
  {
    if v.texts[id] == [] then {}
    else var r := Raw(v.labels[id], v.texts[id]); Interval(r.off, r.off + r.len)
  }

  ghost function Owned(v: View, n: nat): set<int>
    requires n <= |v.labels| == |v.texts|
  {
    if n == 0 then {} else Owned(v, n - 1) + OwnBytes(v, n - 1)
  }

  lemma OwnBytesIn(v: View, id: nat)
    requires Sound(v) && id < |v.labels|
    ensures |v.labels| == |v.texts| && OwnBytes(v, id) <= Interval(0, v.size)
    ensures |OwnBytes(v, id)| == RawLen(|v.texts[id]|)
  {
    assert LabelOk(v, id);
  }

  lemma UnionSize(a: set<int>, b: set<int>)
    requires a !! b
    ensures |a + b| == |a| + |b|
  {
  }

  lemma UnionApart(a: set<int>, b: set<int>, c: set<int>)
    requires a !! c && b !! c
    ensures a + b !! c
  {
  }

  lemma BytesApart(v: View, i: nat, j: nat)
    requires Sound(v) && i < j < |v.labels|
    ensures OwnBytes(v, i) !! OwnBytes(v, j)
  {
    hide TableFits;
    assert LabelsApart(v, i, j);
  }

  lemma {:induction false} OwnedApart(v: View, n: nat, id: nat)
    requires Sound(v) && n <= id < |v.labels|
    ensures Owned(v, n) !! OwnBytes(v, id)
  {
    hide Sound, OwnBytes, TableFits;
    SoundTable(v);
    if n > 0 {
      OwnedApart(v, n - 1, id);
      BytesApart(v, n - 1, id);
      UnionApart(Owned(v, n - 1), OwnBytes(v, n - 1), OwnBytes(v, id));
    }
  }

  lemma {:induction false} OwnedSize(v: View, n: nat)
    requires Sound(v) && n <= |v.labels|
    ensures |Owned(v, n)| == Total(v.texts[..n]) && Owned(v, n) <= Interval(0, v.size)
  {
    hide Sound, OwnBytes, Interval, Total;
    SoundTable(v);
    if n == 0 {
      assert v.texts[..n] == [];
      TotalNone([]);
    } else {
      OwnedSize(v, n - 1);
      OwnedMore(v, n - 1);
    }
  }

  lemma OwnedMore(v: View, n: nat)
    requires Sound(v) && n < |v.labels|
    requires |Owned(v, n)| == Total(v.texts[..n]) && Owned(v, n) <= Interval(0, v.size)
    ensures |Owned(v, n) + OwnBytes(v, n)| == Total(v.texts[..n + 1])
    ensures Owned(v, n) + OwnBytes(v, n) <= Interval(0, v.size)
  {
    hide Sound, OwnBytes, Owned, Interval, Total, TableFits;
    SoundTable(v);
    TotalPrefix(v.texts, n);
    OwnedApart(v, n, n);
    OwnBytesIn(v, n);
    UnionSize(Owned(v, n), OwnBytes(v, n));
  }

  /** The live bytes fit into the arena. */
  lemma LiveFits(v: View)
    requires Sound(v)
    ensures Total(v.texts) <= v.size
  {
    OwnedSize(v, |v.labels|);
    assert v.texts[..|v.labels|] == v.texts;
    SubsetSize(Owned(v, |v.labels|), Interval(0, v.size));
  }

  lemma SubsetSize(a: set<int>, b: set<int>)
    requires a <= b
    ensures |a| <= |b|
  {
    assert b == a + (b - a);
  }

  lemma OneMore(v: View)
    requires Sound(v)
    ensures Sound(v.(labels := v.labels + [NO_LABEL], texts := v.texts + [[]]))
  {
    var v' := v.(labels := v.labels + [NO_LABEL], texts := v.texts + [[]]);
    forall k | 0 <= k < |v'.labels| ensures LabelOk(v', k) {
      assert k < |v.labels| ==> LabelOk(v, k);
    }
    forall i, j ensures LabelsApart(v', i, j) {
      assert LabelsApart(v, i, j);
    }
    forall b | b in v'.handed ensures HandedOk(v', b) {
      assert HandedOk(v, b);
    }
  }

  /** Copying the payload into taken bytes makes them ready. */
  lemma FillTaken(v: View, off: int, s: Bytes)
    requires Sound(v) && s != [] && Vacant(v, RawAt(off, |s|)) && |Header(|s|)| <= off && off + |s| <= v.size
    requires v.buf[off - |Header(|s|)|..off] == Header(|s|)
    ensures off + |s| <= |v.buf|
    ensures Sound(v.(buf := Write(v.buf, off, s))) && Ready(v.(buf := Write(v.buf, off, s)), off, s)
  {
    WriteVacant(v, RawAt(off, |s|), off, s);
    WriteApart(v.buf, off, s, Span(off - |Header(|s|)|, |Header(|s|)|));
  }

  lemma ReadyClaim(v: View, off: int, s: Bytes, pinned: bool)
    requires |v.labels| == |v.texts| && Ready(v, off, s)
    ensures Claimable(v, RawAt(off, |s|), pinned)
  {
  }

  lemma ReadyBytes(v: View, off: int, s: Bytes)
    requires |v.labels| == |v.texts| && Ready(v, off, s)
    ensures |Header(|s|)| <= off && off + |s| <= |v.buf|
    ensures v.buf[off..off + |s|] == s && v.buf[off - |Header(|s|)|..off] == Header(|s|)
  {
  }

  /** Clear bytes are not what was taken. */
  lemma StillThere(v: View, r: Span, v': View, t: Span)
    requires Taken(v, r, v') && 0 < t.len && Clear(v, t)
    ensures Apart(r, t) && Clear(v', t)
  {
  }

  lemma SliceOutside(buf: Bytes, r: Span, buf': Bytes, t: Span)
    requires SameOutside(buf, r, buf') && Apart(r, t) && 0 <= t.off && 0 <= t.len && t.off + t.len <= |buf|
    ensures |buf'| == |buf| && buf'[t.off..t.off + t.len] == buf[t.off..t.off + t.len]
  {
  }

  lemma FillOutside(buf: Bytes, buf': Bytes, off: int, s: Bytes)
    requires SameOutside(buf, RawAt(off, |s|), buf') && |Header(|s|)| <= off && off + |s| <= |buf'|
    ensures SameOutside(buf, RawAt(off, |s|), Write(buf', off, s))
  {
  }

  lemma InBounds(v: View, t: Span)
    requires Sound(v) && Clear(v, t)
    ensures |v.labels| == |v.texts| && 0 <= t.off && t.off + t.len <= v.size <= |v.buf| <= MAX_ARENA
  {
  }

  /** The old label of `c` replaced by its two halves at the same bytes; `buf` has the header the first half needs. */
  ghost function SplitView(v: View, c: int, m: int, k: nat, pinned: bool, buf: Bytes): View
    requires 0 <= c < |v.labels| && 0 <= m < |v.labels| && |v.labels| == |v.texts| && k <= |v.texts[c]|
  {
    var t, off := v.texts[c], v.labels[c].off;
    WithLabel(WithLabel(WithoutLabel(v, c).(buf := buf), m, off, t[..k], pinned), c, off + k, t[k..], pinned)
  }

  /** Two labels side by side in claimed bytes, in front of them possibly the unused header of the old one. */
  lemma PlacedTwice(v: View, c: int, m: int, off: int, t: Bytes, k: nat, pinned: bool, r: Span)
    requires Sound(v) && 0 <= c < |v.labels| && 0 <= m < |v.labels| && c != m && v.texts[m] == [] && v.texts[c] == []
    requires 0 < k < |t| && |t| - k < LARGE && Claimable(v, r, pinned) && off + |t| == r.off + r.len <= |v.buf|
    requires r.off <= off - |Header(k)| && 0 <= r.off
    requires v.buf[off..off + |t|] == t && v.buf[off - |Header(k)|..off] == Header(k)
    ensures Sound(WithLabel(WithLabel(v, m, off, t[..k], pinned), c, off + k, t[k..], pinned))
    ensures k < LARGE && r.off + 4 == off ==>
              Claimable(WithLabel(WithLabel(v, m, off, t[..k], pinned), c, off + k, t[k..], pinned), Span(off - 4, 4),
                        pinned)
  {
    hide Sound, Claimable, Le32, LabelFor, FreeOf, TableOk, OffTail;
    SoundTable(v);
    var a, b := t[..k], t[k..];
    assert t == a + b;
    TwoParts(v.buf, off, a, b);
    var v3 := WithLabel(v, m, off, a, pinned);
    SubClaim(v, r, pinned, RawAt(off, k));
    SubClaim(v, r, pinned, RawAt(off + k, |b|));
    Placed(v, m, off, a, pinned);
    ClaimBesides(v, m, off, a, pinned, RawAt(off + k, |b|), pinned);
    Placed(v3, c, off + k, b, pinned);
    if k < LARGE && r.off + 4 == off {
      var h := Span(off - 4, 4);
      SubClaim(v, r, pinned, h);
      ClaimBesides(v, m, off, a, pinned, h, pinned);
      ClaimBesides(v3, c, off + k, b, pinned, h, pinned);
    }
  }

  lemma SplitViews(v: View, c: int, m: int, k: nat, pinned: bool, buf: Bytes)
    requires Sound(v) && 0 <= c < |v.labels| && 0 <= m < |v.labels| && c != m && v.texts[m] == []
    requires 0 < k < |v.texts[c]| && |v.texts[c]| - k < LARGE && pinned == v.labels[c].pinned
    requires if k < LARGE then buf == v.buf
             else 4 <= v.labels[c].off && v.labels[c].off <= |v.buf|
                  && buf == Write(v.buf, v.labels[c].off - 4, Le32(k)) && !pinned && !v.exposed
    ensures Sound(SplitView(v, c, m, k, pinned, buf))
    ensures k < LARGE <= |v.texts[c]| ==>
              Claimable(SplitView(v, c, m, k, pinned, buf), Span(v.labels[c].off - 4, 4), pinned)
  {
    hide Sound, Claimable, Unlabelled, NoneHanded, LabelOk, Clear, Vacant, Le32, Write;
    LabelFacts(v, c);
    var t, off := v.texts[c], v.labels[c].off;
    var r := Raw(v.labels[c], t);
    Dropped(v, c);
    var v1 := WithoutLabel(v, c);
    if k >= LARGE {
      HeaderRewritten(v1, r, off, t, k, buf);
    }
    PlacedTwice(v1.(buf := buf), c, m, off, t, k, pinned, r);
  }

  /** The header of a long label is rewritten in bytes that nobody else holds. */
  lemma HeaderRewritten(v: View, r: Span, off: int, t: Bytes, k: nat, buf: Bytes)
    requires Sound(v) && Claimable(v, r, false) && !v.exposed && 4 <= off && 0 <= r.off <= off - 4 && LARGE <= k
    requires off + |t| == r.off + r.len <= |v.buf| && v.buf[off..off + |t|] == t
    requires buf == Write(v.buf, off - 4, Le32(k))
    ensures |buf| == |v.buf| && buf[off..off + |t|] == t && buf[off - 4..off] == Le32(k)
    ensures Sound(v.(buf := buf)) && Claimable(v.(buf := buf), r, false)
  {
    hide Sound, Claimable, Unlabelled, NoneHanded, LabelOk, Clear, Vacant, Le32, Write;
    SoundTable(v);
    ClaimVacant(v, r);
    WriteVacant(v, r, off - 4, Le32(k));
    VacantClaim(v.(buf := buf), r, false);
    WriteApart(v.buf, off - 4, Le32(k), Span(off, |t|));
  }

  lemma ClaimVacant(v: View, r: Span)
    requires |v.labels| == |v.texts| && Claimable(v, r, false) && !v.exposed
    ensures Vacant(v, r)
  {
  }

  lemma VacantClaim(v: View, r: Span, pinned: bool)
    requires |v.labels| == |v.texts| && Vacant(v, r)
    ensures Claimable(v, r, pinned)
  {
  }

  lemma SplitViewIs(v: View, c: int, m: int, k: nat, pinned: bool, w: View)
    requires 0 <= c < |v.labels| && 0 <= m < |v.labels| && c != m && |v.labels| == |v.texts| && 0 < k < |v.texts[c]|
    requires w == v.(buf := w.buf, labels := w.labels, texts := w.texts)
    requires var upper := LabelFor(v.labels[c].off, v.texts[c][..k], pinned);
             w.labels == v.labels[m := upper][c := LabelFor(v.labels[c].off + k, v.texts[c][k..], pinned)]
    requires w.texts == v.texts[m := v.texts[c][..k]][c := v.texts[c][k..]]
    ensures w == SplitView(v, c, m, k, pinned, w.buf)
  {
    assert w.labels == SplitView(v, c, m, k, pinned, w.buf).labels;
    assert w.texts == SplitView(v, c, m, k, pinned, w.buf).texts;
  }

  lemma SplitTotal(texts: seq<Bytes>, c: int, m: int, k: nat)
    requires 0 <= c < |texts| && 0 <= m < |texts| && c != m && texts[m] == [] && 0 < k < |texts[c]|
    ensures Total(texts[m := texts[c][..k]][c := texts[c][k..]])
            == Total(texts) - RawLen(|texts[c]|) + RawLen(k) + RawLen(|texts[c]| - k)
  {
    TotalUpdate(texts, m, texts[c][..k]);
    TotalUpdate(texts[m := texts[c][..k]], c, texts[c][k..]);
  }

  lemma FreeOfClaim(v: View, r: Span)
    requires |v.labels| == |v.texts| && Claimable(v, r, false) && !v.exposed
    ensures FreeOf(v.spans, r) && 0 <= r.off && r.off + r.len <= v.size && Unlabelled(v, r) && NoneHanded(v, r)
    ensures Clear(v, r)
  {
  }

  lemma SoundTable(v: View)
    requires Sound(v)
    ensures TableFits(v) && |v.labels| == |v.texts|
  {
  }

  /** The two parts of a dropped label can be copied from. */
  lemma PartsClear(v: View, r: Span, l: Label, t: Bytes, k: nat)
    requires Sound(v) && Claimable(v, r, l.pinned) && r == Raw(l, t) && Spells(v.buf, l, t) && 0 < k < |t|
    ensures Clear(v, Span(l.off, k)) && Clear(v, Span(l.off + k, |t| - k)) && Clear(v, r)
    ensures 0 <= l.off && l.off + |t| <= v.size <= |v.buf|
    ensures v.buf[l.off..l.off + k] == t[..k] && v.buf[l.off + k..l.off + |t|] == t[k..]
  {
    SubClaim(v, r, l.pinned, Span(l.off, k));
    SubClaim(v, r, l.pinned, Span(l.off + k, |t| - k));
    assert t == t[..k] + t[k..];
    TwoParts(v.buf, l.off, t[..k], t[k..]);
  }

  /** A copy into taken bytes leaves the claim and its bytes as they were. */
  lemma CopiedBesides(v: View, id: int, v': View, r: Span, part: Span, pinned: bool)
    requires |v.labels| == |v.texts| && |v'.labels| == |v.labels| && |v'.texts| == |v.texts| && 0 <= id < |v.labels|
    requires |v.buf| >= v.size
    requires v'.labels == v.labels[id := v'.labels[id]] && v'.texts == v.texts[id := v'.texts[id]] && v.texts[id] == []
    requires v'.handed == v.handed && v'.exposed == v.exposed
    requires Taken(v, RawAt(v'.labels[id].off, |v'.texts[id]|), v')
    requires SameOutside(v.buf, RawAt(v'.labels[id].off, |v'.texts[id]|), v'.buf)
    requires Claimable(v, r, pinned) && Clear(v, part) && 0 < part.len
    ensures Claimable(v', r, pinned) && Clear(v', part)
    ensures 0 <= part.off && part.off + part.len <= |v.buf| == |v'.buf|
    ensures v'.buf[part.off..part.off + part.len] == v.buf[part.off..part.off + part.len]
  {
    StillThere(v, RawAt(v'.labels[id].off, |v'.texts[id]|), v', r);
    StillThere(v, RawAt(v'.labels[id].off, |v'.texts[id]|), v', part);
    SliceOutside(v.buf, RawAt(v'.labels[id].off, |v'.texts[id]|), v'.buf, part);
  }

  lemma ClaimReleasable(v: View, r: Span, pinned: bool)
    requires |v.labels| == |v.texts| && Claimable(v, r, pinned)
    ensures Clear(v, r) && Unlabelled(v, r) && (!(v.exposed || pinned) ==> NoneHanded(v, r))
  {
  }

  /** The labels of the two halves, with or without a rewritten header. */
  lemma HalfLabels(old0: Bytes, l: Label, t: Bytes, k: nat, buf: Bytes, p: bool)
    requires Spells(old0, l, t) && 0 < k < |t|
    requires buf == old0 || (4 <= l.off && |t| >= LARGE && buf == Write(old0, l.off - 4, Le32(k)))
    ensures |Header(|t|)| <= l.off && l.off + |t| <= |buf| && l.first == t[0] && buf[l.off] == t[0]
    ensures buf[l.off + k] == t[k]
    ensures l.plen == if |t| >= LARGE then LARGE else |t|
    ensures LabelFor(l.off, t[..k], p) == Label(l.off, if k >= LARGE then LARGE else k, t[0], p)
    ensures LabelFor(l.off + k, t[k..], p) == Label(l.off + k, if |t| - k >= LARGE then LARGE else |t| - k, t[k], p)
  {
    assert old0[l.off..l.off + |t|][0] == t[0] && old0[l.off..l.off + |t|][k] == t[k];
  }

  lemma LargeBit(v: View, id: int)
    requires Sound(v) && 0 <= id < |v.labels|
    ensures |v.labels| == |v.texts| && (v.labels[id].plen == LARGE <==> |v.texts[id]| >= LARGE)
    ensures v.labels[id].plen == 0 <==> v.texts[id] == []
  {
    assert LabelOk(v, id);
  }

  // ---------------------------------------------------------------------------------------------
  // Merging two labels
  // ---------------------------------------------------------------------------------------------

  /** The labels of `p` and `c` replaced by one for `c` from the offset of `p`. */
  ghost function MergedView(v: View, p: int, c: int, pinned: bool, buf: Bytes): View
    requires 0 <= c < |v.labels| && 0 <= p < |v.labels| && |v.labels| == |v.texts|
  {
    WithLabel(WithoutLabel(WithoutLabel(v, p), c).(buf := buf), c, v.labels[p].off, v.texts[p] + v.texts[c], pinned)
  }

  predicate Mergeable(v: View, p: int, c: int) {
    && 0 <= p < |v.labels| && 0 <= c < |v.labels| && p != c && |v.labels| == |v.texts| && v.texts[p] != []
    && v.texts[c] != []
    && v.labels[p].off + |v.texts[p]| == v.labels[c].off && |v.texts[c]| < LARGE
  }

  lemma MergeShortView(v: View, p: int, c: int, pinned: bool)
    requires Sound(v) && Mergeable(v, p, c) && pinned == (v.labels[p].pinned || v.labels[c].pinned)
    requires |v.texts[p]| + |v.texts[c]| < LARGE
    ensures Sound(MergedView(v, p, c, pinned, v.buf))
  {
    hide Sound, Claimable, Clear;
    LabelFacts(v, p);
    LabelFacts(v, c);
    var tp, tc := v.texts[p], v.texts[c];
    DroppedTwice(v, p, c);
    PlacedJoin(WithoutLabel(WithoutLabel(v, p), c), c, v.labels[p].off, tp, tc,
               Raw(v.labels[p], tp), v.labels[p].pinned, Raw(v.labels[c], tc), v.labels[c].pinned, pinned);
  }

  lemma MergeLongView(v: View, p: int, c: int, buf: Bytes)
    requires Sound(v) && Mergeable(v, p, c) && !v.labels[p].pinned && !v.exposed
    requires LARGE <= |v.texts[p]| && 4 <= v.labels[p].off <= |v.buf|
    requires buf == Write(v.buf, v.labels[p].off - 4, Le32(|v.texts[p]| + |v.texts[c]|))
    ensures Sound(MergedView(v, p, c, v.labels[c].pinned, buf))
  {
    hide Sound, Claimable, Clear, Vacant, Le32, Spells, Write;
    LabelFacts(v, p);
    LabelFacts(v, c);
    var tp, tc, off := v.texts[p], v.texts[c], v.labels[p].off;
    RewrittenHeader(v, p, c, buf);
    LongerHeader(v.buf, v.labels[p], tp, v.labels[c], tc);
    PlacedJoin(WithoutLabel(WithoutLabel(v, p), c).(buf := buf), c, off, tp, tc, Raw(v.labels[p], tp), false,
               Raw(v.labels[c], tc), v.labels[c].pinned, v.labels[c].pinned);
  }

  /** With both labels dropped, the header of the first may be rewritten. */
  lemma RewrittenHeader(v: View, p: int, c: int, buf: Bytes)
    requires Sound(v) && Mergeable(v, p, c) && !v.labels[p].pinned && !v.exposed && LARGE <= |v.texts[p]|
    requires 4 <= v.labels[p].off <= |v.buf|
    requires buf == Write(v.buf, v.labels[p].off - 4, Le32(|v.texts[p]| + |v.texts[c]|))
    ensures var v3 := WithoutLabel(WithoutLabel(v, p), c).(buf := buf);
            && Sound(v3) && Claimable(v3, Raw(v.labels[p], v.texts[p]), false)
            && Claimable(v3, Raw(v.labels[c], v.texts[c]), v.labels[c].pinned)
  {
    hide Sound, Claimable, Clear, Vacant, Le32, Spells, Write;
    var rp, rc := Raw(v.labels[p], v.texts[p]), Raw(v.labels[c], v.texts[c]);
    DroppedTwice(v, p, c);
    var v2 := WithoutLabel(WithoutLabel(v, p), c);
    ClaimVacant(v2, rp);
    WriteVacant(v2, rp, v.labels[p].off - 4, Le32(|v.texts[p]| + |v.texts[c]|));
    VacantClaim(v2.(buf := buf), rp, false);
    ClaimRewritten(v2, v2.(buf := buf), rc, v.labels[c].pinned);
  }

  lemma LongerHeader(buf: Bytes, l: Label, tp: Bytes, k: Label, tc: Bytes)
    requires Spells(buf, l, tp) && Spells(buf, k, tc) && LARGE <= |tp| && tc != [] && l.off + |tp| == k.off
    ensures 4 <= l.off && l.off + |tp| + |tc| <= |buf|
    ensures var b := Write(buf, l.off - 4, Le32(|tp| + |tc|));
            b[l.off..l.off + |tp|] == tp && b[l.off + |tp|..l.off + |tp| + |tc|] == tc
              && b[l.off - 4..l.off] == Header(|tp| + |tc|)
  {
    hide Le32;
    WriteApart(buf, l.off - 4, Le32(|tp| + |tc|), Span(l.off, |tp|));
    WriteApart(buf, l.off - 4, Le32(|tp| + |tc|), Span(k.off, |tc|));
  }

  lemma DroppedTwice(v: View, p: int, c: int)
    requires Sound(v) && 0 <= p < |v.labels| && 0 <= c < |v.labels| && p != c && v.texts[p] != [] && v.texts[c] != []
    ensures |v.labels| == |v.texts|
    ensures Sound(WithoutLabel(WithoutLabel(v, p), c))
    ensures Claimable(WithoutLabel(WithoutLabel(v, p), c), Raw(v.labels[p], v.texts[p]), v.labels[p].pinned)
    ensures Claimable(WithoutLabel(WithoutLabel(v, p), c), Raw(v.labels[c], v.texts[c]), v.labels[c].pinned)
  {
    hide Sound, Claimable;
    SoundTable(v);
    Dropped(v, p);
    Dropped(WithoutLabel(v, p), c);
    ClaimStays(WithoutLabel(v, p), c, Raw(v.labels[p], v.texts[p]), v.labels[p].pinned);
  }

  /** One label over two adjacent claims. */
  lemma PlacedJoin(v: View, c: int, off: int, tp: Bytes, tc: Bytes, rp: Span, pp: bool, rc: Span, pc: bool,
                   pinned: bool)
    requires Sound(v) && 0 <= c < |v.labels| && v.texts[c] == [] && tp != [] && tc != []
    requires Claimable(v, rp, pp) && Claimable(v, rc, pc) && (pp ==> pinned) && (pc ==> pinned)
    requires rp.off + rp.len == rc.off == off + |tp| && rc.len == |tc| && rp.off == off - |Header(|tp| + |tc|)|
    requires 0 <= rp.off
    requires off + |tp| + |tc| <= |v.buf|
    requires v.buf[off..off + |tp|] == tp && v.buf[off + |tp|..off + |tp| + |tc|] == tc
    requires v.buf[rp.off..off] == Header(|tp| + |tc|)
    ensures |v.labels| == |v.texts| && Sound(WithLabel(v, c, off, tp + tc, pinned))
  {
    hide Sound, Claimable, Le32;
    SoundTable(v);
    JoinClaims(v, rp, pp, rc, pc, pinned);
    assert v.buf[off..off + |tp + tc|] == v.buf[off..off + |tp|] + v.buf[off + |tp|..off + |tp| + |tc|];
    Placed(v, c, off, tp + tc, pinned);
  }

  lemma ClaimRewritten(v: View, v': View, r: Span, pinned: bool)
    requires |v.labels| == |v.texts| && v' == v.(buf := v'.buf) && Claimable(v, r, pinned)
    ensures Claimable(v', r, pinned)
  {
  }

  lemma MergeLabels(v: View, p: int, c: int)
    requires Sound(v) && 0 <= p < |v.labels| && 0 <= c < |v.labels| && v.texts[p] != [] && v.texts[c] != []
    ensures |v.texts[p]| + |v.texts[c]| < LARGE ==> v.labels[p].plen == |v.texts[p]| && v.labels[c].plen == |v.texts[c]|
    ensures forall q: bool {:trigger LabelFor(v.labels[p].off, v.texts[p] + v.texts[c], q)} ::
              LabelFor(v.labels[p].off, v.texts[p] + v.texts[c], q) ==
              var n := |v.texts[p]| + |v.texts[c]|;
              Label(v.labels[p].off, if n >= LARGE then LARGE else n, v.labels[p].first, q)
  {
    LabelFacts(v, p);
    LabelFacts(v, c);
  }

  lemma MergedViewIs(v: View, p: int, c: int, pinned: bool, w: View)
    requires 0 <= c < |v.labels| && 0 <= p < |v.labels| && c != p && |v.labels| == |v.texts|
    requires w == v.(buf := w.buf, labels := w.labels, texts := w.texts)
    requires w.labels == v.labels[c := LabelFor(v.labels[p].off, v.texts[p] + v.texts[c], pinned)][p := NO_LABEL]
    requires w.texts == v.texts[p := []][c := v.texts[p] + v.texts[c]]
    ensures w == MergedView(v, p, c, pinned, w.buf)
  {
    assert w.labels == MergedView(v, p, c, pinned, w.buf).labels;
    assert w.texts == MergedView(v, p, c, pinned, w.buf).texts;
  }

  lemma MergeTotal(texts: seq<Bytes>, p: int, c: int)
    requires 0 <= p < |texts| && 0 <= c < |texts| && p != c
    ensures Total(texts[p := []][c := texts[p] + texts[c]]) ==
            Total(texts) - RawLen(|texts[p]|) - RawLen(|texts[c]|) + RawLen(|texts[p]| + |texts[c]|)
  {
    TotalUpdate(texts, p, []);
    TotalUpdate(texts[p := []], c, texts[p] + texts[c]);
  }

  lemma ReadyApart(v: View, off: int, s: Bytes, id: int)
    requires Sound(v) && |v.labels| == |v.texts| && Ready(v, off, s) && 0 <= id < |v.labels| && v.texts[id] != []
    ensures Apart(RawAt(off, |s|), Raw(v.labels[id], v.texts[id]))
  {
    assert v.texts[id] != [];
  }

  lemma ReadyStays(v: View, id: int, off: int, s: Bytes)
    requires |v.labels| == |v.texts| && Ready(v, off, s) && 0 <= id < |v.labels|
    ensures Ready(WithoutLabel(v, id), off, s)
  {
  }

  lemma RawsApart(v: View, i: int, j: int)
    requires Sound(v) && 0 <= i < |v.labels| && 0 <= j < |v.labels| && i != j && v.texts[i] != [] && v.texts[j] != []
    ensures |v.labels| == |v.texts| && Apart(Raw(v.labels[i], v.texts[i]), Raw(v.labels[j], v.texts[j]))
    ensures 0 < Raw(v.labels[i], v.texts[i]).len && 0 < Raw(v.labels[j], v.texts[j]).len
  {
    assert LabelsApart(v, i, j);
  }

  /** Releasing one claim leaves another as it was. */
  lemma ReleasedBesides(v: View, r: Span, v': View, t: Span)
    requires |v.labels| == |v.texts| && v'.labels == v.labels && v'.texts == v.texts && v'.handed == v.handed
    requires v'.exposed == v.exposed
    requires Kept(v, r, v') && Apart(r, t) && 0 < t.len && Clear(v, t)
    ensures Clear(v', t)
    ensures Unlabelled(v, t) ==> Unlabelled(v', t)
    ensures NoneHanded(v, t) ==> NoneHanded(v', t)
  {
  }

  lemma ShortLabel(v: View, id: int)
    requires Sound(v) && 0 <= id < |v.labels| && v.texts[id] != [] && v.labels[id].plen != LARGE
    ensures |v.texts[id]| < LARGE && v.labels[id].plen == |v.texts[id]| && v.labels[id].first == v.texts[id][0]
    ensures 0 <= v.labels[id].off && v.labels[id].off + |v.texts[id]| <= v.size <= |v.buf|
    ensures v.buf[v.labels[id].off..v.labels[id].off + |v.texts[id]|] == v.texts[id]
    ensures Raw(v.labels[id], v.texts[id]) == Span(v.labels[id].off, |v.texts[id]|)
  {
    LabelFacts(v, id);
  }

  lemma LengthField(v: View, id: int)
    requires Sound(v) && 0 <= id < |v.labels| && v.texts[id] != []
    ensures |v.labels| == |v.texts| && v.labels[id].plen == if |v.texts[id]| >= LARGE then LARGE else |v.texts[id]|
    ensures 0 <= v.labels[id].off && v.labels[id].off + |v.texts[id]| <= v.size <= |v.buf|
  {
    LabelFacts(v, id);
  }

  lemma CollapsedLabel(v: View, p: int, c: int)
    requires Sound(v) && 0 <= p < |v.labels| && 0 <= c < |v.labels| && v.texts[p] != []
    requires |v.texts[p]| + |v.texts[c]| < LARGE
    ensures LabelFor(v.labels[p].off, v.texts[p] + v.texts[c], false)
            == Label(v.labels[p].off, |v.texts[p]| + |v.texts[c]|, v.labels[p].first, false)
  {
    LabelFacts(v, p);
  }

  /** After the collapse: one label for `c` over the parent's bytes and the front of the dead leaf's. */
  ghost function CollapsedView(v: View, p: int, d: int, c: int): View
    requires 0 <= p < |v.labels| && 0 <= d < |v.labels| && 0 <= c < |v.labels| && |v.labels| == |v.texts|
    requires 0 <= v.labels[d].off && v.labels[d].off + |v.texts[c]| <= |v.buf|
  {
    WithLabel(CollapseBase(v, p, d, c), c, v.labels[p].off, v.texts[p] + v.texts[c], false)
  }

  ghost predicate Collapsible(v: View, p: int, d: int, c: int) {
    && 0 <= p < |v.labels| && 0 <= d < |v.labels| && 0 <= c < |v.labels| && p != d && d != c && p != c
    && |v.labels| == |v.texts|
    && v.texts[p] != [] && v.texts[d] != [] && v.texts[c] != []
    && |v.texts[c]| <= |v.texts[d]| < LARGE && |v.texts[p]| + |v.texts[c]| < LARGE
    && v.labels[p].off + |v.texts[p]| == v.labels[d].off && !v.labels[p].pinned && !v.labels[d].pinned && !v.exposed
    && 0 <= v.labels[d].off && v.labels[d].off + |v.texts[d]| <= v.size <= |v.buf|
  }

  lemma DroppedThrice(v: View, p: int, d: int, c: int)
    requires Sound(v) && 0 <= p < |v.labels| && 0 <= d < |v.labels| && 0 <= c < |v.labels| && p != d && d != c && p != c
    requires v.texts[p] != [] && v.texts[d] != [] && v.texts[c] != []
    ensures |v.labels| == |v.texts|
    ensures var w := WithoutLabel(WithoutLabel(WithoutLabel(v, p), d), c);
            && Sound(w) && Claimable(w, Raw(v.labels[p], v.texts[p]), v.labels[p].pinned)
            && Claimable(w, Raw(v.labels[d], v.texts[d]), v.labels[d].pinned)
            && Claimable(w, Raw(v.labels[c], v.texts[c]), v.labels[c].pinned)
  {
    hide Sound, Claimable;
    DroppedTwice(v, p, d);
    var w := WithoutLabel(WithoutLabel(v, p), d);
    Dropped(w, c);
    ClaimStays(w, c, Raw(v.labels[p], v.texts[p]), v.labels[p].pinned);
    ClaimStays(w, c, Raw(v.labels[d], v.texts[d]), v.labels[d].pinned);
  }

  /** All three labels are dropped and the child's bytes are written over the front of the dead leaf's. */
  ghost function CollapseBase(v: View, p: int, d: int, c: int): View
    requires 0 <= p < |v.labels| && 0 <= d < |v.labels| && 0 <= c < |v.labels| && |v.labels| == |v.texts|
    requires 0 <= v.labels[d].off && v.labels[d].off + |v.texts[c]| <= |v.buf|
  {
    WithoutLabel(WithoutLabel(WithoutLabel(v, p), d), c).(buf := Write(v.buf, v.labels[d].off, v.texts[c]))
  }

  lemma CollapseWritten(v: View, p: int, d: int, c: int)
    requires Sound(v) && Collapsible(v, p, d, c)
    ensures 0 <= v.labels[d].off && v.labels[d].off + |v.texts[c]| <= |v.buf|
    ensures var w := CollapseBase(v, p, d, c);
            && Sound(w) && Claimable(w, Raw(v.labels[p], v.texts[p]), false)
            && Claimable(w, Raw(v.labels[d], v.texts[d]), false)
            && Claimable(w, Raw(v.labels[c], v.texts[c]), v.labels[c].pinned)
  {
    hide Sound, Claimable, Clear, Vacant, Unlabelled, NoneHanded, Write, Le32;
    RawsApart(v, d, c);
    DroppedThrice(v, p, d, c);
    var w := WithoutLabel(WithoutLabel(WithoutLabel(v, p), d), c);
    var rd := Raw(v.labels[d], v.texts[d]);
    ClaimVacant(w, rd);
    WriteVacant(w, rd, v.labels[d].off, v.texts[c]);
    var w2 := CollapseBase(v, p, d, c);
    ClaimRewritten(w, w2, Raw(v.labels[p], v.texts[p]), false);
    ClaimRewritten(w, w2, rd, false);
    ClaimRewritten(w, w2, Raw(v.labels[c], v.texts[c]), v.labels[c].pinned);
  }

  /** The parent's bytes are as before, and the child's follow them. */
  lemma CollapseBytes(v: View, p: int, d: int, c: int)
    requires Sound(v) && Collapsible(v, p, d, c)
    ensures 0 <= v.labels[p].off && v.labels[d].off + |v.texts[c]| <= |v.buf|
    ensures var off, at, w := v.labels[p].off, v.labels[d].off, CollapseBase(v, p, d, c);
            && |w.labels| == |w.texts| == |v.labels| && w.texts[c] == [] && |w.buf| == |v.buf|
            && Raw(v.labels[p], v.texts[p]).off == off
            && w.buf[off..at] == v.texts[p] && w.buf[at..at + |v.texts[c]|] == v.texts[c]
  {
    hide Sound, Write, Le32;
    LabelFacts(v, p);
    RawsApart(v, p, d);
    RawsApart(v, d, c);
    WriteApart(v.buf, v.labels[d].off, v.texts[c], Span(v.labels[p].off, |v.texts[p]|));
  }

  lemma CollapsedSound(v: View, p: int, d: int, c: int)
    requires Sound(v) && Collapsible(v, p, d, c)
    ensures Sound(CollapsedView(v, p, d, c))
    ensures var n := |v.texts[c]|;
            var extra := Span(v.labels[d].off + n, |v.texts[d]| - n);
            0 < extra.len ==>
              Claimable(CollapsedView(v, p, d, c), extra, false) && Apart(extra, Raw(v.labels[c], v.texts[c]))
    ensures Claimable(CollapsedView(v, p, d, c), Raw(v.labels[c], v.texts[c]), v.labels[c].pinned)
  {
    hide Sound, Claimable, Clear, Vacant, Unlabelled, NoneHanded, Write, Le32, CollapseBase;
    var tp, td, tc := v.texts[p], v.texts[d], v.texts[c];
    var off, at, n := v.labels[p].off, v.labels[d].off, |tc|;
    RawsApart(v, d, c);
    RawsApart(v, p, d);
    RawsApart(v, p, c);
    CollapseWritten(v, p, d, c);
    CollapseBytes(v, p, d, c);
    var w := CollapseBase(v, p, d, c);
    var rd, rc, rp := Raw(v.labels[d], td), Raw(v.labels[c], tc), Raw(v.labels[p], tp);
    SubClaim(w, rd, false, Span(at, n));
    PlacedJoin(w, c, off, tp, tc, rp, false, Span(at, n), false, false);
    ClaimBesides(w, c, off, tp + tc, false, rc, v.labels[c].pinned);
    if n < |td| {
      SubClaim(w, rd, false, Span(at + n, |td| - n));
      ClaimBesides(w, c, off, tp + tc, false, Span(at + n, |td| - n), false);
    }
  }

  lemma CollapsedViewIs(v: View, p: int, d: int, c: int, w: View)
    requires Collapsible(v, p, d, c)
    requires w == v.(buf := Write(v.buf, v.labels[d].off, v.texts[c]), labels := w.labels, texts := w.texts)
    requires var joined := LabelFor(v.labels[p].off, v.texts[p] + v.texts[c], false);
             w.labels == v.labels[c := joined][p := NO_LABEL][d := NO_LABEL]
    requires w.texts == v.texts[p := []][d := []][c := v.texts[p] + v.texts[c]]
    ensures w == CollapsedView(v, p, d, c)
  {
    assert w.labels == CollapsedView(v, p, d, c).labels;
    assert w.texts == CollapsedView(v, p, d, c).texts;
  }

  lemma CollapseTotal(texts: seq<Bytes>, p: int, d: int, c: int)
    requires 0 <= p < |texts| && 0 <= d < |texts| && 0 <= c < |texts| && p != d && d != c && p != c
    requires |texts[p]| + |texts[c]| < LARGE && |texts[d]| < LARGE
    ensures Total(texts[p := []][d := []][c := texts[p] + texts[c]]) == Total(texts) - |texts[d]|
  {
    TotalUpdate(texts, p, []);
    TotalUpdate(texts[p := []], d, []);
    TotalUpdate(texts[p := []][d := []], c, texts[p] + texts[c]);
  }

  // ---------------------------------------------------------------------------------------------
  // Handing out strings
  // ---------------------------------------------------------------------------------------------

  /** The payload bytes of label `id` join the handed-out bytes. */
  ghost function HandedWith(v: View, id: int): map<int, Byte>
    requires 0 <= id < |v.labels| == |v.texts|
  {
    var l, t := v.labels[id], v.texts[id];
    (map b {:trigger v.buf[b]} | l.off <= b < l.off + |t| && 0 <= b < |v.buf| :: v.buf[b]) + v.handed
  }

  /** The view after label `id` has been handed out. */
  ghost function HandedView(v: View, id: int, pinned: bool, exposed: bool): View
    requires 0 <= id < |v.labels| == |v.texts|
  {
    v.(labels := v.labels[id := v.labels[id].(pinned := pinned)], exposed := exposed, handed := HandedWith(v, id))
  }

  lemma HandOut(v: View, id: int, pinned: bool, exposed: bool)
    requires Sound(v) && 0 <= id < |v.labels| == |v.texts| && v.texts[id] != []
    requires pinned || exposed
    requires (v.labels[id].pinned ==> pinned) && (v.exposed ==> exposed)
    ensures Sound(v.(labels := v.labels[id := v.labels[id].(pinned := pinned)], exposed := exposed,
                     handed := HandedWith(v, id)))
  {
    hide Spells, Clear, HandedOk, HandedWith;
    var v' := HandedView(v, id, pinned, exposed);
    forall k | 0 <= k < |v'.labels| ensures LabelOk(v', k) {
      HandedLabel(v, id, pinned, exposed, k);
    }
    forall i, j ensures LabelsApart(v', i, j) {
      assert LabelsApart(v, i, j);
    }
    forall b | b in v'.handed ensures HandedOk(v', b) {
      HandedByte(v, id, pinned, exposed, b);
    }
  }

  lemma HandedLabel(v: View, id: int, pinned: bool, exposed: bool, k: int)
    requires Sound(v) && 0 <= id < |v.labels| == |v.texts| && 0 <= k < |v.labels|
    ensures LabelOk(HandedView(v, id, pinned, exposed), k)
  {
    assert LabelOk(v, k);
  }

  lemma HandedByte(v: View, id: int, pinned: bool, exposed: bool, b: int)
    requires Sound(v) && 0 <= id < |v.labels| == |v.texts| && v.texts[id] != [] && b in HandedWith(v, id)
    requires pinned || exposed
    requires (v.labels[id].pinned ==> pinned) && (v.exposed ==> exposed)
    ensures HandedOk(HandedView(v, id, pinned, exposed), b)
  {
    if b in v.handed {
      assert HandedOk(v, b);
    } else {
      HandNew(v, id, b);
    }
  }

  lemma HandNew(v: View, id: int, b: int)
    requires Sound(v) && 0 <= id < |v.labels| == |v.texts| && v.labels[id].off <= b < v.labels[id].off + |v.texts[id]|
    ensures Clear(v, Span(b, 1)) && b < |v.buf|
    ensures forall k :: 0 <= k < |v.labels| && v.texts[k] != [] && k != id ==>
              Apart(Raw(v.labels[k], v.texts[k]), Span(b, 1))
  {
    assert LabelOk(v, id);
    var r := Raw(v.labels[id], v.texts[id]);
    forall i | 0 <= i < |v.spans| ensures Apart(v.spans[i], Span(b, 1)) {
      assert Apart(v.spans[i], r);
    }
    forall k | 0 <= k < |v.labels| && v.texts[k] != [] && k != id
      ensures Apart(Raw(v.labels[k], v.texts[k]), Span(b, 1))
    {
      assert LabelsApart(v, k, id);
    }
  }

  lemma PutFlushed(v: View, v': View)
    requires Sound(v) && 0 < v.put.len && v' == v.(put := NONE, spans := v'.spans)
    requires TableOk(v'.spans, v.size) && OffTail(v'.spans, v.size) && Within(v.spans, v.put, v'.spans)
    ensures Sound(v')
  {
    forall t: Span | 0 < t.len && Clear(v, t)
      ensures Clear(v', t)
    {
      assert FreeOf(v'.spans, t);
    }
    assert Kept(v, NONE, v');
    forall id | 0 <= id < |v.labels| && v.texts[id] != []
      ensures Apart(Raw(v.labels[id], v.texts[id]), NONE)
    {
      assert LabelOk(v, id);
    }
    forall b | b in v.handed
      ensures Apart(NONE, Span(b, 1))
    {
      assert HandedOk(v, b);
    }
    FreeSpaceChanged(v, NONE, v');
  }

  // ---------------------------------------------------------------------------------------------
  // Renumbering the nodes
  // ---------------------------------------------------------------------------------------------

  function Picked<T>(s: seq<T>, live: seq<int>): (r: seq<T>)
    requires forall k :: 0 <= k < |live| ==> 0 <= live[k] < |s|
    ensures |r| == |live| && forall k :: 0 <= k < |live| ==> r[k] == s[live[k]]
  {
    seq(|live|, k requires 0 <= k < |live| => s[live[k]])
  }

  /** Every id occurs at most once, and every id with a label occurs. */
  ghost predicate Renumbers(texts: seq<Bytes>, live: seq<int>) {
    && (forall k :: 0 <= k < |live| ==> 0 <= live[k] < |texts|)
    && (forall j, k :: 0 <= j < k < |live| ==> live[j] != live[k])
    && (forall id :: 0 <= id < |texts| && texts[id] != [] ==> id in live)
  }

  lemma InRange(texts: seq<Bytes>, live: seq<int>)
    requires Renumbers(texts, live)
    ensures forall k :: 0 <= k < |live| ==> 0 <= live[k] < |texts|
  {
  }

  lemma RenumberedSound(v: View, live: seq<int>)
    requires Sound(v) && Renumbers(v.texts, live)
    ensures |v.labels| == |v.texts| && Sound(v.(labels := Picked(v.labels, live), texts := Picked(v.texts, live)))
  {
    var v' := v.(labels := Picked(v.labels, live), texts := Picked(v.texts, live));
    forall k | 0 <= k < |v'.labels|
      ensures LabelOk(v', k)
    {
      assert LabelOk(v, live[k]);
    }
    forall i, j
      ensures LabelsApart(v', i, j)
    {
      if 0 <= i < |live| && 0 <= j < |live| && i != j {
        assert LabelsApart(v, live[i], live[j]);
      }
    }
    forall b | b in v'.handed
      ensures HandedOk(v', b)
    {
      assert HandedOk(v, b);
    }
  }

  /** The texts with those in `live` taken out. */
  function Remaining(texts: seq<Bytes>, live: seq<int>): (r: seq<Bytes>)
    ensures |r| == |texts| && forall i :: 0 <= i < |texts| ==> r[i] == if i in live then [] else texts[i]
  {
    seq(|texts|, i requires 0 <= i < |texts| => if i in live then [] else texts[i])
  }

  lemma {:induction false} PickedTotal(texts: seq<Bytes>, live: seq<int>)
    requires forall k :: 0 <= k < |live| ==> 0 <= live[k] < |texts|
    requires forall j, k :: 0 <= j < k < |live| ==> live[j] != live[k]
    ensures Total(Picked(texts, live)) + Total(Remaining(texts, live)) == Total(texts)
    decreases |live|
  {
    if live == [] {
      assert Remaining(texts, live) == texts;
    } else {
      var id, rest := live[0], live[1..];
      assert id !in rest;
      PickedTotal(texts, rest);
      TotalUpdate(Remaining(texts, rest), id, []);
      assert Remaining(texts, live) == Remaining(texts, rest)[id := []];
      assert Picked(texts, live)[1..] == Picked(texts, rest);
    }
  }

  lemma {:induction false} TotalNone(texts: seq<Bytes>)
    requires forall i :: 0 <= i < |texts| ==> texts[i] == []
    ensures Total(texts) == 0
  {
    if texts != [] {
      TotalNone(texts[1..]);
    }
  }

  lemma RenumberedTotal(texts: seq<Bytes>, live: seq<int>)
    requires Renumbers(texts, live)
    ensures Total(Picked(texts, live)) == Total(texts)
  {
    hide Total;
    PickedTotal(texts, live);
    TotalNone(Remaining(texts, live));
  }

  lemma NothingHanded(v: View)
    requires Sound(v)
    ensures v.size == 0 ==> v.handed == map[]
  {
    forall b | b in v.handed
      ensures 0 <= b < v.size
    {
      assert HandedOk(v, b);
    }
  }

  lemma FreshView(v: View)
    requires v.labels == [NO_LABEL] && v.texts == [[]] && v.spans == [] && v.put == NONE && v.size == 0
    requires v.handed == map[] && |v.buf| <= MAX_ARENA
    ensures Sound(v) && Total(v.texts) == 0
  {
    assert LabelOk(v, 0);
    assert v.texts[1..] == [];
  }
}
