/**
 The geometry of the label arena: every live label owns a byte range (with a 4-byte length header for
 long labels) that no other label, no free span and no handed-out string of another label shares.
 */
module LabelSpace {
  import opened Bytes
  import opened Spans

  /** Labels from this length on store this value and keep their length in a header. */
  const LARGE: nat := 65535

  /** Largest size of the arena. */
  const MAX_ARENA: nat := 4294967295

  datatype Label = Label(off: int, plen: int, first: Byte, pinned: bool)

  const NO_LABEL: Label := Label(0, 0, 0, false)

  /** Little-endian 32-bit header. */
  function Le32(n: nat): (r: Bytes)
    ensures |r| == 4
  {
    [n % 256, n / 256 % 256, n / 65536 % 256, n / 16777216 % 256]
  }

  function FromLe32(b: Bytes): int
    requires |b| == 4
  {
    (b[0] as int) + 256 * (b[1] as int) + 65536 * (b[2] as int) + 16777216 * (b[3] as int)
  }

  lemma HeaderRoundTrip(n: nat)
    requires n <= MAX_ARENA
    ensures FromLe32(Le32(n)) == n
  {
    assert n / 65536 == n / 256 / 256 && n / 16777216 == n / 65536 / 256;
  }

  /** Bytes a label of length `n` occupies. */
  function RawLen(n: nat): nat {
    if n >= LARGE then n + 4 else n
  }

  /** Bytes in front of the payload. */
  function Header(n: nat): (r: Bytes)
    ensures |r| + n == RawLen(n)
  {
    if n >= LARGE then Le32(n) else []
  }

  function Total(texts: seq<Bytes>): nat {
    if texts == [] then 0 else RawLen(|texts[0]|) + Total(texts[1..])
  }

  lemma {:induction false} TotalUpdate(texts: seq<Bytes>, i: nat, s: Bytes)
    requires i < |texts|
    ensures Total(texts[i := s]) == Total(texts) - RawLen(|texts[i]|) + RawLen(|s|)
    ensures RawLen(|texts[i]|) <= Total(texts)
  {
    if i == 0 {
      assert texts[i := s][1..] == texts[1..];
    } else {
      TotalUpdate(texts[1..], i - 1, s);
      assert texts[i := s][1..] == texts[1..][i - 1 := s];
    }
  }

  /** What an observer of the arena sees, with the label each entry stands for and the bytes handed out. */
  datatype View = View(buf: Bytes, size: int, labels: seq<Label>, texts: seq<Bytes>, spans: seq<Span>, put: Span,
                       handed: map<int, Byte>, exposed: bool)

  function Raw(l: Label, t: Bytes): Span {
    Span(l.off - |Header(|t|)|, RawLen(|t|))
  }

  /** The bytes of `t` are inside the arena and meet neither a free span nor the hand-off span. */
  predicate Clear(v: View, t: Span) {
    0 <= t.off && t.off + t.len <= v.size && FreeOf(v.spans, t) && (0 < v.put.len ==> Apart(v.put, t))
  }

  /** Label `l` spells `t`. */
  predicate Spells(buf: Bytes, l: Label, t: Bytes) {
    if t == [] then l.plen == 0
    else
      && |Header(|t|)| <= l.off && l.off + |t| <= |buf|
      && buf[l.off..l.off + |t|] == t && l.first == t[0]
      && buf[l.off - |Header(|t|)|..l.off] == Header(|t|)
      && l.plen == if |t| >= LARGE then LARGE else |t|
  }

  ghost predicate LabelOk(v: View, id: int) {
    && 0 <= id < |v.labels| && |v.labels| == |v.texts|
    && Spells(v.buf, v.labels[id], v.texts[id])
    && (v.texts[id] != [] ==> Clear(v, Raw(v.labels[id], v.texts[id])))
  }

  ghost predicate LabelsApart(v: View, i: int, j: int)
    requires |v.labels| == |v.texts|
  {
    0 <= i < |v.labels| && 0 <= j < |v.labels| && i != j && v.texts[i] != [] && v.texts[j] != [] ==>
      Apart(Raw(v.labels[i], v.texts[i]), Raw(v.labels[j], v.texts[j]))
  }

  /** A handed-out byte is as it was, outside free space, and any label it belongs to may not be reused in place. */
  ghost predicate HandedOk(v: View, b: int)
    requires |v.labels| == |v.texts|
  {
    && b in v.handed && Clear(v, Span(b, 1)) && b < |v.buf| && v.buf[b] == v.handed[b]
    && forall id :: 0 <= id < |v.labels| && v.texts[id] != [] && !Apart(Raw(v.labels[id], v.texts[id]), Span(b, 1)) ==>
         v.exposed || v.labels[id].pinned
  }

  predicate TableFits(v: View) {
    && TableOk(v.spans, v.size) && OffTail(v.spans, v.size)
    && 0 <= v.size <= |v.buf| <= MAX_ARENA
    && 0 <= v.put.len
    && (0 < v.put.len ==> 0 <= v.put.off && v.put.off + v.put.len < v.size && FreeOf(v.spans, v.put))
  }

  ghost predicate Sound(v: View) {
    && |v.labels| == |v.texts| && TableFits(v)
    && (forall id {:trigger LabelOk(v, id)} :: 0 <= id < |v.labels| ==> LabelOk(v, id))
    && (forall i, j {:trigger LabelsApart(v, i, j)} :: LabelsApart(v, i, j))
    && (forall b {:trigger HandedOk(v, b)} :: b in v.handed ==> HandedOk(v, b))
  }

  /** Bytes that are in use by nobody: no label, no free span, no handed-out byte. */
  ghost predicate Vacant(v: View, r: Span)
    requires |v.labels| == |v.texts|
  {
    0 < r.len && Clear(v, r) && Unlabelled(v, r) && NoneHanded(v, r)
  }

  ghost predicate Unlabelled(v: View, r: Span)
    requires |v.labels| == |v.texts|
  {
    forall id {:trigger v.texts[id]} :: 0 <= id < |v.labels| && v.texts[id] != [] ==>
      Apart(Raw(v.labels[id], v.texts[id]), r)
  }

  // ---------------------------------------------------------------------------------------------
  // Changes of the free space
  // ---------------------------------------------------------------------------------------------

  /** Bytes that were clear and are apart from `r` stay clear. */
  ghost predicate Kept(v: View, r: Span, v': View) {
    forall t: Span {:trigger Clear(v', t)} :: 0 < t.len && Clear(v, t) && Apart(r, t) ==> Clear(v', t)
  }

  /** Only the free space changed, and it grew by at most the vacant bytes `r`. */
  lemma FreeSpaceChanged(v: View, r: Span, v': View)
    requires Sound(v) && TableFits(v') && v' == v.(spans := v'.spans, put := v'.put, size := v'.size)
    requires Kept(v, r, v') && Unlabelled(v, r) && NoneHanded(v, r)
    ensures Sound(v')
  {
    forall id | 0 <= id < |v'.labels|
      ensures LabelOk(v', id)
    {
      assert LabelOk(v, id);
      assert v.texts[id] != [] ==> Apart(Raw(v.labels[id], v.texts[id]), r);
    }
    forall i, j
      ensures LabelsApart(v', i, j)
    {
      assert LabelsApart(v, i, j);
    }
    forall b | b in v'.handed
      ensures HandedOk(v', b)
    {
      assert HandedOk(v, b);
    }
  }

  // ---------------------------------------------------------------------------------------------
  // Writing bytes
  // ---------------------------------------------------------------------------------------------

  function Write(buf: Bytes, at: int, s: Bytes): (r: Bytes)
    requires 0 <= at && at + |s| <= |buf|
    ensures |r| == |buf| && r[at..at + |s|] == s
    ensures forall b :: 0 <= b < |buf| && !(at <= b < at + |s|) ==> r[b] == buf[b]
  {
    buf[..at] + s + buf[at + |s|..]
  }

  lemma WriteApart(buf: Bytes, at: int, s: Bytes, t: Span)
    requires 0 <= at && at + |s| <= |buf| && 0 <= t.off && 0 <= t.len && t.off + t.len <= |buf|
    requires Apart(Span(at, |s|), t)
    ensures Write(buf, at, s)[t.off..t.off + t.len] == buf[t.off..t.off + t.len]
  {
  }

  /** A label is untouched by a write outside its bytes. */
  lemma SpellsApart(buf: Bytes, at: int, s: Bytes, l: Label, t: Bytes)
    requires 0 <= at && at + |s| <= |buf| && Spells(buf, l, t) && (t != [] ==> Apart(Raw(l, t), Span(at, |s|)))
    ensures Spells(Write(buf, at, s), l, t)
  {
    if t != [] {
      WriteApart(buf, at, s, Span(l.off, |t|));
      WriteApart(buf, at, s, Span(l.off - |Header(|t|)|, |Header(|t|)|));
    }
  }

  /** Writing into vacant bytes disturbs nobody. */
  lemma WriteVacant(v: View, r: Span, at: int, s: Bytes)
    requires Sound(v) && Vacant(v, r) && r.off <= at && at + |s| <= r.off + r.len
    ensures Sound(v.(buf := Write(v.buf, at, s))) && Vacant(v.(buf := Write(v.buf, at, s)), r)
  {
    var v' := v.(buf := Write(v.buf, at, s));
    forall id | 0 <= id < |v'.labels|
      ensures LabelOk(v', id)
    {
      assert LabelOk(v, id);
      SpellsApart(v.buf, at, s, v.labels[id], v.texts[id]);
    }
    forall i, j
      ensures LabelsApart(v', i, j)
    {
      assert LabelsApart(v, i, j);
    }
    forall b | b in v'.handed
      ensures HandedOk(v', b)
    {
      assert HandedOk(v, b);
    }
  }

  // ---------------------------------------------------------------------------------------------
  // Setting and dropping a label
  // ---------------------------------------------------------------------------------------------

  /** The label for `s` at payload offset `off`. */
  function LabelFor(off: int, s: Bytes, pinned: bool): Label {
    if s == [] then NO_LABEL else Label(off, if |s| >= LARGE then LARGE else |s|, s[0], pinned)
  }

  /** Bytes that may become a label: clear, unlabelled, and free of handed-out bytes unless the label protects them. */
  ghost predicate Claimable(v: View, r: Span, pinned: bool)
    requires |v.labels| == |v.texts|
  {
    0 < r.len && Clear(v, r) && Unlabelled(v, r) && (v.exposed || pinned || NoneHanded(v, r))
  }

  ghost predicate NoneHanded(v: View, r: Span) {
    forall b :: b in v.handed ==> Apart(r, Span(b, 1))
  }

  function RawAt(off: int, n: nat): Span {
    Span(off - |Header(n)|, RawLen(n))
  }

  function WithLabel(v: View, id: int, off: int, s: Bytes, pinned: bool): View
    requires 0 <= id < |v.labels| && |v.labels| == |v.texts|
  {
    v.(labels := v.labels[id := LabelFor(off, s, pinned)], texts := v.texts[id := s])
  }

  function WithoutLabel(v: View, id: int): View
    requires 0 <= id < |v.labels| && |v.labels| == |v.texts|
  {
    v.(labels := v.labels[id := NO_LABEL], texts := v.texts[id := []])
  }

  /** What is known of the bytes of a live label. */
  lemma LabelFacts(v: View, id: int)
    requires Sound(v) && 0 <= id < |v.labels| && v.texts[id] != []
    ensures |v.labels| == |v.texts| && v.size <= |v.buf| <= MAX_ARENA
    ensures Spells(v.buf, v.labels[id], v.texts[id]) && v.labels[id].off + |v.texts[id]| <= v.size
    ensures |Header(|v.texts[id]|)| <= v.labels[id].off
    ensures Clear(v, Raw(v.labels[id], v.texts[id]))
  {
    assert LabelOk(v, id);
  }

  lemma Placed(v: View, id: int, off: int, s: Bytes, pinned: bool)
    requires Sound(v) && 0 <= id < |v.labels| && v.texts[id] == [] && s != []
    requires Claimable(v, RawAt(off, |s|), pinned) && off + |s| <= |v.buf|
    requires v.buf[off..off + |s|] == s && v.buf[off - |Header(|s|)|..off] == Header(|s|)
    ensures Sound(WithLabel(v, id, off, s, pinned))
  {
    var v' := WithLabel(v, id, off, s, pinned);
    forall k | 0 <= k < |v'.labels|
      ensures LabelOk(v', k)
    {
      assert LabelOk(v, k);
    }
    forall i, j
      ensures LabelsApart(v', i, j)
    {
      assert LabelsApart(v, i, j);
    }
    forall b | b in v'.handed
      ensures HandedOk(v', b)
    {
      assert HandedOk(v, b);
    }
  }

  /** Other claims survive a placement that is apart from them. */
  lemma ClaimBesides(v: View, id: int, off: int, s: Bytes, pinned: bool, r: Span, p: bool)
    requires |v.labels| == |v.texts| && 0 <= id < |v.labels| && s != []
    requires Claimable(v, r, p) && Apart(RawAt(off, |s|), r)
    ensures Claimable(WithLabel(v, id, off, s, pinned), r, p)
  {
  }

  /** A dropped label leaves its bytes claimable, and other claims as they were. */
  lemma Dropped(v: View, id: int)
    requires Sound(v) && 0 <= id < |v.labels| && v.texts[id] != []
    ensures Sound(WithoutLabel(v, id))
    ensures Claimable(WithoutLabel(v, id), Raw(v.labels[id], v.texts[id]), v.labels[id].pinned)
  {
    var v', r := WithoutLabel(v, id), Raw(v.labels[id], v.texts[id]);
    assert LabelOk(v, id);
    forall k | 0 <= k < |v'.labels|
      ensures LabelOk(v', k)
      ensures v'.texts[k] != [] ==> Apart(Raw(v'.labels[k], v'.texts[k]), r)
    {
      assert LabelOk(v, k);
      assert LabelsApart(v, k, id);
    }
    forall i, j
      ensures LabelsApart(v', i, j)
    {
      assert LabelsApart(v, i, j);
    }
    forall b | b in v.handed
      ensures HandedOk(v', b)
      ensures !(v.exposed || v.labels[id].pinned) ==> Apart(r, Span(b, 1))
    {
      assert HandedOk(v, b);
    }
  }

  lemma ClaimStays(v: View, id: int, r: Span, p: bool)
    requires |v.labels| == |v.texts| && 0 <= id < |v.labels| && Claimable(v, r, p)
    ensures Claimable(WithoutLabel(v, id), r, p)
  {
  }

  /** A part of a claim is a claim. */
  lemma SubClaim(v: View, r: Span, p: bool, part: Span)
    requires Sound(v) && Claimable(v, r, p)
    requires r.off <= part.off && 0 < part.len && part.off + part.len <= r.off + r.len
    ensures Claimable(v, part, p)
  {
    forall i | 0 <= i < |v.spans|
      ensures Apart(v.spans[i], part)
    {
      assert Apart(v.spans[i], r);
    }
  }

  /** Adjacent claims join. */
  lemma JoinClaims(v: View, r: Span, p: bool, r2: Span, p2: bool, q: bool)
    requires Sound(v) && Claimable(v, r, p) && Claimable(v, r2, p2) && r.off + r.len == r2.off
    requires (p ==> q) && (p2 ==> q)
    ensures Claimable(v, Span(r.off, r.len + r2.len), q)
  {
    var all := Span(r.off, r.len + r2.len);
    forall i | 0 <= i < |v.spans|
      ensures Apart(v.spans[i], all)
    {
      assert Apart(v.spans[i], r) && Apart(v.spans[i], r2);
    }
    forall id | 0 <= id < |v.labels| && v.texts[id] != []
      ensures Apart(Raw(v.labels[id], v.texts[id]), all)
    {
      assert Apart(Raw(v.labels[id], v.texts[id]), r) && Apart(Raw(v.labels[id], v.texts[id]), r2);
    }
    forall b | b in v.handed && !(v.exposed || q)
      ensures Apart(all, Span(b, 1))
    {
      assert Apart(r, Span(b, 1)) && Apart(r2, Span(b, 1));
    }
  }
}
