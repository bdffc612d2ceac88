/**
 Keys of trie nodes, spelled from the edges on the way up to the root (arena_radix.go): comparing a key with
 a node and copying a node's key, by way of the 17-bit length stored in the node.
 */
module TrieKeys {
  import opened Bytes
  import opened RadixTrie
  import opened TrieSweep

  /** The 17-bit key length field; longer keys store this value. */
  const KEY_LEN_MASK: int := 131071

  function Saturated(n: int): int {
    if n < KEY_LEN_MASK then n else KEY_LEN_MASK
  }

  ghost predicate KeyLensOk(ns: Nodes, pt: Paths) {
    forall id :: id in pt ==> 0 <= id < |ns| && ns[id].keyLen == Saturated(|pt[id]|)
  }

  /** The edge `p` comes directly before what is already matched. */
  lemma EdgeBefore(full: Bytes, up: Bytes, p: Bytes, end: nat)
    requires up + p <= full && end <= |full| && full[end..] == full[|up + p|..]
    ensures |p| <= end && full[end - |p|..end] == p
  {
    assert end == |up + p|;
  }

  lemma EdgeMatched(full: Bytes, up: Bytes, p: Bytes, key: Bytes, end: nat)
    requires up + p <= full && |p| <= end <= |key| && key[end - |p|..end] == p && key[end..] == full[|up + p|..]
    ensures key[end - |p|..] == full[|up|..]
  {
    assert key[end - |p|..] == p + key[end..];
    assert full[|up|..] == p + full[|up + p|..];
  }

  /** fillNodeKeyBuf: the edges from `id` up to the root, written backwards into a buffer of length `total`. */
  method FillKeyBuf(ns: Nodes, ghost pt: Paths, id: int, total: nat, buf: array<Byte>) returns (ok: bool)
    requires Spelled(ns, pt) && id in pt && total <= buf.Length
    modifies buf
    ensures ok <==> total == |pt[id]|
    ensures ok ==> buf[..total] == pt[id]
    ensures buf[total..] == old(buf[total..])
  {
    var pos, curr := total, id;
    while curr != ROOT
      invariant curr in pt && 0 <= curr < |ns| && pt[curr] <= pt[id]
      invariant 0 <= pos <= total && total - pos == |pt[id]| - |pt[curr]|
      invariant buf[pos..total] == pt[id][|pt[curr]|..]
      invariant buf[total..] == old(buf[total..])
      decreases |pt[curr]|
    {
      assert UpOk(ns, pt, curr);
      var p := ns[curr].prefix;
      if |p| > pos {
        return false;
      }
      ghost var tail := buf[pos..total];
      pos := pos - |p|;
      forall i | 0 <= i < |p| {
        buf[pos + i] := p[i];
      }
      ghost var up := ns[curr].parent;
      assert buf[pos..total] == p + tail;
      assert pt[id][|pt[up]|..] == p + pt[id][|pt[curr]|..];
      curr := ns[curr].parent;
    }
    ok := pos == 0;
  }

  /** verifyKey: the stored key length and the edges up to the root match exactly the node's own key. */
  method VerifyKey(ns: Nodes, ghost pt: Paths, id: int, key: Bytes) returns (ok: bool)
    requires Spelled(ns, pt) && KeyLensOk(ns, pt) && id in pt
    ensures ok <==> pt[id] == key
  {
    assert UpOk(ns, pt, id);
    if ns[id].keyLen != Saturated(|key|) {
      return false;
    }
    if ns[id].parent == ROOT {
      return key == ns[id].prefix;
    }
    var end, curr := |key|, id;
    while curr != ROOT
      invariant curr in pt && 0 <= curr < |ns| && pt[curr] <= pt[id]
      invariant 0 <= end <= |key| && key[end..] == pt[id][|pt[curr]|..]
      decreases |pt[curr]|
    {
      assert UpOk(ns, pt, curr);
      var p := ns[curr].prefix;
      ghost var up := ns[curr].parent;
      if key == pt[id] {
        EdgeBefore(key, pt[up], p, end);
      }
      if end < |p| || key[end - |p|..end] != p {
        return false;
      }
      EdgeMatched(pt[id], pt[up], p, key, end);
      end := end - |p|;
      curr := ns[curr].parent;
    }
    ok := end == 0;
  }

  /** reconstructKey: the short route through the stored length, or the exact length summed over the ancestors. */
  method ReconstructKey(ns: Nodes, ghost pt: Paths, id: int) returns (key: Bytes)
    requires Spelled(ns, pt) && KeyLensOk(ns, pt) && id in pt
    ensures key == pt[id]
  {
    if id == ROOT {
      return [];
    }
    assert UpOk(ns, pt, id);
    if ns[id].parent == ROOT {
      return ns[id].prefix;
    }
    var total := ns[id].keyLen;
    if 0 < total < KEY_LEN_MASK {
      var buf := new Byte[total];
      var ok := FillKeyBuf(ns, pt, id, total, buf);
      if ok {
        return buf[..];
      }
    }
    var exact, curr := 0, id;
    while curr != ROOT
      invariant curr in pt && 0 <= curr < |ns| && exact + |pt[curr]| == |pt[id]|
      decreases |pt[curr]|
    {
      assert UpOk(ns, pt, curr);
      exact := exact + |ns[curr].prefix|;
      curr := ns[curr].parent;
    }
    var buf := new Byte[exact];
    var ok := FillKeyBuf(ns, pt, id, exact, buf);
    return buf[..];
  }
}
