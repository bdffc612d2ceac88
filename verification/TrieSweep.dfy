/**
 The state of freeSubtree (arena_radix_lru.go) while it sweeps a detached subtree: what it has
 reported, what it has freed, and what its 512-byte key buffer holds.
 */
module TrieSweep {
  import opened Bytes
  import opened RadixTrie
  import opened TrieContents
  import opened TrieOrder

  const KEY_BUF: nat := 512

  /** A reported eviction: the node, its key and its value. */
  datatype Event = Event(id: int, key: Bytes, value: Value)

  // ---------------------------------------------------------------------------------------------
  // Upward links
  // ---------------------------------------------------------------------------------------------

  /** The way up from `id` spells its path. */
  predicate UpOk(ns: Nodes, pt: Paths, id: int) {
    && id in pt && 0 <= id < |ns|
    && if id == ROOT then pt[id] == []
       else ns[id].parent in pt && ns[id].prefix != [] && pt[id] == pt[ns[id].parent] + ns[id].prefix
  }

  ghost predicate Spelled(ns: Nodes, pt: Paths) {
    && ROOT in pt && pt[ROOT] == [] && 0 < |ns| && ns[ROOT].parent == NIL
    && (forall id :: id in pt ==> 0 <= id < |ns|)
    && (forall id {:trigger UpOk(ns, pt, id)} :: id in pt ==> UpOk(ns, pt, id))
  }

  lemma LinkedSpelled(ns: Nodes, pt: Paths)
    requires WellLinked(ns, pt)
    ensures Spelled(ns, pt)
  {
    forall id | id in pt ensures UpOk(ns, pt, id) && 0 <= id < |ns| {
      assert NodeOk(ns, pt, id);
    }
  }

  // ---------------------------------------------------------------------------------------------
  // Nodes
  // ---------------------------------------------------------------------------------------------

  /** `cut` is `ns` with the subtree below `x` taken out of its sibling chain and otherwise untouched. */
  ghost predicate CutOut(ns: Nodes, pt: Paths, x: int, cut: Nodes) {
    && WellLinked(ns, pt) && x in pt && x != ROOT && |cut| == |ns| && 0 <= x < |ns|
    && (forall y :: y in pt && y != x && pt[x] <= pt[y] && 0 <= y < |ns| ==> cut[y] == ns[y])
    && cut[x] == ns[x].(sibling := NIL)
    && Spelled(cut, pt)
  }

  /** The nodes in `dead` are freed; of the others, those in `seen` have lost their value and nothing else. */
  ghost predicate Swept(pt: Paths, cut: Nodes, ns: Nodes, path: Paths, seen: set<int>, dead: set<int>) {
    && |ns| == |cut| && path == pt - dead
    && forall y :: y in path && 0 <= y < |ns| ==> ns[y] == (if y in seen then cut[y].(value := None) else cut[y])
  }

  /** No unfreed node has its parent among the freed ones. */
  lemma StillSpelled(ns0: Nodes, pt: Paths, x: int, cut: Nodes, ns: Nodes, path: Paths, seen: set<int>, curr: int)
    requires CutOut(ns0, pt, x, cut) && curr in pt && Swept(pt, cut, ns, path, seen, Left(pt, x, curr))
    ensures Spelled(ns, path)
  {
    forall id | id in path ensures UpOk(ns, path, id) {
      assert UpOk(cut, pt, id);
      if id != ROOT {
        var p := cut[id].parent;
        assert UpOk(cut, pt, p);
        if Div(pt[p], pt[curr]) {
          DivPrefix(pt[p], pt[id], pt[curr]);
        }
      }
    }
    assert UpOk(cut, pt, ROOT);
    DivSelf([], pt[curr]);
  }

  lemma DivPrefix(p: Bytes, a: Bytes, b: Bytes)
    requires p <= a && Div(p, b)
    ensures Div(a, b)
  {
    var n := Lcp(p, b);
    assert a[..n] == p[..n];
    LcpAt(a, b, n);
  }

  // ---------------------------------------------------------------------------------------------
  // Reports
  // ---------------------------------------------------------------------------------------------

  ghost predicate IsEntry(ns: Nodes, pt: Paths, y: int, e: Event) {
    y == e.id && y in pt && 0 <= y < |ns| && pt[y] == e.key && ns[y].value == Some(e.value)
  }

  /** The reports are the entries of the nodes in `seen`, once each, in lexicographic order. */
  ghost predicate Reported(ns: Nodes, pt: Paths, seen: set<int>, events: seq<Event>) {
    && (forall i :: 0 <= i < |events| ==> events[i].id in seen && IsEntry(ns, pt, events[i].id, events[i]))
    && (forall y, e :: y in seen && IsEntry(ns, pt, y, e) ==> e in events)
    && (forall i, j :: 0 <= i < j < |events| ==> Lex(events[i].key, events[j].key))
  }

  lemma ReportNext(ns: Nodes, pt: Paths, x: int, curr: int, events: seq<Event>, v: Value)
    requires x in pt && curr in pt && 0 <= curr < |ns| && pt[x] <= pt[curr]
    requires Reported(ns, pt, Visited(pt, x, curr), events) && ns[curr].value == Some(v)
    ensures Reported(ns, pt, Visited(pt, x, curr) + {curr}, events + [Event(curr, pt[curr], v)])
  {
    var seen, more := Visited(pt, x, curr), events + [Event(curr, pt[curr], v)];
    forall i | 0 <= i < |more|
      ensures more[i].id in seen + {curr} && IsEntry(ns, pt, more[i].id, more[i])
      ensures i < |events| ==> Lex(more[i].key, pt[curr])
    {
      if i < |events| {
        assert more[i] == events[i];
      }
    }
    forall y, e | y in seen + {curr} && IsEntry(ns, pt, y, e)
      ensures e in more
    {
      if y != curr {
        assert e in events;
      } else {
        assert more[|events|] == e;
      }
    }
  }

  lemma ReportNothing(ns: Nodes, pt: Paths, seen: set<int>, curr: int, events: seq<Event>)
    requires Reported(ns, pt, seen, events) && curr in pt && 0 <= curr < |ns| && ns[curr].value == None
    ensures Reported(ns, pt, seen + {curr}, events)
  {
  }

  // ---------------------------------------------------------------------------------------------
  // Freed ids
  // ---------------------------------------------------------------------------------------------

  /** The ids in `order` are those in `dead`, once each, descendants before ancestors. */
  ghost predicate FreedOk(pt: Paths, dead: set<int>, order: seq<int>) {
    && (forall y :: y in dead <==> y in order)
    && (forall i :: 0 <= i < |order| ==> order[i] in pt)
    && (forall i, j :: 0 <= i < j < |order| ==> !(pt[order[i]] <= pt[order[j]]))
  }

  lemma FreeNext(pt: Paths, x: int, curr: int, order: seq<int>)
    requires x in pt && curr in pt && FreedOk(pt, LeftThrough(pt, x, curr), order)
    requires forall a, b :: a in pt && b in pt && pt[a] == pt[b] ==> a == b
    ensures FreedOk(pt, LeftThrough(pt, x, curr) + {curr}, order + [curr])
  {
    var more := order + [curr];
    forall i | 0 <= i < |order|
      ensures !(pt[order[i]] <= pt[curr])
    {
      var y := order[i];
      assert y in LeftThrough(pt, x, curr);
      if pt[y] <= pt[curr] {
        DivSelf(pt[y], pt[curr]);
      }
    }
    forall y ensures y in LeftThrough(pt, x, curr) + {curr} <==> y in more {
      assert curr == more[|order|];
    }
  }

  // ---------------------------------------------------------------------------------------------
  // The key buffer
  // ---------------------------------------------------------------------------------------------

  /** Every node from `x` to `curr` whose path fits has it at the front of the buffer. */
  ghost predicate Buffered(pt: Paths, x: int, curr: int, buf: Bytes) {
    && x in pt && curr in pt && |buf| == KEY_BUF
    && forall a :: a in pt && pt[x] <= pt[a] && pt[a] <= pt[curr] && |pt[a]| <= KEY_BUF ==> buf[..|pt[a]|] == pt[a]
  }

  lemma BufferUp(pt: Paths, x: int, curr: int, p: int, buf: Bytes)
    requires Buffered(pt, x, curr, buf) && p in pt && pt[p] <= pt[curr]
    ensures Buffered(pt, x, p, buf)
  {
  }

  /** Copying the edge of the child `c` behind the path of `p`, if it fits. */
  lemma BufferDown(ns: Nodes, pt: Paths, x: int, p: int, c: int, buf: Bytes, buf': Bytes)
    requires WellLinked(ns, pt) && Buffered(pt, x, p, buf) && IsKid(ns, pt, c, p) && |buf'| == KEY_BUF && pt[x] <= pt[p]
    requires |pt[c]| <= KEY_BUF ==>
               |pt[p]| <= |pt[c]| && buf'[..|pt[p]|] == buf[..|pt[p]|] && buf'[|pt[p]|..|pt[c]|] == ns[c].prefix
    requires |pt[c]| > KEY_BUF ==> buf' == buf
    ensures Buffered(pt, x, c, buf')
  {
    assert NodeOk(ns, pt, c);
    forall a | a in pt && pt[x] <= pt[a] && pt[a] <= pt[c] && |pt[a]| <= KEY_BUF
      ensures buf'[..|pt[a]|] == pt[a]
    {
      if a == c {
        assert buf'[..|pt[c]|] == buf'[..|pt[p]|] + buf'[|pt[p]|..|pt[c]|];
      } else {
        PrefixAnc(ns, pt, a, c);
        AncPath(ns, pt, a, p);
        assert buf[..|pt[a]|] == pt[a];
        if |pt[c]| <= KEY_BUF {
          assert buf'[..|pt[a]|] == buf'[..|pt[p]|][..|pt[a]|] == buf[..|pt[p]|][..|pt[a]|];
        }
      }
    }
  }
}
