/**
 The trie of the arena engine with its edge labels kept in the label arena (arena_radix.go): whatever
 operations run, the bytes of the arena spell exactly the edges of the trie.
 */
module LabelledTrie {
  import opened Bytes
  import opened TrieLabels
  import AT = ArenaTrie
  import LA = LabelArena
  import LS = LabelSpace
  import RN = Renumbering
  import RT = RadixTrie
  import TC = TrieContents
  import TO = TrieOrder
  import TS = TrieSweep

  // ---------------------------------------------------------------------------------------------
  // How much room an edit needs
  // ---------------------------------------------------------------------------------------------

  /** Bytes an edit may need besides the live ones before it gives any back. */
  function Need(l: seq<Bytes>, e: Edit): nat {
    match e
    case SetLabel(_, text) => LS.RawLen(|text|)
    case SplitLabel(c, _, k) => if Filled(l, c) && k < |l[c]| then LS.RawLen(k) + LS.RawLen(|l[c]| - k) else 0
    case MergeLabel(m, c) => if Filled(l, m) && Filled(l, c) then LS.RawLen(|l[m]| + |l[c]|) else 0
    case _ => 0
  }

  lemma TwoTexts(l: seq<Bytes>, m: int, c: int)
    requires Filled(l, m) && Filled(l, c) && m != c
    ensures |l[m]| + |l[c]| <= LS.Total(l)
  {
    LS.TotalUpdate(l, m, []);
    LS.TotalUpdate(l[m := []], c, []);
  }

  /** An edit adds at most its cost, and needs at most the live bytes again. */
  lemma EditFits(l: seq<Bytes>, e: Edit)
    requires Edited(l, e).Some?
    ensures LS.Total(Edited(l, e).value) <= LS.Total(l) + EditCost(e)
    ensures Need(l, e) <= LS.Total(l) + EditCost(e)
  {
    hide LS.Total;
    match e
    case NewNode => LA.TotalAppend(l, []);
    case SetLabel(id, text) => LS.TotalUpdate(l, id, text);
    case SplitLabel(c, m, k) =>
      LS.TotalUpdate(l, m, l[c][..k]);
      LS.TotalUpdate(l[m := l[c][..k]], c, l[c][k..]);
      LS.TotalUpdate(l, c, []);
    case MergeLabel(m, c) =>
      TwoTexts(l, m, c);
      LS.TotalUpdate(l, m, []);
      LS.TotalUpdate(l[m := []], c, l[m] + l[c]);
    case ClearLabel(id) => LS.TotalUpdate(l, id, []);
    case FreeLabel(id) => LS.TotalUpdate(l, id, []);
  }

  /** The rest of a replay, with room for it. */
  ghost predicate Ahead(l: seq<Bytes>, edits: seq<Edit>, i: nat, goal: seq<Bytes>) {
    i <= |edits| && Replay(l, edits[i..]) == Some(goal) && 2 * (LS.Total(l) + Cost(edits[i..])) <= LS.MAX_ARENA
  }

  lemma AheadNext(l: seq<Bytes>, edits: seq<Edit>, i: nat, goal: seq<Bytes>)
    requires Ahead(l, edits, i, goal) && i < |edits|
    ensures Edited(l, edits[i]).Some? && Ahead(Edited(l, edits[i]).value, edits, i + 1, goal)
    ensures LS.Total(l) + Need(l, edits[i]) <= LS.MAX_ARENA
  {
    hide Edited, LS.Total, Need;
    assert edits[i..][0] == edits[i] && edits[i..][1..] == edits[i + 1..];
    EditFits(l, edits[i]);
  }

  /** Pruning a leaf and merging its parent have the labels of the in-place collapse. */
  lemma CollapseLabels(l: seq<Bytes>, d: int, m: int, c: int)
    requires Filled(l, d) && Edited(l[d := []], MergeLabel(m, c)).Some?
    ensures d != m && d != c && m != c && Filled(l, m) && Filled(l, c)
    ensures Edited(l[d := []], MergeLabel(m, c)) == Some(l[m := []][d := []][c := l[m] + l[c]])
  {
    assert l[d := []][m := []] == l[m := []][d := []];
  }

  class Labelled {
    const trie: AT.Trie
    const arena: LA.Arena

    /** The arena spells every edge of the trie. */
    ghost predicate Valid()
      reads this, trie, arena
    {
      trie.Valid() && arena.Valid() && arena.texts == Labels(trie.nodes)
    }

    constructor (entryCallback: bool)
      ensures Valid() && fresh(trie) && fresh(arena) && trie.Entries() == map[] && !arena.recycling
    {
      trie := new AT.Trie();
      arena := new LA.Arena(entryCallback);
      new;
      arena.AddNode();
      assert Labels([BLANK]) == [[]];
      hide AT.Trie.Valid, LA.Arena.Valid;
    }

    /** nodePrefix: the bytes read for a node are its edge. */
    method Edge(id: int) returns (s: Bytes)
      requires Valid() && 0 <= id < |trie.nodes|
      ensures s == trie.nodes[id].prefix
    {
      LA.SoundTable(arena.V());
      s := arena.Load(id);
    }

    /** One call into the allocator. */
    method Perform(e: Edit)
      requires arena.Valid() && Edited(arena.texts, e).Some? && arena.live + Need(arena.texts, e) <= LS.MAX_ARENA
      modifies arena
      ensures arena.Valid() && arena.texts == Edited(old(arena.texts), e).value
      ensures arena.recycling == old(arena.recycling)
      ensures arena.Respects(old(arena.backing), old(arena.handed))
    {
      hide LS.Sound, LS.Total;
      LA.SoundTable(arena.V());
      match e
      case NewNode => arena.AddNode();
      case SetLabel(id, text) => arena.SetPrefix(id, text);
      case SplitLabel(c, m, k) => arena.Split(c, m, k);
      case MergeLabel(m, c) => arena.Merge(m, c);
      case ClearLabel(id) => arena.ClearLabel(id);
      case FreeLabel(id) => arena.FreeSubtreeLabel(id);
    }

    /** compressPathUpwards first tries to collapse a pruned leaf, its parent and the remaining child in place. */
    method Collapse(d: int, m: int, c: int) returns (ok: bool)
      requires arena.Valid() && Filled(arena.texts, d) && Edited(arena.texts[d := []], MergeLabel(m, c)).Some?
      modifies arena
      ensures arena.Valid() && arena.recycling == old(arena.recycling)
      ensures arena.Respects(old(arena.backing), old(arena.handed))
      ensures ok ==> arena.texts == Edited(old(arena.texts)[d := []], MergeLabel(m, c)).value
      ensures !ok ==> arena.texts == old(arena.texts)
    {
      hide LS.Sound, LS.Total, LA.Collapsible;
      LA.SoundTable(arena.V());
      CollapseLabels(arena.texts, d, m, c);
      ok := arena.TryCollapse(m, d, c);
    }

    /** The calls into the allocator that an operation of the trie makes, in order. */
    method Follow(edits: seq<Edit>, ghost goal: seq<Bytes>)
      requires arena.Valid() && Replay(arena.texts, edits) == Some(goal)
      requires 2 * (arena.live + Cost(edits)) <= LS.MAX_ARENA
      modifies arena
      ensures arena.Valid() && arena.texts == goal && arena.recycling == old(arena.recycling)
      ensures arena.Respects(old(arena.backing), old(arena.handed))
    {
      hide LS.Sound, LS.Total, Edited, Need, Cost;
      var i := 0;
      assert edits[0..] == edits;
      while i < |edits|
        invariant 0 <= i <= |edits| && arena.Valid() && Ahead(arena.texts, edits, i, goal)
        invariant arena.recycling == old(arena.recycling)
        invariant arena.Respects(old(arena.backing), old(arena.handed))
      {
        ghost var l := arena.texts;
        AheadNext(l, edits, i, goal);
        if edits[i].ClearLabel? && i + 1 < |edits| && edits[i + 1].MergeLabel? {
          ClearIs(l, edits[i].id);
          AheadNext(l[edits[i].id := []], edits, i + 1, goal);
          var done := Collapse(edits[i].id, edits[i + 1].m, edits[i + 1].c);
          if done {
            i := i + 2;
            continue;
          }
        }
        Perform(edits[i]);
        i := i + 1;
      }
      assert edits[i..] == [];
    }

    method BeginPut()
      requires Valid()
      modifies arena
      ensures Valid() && arena.recycling && trie.Entries() == old(trie.Entries()) && arena.live == old(arena.live)
    {
      arena.BeginPut();
    }

    /** insertNode, and the end of the hand-off in putWithHash. */
    method Insert(key: Bytes, v: Value) returns (id: int)
      requires Valid() && 2 * (arena.live + |key| + 12) <= LS.MAX_ARENA
      modifies trie, arena
      ensures Valid() && trie.Entries() == old(trie.Entries())[key := v] && !arena.recycling
      ensures id in trie.path && trie.path[id] == key && 0 <= id < |trie.nodes| && trie.nodes[id].value == Some(v)
      ensures TC.Extends(old(trie.nodes), old(trie.path), trie.nodes, trie.path, id)
      ensures arena.Respects(old(arena.backing), old(arena.handed))
    {
      hide AT.Trie.Valid, LA.Arena.Valid, RT.WellLinked, RT.Contents, TC.Extends;
      var edits;
      id, edits := trie.Insert(key, v);
      Follow(edits, Labels(trie.nodes));
      if arena.recycling {
        arena.FinishPut();
      }
    }

    /** finishEraseNodeLocked. */
    method Erase(id: int)
      requires Valid() && id in trie.path && 0 <= id < |trie.nodes| && trie.nodes[id].value.Some?
      requires 2 * (arena.live + 4) <= LS.MAX_ARENA
      modifies trie, arena
      ensures Valid() && trie.Entries() == old(trie.Entries() - {trie.path[id]})
      ensures arena.recycling == old(arena.recycling)
      ensures TC.Shrinks(old(trie.nodes), old(trie.path), trie.nodes, trie.path, {old(trie.path[id])})
      ensures arena.Respects(old(arena.backing), old(arena.handed))
    {
      hide AT.Trie.Valid, LA.Arena.Valid, RT.WellLinked, RT.Contents, TC.Shrinks;
      var edits := trie.Erase(id);
      Follow(edits, Labels(trie.nodes));
    }

    /** deleteNonEmptyPrefixLocked: the labels of the swept nodes go with them. */
    method DeletePrefix(prefix: Bytes) returns (events: seq<TS.Event>)
      requires Valid() && prefix != [] && 2 * (arena.live + 4) <= LS.MAX_ARENA
      modifies trie, arena
      ensures Valid() && arena.recycling == old(arena.recycling)
      ensures trie.Entries() == map k | k in old(trie.Entries()) && !(prefix <= k) :: old(trie.Entries())[k]
      ensures forall e :: e in events <==> TS.IsEntry(old(trie.nodes), old(trie.path), e.id, e) && prefix <= e.key
      ensures arena.Respects(old(arena.backing), old(arena.handed))
    {
      hide AT.Trie.Valid, LA.Arena.Valid, RT.WellLinked, RT.Contents, TC.Shrinks, TS.IsEntry, TO.Lex;
      var edits;
      events, edits := trie.DeletePrefix(prefix);
      Follow(edits, Labels(trie.nodes));
    }

    /** compactDataStructuresLocked: nodes and labels move together, and the arena shrinks to its live bytes. */
    method Compact() returns (live: seq<int>, ren: map<int, int>)
      requires Valid() && !arena.recycling
      modifies trie, arena
      ensures Valid() && trie.free == [] && trie.Entries() == old(trie.Entries()) && !arena.recycling
      ensures RN.Numbers(old(trie.path), live, ren) && RN.Fits(old(trie.nodes), old(trie.path), live, ren)
      ensures trie.nodes == RN.NewNodes(old(trie.nodes), live, ren) && trie.path == RN.NewPaths(old(trie.path), live)
      ensures arena.size == |arena.buf| == arena.live == old(arena.live) && !arena.exposed
      ensures arena.Respects(old(arena.backing), old(arena.handed))
    {
      hide AT.Trie.Valid, LA.Arena.Valid, RT.WellLinked, RT.Contents, RN.Numbers, RN.Fits, RN.NewNodes, RN.NewPaths,
        LA.Renumbers;
      ghost var ns, pt := trie.nodes, trie.path;
      AllBlanked(trie);
      live, ren := trie.Compact();
      MovedLabels(ns, pt, live, ren);
      SameSize(arena);
      arena.Renumber(live);
      arena.CompactExact();
    }

    /** clearEmptyArenaStateLocked. */
    method Clear(small: bool)
      requires Valid()
      modifies trie, arena
      ensures Valid() && trie.Entries() == map[] && !arena.recycling
      ensures arena.Respects(old(arena.backing), old(arena.handed))
    {
      hide AT.Trie.Valid, LA.Arena.Valid, RT.WellLinked, RT.Contents;
      trie.Clear();
      arena.Reset(small);
      assert Labels([BLANK]) == [[]];
    }
  }

  lemma ClearIs(l: seq<Bytes>, id: int)
    requires Edited(l, ClearLabel(id)).Some?
    ensures Filled(l, id) && Edited(l, ClearLabel(id)) == Some(l[id := []])
  {
  }

  lemma AllBlanked(t: AT.Trie)
    requires t.Valid()
    ensures AT.Blanked(t.nodes, t.path) && RT.WellLinked(t.nodes, t.path)
  {
  }

  lemma SameSize(a: LA.Arena)
    requires a.Valid()
    ensures |a.texts| == |a.labels|
  {
  }

  /** Every labelled node is live, so renumbering the live nodes keeps every label. */
  lemma MovedLabels(ns: RT.Nodes, pt: RT.Paths, live: seq<int>, ren: map<int, int>)
    requires RN.Fits(ns, pt, live, ren) && AT.Blanked(ns, pt)
    ensures LA.Renumbers(Labels(ns), live)
    ensures Labels(RN.NewNodes(ns, live, ren)) == LA.Picked(Labels(ns), live)
  {
    forall id | 0 <= id < |ns| && Labels(ns)[id] != []
      ensures id in live
    {
      assert id in pt;
      assert live[ren[id]] == id;
    }
  }
}
