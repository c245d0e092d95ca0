/**
 * What `parseChainForCaching` writes into the `evolutionConditionsMap`
 * field: a depth-first walk of an evolution-chain tree that, for every
 * parent-to-child edge whose two species ids parse, stores the child's
 * condition text under `"<from>-<to>"`. A failed name lookup raises an
 * exception that ends the walk; writes made before it stay in the map.
 */
module ConditionCache {
  import opened Wrappers
  import opened JsText
  import opened LocalizedNames
  import opened EvolutionConditions

  /** A node of a PokeAPI evolution chain: its species reference, how it is reached, and what it evolves into. */
  datatype ChainLink = ChainLink(speciesUrl: string, evolutionDetails: seq<EvolutionDetail>, evolvesTo: seq<ChainLink>)

  datatype CacheWrite = CacheWrite(key: string, conditions: string)

  /** The writes a walk performs, in order, and whether it ran to the end (`false`: it threw). */
  datatype Walk = Walk(writes: seq<CacheWrite>, complete: bool)

  /** `map.set(w.key, w.conditions)` for each write in turn. */
  function ApplyWrites(m: map<string, string>, writes: seq<CacheWrite>): map<string, string>
    decreases |writes|
  {
    if writes == [] then m else ApplyWrites(m[writes[0].key := writes[0].conditions], writes[1..])
  }

  /** Both species ids of an edge, when both parse (`!isNaN` on each). */
  function EdgeIds(parent: ChainLink, child: ChainLink): Option<(int, int)>
  {
    var fromId := ResourceIdViaSlice(parent.speciesUrl);
    var toId := ResourceIdViaSlice(child.speciesUrl);
    if fromId.Some? && toId.Some? then Some((fromId.value, toId.value)) else None
  }

  /**
   * What the walk does on reaching a parent-to-child edge, before it goes
   * below the child: nothing when an id does not parse, a throw when a name
   * lookup fails, else one write.
   */
  datatype EdgeAction = Skip | Throw | Write(write: CacheWrite)

  /** The action of the edge from `parent` to `child` in `parseChainForCaching`. */
  function ActionOf(namesAt: string -> Option<seq<NameEntry>>, parent: ChainLink, child: ChainLink): (r: EdgeAction)
    ensures r.Skip? <==> EdgeIds(parent, child).None?
    ensures r.Throw? <==> EdgeIds(parent, child).Some? && ConditionText(child.evolutionDetails, namesAt).None?
    ensures r.Write? ==> && EdgeIds(parent, child).Some? && ConditionText(child.evolutionDetails, namesAt).Some?
                         && r.write == CacheWrite(CacheKey(EdgeIds(parent, child).value.0, EdgeIds(parent, child).value.1),
                                                  ConditionText(child.evolutionDetails, namesAt).value)
    ensures r.Write? ==> r.write.conditions != ""
  {
    match EdgeIds(parent, child)
    case None => Skip
    case Some(ids) =>
      match ConditionText(child.evolutionDetails, namesAt)
      case None => Throw
      case Some(text) =>
        ConditionTextNonEmpty(child.evolutionDetails, namesAt);
        Write(CacheWrite(CacheKey(ids.0, ids.1), text))
  }

  /** The actions of every edge, for the names available through `namesAt`. */
  function Actions(namesAt: string -> Option<seq<NameEntry>>): (ChainLink, ChainLink) -> EdgeAction
  {
    (parent, child) => ActionOf(namesAt, parent, child)
  }

  /**
   * The walk below `link` with the edge actions `act`: nothing for a leaf,
   * else its children in order.
   */
  function WalkLink(act: (ChainLink, ChainLink) -> EdgeAction, link: ChainLink): (r: Walk)
    ensures link.evolvesTo == [] ==> r.complete && r.writes == []
    decreases link, |link.evolvesTo| + 1
  {
    if link.evolvesTo == [] then Walk([], true)
    else WalkChildren(act, link, |link.evolvesTo|)
  }

  /** The walk over the first `n` children of `link`, stopping at the first failure. */
  function WalkChildren(act: (ChainLink, ChainLink) -> EdgeAction, link: ChainLink, n: nat): (r: Walk)
    requires n <= |link.evolvesTo|
    ensures !r.complete ==> n > 0
    decreases link, n
  {
    if n == 0 then Walk([], true)
    else
      var before := WalkChildren(act, link, n - 1);
      if !before.complete then before
      else
        var step := WalkEdge(act, link, link.evolvesTo[n - 1]);
        Walk(before.writes + step.writes, step.complete)
  }

  /** One edge: its own action, then (unless it threw) the walk below the child. */
  function WalkEdge(act: (ChainLink, ChainLink) -> EdgeAction, parent: ChainLink, child: ChainLink): (r: Walk)
    requires child in parent.evolvesTo
    ensures act(parent, child).Throw? ==> !r.complete && r.writes == []
    ensures act(parent, child).Write? ==> r.writes != [] && r.writes[0] == act(parent, child).write
    decreases parent, 0
  {
    match act(parent, child)
    case Skip => WalkLink(act, child)
    case Throw => Walk([], false)
    case Write(w) =>
      var below := WalkLink(act, child);
      Walk([w] + below.writes, below.complete)
  }

  /**
   * `w` is the write of some parent-to-child edge of the tree rooted at
   * `link`.
   */
  ghost predicate IsEdgeWrite(act: (ChainLink, ChainLink) -> EdgeAction, link: ChainLink, w: CacheWrite)
    decreases link
  {
    || (exists i :: 0 <= i < |link.evolvesTo| && act(link, link.evolvesTo[i]) == Write(w))
    || (exists i :: 0 <= i < |link.evolvesTo| && IsEdgeWrite(act, link.evolvesTo[i], w))
  }

  // ------------------------------------------------------------ the map

  lemma {:induction false} ApplyWritesAppend(m: map<string, string>, a: seq<CacheWrite>, b: seq<CacheWrite>)
    ensures ApplyWrites(m, a + b) == ApplyWrites(ApplyWrites(m, a), b)
    decreases |a|
  {
    if a == [] {
      assert a + b == b;
    } else {
      assert (a + b)[0] == a[0] && (a + b)[1..] == a[1..] + b;
      ApplyWritesAppend(m[a[0].key := a[0].conditions], a[1..], b);
    }
  }

  /** A first write is a `set` on the map the later writes start from. */
  lemma WriteFirst(m: map<string, string>, w: CacheWrite, writes: seq<CacheWrite>)
    ensures ApplyWrites(m, [w] + writes) == ApplyWrites(m[w.key := w.conditions], writes)
  {
    assert ([w] + writes)[1..] == writes;
  }

  /** The map afterwards holds the old keys and the written ones, and nothing else. */
  lemma {:induction false} ApplyWritesKeys(m: map<string, string>, writes: seq<CacheWrite>)
    ensures ApplyWrites(m, writes).Keys == m.Keys + set w | w in writes :: w.key
    decreases |writes|
  {
    if writes != [] {
      ApplyWritesKeys(m[writes[0].key := writes[0].conditions], writes[1..]);
      assert forall w :: w in writes <==> w == writes[0] || w in writes[1..];
    }
  }

  /** The last write of a key decides its value: later writes overwrite earlier ones. */
  lemma LastWriteWins(m: map<string, string>, writes: seq<CacheWrite>, w: CacheWrite, later: seq<CacheWrite>)
    requires forall v :: v in later ==> v.key != w.key
    ensures w.key in ApplyWrites(m, writes + [w] + later)
    ensures ApplyWrites(m, writes + [w] + later)[w.key] == w.conditions
  {
    ApplyWritesAppend(m, writes + [w], later);
    ApplyWritesAppend(m, writes, [w]);
    UntouchedKey(ApplyWrites(m, writes + [w]), later, w.key);
  }

  /** A key no write mentions keeps its value. */
  lemma {:induction false} UntouchedKey(m: map<string, string>, writes: seq<CacheWrite>, k: string)
    requires forall v :: v in writes ==> v.key != k
    ensures k in m ==> k in ApplyWrites(m, writes) && ApplyWrites(m, writes)[k] == m[k]
    ensures k !in m ==> k !in ApplyWrites(m, writes)
    decreases |writes|
  {
    if writes != [] {
      UntouchedKey(m[writes[0].key := writes[0].conditions], writes[1..], k);
    }
  }

  /** Writing only non-empty texts into a map of non-empty texts keeps every text non-empty. */
  lemma {:induction false} ApplyWritesNonEmpty(m: map<string, string>, writes: seq<CacheWrite>)
    requires forall k :: k in m ==> m[k] != ""
    requires forall w :: w in writes ==> w.conditions != ""
    ensures forall k :: k in ApplyWrites(m, writes) ==> ApplyWrites(m, writes)[k] != ""
    decreases |writes|
  {
    if writes != [] {
      ApplyWritesNonEmpty(m[writes[0].key := writes[0].conditions], writes[1..]);
    }
  }

  // ------------------------------------------------------------ the walk

  /** A node that evolves into nothing writes nothing and completes. */
  lemma LeafWritesNothing(act: (ChainLink, ChainLink) -> EdgeAction, link: ChainLink)
    requires link.evolvesTo == []
    ensures WalkLink(act, link) == Walk([], true)
  {
  }

  /** Once the walk over the children has failed, the later children add nothing. */
  lemma {:induction false} FailureStops(act: (ChainLink, ChainLink) -> EdgeAction, link: ChainLink, m: nat, n: nat)
    requires m <= n <= |link.evolvesTo|
    requires !WalkChildren(act, link, m).complete
    ensures WalkChildren(act, link, n) == WalkChildren(act, link, m)
    decreases n
  {
    if m < n {
      FailureStops(act, link, m, n - 1);
    }
  }

  /** One more child only extends the writes, and completes only if the walk so far did. */
  lemma ChildrenStep(act: (ChainLink, ChainLink) -> EdgeAction, link: ChainLink, n: nat)
    requires 0 < n <= |link.evolvesTo|
    ensures WalkChildren(act, link, n - 1).writes <= WalkChildren(act, link, n).writes
    ensures WalkChildren(act, link, n).complete ==> WalkChildren(act, link, n - 1).complete
  {
    var before := WalkChildren(act, link, n - 1);
    if before.complete {
      var step := WalkEdge(act, link, link.evolvesTo[n - 1]);
      assert WalkChildren(act, link, n).writes == before.writes + step.writes;
    }
  }

  /** The walk over fewer children performed a prefix of the writes, and completed if the longer one did. */
  lemma {:induction false} ChildrenPrefix(act: (ChainLink, ChainLink) -> EdgeAction, link: ChainLink, m: nat, n: nat)
    requires m <= n <= |link.evolvesTo|
    ensures WalkChildren(act, link, m).writes <= WalkChildren(act, link, n).writes
    ensures WalkChildren(act, link, n).complete ==> WalkChildren(act, link, m).complete
    decreases n
  {
    if m < n {
      ChildrenPrefix(act, link, m, n - 1);
      ChildrenStep(act, link, n);
    }
  }

  /** Every text the walk writes is non-empty when every action writes a non-empty text. */
  lemma {:induction false} WalkWritesNonEmpty(act: (ChainLink, ChainLink) -> EdgeAction, link: ChainLink)
    requires forall parent, child :: act(parent, child).Write? ==> act(parent, child).write.conditions != ""
    ensures forall w :: w in WalkLink(act, link).writes ==> w.conditions != ""
    decreases link, |link.evolvesTo| + 1
  {
    if link.evolvesTo != [] {
      ChildrenWritesNonEmpty(act, link, |link.evolvesTo|);
    }
  }

  lemma {:induction false} ChildrenWritesNonEmpty(act: (ChainLink, ChainLink) -> EdgeAction, link: ChainLink, n: nat)
    requires forall parent, child :: act(parent, child).Write? ==> act(parent, child).write.conditions != ""
    requires n <= |link.evolvesTo|
    ensures forall w :: w in WalkChildren(act, link, n).writes ==> w.conditions != ""
    decreases link, n
  {
    if n > 0 {
      ChildrenWritesNonEmpty(act, link, n - 1);
      WalkWritesNonEmpty(act, link.evolvesTo[n - 1]);
      ChildrenStepWrites(act, link, n);
      EdgeWritesOrigin(act, link, link.evolvesTo[n - 1]);
    }
  }

  /** Every write of the walk is the write of an edge of the tree: the walk writes nothing else. */
  lemma {:induction false} WritesAreEdgeWrites(act: (ChainLink, ChainLink) -> EdgeAction, link: ChainLink)
    ensures forall w :: w in WalkLink(act, link).writes ==> IsEdgeWrite(act, link, w)
    decreases link, |link.evolvesTo| + 1
  {
    if link.evolvesTo != [] {
      ChildrenWritesAreEdgeWrites(act, link, |link.evolvesTo|);
    }
  }

  lemma {:induction false} ChildrenWritesAreEdgeWrites(act: (ChainLink, ChainLink) -> EdgeAction, link: ChainLink, n: nat)
    requires n <= |link.evolvesTo|
    ensures forall w :: w in WalkChildren(act, link, n).writes ==> IsEdgeWrite(act, link, w)
    decreases link, n
  {
    if n > 0 {
      ChildrenWritesAreEdgeWrites(act, link, n - 1);
      WritesAreEdgeWrites(act, link.evolvesTo[n - 1]);
      ChildrenStepWrites(act, link, n);
      forall w | w in WalkEdge(act, link, link.evolvesTo[n - 1]).writes
        ensures IsEdgeWrite(act, link, w)
      {
        EdgeWriteIsEdgeWrite(act, link, n - 1, w);
      }
    }
  }

  /** A write of the walk over `n` children was made either earlier or by the `n`-th edge. */
  lemma ChildrenStepWrites(act: (ChainLink, ChainLink) -> EdgeAction, link: ChainLink, n: nat)
    requires 0 < n <= |link.evolvesTo|
    ensures forall w :: w in WalkChildren(act, link, n).writes ==>
              w in WalkChildren(act, link, n - 1).writes || w in WalkEdge(act, link, link.evolvesTo[n - 1]).writes
  {
    var before := WalkChildren(act, link, n - 1);
    if before.complete {
      var step := WalkEdge(act, link, link.evolvesTo[n - 1]);
      assert WalkChildren(act, link, n).writes == before.writes + step.writes;
    }
  }

  /** A write made by the edge to child `i` is that edge's own write or one below the child. */
  lemma EdgeWriteIsEdgeWrite(act: (ChainLink, ChainLink) -> EdgeAction, link: ChainLink, i: nat, w: CacheWrite)
    requires i < |link.evolvesTo|
    requires forall v :: v in WalkLink(act, link.evolvesTo[i]).writes ==> IsEdgeWrite(act, link.evolvesTo[i], v)
    requires w in WalkEdge(act, link, link.evolvesTo[i]).writes
    ensures IsEdgeWrite(act, link, w)
  {
    EdgeWritesOrigin(act, link, link.evolvesTo[i]);
    if w in WalkLink(act, link.evolvesTo[i]).writes {
      assert 0 <= i < |link.evolvesTo| && IsEdgeWrite(act, link.evolvesTo[i], w);
    } else {
      assert 0 <= i < |link.evolvesTo| && act(link, link.evolvesTo[i]) == Write(w);
    }
  }

  /** An edge writes its own write, when it has one, and the writes below its child. */
  lemma EdgeWritesOrigin(act: (ChainLink, ChainLink) -> EdgeAction, parent: ChainLink, child: ChainLink)
    requires child in parent.evolvesTo
    ensures forall w :: w in WalkEdge(act, parent, child).writes ==>
              act(parent, child) == Write(w) || w in WalkLink(act, child).writes
  {
  }

  /** In a complete walk over `n` children, each child's own walk completed and its writes are among the walk's. */
  lemma EdgeOfCompleteWalk(act: (ChainLink, ChainLink) -> EdgeAction, link: ChainLink, n: nat, i: nat)
    requires i < n <= |link.evolvesTo|
    requires WalkChildren(act, link, n).complete
    ensures WalkEdge(act, link, link.evolvesTo[i]).complete
    ensures forall w :: w in WalkEdge(act, link, link.evolvesTo[i]).writes ==> w in WalkChildren(act, link, n).writes
  {
    ChildrenPrefix(act, link, i + 1, n);
    CompleteStep(act, link, i + 1);
    var b, c := WalkChildren(act, link, i + 1), WalkChildren(act, link, n);
    forall w | w in WalkEdge(act, link, link.evolvesTo[i]).writes
      ensures w in c.writes
    {
      PrefixMember(b.writes, c.writes, w);
    }
  }

  /** When the walk over `n` children completes, so did the `n`-th edge, whose writes come last. */
  lemma CompleteStep(act: (ChainLink, ChainLink) -> EdgeAction, link: ChainLink, n: nat)
    requires 0 < n <= |link.evolvesTo|
    requires WalkChildren(act, link, n).complete
    ensures WalkEdge(act, link, link.evolvesTo[n - 1]).complete
    ensures WalkChildren(act, link, n).writes
         == WalkChildren(act, link, n - 1).writes + WalkEdge(act, link, link.evolvesTo[n - 1]).writes
  {
  }

  lemma PrefixMember(a: seq<CacheWrite>, b: seq<CacheWrite>, w: CacheWrite)
    requires a <= b
    requires w in a
    ensures w in b
  {
    var k :| 0 <= k < |a| && a[k] == w;
    assert b[k] == w;
  }

  /**
   * A walk that completes writes every edge of the tree, depth first: each
   * edge whose action is a write is written.
   */
  lemma {:induction false} CompleteWalkWritesEveryEdge(act: (ChainLink, ChainLink) -> EdgeAction, link: ChainLink, w: CacheWrite)
    requires WalkLink(act, link).complete
    requires IsEdgeWrite(act, link, w)
    ensures w in WalkLink(act, link).writes
    decreases link
  {
    var n := |link.evolvesTo|;
    if exists i :: 0 <= i < n && act(link, link.evolvesTo[i]) == Write(w) {
      var i :| 0 <= i < n && act(link, link.evolvesTo[i]) == Write(w);
      EdgeOfCompleteWalk(act, link, n, i);
      assert WalkEdge(act, link, link.evolvesTo[i]).writes[0] == w;
    } else {
      var i :| 0 <= i < n && IsEdgeWrite(act, link.evolvesTo[i], w);
      var child := link.evolvesTo[i];
      EdgeOfCompleteWalk(act, link, n, i);
      assert WalkLink(act, child).complete;
      CompleteWalkWritesEveryEdge(act, child, w);
      assert w in WalkEdge(act, link, child).writes;
    }
  }

  /**
   * In the service's own terms: when `parseChainForCaching` runs to the end,
   * every edge of the chain whose ids are `a` and `b` and whose child's
   * conditions format to `t` has stored `t` under the key `"<a>-<b>"` that
   * the relation saved for that edge later reads.
   */
  lemma ChainEdgeIsCached(namesAt: string -> Option<seq<NameEntry>>, link: ChainLink, i: nat, a: int, b: int, t: string)
    requires i < |link.evolvesTo| && WalkLink(Actions(namesAt), link).complete
    requires EdgeIds(link, link.evolvesTo[i]) == Some((a, b))
    requires ConditionText(link.evolvesTo[i].evolutionDetails, namesAt) == Some(t)
    ensures CacheWrite(CacheKey(a, b), t) in WalkLink(Actions(namesAt), link).writes
  {
    var act := Actions(namesAt);
    assert act(link, link.evolvesTo[i]) == Write(CacheWrite(CacheKey(a, b), t));
    CompleteWalkWritesEveryEdge(act, link, CacheWrite(CacheKey(a, b), t));
  }
}
