/** `CBaseList`: a doubly linked list of object pointers with a cache of spare
    nodes. Each operation on the chained nodes is proved to be an operation on
    the sequence of nodes. Objects are numbers; 0 is the null pointer. */
module BaseLists {
  import opened Sequences

  class Node {
    var prev: Node?
    var next: Node?
    var data: nat

    constructor ()
    {
      prev, next, data := null, null, 0;
    }
  }

  /** The node at a position, or null off either end. */
  ghost function At(q: seq<Node>, i: int): Node? {
    if 0 <= i < |q| then q[i] else null
  }

  /** `CNodeCache`: spare nodes chained through `next`. */
  class NodeCache {
    const m_iCacheSize: nat
    var m_iUsed: nat
    var m_pHead: Node?
    ghost var pool: seq<Node>

    ghost predicate Valid()
      reads this, pool
    {
      && m_iUsed == |pool| <= m_iCacheSize
      && NoDup(pool)
      && m_pHead == At(pool, 0)
      && forall i {:trigger pool[i].next} | 0 <= i < |pool| :: pool[i].next == At(pool, i + 1)
    }

    constructor (iCacheSize: nat)
      ensures Valid() && pool == [] && m_iCacheSize == iCacheSize
    {
      m_iCacheSize := iCacheSize;
      m_iUsed, m_pHead, pool := 0, null, [];
    }

    /** Keep the node if there is room; otherwise it is deleted. */
    method AddToCache(pNode: Node)
      requires Valid() && pNode !in pool
      modifies this, pNode`next
      ensures Valid()
      ensures pool == if |old(pool)| < m_iCacheSize then [pNode] + old(pool) else old(pool)
    {
      if m_iUsed < m_iCacheSize {
        NoDupCons(pNode, pool);
        hide NoDup;
        pNode.next := m_pHead;
        m_pHead := pNode;
        m_iUsed := m_iUsed + 1;
        pool := [pNode] + pool;
        assert forall i | 1 <= i < |pool| :: pool[i] == old(pool)[i - 1];
      }
    }

    method RemoveFromCache() returns (pNode: Node?)
      requires Valid()
      modifies this
      ensures Valid()
      ensures pNode == At(old(pool), 0)
      ensures pool == if old(pool) == [] then [] else old(pool)[1..]
    {
      pNode := m_pHead;
      if pNode != null {
        m_pHead := pNode.next;
        m_iUsed := m_iUsed - 1;
        pool := pool[1..];
      }
    }
  }

  /** A cache whose nodes keep their links stays as it is. */
  twostate lemma CacheUntouched(c: NodeCache)
    requires old(c.Valid()) && unchanged(c)
    requires forall n | n in c.pool :: n.next == old(n.next)
    ensures c.Valid()
  {
    assert forall i {:trigger c.pool[i].next} | 0 <= i < |c.pool| :: c.pool[i] in c.pool;
  }

  /** The links of a list's nodes and its own fields are as they were. */
  twostate lemma ChainUntouched(l: BaseList)
    requires old(l.Chained()) && unchanged(l)
    requires forall n | n in l.nodes :: n.next == old(n.next) && n.prev == old(n.prev)
    ensures l.Chained()
  {
    assert forall i {:trigger l.nodes[i].next} {:trigger l.nodes[i].prev} | 0 <= i < |l.nodes| :: l.nodes[i] in l.nodes;
  }

  /** The objects the nodes look after. */
  ghost function Data(q: seq<Node>): (s: seq<nat>)
    reads q
    ensures |s| == |q|
  {
    seq(|q|, i requires 0 <= i < |q| reads q => q[i].data)
  }

  class BaseList {
    var m_pFirst: Node?
    var m_pLast: Node?
    var m_Count: int
    const m_Cache: NodeCache
    ghost var nodes: seq<Node>

    /** The chain is well formed: both directions, both ends, the count. */
    ghost predicate Chained()
      reads this, nodes
    {
      && m_Count == |nodes|
      && m_pFirst == At(nodes, 0)
      && m_pLast == At(nodes, |nodes| - 1)
      && (forall i {:trigger nodes[i].next} | 0 <= i < |nodes| :: nodes[i].next == At(nodes, i + 1))
      && (forall i {:trigger nodes[i].prev} | 0 <= i < |nodes| :: nodes[i].prev == At(nodes, i - 1))
    }

    ghost predicate Valid()
      reads this, nodes, m_Cache, m_Cache.pool
    {
      && m_Cache.Valid()
      && NoDup(nodes)
      && (forall n | n in nodes :: n !in m_Cache.pool)
      && Chained()
    }

    constructor (iItems: nat)
      ensures Valid() && nodes == [] && fresh(m_Cache) && m_Cache.pool == []
    {
      m_pFirst, m_pLast, m_Count, nodes := null, null, 0, [];
      m_Cache := new NodeCache(iItems);
    }

    /** A node from the cache, or else a new one if memory allows. */
    method TakeNode(memory: bool) returns (pNode: Node?)
      requires Valid()
      modifies m_Cache
      ensures Valid()
      ensures pNode == null <==> old(m_Cache.pool) == [] && !memory
      ensures pNode != null ==>
                pNode !in nodes && pNode !in m_Cache.pool && (pNode in old(m_Cache.pool) || fresh(pNode))
      ensures m_Cache.pool == if old(m_Cache.pool) == [] then [] else old(m_Cache.pool)[1..]
      ensures old(m_Cache.pool) != [] ==> pNode == old(m_Cache.pool)[0]
    {
      hide Chained;
      pNode := m_Cache.RemoveFromCache();
      if pNode == null && memory {
        pNode := new Node();
      }
    }

    ghost function Contents(): (s: seq<nat>)
      reads this, nodes
      ensures |s| == |nodes|
    {
      Data(nodes)
    }

    ghost predicate IsPosition(pos: Node?)
      reads this
    {
      pos == null || pos in nodes
    }

    /** An insertion goes into a gap between nodes: gap i lies before node i.
        The null position stands for the one gap that has no node. */
    ghost function AfterGap(pos: Node?): (i: nat)
      reads this
      requires IsPosition(pos)
      ensures i <= |nodes|
    {
      if pos == null then 0 else IndexOf<Node>(nodes, pos) + 1
    }

    ghost function BeforeGap(pos: Node?): (i: nat)
      reads this
      requires IsPosition(pos)
      ensures i <= |nodes|
    {
      if pos == null then |nodes| else IndexOf<Node>(nodes, pos)
    }

    // ----- Positions -----

    method GetHeadPositionI() returns (r: Node?)
      requires Valid()
      ensures r == At(nodes, 0)
    {
      r := m_pFirst;
    }

    method GetTailPositionI() returns (r: Node?)
      requires Valid()
      ensures r == At(nodes, |nodes| - 1)
    {
      r := m_pLast;
    }

    method Next(pos: Node?) returns (r: Node?)
      requires Valid() && IsPosition(pos)
      ensures r == At(nodes, AfterGap(pos))
    {
      r := if pos == null then m_pFirst else pos.next;
    }

    method Prev(pos: Node?) returns (r: Node?)
      requires Valid() && IsPosition(pos)
      ensures r == At(nodes, BeforeGap(pos) - 1)
    {
      r := if pos == null then m_pLast else pos.prev;
    }

    /** The n nodes and null form a cycle of n + 1 positions. */
    lemma PositionsFormACycle(pos: Node?)
      requires Valid() && IsPosition(pos)
      ensures var next := At(nodes, AfterGap(pos));
              IsPosition(next) && At(nodes, BeforeGap(next) - 1) == pos
      ensures var prev := At(nodes, BeforeGap(pos) - 1);
              IsPosition(prev) && At(nodes, AfterGap(prev)) == pos
    {
      hide Chained;
      var next, prev := At(nodes, AfterGap(pos)), At(nodes, BeforeGap(pos) - 1);
      if next != null {
        IndexUnique<Node>(nodes, AfterGap(pos));
      }
      if prev != null {
        IndexUnique<Node>(nodes, BeforeGap(pos) - 1);
      }
    }

    /** `GetNextI`: the object at rp, and rp moved on; null stays null. */
    method GetNextI(rp: Node?) returns (pObject: nat, rp': Node?)
      requires Valid() && IsPosition(rp)
      ensures rp == null ==> pObject == 0 && rp' == null
      ensures rp != null ==> pObject == rp.data && rp' == At(nodes, IndexOf<Node>(nodes, rp) + 1)
    {
      if rp == null {
        return 0, null;
      }
      rp' := rp.next;
      pObject := rp.data;
    }

    /** The first position that holds the object. */
    method FindI(pObj: nat) returns (pos: Node?)
      requires Valid()
      ensures pos == null <==> pObj !in Contents()
      ensures pos != null ==> IsPosition(pos) && pos.data == pObj && pObj !in Contents()[..IndexOf<Node>(nodes, pos)]
    {
      ghost var i := 0;
      pos := m_pFirst;
      while pos != null
        invariant 0 <= i <= |nodes| && pos == At(nodes, i)
        invariant forall k | 0 <= k < i :: Contents()[k] != pObj
        decreases |nodes| - i
      {
        if pos.data == pObj {
          assert Contents()[i] == pObj;
          IndexUnique<Node>(nodes, i);
          return;
        }
        pos := pos.next;
        i := i + 1;
      }
    }

    // ----- Chaining a node in, as each of the four insertions does it -----

    /** The links after an insertion, read off node by node, make a chain. */
    lemma InsertedIsChained(before: seq<Node>, i: nat, pNode: Node)
      requires i <= |before| && nodes == InsertAt<Node>(before, i, pNode) && m_Count == |nodes|
      requires m_pFirst == (if i == 0 then pNode else At(before, 0))
      requires m_pLast == (if i == |before| then pNode else At(before, |before| - 1))
      requires pNode.next == At(before, i) && pNode.prev == At(before, i - 1)
      requires forall k {:trigger before[k].next} | 0 <= k < |before| ::
                 before[k].next == if k == i - 1 then pNode else At(before, k + 1)
      requires forall k {:trigger before[k].prev} | 0 <= k < |before| ::
                 before[k].prev == if k == i then pNode else At(before, k - 1)
      ensures Chained()
    {
      forall k | 0 <= k < |nodes|
        ensures nodes[k].next == At(nodes, k + 1) && nodes[k].prev == At(nodes, k - 1)
      {
        if k < i {
          assert nodes[k] == before[k];
        } else if k > i {
          assert nodes[k] == before[k - 1];
        }
      }
    }

    method ChainTail(pNode: Node)
      requires Chained() && NoDup(nodes) && pNode !in nodes
      modifies this, pNode`next, pNode`prev, nodes`next
      ensures Chained() && nodes == InsertAt<Node>(old(nodes), |old(nodes)|, pNode)
    {
      hide NoDup, InsertAt;
      if |nodes| > 0 {
        NoDupApart(nodes, |nodes| - 1);
      }
      ghost var before := nodes;
      pNode.next := null;
      pNode.prev := m_pLast;
      if m_pLast == null {
        m_pFirst := pNode;
      } else {
        m_pLast.next := pNode;
      }
      m_pLast := pNode;
      m_Count := m_Count + 1;
      nodes := InsertAt<Node>(nodes, |nodes|, pNode);
      InsertLength(before, |before|, pNode);
      InsertedIsChained(before, |before|, pNode);
    }

    method ChainHead(pNode: Node)
      requires Chained() && NoDup(nodes) && pNode !in nodes
      modifies this, pNode`next, pNode`prev, nodes`prev
      ensures Chained() && nodes == InsertAt<Node>(old(nodes), 0, pNode)
    {
      hide NoDup, InsertAt;
      if |nodes| > 0 {
        NoDupApart(nodes, 0);
      }
      ghost var before := nodes;
      pNode.prev := null;
      pNode.next := m_pFirst;
      if m_pFirst == null {
        m_pLast := pNode;
      } else {
        m_pFirst.prev := pNode;
      }
      m_pFirst := pNode;
      m_Count := m_Count + 1;
      nodes := InsertAt<Node>(nodes, 0, pNode);
      InsertLength(before, 0, pNode);
      InsertedIsChained(before, 0, pNode);
    }

    method ChainBetween(pNode: Node, pAfter: Node, pBefore: Node, ghost i: nat)
      requires Chained() && NoDup(nodes) && pNode !in nodes
      requires 0 < i < |nodes| && nodes[i - 1] == pAfter && nodes[i] == pBefore
      modifies this, pNode`next, pNode`prev, pAfter`next, pBefore`prev
      ensures Chained() && nodes == InsertAt<Node>(old(nodes), i, pNode)
    {
      hide NoDup, InsertAt;
      NoDupApart(nodes, i - 1);
      NoDupApart(nodes, i);
      ghost var before := nodes;
      pNode.prev := pAfter;
      pNode.next := pBefore;
      pBefore.prev := pNode;
      pAfter.next := pNode;
      m_Count := m_Count + 1;
      nodes := InsertAt<Node>(nodes, i, pNode);
      InsertLength(before, i, pNode);
      InsertedIsChained(before, i, pNode);
    }

    // ----- The insertions -----

    /** What an insertion into a gap does, `before` being the nodes and
        `spare` the cache beforehand: it fails only when there is neither a
        spare node nor memory, and then changes nothing. */
    ghost predicate Inserted(before: seq<Node>, spare: seq<Node>, gap: nat, pObject: nat, pos: Node?, memory: bool)
      reads this, m_Cache, nodes
      requires gap <= |before|
    {
      && (pos == null <==> spare == [] && !memory)
      && m_Cache.pool == (if spare == [] then [] else spare[1..])
      && (spare != [] ==> pos == spare[0])
      && nodes == (if pos == null then before else InsertAt<Node>(before, gap, pos))
      && (pos != null ==> pos in nodes && pos.data == pObject && pos !in before)
    }

    /** A node in hand keeps the list valid once it is chained in. */
    lemma ValidWith(before: seq<Node>, gap: nat, pNode: Node)
      requires gap <= |before| && NoDup(before) && pNode !in before
      requires m_Cache.Valid() && pNode !in m_Cache.pool
      requires forall n | n in before :: n !in m_Cache.pool
      requires nodes == InsertAt<Node>(before, gap, pNode) && Chained()
      ensures Valid()
    {
      NoDupInsert(before, gap, pNode);
    }

    /** The objects after an insertion that left the other nodes' objects
        alone. */
    twostate lemma ContentsInserted(gap: nat, new pNode: Node)
      requires gap <= old(|nodes|) && nodes == InsertAt<Node>(old(nodes), gap, pNode)
      requires forall n | n in old(nodes) :: n.data == old(n.data)
      ensures Contents() == InsertAt<nat>(old(Contents()), gap, pNode.data)
      ensures pNode in nodes
    {
      assert nodes[gap] == pNode;
      assert forall k | 0 <= k < |nodes| && k != gap :: nodes[k] == old(nodes)[if k < gap then k else k - 1];
    }

    method AddTailI(pObject: nat, memory: bool) returns (pos: Node?)
      requires Valid()
      modifies this, m_Cache, m_Cache.pool, nodes`next
      ensures Valid()
      ensures Inserted(old(nodes), old(m_Cache.pool), old(|nodes|), pObject, pos, memory)
      ensures Contents() ==
                if pos == null then old(Contents()) else InsertAt<nat>(old(Contents()), old(|nodes|), pObject)
      ensures pos != null ==> pos in old(m_Cache.pool) || fresh(pos)
    {
      hide Chained, NoDup;
      var pNode := TakeNode(memory);
      if pNode == null {
        return null;
      }
      pNode.data := pObject;
      label L:
      ChainTail(pNode);
      CacheUntouched@L(m_Cache);
      ValidWith(old(nodes), old(|nodes|), pNode);
      ContentsInserted(old(|nodes|), pNode);
      return pNode;
    }

    method AddHeadI(pObject: nat, memory: bool) returns (pos: Node?)
      requires Valid()
      modifies this, m_Cache, m_Cache.pool, nodes`prev
      ensures Valid()
      ensures Inserted(old(nodes), old(m_Cache.pool), 0, pObject, pos, memory)
      ensures Contents() == if pos == null then old(Contents()) else InsertAt<nat>(old(Contents()), 0, pObject)
      ensures pos != null ==> pos in old(m_Cache.pool) || fresh(pos)
    {
      hide Chained, NoDup;
      var pNode := TakeNode(memory);
      if pNode == null {
        return null;
      }
      pNode.data := pObject;
      label L:
      ChainHead(pNode);
      CacheUntouched@L(m_Cache);
      ValidWith(old(nodes), 0, pNode);
      ContentsInserted(0, pNode);
      return pNode;
    }

    /** The insertion between two nodes that `AddAfterI` and `AddBeforeI` share. */
    method AddBetween(pAfter: Node, pBefore: Node, ghost i: nat, pObject: nat, memory: bool) returns (pos: Node?)
      requires Valid() && 0 < i < |nodes| && nodes[i - 1] == pAfter && nodes[i] == pBefore
      modifies this, m_Cache, m_Cache.pool, pAfter`next, pBefore`prev
      ensures Valid()
      ensures Inserted(old(nodes), old(m_Cache.pool), i, pObject, pos, memory)
      ensures Contents() == if pos == null then old(Contents()) else InsertAt<nat>(old(Contents()), i, pObject)
      ensures pos != null ==> pos in old(m_Cache.pool) || fresh(pos)
    {
      hide Chained, NoDup;
      var pNode := TakeNode(memory);
      if pNode == null {
        return null;
      }
      pNode.data := pObject;
      label L:
      ChainBetween(pNode, pAfter, pBefore, i);
      CacheUntouched@L(m_Cache);
      ValidWith(old(nodes), i, pNode);
      ContentsInserted(i, pNode);
      return pNode;
    }

    method AddAfterI(at: Node?, pObject: nat, memory: bool) returns (pos: Node?)
      requires Valid() && IsPosition(at)
      modifies this, m_Cache, m_Cache.pool, nodes`next, nodes`prev
      ensures Valid()
      ensures Inserted(old(nodes), old(m_Cache.pool), old(AfterGap(at)), pObject, pos, memory)
      ensures Contents() ==
                if pos == null then old(Contents()) else InsertAt<nat>(old(Contents()), old(AfterGap(at)), pObject)
      ensures pos != null ==> pos in old(m_Cache.pool) || fresh(pos)
    {
      hide Chained, NoDup, InsertAt, Inserted;
      if at == null {
        pos := AddHeadI(pObject, memory);
        return;
      }
      LinksAt(at);
      if at == m_pLast {
        pos := AddTailI(pObject, memory);
        return;
      }
      pos := AddBetween(at, at.next, AfterGap(at), pObject, memory);
    }

    method AddBeforeI(at: Node?, pObject: nat, memory: bool) returns (pos: Node?)
      requires Valid() && IsPosition(at)
      modifies this, m_Cache, m_Cache.pool, nodes`next, nodes`prev
      ensures Valid()
      ensures Inserted(old(nodes), old(m_Cache.pool), old(BeforeGap(at)), pObject, pos, memory)
      ensures Contents() ==
                if pos == null then old(Contents()) else InsertAt<nat>(old(Contents()), old(BeforeGap(at)), pObject)
      ensures pos != null ==> pos in old(m_Cache.pool) || fresh(pos)
    {
      hide Chained, NoDup, InsertAt, Inserted;
      if at == null {
        pos := AddTailI(pObject, memory);
        return;
      }
      LinksAt(at);
      if at == m_pFirst {
        pos := AddHeadI(pObject, memory);
        return;
      }
      pos := AddBetween(at.prev, at, BeforeGap(at), pObject, memory);
    }

    /** A node's links and its place in the sequence. */
    lemma LinksAt(at: Node)
      requires Valid() && at in nodes
      ensures var i := IndexOf<Node>(nodes, at);
              && at.next == At(nodes, i + 1) && at.prev == At(nodes, i - 1)
              && (at == m_pLast <==> i == |nodes| - 1)
              && (at == m_pFirst <==> i == 0)
    {
      IndexUnique<Node>(nodes, 0);
      IndexUnique<Node>(nodes, |nodes| - 1);
    }

    /** Inserting before p and inserting after the position before p are the
        same insertion, for every p including null. */
    lemma AddBeforeIsAddAfterPrev(pos: Node?)
      requires Valid() && IsPosition(pos)
      ensures var prev := At(nodes, BeforeGap(pos) - 1);
              IsPosition(prev) && AfterGap(prev) == BeforeGap(pos)
    {
      hide Chained;
      if BeforeGap(pos) > 0 {
        IndexUnique<Node>(nodes, BeforeGap(pos) - 1);
      }
    }

    // ----- Removal -----

    lemma CutIsChained(before: seq<Node>, i: nat)
      requires i < |before| && nodes == before[..i] + before[i + 1..] && m_Count == |nodes|
      requires m_pFirst == At(before, if i == 0 then 1 else 0)
      requires m_pLast == At(before, if i == |before| - 1 then |before| - 2 else |before| - 1)
      requires forall k {:trigger before[k].next} | 0 <= k < |before| && k != i ::
                 before[k].next == At(before, if k == i - 1 then i + 1 else k + 1)
      requires forall k {:trigger before[k].prev} | 0 <= k < |before| && k != i ::
                 before[k].prev == At(before, if k == i + 1 then i - 1 else k - 1)
      ensures Chained()
    {
      forall k | 0 <= k < |nodes|
        ensures nodes[k].next == At(nodes, k + 1) && nodes[k].prev == At(nodes, k - 1)
      {
        assert nodes[k] == before[if k < i then k else k + 1];
      }
    }

    method Unchain(pCurrent: Node, ghost i: nat)
      requires Chained() && NoDup(nodes) && i < |nodes| && nodes[i] == pCurrent
      modifies this, nodes`next, nodes`prev
      ensures Chained() && nodes == old(nodes)[..i] + old(nodes)[i + 1..]
    {
      hide NoDup;
      if i > 0 {
        NoDupApart(nodes, i - 1);
      }
      if i + 1 < |nodes| {
        NoDupApart(nodes, i + 1);
      }
      ghost var before := nodes;
      var pNode := pCurrent.prev;
      if pNode == null {
        m_pFirst := pCurrent.next;
      } else {
        pNode.next := pCurrent.next;
      }
      pNode := pCurrent.next;
      if pNode == null {
        m_pLast := pCurrent.prev;
      } else {
        pNode.prev := pCurrent.prev;
      }
      m_Count := m_Count - 1;
      nodes := before[..i] + before[i + 1..];
      CutIsChained(before, i);
    }

    /** The objects after a removal that left the other nodes' objects alone. */
    twostate lemma ContentsCut(i: nat)
      requires i < old(|nodes|) && nodes == old(nodes)[..i] + old(nodes)[i + 1..]
      requires forall n | n in old(nodes) :: n.data == old(n.data)
      ensures Contents() == old(Contents())[..i] + old(Contents())[i + 1..]
    {
      assert forall k | 0 <= k < |nodes| :: nodes[k] == old(nodes)[if k < i then k else k + 1];
    }

    /** A node taken out of the list may go to the cache. */
    lemma CutFacts(i: nat)
      requires Valid() && i < |nodes|
      ensures var cut := nodes[..i] + nodes[i + 1..];
              && NoDup(cut) && nodes[i] !in cut && nodes[i] !in m_Cache.pool
              && forall n | n in cut :: n !in m_Cache.pool
    {
      NoDupCut(nodes, i);
      NoDupApart(nodes, i);
      assert nodes[i] in nodes;
      var cut := nodes[..i] + nodes[i + 1..];
      assert forall k | 0 <= k < |cut| :: cut[k] == nodes[if k < i then k else k + 1];
    }

    /** Removing null is harmless. The node goes to the cache if there is room. */
    method RemoveI(pos: Node?) returns (pObject: nat)
      requires Valid() && IsPosition(pos)
      modifies this, m_Cache, nodes`next, nodes`prev
      ensures Valid()
      ensures pos == null ==>
                && pObject == 0 && nodes == old(nodes) && Contents() == old(Contents())
                && m_Cache.pool == old(m_Cache.pool)
      ensures pos != null ==>
                var i := old(BeforeGap(pos));
                && pObject == old(Contents())[i]
                && nodes == old(nodes)[..i] + old(nodes)[i + 1..]
                && Contents() == old(Contents())[..i] + old(Contents())[i + 1..]
                && m_Cache.pool ==
                      if old(|m_Cache.pool|) < m_Cache.m_iCacheSize then [pos] + old(m_Cache.pool)
                      else old(m_Cache.pool)
    {
      hide Chained, NoDup, Data, Contents;
      if pos == null {
        return 0;
      }
      ghost var i := IndexOf<Node>(nodes, pos);
      ObjectAt(i);
      CutFacts(i);
      Unchain(pos, i);
      pObject := pos.data;
      CacheUntouched(m_Cache);
      label L:
      m_Cache.AddToCache(pos);
      ChainUntouched@L(this);
      ContentsCut(i);
    }

    method RemoveHeadI() returns (pObject: nat)
      requires Valid()
      modifies this, m_Cache, nodes`next, nodes`prev
      ensures Valid()
      ensures pObject == if old(nodes) == [] then 0 else old(Contents())[0]
      ensures Contents() == if old(nodes) == [] then [] else old(Contents())[1..]
    {
      if m_pFirst != null {
        LinksAt(m_pFirst);
      }
      hide Chained, NoDup;
      pObject := RemoveI(m_pFirst);
    }

    method RemoveTailI() returns (pObject: nat)
      requires Valid()
      modifies this, m_Cache, nodes`next, nodes`prev
      ensures Valid()
      ensures pObject == if old(nodes) == [] then 0 else old(Contents())[old(|nodes|) - 1]
      ensures Contents() == if old(nodes) == [] then [] else old(Contents())[..old(|nodes|) - 1]
    {
      if m_pLast != null {
        LinksAt(m_pLast);
      }
      hide Chained, NoDup;
      pObject := RemoveI(m_pLast);
    }

    // ----- Reversal and splicing -----

    /** One pass that swaps the two pointers of every node. */
    method SwapLinks()
      requires Chained() && NoDup(nodes)
      modifies nodes`next, nodes`prev
      ensures forall k {:trigger nodes[k].next} | 0 <= k < |nodes| :: nodes[k].next == At(nodes, k - 1)
      ensures forall k {:trigger nodes[k].prev} | 0 <= k < |nodes| :: nodes[k].prev == At(nodes, k + 1)
    {
      hide NoDup;
      ghost var i := 0;
      var p := m_pFirst;
      while p != null
        invariant 0 <= i <= |nodes| && p == At(nodes, i)
        invariant forall k {:trigger nodes[k].next} | 0 <= k < |nodes| ::
                    nodes[k].next == At(nodes, if k < i then k - 1 else k + 1)
        invariant forall k {:trigger nodes[k].prev} | 0 <= k < |nodes| ::
                    nodes[k].prev == At(nodes, if k < i then k + 1 else k - 1)
        decreases |nodes| - i
      {
        NoDupApart(nodes, i);
        var q := p.next;
        p.next := p.prev;
        p.prev := q;
        p := q;
        i := i + 1;
      }
    }

    method Reverse()
      requires Valid()
      modifies this, nodes`next, nodes`prev
      ensures Valid()
      ensures nodes == Reversed(old(nodes)) && Contents() == Reversed(old(Contents()))
    {
      hide NoDup;
      SwapLinks();
      CacheUntouched(m_Cache);
      var p := m_pFirst;
      m_pFirst := m_pLast;
      m_pLast := p;
      ghost var before := nodes;
      nodes := Reversed(nodes);
      ReversedIsChained(before);
      hide Chained;
      ContentsReversed();
    }

    lemma ReversedIsChained(before: seq<Node>)
      requires NoDup(before) && nodes == Reversed(before) && m_Count == |nodes|
      requires m_pFirst == At(before, |before| - 1) && m_pLast == At(before, 0)
      requires forall k {:trigger before[k].next} | 0 <= k < |before| :: before[k].next == At(before, k - 1)
      requires forall k {:trigger before[k].prev} | 0 <= k < |before| :: before[k].prev == At(before, k + 1)
      ensures Chained() && NoDup(nodes)
      ensures forall n | n in nodes :: n in before
    {
      ReversedElements(before);
      AtReversed(before);
      forall k | 0 <= k < |nodes|
        ensures nodes[k].next == At(nodes, k + 1) && nodes[k].prev == At(nodes, k - 1)
      {
        ReversedAt(before, k);
      }
      forall n | n in nodes
        ensures n in before
      {
        assert n in Elements(nodes);
      }
    }

    static lemma AtReversed(q: seq<Node>)
      ensures forall k: int :: At(Reversed(q), k) == At(q, |q| - 1 - k)
    {
      forall k | 0 <= k < |q|
        ensures Reversed(q)[k] == q[|q| - 1 - k]
      {
        ReversedAt(q, k);
      }
    }

    twostate lemma ContentsReversed()
      requires nodes == Reversed(old(nodes))
      requires forall n | n in old(nodes) :: n.data == old(n.data)
      ensures Contents() == Reversed(old(Contents()))
    {
      forall k | 0 <= k < |nodes|
        ensures Contents()[k] == Reversed(old(Contents()))[k]
      {
        ReversedAt(old(nodes), k);
        ReversedAt(old(Contents()), k);
      }
    }

    /** Two lists that share no node, cached or not. */
    ghost predicate Apart(other: BaseList)
      reads this, m_Cache, other, other.m_Cache
    {
      && this != other && m_Cache != other.m_Cache
      && (forall n | n in nodes :: n !in other.nodes && n !in other.m_Cache.pool)
      && (forall n | n in m_Cache.pool :: n !in other.nodes && n !in other.m_Cache.pool)
    }

    /** How many nodes lie from a position back to the head. */
    method CountBack(pos: Node) returns (cMove: int)
      requires Valid() && pos in nodes
      ensures cMove == AfterGap(pos)
    {
      hide NoDup;
      ghost var i: int := IndexOf<Node>(nodes, pos);
      var p: Node? := pos;
      cMove := 0;
      while p != null
        invariant -1 <= i < |nodes| && p == At(nodes, i) && cMove == AfterGap(pos) - 1 - i
        decreases i
      {
        p := p.prev;
        cMove := cMove + 1;
        i := i - 1;
      }
    }

    method CountForward(pos: Node) returns (cMove: int)
      requires Valid() && pos in nodes
      ensures cMove == |nodes| - BeforeGap(pos)
    {
      hide NoDup;
      ghost var i: int := IndexOf<Node>(nodes, pos);
      var p: Node? := pos;
      cMove := 0;
      while p != null
        invariant 0 <= i <= |nodes| && p == At(nodes, i) && cMove == i - BeforeGap(pos)
        decreases |nodes| - i
      {
        p := p.next;
        cMove := cMove + 1;
        i := i + 1;
      }
    }

    /** Two chains joined end to end make a chain. */
    lemma JoinedIsChained(left: seq<Node>, right: seq<Node>)
      requires nodes == left + right && m_Count == |nodes|
      requires m_pFirst == (if left != [] then left[0] else At(right, 0))
      requires m_pLast == (if right != [] then right[|right| - 1] else At(left, |left| - 1))
      requires forall k {:trigger left[k].next} | 0 <= k < |left| ::
                 left[k].next == if k == |left| - 1 then At(right, 0) else left[k + 1]
      requires forall k {:trigger left[k].prev} | 0 <= k < |left| :: left[k].prev == At(left, k - 1)
      requires forall k {:trigger right[k].next} | 0 <= k < |right| :: right[k].next == At(right, k + 1)
      requires forall k {:trigger right[k].prev} | 0 <= k < |right| ::
                 right[k].prev == if k == 0 then At(left, |left| - 1) else right[k - 1]
      ensures Chained()
    {
      forall k | 0 <= k < |nodes|
        ensures nodes[k].next == At(nodes, k + 1) && nodes[k].prev == At(nodes, k - 1)
      {
        if k < |left| {
          assert nodes[k] == left[k];
        } else {
          assert nodes[k] == right[k - |left|];
        }
      }
    }

    /** Chain b hangs onto chain a. */
    static ghost predicate Joined(a: seq<Node>, b: seq<Node>)
      reads a, b
    {
      && (forall k {:trigger a[k].next} | 0 <= k < |a| :: a[k].next == if k == |a| - 1 then At(b, 0) else a[k + 1])
      && (forall k {:trigger a[k].prev} | 0 <= k < |a| :: a[k].prev == At(a, k - 1))
      && (forall k {:trigger b[k].next} | 0 <= k < |b| :: b[k].next == At(b, k + 1))
      && (forall k {:trigger b[k].prev} | 0 <= k < |b| :: b[k].prev == if k == 0 then At(a, |a| - 1) else b[k - 1])
    }

    /** Chain a with b[..i] hung onto it, and chain b[i..] by itself. */
    static ghost predicate CutBefore(a: seq<Node>, b: seq<Node>, i: nat)
      reads a, b
    {
      && (forall k {:trigger a[k].next} | 0 <= k < |a| :: a[k].next == if k == |a| - 1 then At(b, 0) else a[k + 1])
      && (forall k {:trigger a[k].prev} | 0 <= k < |a| :: a[k].prev == At(a, k - 1))
      && (forall k {:trigger b[k].next} | 0 <= k < |b| :: b[k].next == if k + 1 == i then null else At(b, k + 1))
      && (forall k {:trigger b[k].prev} | 0 <= k < |b| ::
            b[k].prev == if k == i then null else if k == 0 then At(a, |a| - 1) else b[k - 1])
    }

    /** Hang this list's chain onto the other's: the first step of both moves,
        with the roles of the lists exchanged. */
    method JoinOnto(pList: BaseList)
      requires Chained() && pList.Chained() && NoDup(nodes) && NoDup(pList.nodes)
      requires forall n | n in nodes :: n !in pList.nodes
      modifies nodes`prev, pList.nodes`next
      ensures Joined(pList.nodes, nodes)
    {
      hide NoDup;
      if |nodes| > 0 {
        NoDupApart(nodes, 0);
        assert nodes[0] in nodes;
      }
      if |pList.nodes| > 0 {
        NoDupApart(pList.nodes, |pList.nodes| - 1);
        assert pList.nodes[|pList.nodes| - 1] in pList.nodes;
      }
      if pList.m_pLast != null {
        pList.m_pLast.next := m_pFirst;
      }
      if m_pFirst != null {
        m_pFirst.prev := pList.m_pLast;
      }
    }

    /** Break the chain after the node p at position i - 1. */
    static method BreakAfter(p: Node, pNext: Node?, ghost a: seq<Node>, ghost b: seq<Node>, ghost i: nat)
      requires Joined(a, b) && NoDup(b) && (forall n | n in b :: n !in a)
      requires 0 < i <= |b| && b[i - 1] == p && pNext == At(b, i)
      modifies b`next, b`prev
      ensures CutBefore(a, b, i)
    {
      hide NoDup;
      NoDupApart(b, i - 1);
      assert b[i - 1] in b;
      if i < |b| {
        NoDupApart(b, i);
        assert b[i] in b;
      }
      if pNext != null {
        pNext.prev := null;
      }
      p.next := null;
    }

    /** The two chains a cut leaves. */
    lemma CutIsTwoChains(pList: BaseList, a: seq<Node>, b: seq<Node>, i: nat)
      requires CutBefore(a, b, i) && 0 < i <= |b|
      requires nodes == b[i..] && m_Count == |nodes|
      requires m_pFirst == At(b, i) && m_pLast == if i < |b| then b[|b| - 1] else null
      requires pList.nodes == a + b[..i] && pList.m_Count == |pList.nodes|
      requires pList.m_pFirst == (if a == [] then b[0] else a[0]) && pList.m_pLast == b[i - 1]
      ensures Chained() && pList.Chained()
    {
      var front := b[..i];
      assert forall k | 0 <= k < |front| :: front[k] == b[k];
      pList.JoinedIsChained(a, front);
      forall k | 0 <= k < |nodes|
        ensures nodes[k].next == At(nodes, k + 1) && nodes[k].prev == At(nodes, k - 1)
      {
        assert nodes[k] == b[i + k];
      }
    }

    /** Splitting one sequence of nodes and lengthening the other keeps them
        free of duplicates and apart. */
    static lemma SplitStaysApart(a: seq<Node>, b: seq<Node>, poolA: seq<Node>, poolB: seq<Node>,
                                 front: seq<Node>, back: seq<Node>)
      requires NoDup(a) && NoDup(b) && b == front + back
      requires forall n | n in a :: n !in poolA && n !in poolB
      requires forall n | n in b :: n !in a && n !in poolA && n !in poolB
      ensures NoDup(a + front) && NoDup(back) && NoDup(back + a) && NoDup(front)
      ensures forall n | n in a || n in front || n in back :: n !in poolA && n !in poolB
      ensures forall n | n in back :: n !in a && n !in front
      ensures forall n | n in front :: n !in a && n !in back
    {
      assert forall k | 0 <= k < |front| :: front[k] == b[k] && b[k] in b;
      assert forall k | 0 <= k < |back| :: back[k] == b[|front| + k] && b[|front| + k] in b;
      NoDupConcat(a, front);
      NoDupConcat(back, a);
    }

    /** Join the chains, and set the ends of the lists as after the move of all
        up to pos, at position i - 1, to the tail of the other list. */
    method HandOverFront(pos: Node, pList: BaseList, ghost i: nat)
      requires Chained() && pList.Chained() && NoDup(nodes) && NoDup(pList.nodes) && this != pList
      requires forall n | n in nodes :: n !in pList.nodes
      requires 0 < i <= |nodes| && nodes[i - 1] == pos
      modifies this`m_pFirst, this`m_pLast, pList`m_pFirst, pList`m_pLast, nodes`prev, pList.nodes`next
      ensures Joined(pList.nodes, nodes)
      ensures m_pFirst == At(nodes, i) && m_pLast == if i < |nodes| then nodes[|nodes| - 1] else null
      ensures pList.m_pFirst == (if pList.nodes == [] then nodes[0] else pList.nodes[0]) && pList.m_pLast == pos
    {
      hide NoDup;
      JoinOnto(pList);
      if pList.m_pFirst == null {
        pList.m_pFirst := m_pFirst;
      }
      m_pFirst := pos.next;
      if m_pFirst == null {
        m_pLast := null;
      }
      pList.m_pLast := pos;
    }

    /** The chaining done by `MoveToTail`. */
    method SpliceTail(pos: Node, pList: BaseList, ghost i: nat, cMove: int)
      requires Chained() && pList.Chained() && NoDup(nodes) && NoDup(pList.nodes) && this != pList
      requires forall n | n in nodes :: n !in pList.nodes
      requires 0 < i <= |nodes| && nodes[i - 1] == pos && cMove == i
      modifies this, pList, nodes`next, nodes`prev, pList.nodes`next
      ensures Chained() && pList.Chained()
      ensures nodes == old(nodes)[i..] && pList.nodes == old(pList.nodes) + old(nodes)[..i]
    {
      hide NoDup, CutBefore, Joined;
      ghost var a, b := pList.nodes, nodes;
      HandOverFront(pos, pList, i);
      BreakAfter(pos, m_pFirst, a, b, i);
      m_Count := m_Count - cMove;
      pList.m_Count := pList.m_Count + cMove;
      nodes := b[i..];
      pList.nodes := a + b[..i];
      CutIsTwoChains(pList, a, b, i);
    }

    static lemma SliceObjects(b: seq<Node>, i: nat)
      requires i <= |b|
      ensures Data(b[i..]) == Data(b)[i..] && Data(b[..i]) == Data(b)[..i]
    {
      assert forall k | 0 <= k < |b| - i :: b[i..][k] == b[i + k];
      assert forall k | 0 <= k < i :: b[..i][k] == b[k];
    }

    static lemma ConcatObjects(a: seq<Node>, b: seq<Node>)
      ensures Data(a + b) == Data(a) + Data(b)
    {
    }

    /** Nodes whose objects were left alone. */
    static twostate lemma ObjectsUntouched(q: seq<Node>)
      requires forall k | 0 <= k < |q| :: q[k].data == old(q[k].data)
      ensures Data(q) == old(Data(q))
    {
    }

    /** Splicing keeps both lists valid and apart. */
    method SpliceTailValid(pos: Node, pList: BaseList, ghost i: nat, cMove: int)
      requires Valid() && pList.Valid() && Apart(pList)
      requires 0 < i <= |nodes| && nodes[i - 1] == pos && cMove == i
      modifies this, pList, nodes`next, nodes`prev, pList.nodes`next
      ensures Valid() && pList.Valid() && Apart(pList)
      ensures nodes == old(nodes)[i..] && pList.nodes == old(pList.nodes) + old(nodes)[..i]
    {
      hide NoDup, Chained;
      ghost var a, b := pList.nodes, nodes;
      assert b == b[..i] + b[i..];
      SplitStaysApart(a, b, pList.m_Cache.pool, m_Cache.pool, b[..i], b[i..]);
      SpliceTail(pos, pList, i, cMove);
      CacheUntouched(m_Cache);
      CacheUntouched(pList.m_Cache);
    }

    /** Move the nodes up to and including a position to the tail of the other
        list; null moves nothing. */
    method MoveToTail(pos: Node?, pList: BaseList)
      requires Valid() && pList.Valid() && Apart(pList) && IsPosition(pos)
      modifies this, pList, nodes`next, nodes`prev, pList.nodes`next
      ensures Valid() && pList.Valid() && Apart(pList)
      ensures var i := old(AfterGap(pos));
              && nodes == old(nodes)[i..] && pList.nodes == old(pList.nodes) + old(nodes)[..i]
              && Contents() == old(Contents())[i..]
              && pList.Contents() == old(pList.Contents()) + old(Contents())[..i]
    {
      if pos == null {
        return;
      }
      ghost var a, b, i := pList.nodes, nodes, AfterGap(pos);
      var cMove := CountBack(pos);
      hide Valid, Apart, NoDup, Data;
      SpliceTailValid(pos, pList, i, cMove);
      ObjectsUntouched(a);
      ObjectsUntouched(b);
      SliceObjects(b, i);
      ConcatObjects(a, b[..i]);
    }

    /** Chain b[..i] by itself, and chain b[i..] with a hung onto it. */
    static ghost predicate CutBehind(b: seq<Node>, a: seq<Node>, i: nat)
      reads a, b
    {
      && (forall k {:trigger b[k].next} | 0 <= k < |b| ::
            b[k].next == if k + 1 == i then null else if k == |b| - 1 then At(a, 0) else b[k + 1])
      && (forall k {:trigger b[k].prev} | 0 <= k < |b| :: b[k].prev == if k == i then null else At(b, k - 1))
      && (forall k {:trigger a[k].next} | 0 <= k < |a| :: a[k].next == At(a, k + 1))
      && (forall k {:trigger a[k].prev} | 0 <= k < |a| :: a[k].prev == if k == 0 then At(b, |b| - 1) else a[k - 1])
    }

    /** Break the chain before the node p at position i. */
    static method BreakBefore(p: Node, pPrev: Node?, ghost b: seq<Node>, ghost a: seq<Node>, ghost i: nat)
      requires Joined(b, a) && NoDup(b) && (forall n | n in b :: n !in a)
      requires i < |b| && b[i] == p && pPrev == At(b, i - 1)
      modifies b`next, b`prev
      ensures CutBehind(b, a, i)
    {
      hide NoDup;
      NoDupApart(b, i);
      assert b[i] in b;
      if i > 0 {
        NoDupApart(b, i - 1);
        assert b[i - 1] in b;
      }
      if pPrev != null {
        pPrev.next := null;
      }
      p.prev := null;
    }

    lemma CutBehindIsTwoChains(pList: BaseList, b: seq<Node>, a: seq<Node>, i: nat)
      requires CutBehind(b, a, i) && i < |b|
      requires nodes == b[..i] && m_Count == |nodes|
      requires m_pLast == At(b, i - 1) && m_pFirst == if i > 0 then b[0] else null
      requires pList.nodes == b[i..] + a && pList.m_Count == |pList.nodes|
      requires pList.m_pLast == (if a == [] then b[|b| - 1] else a[|a| - 1]) && pList.m_pFirst == b[i]
      ensures Chained() && pList.Chained()
    {
      var back := b[i..];
      assert forall k | 0 <= k < |back| :: back[k] == b[i + k];
      pList.JoinedIsChained(back, a);
      forall k | 0 <= k < |nodes|
        ensures nodes[k].next == At(nodes, k + 1) && nodes[k].prev == At(nodes, k - 1)
      {
        assert nodes[k] == b[k];
      }
    }

    /** The mirror image for pos at position i: the ends of the lists as after
        the move of all from pos on to the head of the other list. */
    method HandOverBack(pos: Node, pList: BaseList, ghost i: nat)
      requires Chained() && pList.Chained() && NoDup(nodes) && NoDup(pList.nodes) && this != pList
      requires forall n | n in nodes :: n !in pList.nodes
      requires i < |nodes| && nodes[i] == pos
      modifies this`m_pFirst, this`m_pLast, pList`m_pFirst, pList`m_pLast, nodes`next, pList.nodes`prev
      ensures Joined(nodes, pList.nodes)
      ensures m_pLast == At(nodes, i - 1) && m_pFirst == if i > 0 then nodes[0] else null
      ensures pList.m_pFirst == pos
      ensures pList.m_pLast == if pList.nodes == [] then nodes[|nodes| - 1] else pList.nodes[|pList.nodes| - 1]
    {
      hide NoDup;
      pList.JoinOnto(this);
      if pList.m_pLast == null {
        pList.m_pLast := m_pLast;
      }
      m_pLast := pos.prev;
      if m_pLast == null {
        m_pFirst := null;
      }
      pList.m_pFirst := pos;
    }

    /** The chaining done by `MoveToHead`. */
    method SpliceHead(pos: Node, pList: BaseList, ghost i: nat, cMove: int)
      requires Chained() && pList.Chained() && NoDup(nodes) && NoDup(pList.nodes) && this != pList
      requires forall n | n in nodes :: n !in pList.nodes
      requires i < |nodes| && nodes[i] == pos && cMove == |nodes| - i
      modifies this, pList, nodes`next, nodes`prev, pList.nodes`prev
      ensures Chained() && pList.Chained()
      ensures nodes == old(nodes)[..i] && pList.nodes == old(nodes)[i..] + old(pList.nodes)
    {
      hide NoDup, CutBehind, Joined;
      ghost var a, b := pList.nodes, nodes;
      HandOverBack(pos, pList, i);
      BreakBefore(pos, m_pLast, b, a, i);
      m_Count := m_Count - cMove;
      pList.m_Count := pList.m_Count + cMove;
      nodes := b[..i];
      pList.nodes := b[i..] + a;
      CutBehindIsTwoChains(pList, b, a, i);
    }

    method SpliceHeadValid(pos: Node, pList: BaseList, ghost i: nat, cMove: int)
      requires Valid() && pList.Valid() && Apart(pList)
      requires i < |nodes| && nodes[i] == pos && cMove == |nodes| - i
      modifies this, pList, nodes`next, nodes`prev, pList.nodes`prev
      ensures Valid() && pList.Valid() && Apart(pList)
      ensures nodes == old(nodes)[..i] && pList.nodes == old(nodes)[i..] + old(pList.nodes)
    {
      hide NoDup, Chained;
      ghost var a, b := pList.nodes, nodes;
      assert b == b[..i] + b[i..];
      SplitStaysApart(a, b, pList.m_Cache.pool, m_Cache.pool, b[..i], b[i..]);
      SpliceHead(pos, pList, i, cMove);
      CacheUntouched(m_Cache);
      CacheUntouched(pList.m_Cache);
    }

    /** The mirror image: move the nodes from a position on to the head of the
        other list. */
    method MoveToHead(pos: Node?, pList: BaseList)
      requires Valid() && pList.Valid() && Apart(pList) && IsPosition(pos)
      modifies this, pList, nodes`next, nodes`prev, pList.nodes`prev
      ensures Valid() && pList.Valid() && Apart(pList)
      ensures var i := old(BeforeGap(pos));
              && nodes == old(nodes)[..i] && pList.nodes == old(nodes)[i..] + old(pList.nodes)
              && Contents() == old(Contents())[..i]
              && pList.Contents() == old(Contents())[i..] + old(pList.Contents())
    {
      if pos == null {
        return;
      }
      ghost var a, b, i := pList.nodes, nodes, BeforeGap(pos);
      var cMove := CountForward(pos);
      hide Valid, Apart, NoDup, Data;
      SpliceHeadValid(pos, pList, i, cMove);
      assert nodes == b[..i] && pList.nodes == b[i..] + a;
      ObjectsUntouched(a);
      ObjectsUntouched(b);
      SliceObjects(b, i);
      ConcatObjects(b[i..], a);
    }

    // ----- Whole-list insertions -----

    /** Nodes the list can still get hold of. */
    ghost function Budget(supply: nat): nat
      reads this, m_Cache
    {
      |m_Cache.pool| + supply
    }

    /** A list none of whose nodes was touched. */
    static twostate lemma ListUntouched(l: BaseList)
      requires old(l.Valid())
      requires unchanged(l) && unchanged(l.m_Cache)
      requires forall n | n in l.nodes || n in l.m_Cache.pool :: unchanged(n)
      ensures l.Valid() && l.Contents() == old(l.Contents())
    {
      hide NoDup;
      ChainUntouched(l);
      CacheUntouched(l.m_Cache);
      assert forall k | 0 <= k < |l.nodes| :: l.nodes[k] in l.nodes;
    }

    /** All the nodes the list has, spare ones included. */
    ghost function Region(): set<Node>
      reads this, m_Cache
    {
      (set n | n in nodes) + (set n | n in m_Cache.pool)
    }

    /** The nodes there were before are there still, in order, those before gap
        g in front and the others at the end. */
    static ghost predicate KeptAround(q: seq<Node>, before: seq<Node>, g: nat, added: nat) {
      && g <= |before| && |q| == |before| + added
      && q[..g] == before[..g] && q[g + added..] == before[g..]
    }

    static lemma KeptByInsertion(q: seq<Node>, before: seq<Node>, g: nat, added: nat, i: nat, p: Node)
      requires KeptAround(q, before, g, added) && g <= i <= g + added
      ensures KeptAround(InsertAt<Node>(q, i, p), before, g, added + 1)
    {
      var r := InsertAt<Node>(q, i, p);
      assert forall k | 0 <= k < g :: r[k] == q[..g][k];
      var kept, rest := r[g + added + 1..], q[g + added..];
      assert forall k | 0 <= k < |rest| :: kept[k] == rest[k];
    }

    /** Objects mid were added at gap g, to a list that had the nodes before and
        the objects was. */
    static ghost predicate Grown(q: seq<Node>, c: seq<nat>, before: seq<Node>, was: seq<nat>, g: nat, mid: seq<nat>) {
      && |before| == |was| && KeptAround(q, before, g, |mid|)
      && c == was[..g] + mid + was[g..]
    }

    static lemma GrownMeans(q: seq<Node>, c: seq<nat>, before: seq<Node>, was: seq<nat>, g: nat, mid: seq<nat>)
      requires Grown(q, c, before, was, g, mid)
      ensures |q| == |before| + |mid| && KeptAround(q, before, g, |mid|)
      ensures g <= |was| && c == was[..g] + mid + was[g..]
    {
    }

    static lemma GrownAtTheFront(q: seq<Node>, c: seq<nat>, before: seq<Node>, was: seq<nat>, mid: seq<nat>)
      requires Grown(q, c, before, was, 0, mid)
      ensures KeptAround(q, before, 0, |mid|) && c == mid + was
    {
    }

    static lemma GrownAtTheEnd(q: seq<Node>, c: seq<nat>, before: seq<Node>, was: seq<nat>, mid: seq<nat>)
      requires |before| == |was| && Grown(q, c, before, was, |was|, mid)
      ensures KeptAround(q, before, |was|, |mid|) && c == was + mid
    {
    }

    static lemma GrownLength(q: seq<Node>, c: seq<nat>, before: seq<Node>, was: seq<nat>, g: nat, mid: seq<nat>)
      requires Grown(q, c, before, was, g, mid)
      ensures |q| == |before| + |mid|
    {
    }

    static lemma GrownAtFirst(q: seq<Node>, c: seq<nat>, g: nat)
      requires |q| == |c| && g <= |q|
      ensures Grown(q, c, q, c, g, [])
    {
    }

    static lemma GrownNext(q: seq<Node>, c: seq<nat>, before: seq<Node>, was: seq<nat>,
                           g: nat, source: seq<nat>, k: nat, p: Node)
      requires k < |source| && Grown(q, c, before, was, g, source[..k])
      ensures g + k <= |q| == |c| == |before| + k
      ensures Grown(InsertAt<Node>(q, g + k, p), InsertAt<nat>(c, g + k, source[k]), before, was, g, source[..k + 1])
    {
      hide KeptAround, InsertAt;
      GrownMeans(q, c, before, was, g, source[..k]);
      KeptByInsertion(q, before, g, k, g + k, p);
      InsertNext<nat>(was[..g], source, was[g..], k);
    }

    static lemma GrownPrevious(q: seq<Node>, c: seq<nat>, before: seq<Node>, was: seq<nat>,
                               g: nat, source: seq<nat>, k: nat, p: Node)
      requires k < |source| && Grown(q, c, before, was, g, source[k + 1..])
      ensures g <= |q| == |c| == |before| + (|source| - k - 1)
      ensures Grown(InsertAt<Node>(q, g, p), InsertAt<nat>(c, g, source[k]), before, was, g, source[k..])
    {
      hide KeptAround, InsertAt;
      GrownMeans(q, c, before, was, g, source[k + 1..]);
      KeptByInsertion(q, before, g, |source| - k - 1, g, p);
      InsertPrevious<nat>(was[..g], source, was[g..], k);
    }

    lemma ApartMeans(other: BaseList)
      requires Apart(other)
      ensures this != other && m_Cache != other.m_Cache
      ensures forall n | n in other.nodes || n in other.m_Cache.pool :: n !in nodes && n !in m_Cache.pool
    {
    }

    /** New nodes come from the cache or are new. */
    twostate lemma StaysApart(other: BaseList)
      requires unchanged(other) && unchanged(other.m_Cache)
      requires old(Apart(other))
      requires forall n | n in nodes :: n in old(nodes) || n in old(m_Cache.pool) || fresh(n)
      requires forall n | n in m_Cache.pool :: n in old(m_Cache.pool)
      ensures Apart(other) && fresh(Region() - old(Region()))
    {
    }

    /** Where an inserted node is found. */
    lemma PlacedAt(before: seq<Node>, gap: nat, p: Node)
      requires gap <= |before| && nodes == InsertAt<Node>(before, gap, p) && NoDup(nodes)
      ensures p in nodes && IndexOf<Node>(nodes, p) == gap
    {
      assert nodes[gap] == p;
      IndexUnique<Node>(nodes, gap);
    }

    lemma ObjectAt(k: nat)
      requires k < |nodes|
      ensures Contents()[k] == nodes[k].data
    {
    }

    method CopyToTail(pList: BaseList, pos: Node, ghost k: nat, supply: nat,
                      ghost before: seq<Node>, ghost was: seq<nat>) returns (p: Node?, left: nat)
      requires Valid() && pList.Valid() && Apart(pList)
      requires k < |pList.nodes| && pList.nodes[k] == pos
      requires |before| == |was| && Grown(nodes, Contents(), before, was, |was|, pList.Contents()[..k])
      modifies this, m_Cache, Region()
      ensures Valid() && pList.Valid() && Apart(pList) && fresh(Region() - old(Region()))
      ensures pList.nodes == old(pList.nodes) && pList.Contents() == old(pList.Contents())
      ensures pList.AfterGap(pos) == k + 1 && pList.BeforeGap(pos) == k
      ensures p == null <==> old(Budget(supply)) == 0
      ensures p != null ==>
                && Budget(left) == old(Budget(supply)) - 1
                && Grown(nodes, Contents(), before, was, |was|, pList.Contents()[..k + 1])
      ensures p == null ==> nodes == old(nodes) && Contents() == old(Contents())
    {
      hide NoDup, Chained, InsertAt, Contents, Data, Apart, Grown, KeptAround;
      ApartMeans(pList);
      IndexUnique<Node>(pList.nodes, k);
      pList.ObjectAt(k);
      GrownLength(nodes, Contents(), before, was, |was|, pList.Contents()[..k]);
      left := if m_Cache.m_iUsed == 0 && supply > 0 then supply - 1 else supply;
      p := AddTailI(pos.data, supply > 0);
      ListUntouched(pList);
      if p != null {
        InsertMembers<Node>(old(nodes), old(|nodes|), p);
        GrownNext(old(nodes), old(Contents()), before, was, |was|, pList.Contents(), k, p);
      }
      StaysApart(pList);
    }

    method CopyToHead(pList: BaseList, pos: Node, ghost k: nat, supply: nat,
                      ghost before: seq<Node>, ghost was: seq<nat>) returns (p: Node?, left: nat)
      requires Valid() && pList.Valid() && Apart(pList)
      requires k < |pList.nodes| && pList.nodes[k] == pos
      requires Grown(nodes, Contents(), before, was, 0, pList.Contents()[k + 1..])
      modifies this, m_Cache, Region()
      ensures Valid() && pList.Valid() && Apart(pList) && fresh(Region() - old(Region()))
      ensures pList.nodes == old(pList.nodes) && pList.Contents() == old(pList.Contents())
      ensures pList.AfterGap(pos) == k + 1 && pList.BeforeGap(pos) == k
      ensures p == null <==> old(Budget(supply)) == 0
      ensures p != null ==>
                && Budget(left) == old(Budget(supply)) - 1
                && Grown(nodes, Contents(), before, was, 0, pList.Contents()[k..])
      ensures p == null ==> nodes == old(nodes) && Contents() == old(Contents())
    {
      hide NoDup, Chained, InsertAt, Contents, Data, Apart, Grown, KeptAround;
      ApartMeans(pList);
      IndexUnique<Node>(pList.nodes, k);
      pList.ObjectAt(k);
      left := if m_Cache.m_iUsed == 0 && supply > 0 then supply - 1 else supply;
      p := AddHeadI(pos.data, supply > 0);
      ListUntouched(pList);
      if p != null {
        InsertMembers<Node>(old(nodes), 0, p);
        GrownPrevious(old(nodes), old(Contents()), before, was, 0, pList.Contents(), k, p);
      }
      StaysApart(pList);
    }

    method CopyAfter(pList: BaseList, pos: Node, at: Node?, ghost k: nat, supply: nat,
                     ghost before: seq<Node>, ghost was: seq<nat>, ghost g: nat) returns (p: Node?, left: nat)
      requires Valid() && pList.Valid() && Apart(pList) && IsPosition(at) && AfterGap(at) == g + k
      requires k < |pList.nodes| && pList.nodes[k] == pos
      requires Grown(nodes, Contents(), before, was, g, pList.Contents()[..k])
      modifies this, m_Cache, Region()
      ensures Valid() && pList.Valid() && Apart(pList) && fresh(Region() - old(Region()))
      ensures pList.nodes == old(pList.nodes) && pList.Contents() == old(pList.Contents())
      ensures pList.AfterGap(pos) == k + 1 && pList.BeforeGap(pos) == k
      ensures p == null <==> old(Budget(supply)) == 0
      ensures p != null ==>
                && Budget(left) == old(Budget(supply)) - 1
                && Grown(nodes, Contents(), before, was, g, pList.Contents()[..k + 1])
      ensures p == null ==> nodes == old(nodes) && Contents() == old(Contents())
      ensures p != null ==> IsPosition(p) && AfterGap(p) == g + k + 1
    {
      hide NoDup, Chained, InsertAt, Contents, Data, Apart, Grown, KeptAround;
      ApartMeans(pList);
      IndexUnique<Node>(pList.nodes, k);
      pList.ObjectAt(k);
      left := if m_Cache.m_iUsed == 0 && supply > 0 then supply - 1 else supply;
      p := AddAfterI(at, pos.data, supply > 0);
      ListUntouched(pList);
      if p != null {
        InsertMembers<Node>(old(nodes), g + k, p);
        GrownNext(old(nodes), old(Contents()), before, was, g, pList.Contents(), k, p);
      }
      StaysApart(pList);
      if p != null {
        PlacedAt(old(nodes), g + k, p);
      }
    }

    method CopyBefore(pList: BaseList, pos: Node, at: Node?, ghost k: nat, supply: nat,
                      ghost before: seq<Node>, ghost was: seq<nat>, ghost g: nat) returns (p: Node?, left: nat)
      requires Valid() && pList.Valid() && Apart(pList) && IsPosition(at) && BeforeGap(at) == g
      requires k < |pList.nodes| && pList.nodes[k] == pos
      requires Grown(nodes, Contents(), before, was, g, pList.Contents()[k + 1..])
      modifies this, m_Cache, Region()
      ensures Valid() && pList.Valid() && Apart(pList) && fresh(Region() - old(Region()))
      ensures pList.nodes == old(pList.nodes) && pList.Contents() == old(pList.Contents())
      ensures pList.AfterGap(pos) == k + 1 && pList.BeforeGap(pos) == k
      ensures p == null <==> old(Budget(supply)) == 0
      ensures p != null ==>
                && Budget(left) == old(Budget(supply)) - 1
                && Grown(nodes, Contents(), before, was, g, pList.Contents()[k..])
      ensures p == null ==> nodes == old(nodes) && Contents() == old(Contents())
      ensures p != null ==> IsPosition(p) && BeforeGap(p) == g
    {
      hide NoDup, Chained, InsertAt, Contents, Data, Apart, Grown, KeptAround;
      ApartMeans(pList);
      IndexUnique<Node>(pList.nodes, k);
      pList.ObjectAt(k);
      left := if m_Cache.m_iUsed == 0 && supply > 0 then supply - 1 else supply;
      p := AddBeforeI(at, pos.data, supply > 0);
      ListUntouched(pList);
      if p != null {
        InsertMembers<Node>(old(nodes), g, p);
        GrownPrevious(old(nodes), old(Contents()), before, was, g, pList.Contents(), k, p);
      }
      StaysApart(pList);
      if p != null {
        PlacedAt(old(nodes), g, p);
      }
    }

    /** Add the other list's objects at the tail, one by one. `supply` is the
        number of nodes memory allows; on failure the objects that could be
        added, from the head on, have been. */
    method AddTail(pList: BaseList, supply: nat) returns (ok: bool, ghost added: nat)
      requires Valid() && pList.Valid() && Apart(pList)
      modifies this, m_Cache, Region()
      ensures Valid() && pList.Valid() && Apart(pList) && fresh(Region() - old(Region()))
      ensures pList.nodes == old(pList.nodes) && pList.Contents() == old(pList.Contents())
      ensures added == if |pList.nodes| <= old(Budget(supply)) then |pList.nodes| else old(Budget(supply))
      ensures ok <==> added == |pList.nodes|
      ensures KeptAround(nodes, old(nodes), old(|nodes|), added)
      ensures Contents() == old(Contents()) + pList.Contents()[..added]
    {
      hide Valid, Apart, Data, InsertAt, Contents, Budget, AfterGap, BeforeGap, IsPosition, KeptAround, Grown;
      ghost var source, m := pList.Contents(), |pList.nodes|;
      ghost var region, theirs, budget := Region(), pList.nodes, Budget(supply);
      ghost var before, was, g := nodes, Contents(), |nodes|;
      added := 0;
      var left := supply;
      var pos := pList.GetHeadPositionI();
      GrownAtFirst(before, was, g);
      while pos != null
        invariant Valid() && pList.Valid() && Apart(pList) && fresh(Region() - region)
        invariant pList.nodes == theirs && pList.Contents() == source
        invariant added <= m && pos == At(pList.nodes, added)
        invariant Budget(left) == budget - added
        invariant Grown(nodes, Contents(), before, was, g, source[..added])
        decreases m - added
      {
        var p;
        p, left := CopyToTail(pList, pos, added, left, before, was);
        if p == null {
          break;
        }
        pos := pList.Next(pos);
        added := added + 1;
      }
      GrownAtTheEnd(nodes, Contents(), before, was, source[..added]);
      ok := pos == null;
    }

    /** Add the other list's objects at the head, from its tail backwards so
        that their order is kept. */
    method AddHead(pList: BaseList, supply: nat) returns (ok: bool, ghost added: nat)
      requires Valid() && pList.Valid() && Apart(pList)
      modifies this, m_Cache, Region()
      ensures Valid() && pList.Valid() && Apart(pList) && fresh(Region() - old(Region()))
      ensures pList.nodes == old(pList.nodes) && pList.Contents() == old(pList.Contents())
      ensures added == if |pList.nodes| <= old(Budget(supply)) then |pList.nodes| else old(Budget(supply))
      ensures ok <==> added == |pList.nodes|
      ensures KeptAround(nodes, old(nodes), 0, added)
      ensures Contents() == pList.Contents()[|pList.nodes| - added..] + old(Contents())
    {
      hide Valid, Apart, Data, InsertAt, Contents, Budget, AfterGap, BeforeGap, IsPosition, KeptAround, Grown;
      ghost var source, m := pList.Contents(), |pList.nodes|;
      ghost var region, theirs, budget := Region(), pList.nodes, Budget(supply);
      ghost var before, was, g := nodes, Contents(), 0;
      added := 0;
      var left := supply;
      var pos := pList.GetTailPositionI();
      GrownAtFirst(before, was, g);
      assert source[m..] == [];
      while pos != null
        invariant Valid() && pList.Valid() && Apart(pList) && fresh(Region() - region)
        invariant pList.nodes == theirs && pList.Contents() == source
        invariant added <= m && pos == At(pList.nodes, m - added - 1)
        invariant Budget(left) == budget - added
        invariant Grown(nodes, Contents(), before, was, g, source[m - added..])
        decreases m - added
      {
        var p;
        p, left := CopyToHead(pList, pos, m - added - 1, left, before, was);
        if p == null {
          break;
        }
        pos := pList.Prev(pos);
        added := added + 1;
      }
      GrownAtTheFront(nodes, Contents(), before, was, source[m - added..]);
      ok := pos == null;
    }

    /** Add the other list's objects after a position, which follows along. */
    method AddAfter(at: Node?, pList: BaseList, supply: nat) returns (ok: bool, ghost added: nat)
      requires Valid() && pList.Valid() && Apart(pList) && IsPosition(at)
      modifies this, m_Cache, Region()
      ensures Valid() && pList.Valid() && Apart(pList) && fresh(Region() - old(Region()))
      ensures pList.nodes == old(pList.nodes) && pList.Contents() == old(pList.Contents())
      ensures added == if |pList.nodes| <= old(Budget(supply)) then |pList.nodes| else old(Budget(supply))
      ensures ok <==> added == |pList.nodes|
      ensures KeptAround(nodes, old(nodes), old(AfterGap(at)), added)
      ensures var g := old(AfterGap(at));
              Contents() == old(Contents())[..g] + pList.Contents()[..added] + old(Contents())[g..]
    {
      hide Valid, Apart, Data, InsertAt, Contents, Budget, AfterGap, BeforeGap, IsPosition, KeptAround, Grown;
      ghost var source, m := pList.Contents(), |pList.nodes|;
      ghost var region, theirs, budget := Region(), pList.nodes, Budget(supply);
      ghost var before, was, g := nodes, Contents(), AfterGap(at);
      added := 0;
      var left, p := supply, at;
      var pos := pList.GetHeadPositionI();
      GrownAtFirst(before, was, g);
      while pos != null
        invariant Valid() && pList.Valid() && Apart(pList) && fresh(Region() - region)
        invariant pList.nodes == theirs && pList.Contents() == source
        invariant added <= m && pos == At(pList.nodes, added)
        invariant IsPosition(p) && AfterGap(p) == g + added
        invariant Budget(left) == budget - added
        invariant Grown(nodes, Contents(), before, was, g, source[..added])
        decreases m - added
      {
        p, left := CopyAfter(pList, pos, p, added, left, before, was, g);
        if p == null {
          break;
        }
        pos := pList.Next(pos);
        added := added + 1;
      }
      GrownMeans(nodes, Contents(), before, was, g, source[..added]);
      ok := pos == null;
    }

    /** The mirror image, from the other list's tail backwards. */
    method AddBefore(at: Node?, pList: BaseList, supply: nat) returns (ok: bool, ghost added: nat)
      requires Valid() && pList.Valid() && Apart(pList) && IsPosition(at)
      modifies this, m_Cache, Region()
      ensures Valid() && pList.Valid() && Apart(pList) && fresh(Region() - old(Region()))
      ensures pList.nodes == old(pList.nodes) && pList.Contents() == old(pList.Contents())
      ensures added == if |pList.nodes| <= old(Budget(supply)) then |pList.nodes| else old(Budget(supply))
      ensures ok <==> added == |pList.nodes|
      ensures KeptAround(nodes, old(nodes), old(BeforeGap(at)), added)
      ensures var g := old(BeforeGap(at));
              Contents() == old(Contents())[..g] + pList.Contents()[|pList.nodes| - added..] + old(Contents())[g..]
    {
      hide Valid, Apart, Data, InsertAt, Contents, Budget, AfterGap, BeforeGap, IsPosition, KeptAround, Grown;
      ghost var source, m := pList.Contents(), |pList.nodes|;
      ghost var region, theirs, budget := Region(), pList.nodes, Budget(supply);
      ghost var before, was, g := nodes, Contents(), BeforeGap(at);
      added := 0;
      var left, p := supply, at;
      var pos := pList.GetTailPositionI();
      GrownAtFirst(before, was, g);
      assert source[m..] == [];
      while pos != null
        invariant Valid() && pList.Valid() && Apart(pList) && fresh(Region() - region)
        invariant pList.nodes == theirs && pList.Contents() == source
        invariant added <= m && pos == At(pList.nodes, m - added - 1)
        invariant IsPosition(p) && BeforeGap(p) == g
        invariant Budget(left) == budget - added
        invariant Grown(nodes, Contents(), before, was, g, source[m - added..])
        decreases m - added
      {
        p, left := CopyBefore(pList, pos, p, m - added - 1, left, before, was, g);
        if p == null {
          break;
        }
        pos := pList.Prev(pos);
        added := added + 1;
      }
      GrownMeans(nodes, Contents(), before, was, g, source[m - added..]);
      ok := pos == null;
    }
  }
}
