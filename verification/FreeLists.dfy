/** Free lists threaded through the cdr fields of a node pool. */
module FreeLists {

  /** Walking cdr from head visits the nodes of chain, in order, and ends at nil. */
  ghost predicate FreeChain(nil: int, cdr: seq<int>, head: int, chain: seq<int>)
    decreases |chain|
  {
    if |chain| == 0 then head == nil
    else head == chain[0] && 0 <= head < |cdr| && FreeChain(nil, cdr, cdr[head], chain[1..])
  }

  ghost predicate Descending(chain: seq<int>) {
    forall i, j :: 0 <= i < j < |chain| ==> chain[i] > chain[j]
  }

  /** Memories that agree on the nodes of a chain have the same chain. */
  lemma {:induction false} ChainSame(nil: int, cdr: seq<int>, cdr': seq<int>, head: int, chain: seq<int>)
    requires FreeChain(nil, cdr, head, chain) && |cdr'| == |cdr|
    requires forall x :: x in chain && 0 <= x < |cdr| ==> cdr'[x] == cdr[x]
    ensures FreeChain(nil, cdr', head, chain)
    decreases |chain|
  {
    if |chain| > 0 {
      assert chain[0] in chain && forall x :: x in chain[1..] ==> x in chain;
      ChainSame(nil, cdr, cdr', cdr[head], chain[1..]);
    }
  }

  lemma ChainPush(nil: int, cdr: seq<int>, i: int, head: int, chain: seq<int>)
    requires FreeChain(nil, cdr, head, chain) && Descending(chain) && 0 <= i < |cdr|
    requires forall x :: x in chain ==> x < i
    ensures FreeChain(nil, cdr[i := head], i, [i] + chain) && Descending([i] + chain)
  {
    ChainSame(nil, cdr, cdr[i := head], head, chain);
    assert ([i] + chain)[1..] == chain;
    forall k | 0 <= k < |chain| ensures chain[k] < i {
      assert chain[k] in chain;
    }
  }
}
