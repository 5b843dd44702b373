/**
 malloc and free for character blocks. `live` is the set of blocks allocated and not yet freed;
 freeing anything else violates a precondition, so a verified caller never frees a block twice.
 */
module Memory {

  class Heap {
    ghost var live: set<array<char>>

    constructor ()
      ensures live == {}
    {
      live := {};
    }

    method Malloc(size: nat) returns (p: array<char>)
      modifies this
      ensures fresh(p) && p.Length == size
      ensures live == old(live) + {p} && p !in old(live)
    {
      p := new char[size];
      assert p !in live;
      live := live + {p};
    }

    method Free(p: array<char>)
      requires p in live
      modifies this
      ensures live == old(live) - {p}
    {
      live := live - {p};
    }
  }
}
