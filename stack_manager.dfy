/** Coroutine stacks (include/ctx/stack_manager.h, src/stack_manager.cc): a handle that points
    at the high end of a block, and an intrusive LIFO free list whose links live in the first
    word of each free block. Addresses are integers; 0 is `nullptr`. */
module StackManagement {
  import opened Wrappers

  /** `kStackSize`: every block is one mebibyte. */
  const StackSize: int := 1024 * 1024

  type Address = nat

  const Null: Address := 0

  /** `std::bad_alloc`, the only error of this module. */
  datatype AllocError = BadAlloc

  /** `stack_handle`: `stack` is the top of the block (`mem + kStackSize`), where a
      downward-growing stack starts. */
  datatype StackHandle = StackHandle(stack: Address)

  /** Every handle the source builds is null or lies one block size above a non-null block. */
  predicate WellFormed(h: StackHandle) {
    h.stack == Null || h.stack > StackSize
  }

  /** `stack_handle::get_stack`. */
  function GetStack(h: StackHandle): Address {
    h.stack
  }

  /** `stack_handle::get_stack_end`: the low end of the block, or null for a null handle. */
  function GetStackEnd(h: StackHandle): (r: Address)
    requires WellFormed(h)
    ensures r == Null <==> GetStack(h) == Null
    ensures r != Null ==> r + StackSize == GetStack(h)
  {
    if h.stack == Null then Null else h.stack - StackSize
  }

  /** `stack_handle::get_allocated_mem`: the address the block was allocated at. */
  function GetAllocatedMem(h: StackHandle): (mem: Address)
    requires WellFormed(h)
    ensures mem == Null <==> GetStack(h) == Null
    ensures mem != Null ==> GetStack(h) == mem + StackSize
  {
    GetStackEnd(h)
  }

  /** `stack_handle()`: the default handle holds no block. */
  function NullHandle(): (h: StackHandle)
    ensures WellFormed(h)
    ensures GetStack(h) == Null && GetStackEnd(h) == Null && GetAllocatedMem(h) == Null
  {
    StackHandle(Null)
  }

  /** `stack_handle(void* allocated_mem)`, through `set_allocated_mem`: the handle of a block
      gives the block back (the round trip), and a null block gives the null handle. */
  function FromAllocatedMem(mem: Address): (h: StackHandle)
    ensures WellFormed(h) && GetAllocatedMem(h) == mem
    ensures mem != Null ==> GetStack(h) == mem + StackSize
    ensures mem == Null ==> h == NullHandle()
  {
    StackHandle(if mem == Null then Null else mem + StackSize)
  }

  /** The other round trip: every well-formed handle is the handle of the block it reports,
      so `get_stack` and `get_allocated_mem` determine each other. */
  lemma HandleRoundTrip(h: StackHandle)
    requires WellFormed(h)
    ensures FromAllocatedMem(GetAllocatedMem(h)) == h
  {
  }

  /** `allocate`: `malloc` is outside the model, so its result is the parameter; a null result
      raises `bad_alloc`, any other is returned as it is. */
  function Allocate(mallocResult: Address): (r: Result<Address, AllocError>)
    ensures r.Err? <==> mallocResult == Null
    ensures r.Ok? ==> r.value == mallocResult
  {
    if mallocResult == Null then Err(BadAlloc) else Ok(mallocResult)
  }

  /** `blocks` is the chain that starts at `head` and follows the link word stored at the start
      of each block (`node::next_`), ending in null. */
  ghost predicate Linked(head: Address, blocks: seq<Address>, words: map<Address, Address>)
    decreases |blocks|
  {
    if blocks == [] then head == Null
    else
      head == blocks[0] && head != Null && head in words && Linked(words[head], blocks[1..], words)
  }

  /** Writing the link word of a block that is not on a chain leaves the chain as it is. */
  lemma {:induction false} LinkedFrame(head: Address, blocks: seq<Address>, words: map<Address, Address>, p: Address, x: Address)
    requires p !in blocks
    ensures Linked(head, blocks, words[p := x]) == Linked(head, blocks, words)
    decreases |blocks|
  {
    if blocks != [] {
      assert blocks[0] != p;
      if blocks[0] in words {
        LinkedFrame(words[blocks[0]], blocks[1..], words, p, x);
        assert words[p := x][blocks[0]] == words[blocks[0]];
      }
    }
  }

  ghost predicate Distinct(blocks: seq<Address>) {
    forall i, j :: 0 <= i < j < |blocks| ==> blocks[i] != blocks[j]
  }

  /** `stack_manager::node` used as the list head `list_`: `next` is `list_.next_`, and `words`
      holds the link word of every block that has one. `Blocks` is the list, head first. */
  class FreeList {
    var next: Address
    var words: map<Address, Address>
    ghost var Blocks: seq<Address>

    ghost predicate Valid()
      reads this
    {
      Linked(next, Blocks, words) && Distinct(Blocks)
    }

    /** `node* next_{nullptr}`: the list starts empty. */
    constructor ()
      ensures Valid() && Blocks == [] && next == Null
    {
      next := Null;
      words := map[];
      Blocks := [];
    }

    /** `node::take`: the source asserts the list is not empty, then unlinks and returns the
        head block. */
    method Take() returns (p: Address)
      requires Valid() && next != Null
      modifies this
      ensures Valid()
      ensures old(Blocks) != [] && p == old(Blocks)[0] && p != Null
      ensures Blocks == old(Blocks)[1..] && words == old(words)
    {
      p := next;
      next := words[next];
      Blocks := Blocks[1..];
    }

    /** `node::push`: the block's first word is overwritten with the old head, and the block
        becomes the head. The source writes through `p`, so `p` must not be null, and a block
        already on the list would be corrupted (a double free). */
    method Push(p: Address)
      requires Valid() && p != Null && p !in Blocks
      modifies this
      ensures Valid()
      ensures Blocks == [p] + old(Blocks) && next == p
      ensures words == old(words)[p := old(next)]
    {
      LinkedFrame(next, Blocks, words, p, next);
      words := words[p := next];
      next := p;
      Blocks := [p] + Blocks;
    }
  }

  /** A block pushed and then taken again is the one handed back, and the list is as it was:
      the last block freed is the first one reused. */
  method PushThenTake(list: FreeList, p: Address) returns (q: Address)
    requires list.Valid() && p != Null && p !in list.Blocks
    modifies list
    ensures list.Valid() && q == p
    ensures list.Blocks == old(list.Blocks) && list.next == old(list.next)
  {
    list.Push(p);
    q := list.Take();
  }

  /** `stack_manager`: the free list, under a mutex that the model leaves out. */
  class StackManager {
    const list: FreeList

    ghost predicate Valid()
      reads this, list
    {
      list.Valid()
    }

    constructor ()
      ensures Valid() && fresh(list) && list.Blocks == []
    {
      list := new FreeList();
    }

    /** `stack_manager::alloc`: reuses the most recently freed block when there is one
        (`mallocResult` is then not used); otherwise allocates a fresh block and leaves the list
        as it is. A live `malloc` result is never a block that is still on the free list. */
    method Alloc(mallocResult: Address) returns (r: Result<StackHandle, AllocError>)
      requires Valid() && mallocResult !in list.Blocks
      modifies list
      ensures Valid()
      ensures old(list.Blocks) != [] ==>
        r == Ok(FromAllocatedMem(old(list.Blocks)[0])) && list.Blocks == old(list.Blocks)[1..]
      ensures old(list.Blocks) == [] ==> unchanged(list)
      ensures old(list.Blocks) == [] && mallocResult == Null ==> r == Err(BadAlloc)
      ensures old(list.Blocks) == [] && mallocResult != Null ==> r == Ok(FromAllocatedMem(mallocResult))
      ensures r.Ok? ==> WellFormed(r.value) && GetStack(r.value) != Null
    {
      if list.next != Null {
        var p := list.Take();
        return Ok(FromAllocatedMem(p));
      }
      var mem := Allocate(mallocResult);
      if mem.Err? {
        return Err(mem.error);
      }
      r := Ok(FromAllocatedMem(mem.value));
    }

    /** `stack_manager::dealloc`: the block the handle was built from goes to the head of the
        list; nothing is freed while the manager lives. `push` writes through the block
        address, so it must not be null. */
    method Dealloc(s: StackHandle)
      requires Valid() && WellFormed(s) && GetAllocatedMem(s) != Null && GetAllocatedMem(s) !in list.Blocks
      modifies list
      ensures Valid()
      ensures list.Blocks == [GetAllocatedMem(s)] + old(list.Blocks)
    {
      list.Push(GetAllocatedMem(s));
    }

    /** `~stack_manager` (src/stack_manager.cc): takes every block off the list and frees it;
        `freed` is the sequence of blocks passed to `std::free`, in order. */
    method Drain() returns (freed: seq<Address>)
      requires Valid()
      modifies list
      ensures Valid() && list.Blocks == [] && list.next == Null
      ensures freed == old(list.Blocks)
    {
      freed := [];
      while list.next != Null
        invariant list.Valid()
        invariant freed + list.Blocks == old(list.Blocks)
        decreases |list.Blocks|
      {
        var p := list.Take();
        freed := freed + [p];
      }
      assert list.Blocks == [];
    }
  }
}
