/**
  Handing the firmware's free memory to the kernel allocator (src/main.rs): ask for a large block,
  repeat while that works, halve the size when it does not, and stop below two pages. The firmware
  allocator answers a request exactly when a long enough run of free pages exists (AllocatePages,
  section 7.2 of the UEFI Specification 2.10), and may choose any such run.
 */
module MemoryGrab {
  import opened Options

  const PAGE := 4096
  const MIN_ALLOCATE := 8192
  const MAX_ALLOCATE := 0x8000_0000

  /** A block of whole pages that was taken; `first` is its page number. */
  datatype Block = Block(first: nat, pages: nat)

  predicate RunAt(free: set<nat>, p: nat, pages: nat) {
    forall q :: p <= q < p + pages ==> q in free
  }

  predicate HasRun(free: set<nat>, pages: nat) {
    exists p :: p in free && RunAt(free, p, pages)
  }

  predicate Within(b: Block, q: nat) { b.first <= q < b.first + b.pages }

  function PagesOf(b: Block): set<nat> {
    set q: nat | q < b.first + b.pages && Within(b, q)
  }

  function AllPages(blocks: seq<Block>): set<nat> {
    if blocks == [] then {} else AllPages(blocks[..|blocks| - 1]) + PagesOf(blocks[|blocks| - 1])
  }

  function TotalPages(blocks: seq<Block>): nat {
    if blocks == [] then 0 else TotalPages(blocks[..|blocks| - 1]) + blocks[|blocks| - 1].pages
  }

  predicate Separate(blocks: seq<Block>) {
    forall i, j :: 0 <= i < j < |blocks| ==> PagesOf(blocks[i]) !! PagesOf(blocks[j])
  }

  lemma {:induction false} BlockSize(first: nat, pages: nat)
    ensures |PagesOf(Block(first, pages))| == pages
  {
    if pages == 0 {
      assert PagesOf(Block(first, 0)) == {};
    } else {
      BlockSize(first, pages - 1);
      assert PagesOf(Block(first, pages)) == PagesOf(Block(first, pages - 1)) + {first + pages - 1};
    }
  }

  lemma {:induction false} BlockWithin(blocks: seq<Block>, i: nat)
    requires i < |blocks|
    ensures PagesOf(blocks[i]) <= AllPages(blocks)
  {
    if i < |blocks| - 1 {
      BlockWithin(blocks[..|blocks| - 1], i);
    }
  }

  lemma LongerRun(free: set<nat>, short: nat, long: nat)
    requires short <= long && !HasRun(free, short)
    ensures !HasRun(free, long)
  {
    assert forall p :: p in free && RunAt(free, p, long) ==> RunAt(free, p, short);
  }

  lemma SinglePage(free: set<nat>)
    ensures HasRun(free, 1) <==> free != {}
  {
    if free != {} {
      var p :| p in free;
      assert RunAt(free, p, 1);
    }
  }

  /** What has been taken so far, and what is left, make up what there was. */
  ghost predicate Conserved(initial: set<nat>, free: set<nat>, blocks: seq<Block>) {
    && free !! AllPages(blocks) && free + AllPages(blocks) == initial
    && |free| + TotalPages(blocks) == |initial|
    && Separate(blocks)
  }

  lemma TakeCount(free: set<nat>, b: Block)
    requires RunAt(free, b.first, b.pages)
    ensures PagesOf(b) <= free && |free - PagesOf(b)| == |free| - b.pages
  {
    BlockSize(b.first, b.pages);
    assert PagesOf(b) <= free;
    assert free == (free - PagesOf(b)) + PagesOf(b);
  }

  lemma TakeSeparate(free: set<nat>, blocks: seq<Block>, b: Block)
    requires Separate(blocks) && free !! AllPages(blocks) && PagesOf(b) <= free
    ensures Separate(blocks + [b])
  {
    forall i | 0 <= i < |blocks| ensures PagesOf(blocks[i]) !! PagesOf(b) {
      BlockWithin(blocks, i);
    }
  }

  lemma TakeKeeps(initial: set<nat>, free: set<nat>, blocks: seq<Block>, b: Block)
    requires Conserved(initial, free, blocks) && RunAt(free, b.first, b.pages)
    ensures Conserved(initial, free - PagesOf(b), blocks + [b])
  {
    var all := blocks + [b];
    assert all[..|all| - 1] == blocks;
    TakeCount(free, b);
    TakeSeparate(free, blocks, b);
    assert AllPages(all) == AllPages(blocks) + PagesOf(b);
  }

  /** The whole pages of an attempted size. */
  function WholePages(attempt: nat): nat { attempt / PAGE }

  /** What a refused last request says about the pages left. */
  lemma NothingLeft(free: set<nat>, attempt: nat)
    requires attempt / 2 < MIN_ALLOCATE
    requires WholePages(attempt) == 0 || !HasRun(free, WholePages(attempt))
    ensures attempt >= MIN_ALLOCATE ==> !HasRun(free, 3)
    ensures PAGE <= attempt < MIN_ALLOCATE ==> free == {}
  {
    if attempt >= MIN_ALLOCATE {
      LongerRun(free, WholePages(attempt), 3);
    } else if attempt >= PAGE {
      SinglePage(free);
    }
  }

  /** How the attempted size relates to the first one. */
  predicate Sizes(start: nat, attempt: nat) {
    if start < MIN_ALLOCATE then attempt == start else MIN_ALLOCATE <= attempt <= start
  }

  /** No block is larger than the first size, and none smaller than two pages if that was not. */
  predicate SizedWithin(start: nat, blocks: seq<Block>) {
    forall i :: 0 <= i < |blocks| ==> 4096 * blocks[i].pages <= start && (start >= 8192 ==> blocks[i].pages >= 2)
  }

  lemma SizedNext(start: nat, attempt: nat, blocks: seq<Block>, b: Block)
    requires SizedWithin(start, blocks) && Sizes(start, attempt) && b.pages == WholePages(attempt)
    ensures SizedWithin(start, blocks + [b])
  {
  }

  class Firmware {
    var free: set<nat>

    constructor (conventional: set<nat>)
      ensures free == conventional
    {
      free := conventional;
    }

    /** Takes some run of `pages` free pages, if there is one. A request for no pages is refused. */
    method AllocatePages(pages: nat) returns (r: Option<nat>)
      modifies this
      ensures r.Some? <==> pages > 0 && HasRun(old(free), pages)
      ensures r.Some? ==> RunAt(old(free), r.value, pages) && free == old(free) - PagesOf(Block(r.value, pages))
      ensures r.None? ==> free == old(free)
    {
      if pages > 0 && HasRun(free, pages) {
        var p :| p in free && RunAt(free, p, pages);
        free := free - PagesOf(Block(p, pages));
        r := Some(p);
      } else {
        r := None;
      }
    }

    /** One round: the size is rounded down to whole pages. */
    method Attempt(attempt: nat) returns (r: Option<Block>)
      modifies this
      ensures r.Some? <==> WholePages(attempt) > 0 && HasRun(old(free), WholePages(attempt))
      ensures r.Some? ==>
        && r.value.pages == WholePages(attempt)
        && RunAt(old(free), r.value.first, r.value.pages) && free == old(free) - PagesOf(r.value)
      ensures r.None? ==> free == old(free)
    {
      var requestSize := attempt - attempt % PAGE;
      var pages := requestSize / PAGE;
      var ptr := AllocatePages(pages);
      r := if ptr.Some? then Some(Block(ptr.value, pages)) else None;
    }

    /**
      The loop from any first size. The blocks taken and the pages left are exactly what was free;
      from two pages up no run of three pages is left, from one page nothing is left at all.
     */
    method TakeAll(start: nat) returns (blocks: seq<Block>)
      modifies this
      ensures Conserved(old(free), free, blocks)
      ensures start >= MIN_ALLOCATE ==> !HasRun(free, 3)
      ensures PAGE <= start < MIN_ALLOCATE ==> free == {}
      ensures start < PAGE ==> blocks == []
      ensures SizedWithin(start, blocks)
    {
      blocks := [];
      var attempt: nat := start;
      while true
        invariant Conserved(old(free), free, blocks) && Sizes(start, attempt)
        invariant start < PAGE ==> blocks == []
        invariant SizedWithin(start, blocks)
        decreases |free|, attempt
      {
        ghost var before := free;
        var r := Attempt(attempt);
        if r.Some? {
          TakeKeeps(old(free), before, blocks, r.value);
          TakeCount(before, r.value);
          SizedNext(start, attempt, blocks, r.value);
          blocks := blocks + [r.value];
        } else {
          if attempt / 2 < MIN_ALLOCATE {
            NothingLeft(free, attempt);
          }
          attempt := attempt / 2;
          if attempt < PAGE {
            attempt := PAGE;
          }
          if attempt < MIN_ALLOCATE {
            break;
          }
        }
      }
    }

    /** The kernel starts from all free memory, but no more than 2 GiB at once. */
    method ChangeAllocator() returns (blocks: seq<Block>)
      modifies this
      ensures Conserved(old(free), free, blocks)
      ensures !HasRun(free, 3)
      ensures |old(free)| == 1 ==> free == {}
      ensures forall i :: 0 <= i < |blocks| ==> 4096 * blocks[i].pages <= 0x8000_0000
    {
      var total := |free| * PAGE;
      var start := if MAX_ALLOCATE < total then MAX_ALLOCATE else total;
      blocks := TakeAll(start);
      assert |old(free)| == 0 ==> free == {};
    }
  }
}
