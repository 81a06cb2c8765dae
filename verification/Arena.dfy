/**
 The fast path of the protobuf arena: objects are bumped upwards from `ptr`, cleanup nodes are taken
 downwards from `limit`, and alignment is done with masks on 64-bit words. Falling back to a new block
 is not part of this model: an allocation the block has no room for is answered None.
 */
module Arena {
  import opened Common

  type Word = w: nat | w <= UINT64_MAX

  const WORD_COUNT := UINT64_MAX + 1

  // ---------------------------------------------------------------- 64-bit words

  /** Addition modulo 2^64. */
  function Add(a: Word, b: Word): Word {
    if a + b <= UINT64_MAX then a + b else a + b - WORD_COUNT
  }

  function Not(a: Word): Word {
    UINT64_MAX - a
  }

  /** Bitwise and. */
  function And(a: nat, b: nat): nat {
    if a == 0 || b == 0 then 0
    else 2 * And(a / 2, b / 2) + if a % 2 == 1 && b % 2 == 1 then 1 else 0
  }

  function Pow2(k: nat): (p: nat)
    ensures p > 0
  {
    if k == 0 then 1 else 2 * Pow2(k - 1)
  }

  lemma {:induction false} AndOnes(x: nat, width: nat)
    requires x < Pow2(width)
    ensures And(x, Pow2(width) - 1) == x
  {
    if width > 0 {
      AndOnes(x / 2, width - 1);
    }
  }

  lemma DropLowestBit(x: nat, p: nat)
    requires p > 0
    ensures 2 * (x / 2 - x / 2 % p) == x - x % (2 * p)
  {
    var q, r := x / 2 / p, x / 2 % p;
    assert x / 2 == p * q + r;
    assert x == (2 * p) * q + (2 * r + x % 2);
    QuotientIs(x, 2 * p, q, 2 * r + x % 2);
  }

  /** The mask with all but the k lowest of its bits set rounds down to a multiple of 2^k. */
  lemma {:induction false} MaskRoundsDown(x: nat, k: nat, width: nat)
    requires k <= width && x < Pow2(width)
    ensures Pow2(k) <= Pow2(width)
    ensures And(x, Pow2(width) - Pow2(k)) == x - x % Pow2(k)
  {
    if k == 0 {
      AndOnes(x, width);
    } else {
      MaskRoundsDown(x / 2, k - 1, width - 1);
      assert (Pow2(width) - Pow2(k)) / 2 == Pow2(width - 1) - Pow2(k - 1);
      DropLowestBit(x, Pow2(k - 1));
    }
  }

  lemma {:induction false} Pow2Sum(a: nat, b: nat)
    ensures Pow2(a + b) == Pow2(a) * Pow2(b)
  {
    if a > 0 {
      Pow2Sum(a - 1, b);
    }
  }

  lemma WordBits()
    ensures Pow2(64) == WORD_COUNT
  {
    assert Pow2(8) == 0x100;
    Pow2Sum(8, 8);
    Pow2Sum(16, 16);
    Pow2Sum(32, 32);
  }

  lemma WordMask(x: Word, k: nat)
    requires k < 64
    ensures Pow2(k) <= WORD_COUNT
    ensures And(x, WORD_COUNT - Pow2(k)) == x - x % Pow2(k)
  {
    WordBits();
    MaskRoundsDown(x, k, 64);
  }

  // ---------------------------------------------------------------- alignment

  /** Rounds up to a multiple of 8; the mask is -8 as a 64-bit word. */
  function AlignUpTo8(n: Word): nat {
    And(Add(n, 7), Add(Not(8), 1))
  }

  function AlignTo(ptr: Word, align: Word): nat
    requires align > 0
  {
    And(Add(ptr, align - 1), Add(Not(align), 1))
  }

  ghost predicate PowerOfTwo(a: nat) {
    exists k: nat :: k < 64 && a == Pow2(k)
  }

  lemma Rounded(m: nat, align: nat)
    requires align > 0
    ensures (m - m % align) % align == 0 && m - m % align <= m < m - m % align + align
  {
    assert m - m % align == align * (m / align) + 0;
    QuotientIs(m - m % align, align, m / align, 0);
  }

  lemma AlignToMasks(ptr: Word, align: Word)
    requires align > 0 && ptr + align - 1 <= UINT64_MAX
    ensures AlignTo(ptr, align) == And(ptr + align - 1, WORD_COUNT - align)
  {
  }

  /** The multiple of align at or below x. */
  function DownTo(x: nat, align: nat): (d: nat)
    requires align > 0
    ensures d == x - x % align
    ensures d <= x < d + align && d % align == 0
  {
    Rounded(x, align);
    x - x % align
  }

  lemma AlignMask(x: Word, align: Word)
    requires PowerOfTwo(align)
    ensures align > 0 && And(x, WORD_COUNT - align) == DownTo(x, align)
  {
    var k: nat :| k < 64 && align == Pow2(k);
    WordMask(x, k);
  }

  /** The next multiple of a power of two. */
  lemma AlignToMeaning(ptr: Word, align: Word)
    requires PowerOfTwo(align) && ptr + align - 1 <= UINT64_MAX
    ensures align > 0 && AlignTo(ptr, align) == DownTo(ptr + align - 1, align)
    ensures ptr <= AlignTo(ptr, align) < ptr + align && AlignTo(ptr, align) % align == 0
  {
    AlignMask(ptr + align - 1, align);
    AlignToMasks(ptr, align);
  }

  /** The next multiple of 8, for every size that has one in 64 bits. */
  lemma AlignUpTo8Meaning(n: Word)
    requires n <= UINT64_MAX - 7
    ensures n <= AlignUpTo8(n) < n + 8 && AlignUpTo8(n) % 8 == 0
  {
    assert 8 == Pow2(3);
    AlignToMeaning(n, 8);
    assert AlignUpTo8(n) == AlignTo(n, 8);
  }

  /** The powers of two up to 4, and 8 times the others. */
  lemma PowersBy8(k: nat)
    ensures if k >= 3 then Pow2(k) == 8 * Pow2(k - 3) else Pow2(k) == [1, 2, 4][k]
  {
    if k >= 3 {
      assert Pow2(k) == 2 * Pow2(k - 1) && Pow2(k - 1) == 2 * Pow2(k - 2) && Pow2(k - 2) == 2 * Pow2(k - 3);
    }
  }

  lemma MultipleOf8(x: nat, q: nat)
    requires x == 8 * q
    ensures x % 8 == 0
  {
  }

  lemma AlignIsMultipleOf8(align: nat)
    requires PowerOfTwo(align) && align > 8
    ensures align % 8 == 0
  {
    var k: nat :| k < 64 && align == Pow2(k);
    PowersBy8(k);
    MultipleOf8(align, Pow2(k - 3));
  }

  lemma RemainderKeepsLowBits(m: nat, align: nat)
    requires align > 0 && align % 8 == 0
    ensures m % align % 8 == m % 8
  {
    var c, q, r := align / 8, m / align, m % align;
    assert m == align * q + r;
    assert align * q == 8 * (c * q);
    QuotientIs(m, 8, c * q + r / 8, r % 8);
  }

  lemma MultipleOfAlign(x: nat, align: nat)
    requires align > 0 && align % 8 == 0 && x % align == 0
    ensures x % 8 == 0
  {
    RemainderKeepsLowBits(x, align);
  }

  lemma OneBelowAMultiple(ptr: nat, align: nat)
    requires ptr % 8 == 0 && align % 8 == 0 && align > 0
    ensures (ptr + align - 1) % 8 == 7
  {
  }

  lemma LowBitsBound(r: nat)
    requires r % 8 == 7
    ensures r >= 7
  {
  }

  /** From an 8-aligned pointer a larger alignment wastes at most align - 8 bytes, the surplus that is requested. */
  lemma AlignToFits(ptr: Word, align: Word, size: nat)
    requires PowerOfTwo(align) && align > 8 && ptr % 8 == 0 && ptr + align - 1 <= UINT64_MAX
    ensures AlignTo(ptr, align) + size <= ptr + (size + align - 8)
  {
    var m: Word := ptr + align - 1;
    AlignIsMultipleOf8(align);
    RemainderKeepsLowBits(m, align);
    OneBelowAMultiple(ptr, align);
    LowBitsBound(m % align);
    AlignToMeaning(ptr, align);
  }

  // ---------------------------------------------------------------- the arena

  datatype Region = Region(start: Word, size: nat)

  /** A cleanup node: where it is, the object it destroys and the destructor. */
  datatype Node = Node(at: Word, elem: Word, cleanup: int)

  const CLEANUP_SIZE := 16

  /** A block in use: the object regions and the cleanup nodes in the order in which they were allocated. */
  datatype Block = Block(base: nat, end: nat, ptr: Word, limit: Word, objects: seq<Region>, nodes: seq<Node>)

  /** Objects grow up from the base, 8-aligned and one behind the other. */
  ghost predicate ObjectsFit(base: nat, ptr: Word, objects: seq<Region>) {
    && (forall i | 0 <= i < |objects| ::
          base <= objects[i].start && objects[i].start + objects[i].size <= ptr && objects[i].start % 8 == 0)
    && (forall i, j | 0 <= i < j < |objects| :: objects[i].start + objects[i].size <= objects[j].start)
  }

  /** Nodes grow down from the end. */
  ghost predicate NodesFit(limit: Word, end: nat, nodes: seq<Node>) {
    && (forall i | 0 <= i < |nodes| ::
          limit <= nodes[i].at && nodes[i].at + CLEANUP_SIZE <= end && nodes[i].at % 8 == 0)
    && (forall i, j | 0 <= i < j < |nodes| :: nodes[j].at + CLEANUP_SIZE <= nodes[i].at)
  }

  /** Nothing overlaps, and everything is 8-aligned. */
  ghost predicate WellFormed(b: Block) {
    && b.base <= b.ptr <= b.limit <= b.end && b.ptr % 8 == 0 && b.limit % 8 == 0
    && ObjectsFit(b.base, b.ptr, b.objects) && NodesFit(b.limit, b.end, b.nodes)
  }

  predicate InRegion(a: int, r: Region) {
    r.start <= a < r.start + r.size
  }

  predicate InNode(a: int, n: Node) {
    n.at <= a < n.at + CLEANUP_SIZE
  }

  /** No byte belongs to two allocations, and every allocated byte lies in the block. */
  lemma NoByteIsShared(b: Block, a: int)
    requires WellFormed(b)
    ensures forall i, j | 0 <= i < |b.objects| && 0 <= j < |b.objects| && InRegion(a, b.objects[i]) &&
                          InRegion(a, b.objects[j]) :: i == j
    ensures forall i, j | 0 <= i < |b.nodes| && 0 <= j < |b.nodes| && InNode(a, b.nodes[i]) &&
                          InNode(a, b.nodes[j]) :: i == j
    ensures forall i, j | 0 <= i < |b.objects| && 0 <= j < |b.nodes| ::
              !(InRegion(a, b.objects[i]) && InNode(a, b.nodes[j]))
    ensures forall i | 0 <= i < |b.objects| && InRegion(a, b.objects[i]) :: b.base <= a < b.end
    ensures forall i | 0 <= i < |b.nodes| && InNode(a, b.nodes[i]) :: b.base <= a < b.end
  {
  }

  function Bumped(b: Block, n: nat): Block
    requires n <= b.limit - b.ptr
  {
    b.(ptr := b.ptr + n, objects := b.objects + [Region(b.ptr, n)])
  }

  function BumpedWithNode(b: Block, n: nat, elem: Word, cleanup: int): Block
    requires n + CLEANUP_SIZE <= b.limit - b.ptr
  {
    var t := Bumped(b, n);
    t.(limit := b.limit - CLEANUP_SIZE, nodes := b.nodes + [Node(b.limit - CLEANUP_SIZE, elem, cleanup)])
  }

  lemma OneMoreObject(base: nat, ptr: Word, objects: seq<Region>, n: nat)
    requires base <= ptr && ptr + n <= UINT64_MAX && ptr % 8 == 0 && ObjectsFit(base, ptr, objects)
    ensures ObjectsFit(base, ptr + n, objects + [Region(ptr, n)])
  {
  }

  lemma OneMoreNode(limit: Word, end: nat, nodes: seq<Node>, elem: Word, cleanup: int)
    requires CLEANUP_SIZE <= limit <= end && limit % 8 == 0 && NodesFit(limit, end, nodes)
    ensures NodesFit(limit - CLEANUP_SIZE, end, nodes + [Node(limit - CLEANUP_SIZE, elem, cleanup)])
  {
  }

  lemma BumpKeepsWellFormed(b: Block, n: nat)
    requires WellFormed(b) && n % 8 == 0 && n <= b.limit - b.ptr
    ensures WellFormed(Bumped(b, n))
  {
    OneMoreObject(b.base, b.ptr, b.objects, n);
  }

  lemma NodeKeepsWellFormed(b: Block, n: nat, elem: Word, cleanup: int)
    requires WellFormed(b) && n % 8 == 0 && n + CLEANUP_SIZE <= b.limit - b.ptr
    ensures WellFormed(BumpedWithNode(b, n, elem, cleanup))
  {
    BumpKeepsWellFormed(b, n);
    OneMoreNode(b.limit, b.end, b.nodes, elem, cleanup);
  }

  /** The room an allocation takes from the block, for an object of `size` bytes and its alignment. */
  function Reserved(size: Word, align: Word): nat {
    if align <= 8 then AlignUpTo8(size) else size + align - 8
  }

  /** What a type's size and alignment satisfy. */
  ghost predicate TypeLayout(size: Word, align: Word) {
    PowerOfTwo(align) && size % align == 0 && size + align <= UINT64_MAX / 2
  }

  lemma SumOfMultiples(x: nat, y: nat)
    requires x % 8 == 0 && y % 8 == 0 && y >= 8
    ensures (x + y - 8) % 8 == 0
  {
    assert x == 8 * (x / 8) && y == 8 * (y / 8);
    QuotientIs(x + y - 8, 8, x / 8 + y / 8 - 1, 0);
  }

  lemma SizeIsMultipleOf8(size: nat, align: nat)
    requires PowerOfTwo(align) && align > 8 && size % align == 0
    ensures (size + align - 8) % 8 == 0
  {
    AlignIsMultipleOf8(align);
    MultipleOfAlign(size, align);
    SumOfMultiples(size, align);
  }

  lemma ReservedFits(size: Word, align: Word)
    requires TypeLayout(size, align)
    ensures size <= Reserved(size, align) && Reserved(size, align) % 8 == 0
    ensures Reserved(size, align) < size + align + 8
  {
    if align <= 8 {
      AlignUpTo8Meaning(size);
    } else {
      SizeIsMultipleOf8(size, align);
    }
  }

  lemma DivisorsOf8(ptr: nat, align: nat)
    requires ptr % 8 == 0 && (align == 1 || align == 2 || align == 4 || align == 8)
    ensures ptr % align == 0
  {
    var q := ptr / 8;
    assert ptr == 8 * q;
    if align == 1 {
      QuotientIs(ptr, 1, ptr, 0);
    } else if align == 2 {
      QuotientIs(ptr, 2, 4 * q, 0);
    } else if align == 4 {
      QuotientIs(ptr, 4, 2 * q, 0);
    }
  }

  lemma SmallAlignment(ptr: nat, align: nat)
    requires PowerOfTwo(align) && ptr % 8 == 0 && align <= 8
    ensures ptr % align == 0
  {
    var k: nat :| k < 64 && align == Pow2(k);
    PowersBy8(k);
    DivisorsOf8(ptr, align);
  }

  /** A word that is a multiple of 8 leaves room for the seven above it. */
  lemma RoomAbove(x: nat, y: nat)
    requires x % 8 == 0 && y % 8 == 0 && y >= 8 && x + y - 8 <= UINT64_MAX
    ensures x + y - 1 <= UINT64_MAX
  {
    assert x == 8 * (x / 8) && y == 8 * (y / 8);
  }

  /** An over-aligned object fits into the room reserved for it at an 8-aligned pointer. */
  lemma AlignedFront(ptr: Word, size: Word, align: Word)
    requires PowerOfTwo(align) && align > 8 && ptr % 8 == 0 && ptr + (size + align - 8) <= UINT64_MAX
    ensures AlignTo(ptr, align) % align == 0 && AlignTo(ptr, align) % 8 == 0
    ensures ptr <= AlignTo(ptr, align) && AlignTo(ptr, align) + size <= ptr + (size + align - 8)
  {
    AlignIsMultipleOf8(align);
    RoomAbove(ptr, align);
    AlignToMeaning(ptr, align);
    AlignToFits(ptr, align, size);
    MultipleOfAlign(AlignTo(ptr, align), align);
  }

  class SerialArena {
    ghost const base: nat
    ghost const end: nat
    var ptr: Word
    var limit: Word
    ghost var objects: seq<Region>
    ghost var nodes: seq<Node>

    ghost function Value(): Block
      reads this
    {
      Block(base, end, ptr, limit, objects, nodes)
    }

    ghost predicate Valid()
      reads this
    {
      WellFormed(Value())
    }

    /** A block's free space is 8-aligned at both ends. */
    constructor (start: Word, finish: Word)
      requires start <= finish && start % 8 == 0 && finish % 8 == 0
      ensures Valid() && Value() == Block(start, finish, start, finish, [], [])
    {
      base, end, ptr, limit, objects, nodes := start, finish, start, finish, [], [];
    }

    method HasSpace(n: Word) returns (ok: bool)
      requires Valid()
      ensures ok == (n <= limit - ptr)
    {
      ok := n <= limit - ptr;
    }

    /** The size must already be a multiple of 8. */
    method AllocateAligned(n: Word) returns (r: Option<Word>)
      requires Valid() && n % 8 == 0
      modifies this
      ensures Valid()
      ensures r.Some? <==> n <= old(limit - ptr)
      ensures Value() == if r.Some? then Bumped(old(Value()), n) else old(Value())
      ensures r.Some? ==> r.value == old(ptr) && ptr == old(ptr) + n && objects == old(objects) + [Region(r.value, n)]
    {
      var ok := HasSpace(n);
      if !ok {
        return None;
      }
      BumpKeepsWellFormed(Value(), n);
      r := Some(ptr);
      objects := objects + [Region(ptr, n)];
      ptr := ptr + n;
    }

    /** The caller fills the node, here given with the request. */
    method AllocateAlignedWithCleanup(n: Word, elem: Word, cleanup: int) returns (r: Option<Word>)
      requires Valid() && n % 8 == 0 && n + CLEANUP_SIZE <= UINT64_MAX
      modifies this
      ensures Valid()
      ensures r.Some? <==> n + CLEANUP_SIZE <= old(limit - ptr)
      ensures Value() == if r.Some? then BumpedWithNode(old(Value()), n, elem, cleanup) else old(Value())
      ensures r.Some? ==> r.value == old(ptr) && ptr == old(ptr) + n && objects == old(objects) + [Region(r.value, n)]
      ensures r.Some? ==> limit == old(limit) - 16 && nodes == old(nodes) + [Node(limit, elem, cleanup)]
    {
      var ok := HasSpace(n + CLEANUP_SIZE);
      if !ok {
        return None;
      }
      NodeKeepsWellFormed(Value(), n, elem, cleanup);
      r := Some(ptr);
      objects := objects + [Region(ptr, n)];
      nodes := nodes + [Node(limit - CLEANUP_SIZE, elem, cleanup)];
      ptr := ptr + n;
      limit := limit - CLEANUP_SIZE;
    }

    method AddCleanup(elem: Word, cleanup: int) returns (ok: bool)
      requires Valid()
      modifies this
      ensures Valid()
      ensures ok <==> CLEANUP_SIZE <= old(limit - ptr)
      ensures Value() == if ok then BumpedWithNode(old(Value()), 0, elem, cleanup) else old(Value())
    {
      var r := AllocateAlignedWithCleanup(0, elem, cleanup);
      ok := r.Some?;
    }

    /** An object of a type's size and alignment, with its destructor if it has one: aligned as asked, wholly inside the
        region that was reserved for it, and named by its node. */
    method AllocateInternal(size: Word, align: Word, destructor: Option<int>) returns (r: Option<Word>)
      requires Valid() && TypeLayout(size, align)
      modifies this
      ensures Valid()
      ensures r.Some? <==>
              Reserved(size, align) + (if destructor.Some? then CLEANUP_SIZE else 0) <= old(limit - ptr)
      ensures r.None? ==> Value() == old(Value())
      ensures r.Some? ==>
                && Value() == (if destructor.None? then Bumped(old(Value()), Reserved(size, align))
                               else BumpedWithNode(old(Value()), Reserved(size, align), r.value, destructor.value))
                && old(ptr) <= r.value && r.value + size <= ptr
                && r.value % align == 0 && r.value % 8 == 0
                && nodes == old(nodes) + (if destructor.None? then [] else [Node(limit, r.value, destructor.value)])
                && |objects| == |old(objects)| + 1 && old(objects) == objects[..|old(objects)|]
                && objects[|objects| - 1] == Region(old(ptr), ptr - old(ptr))
    {
      ReservedFits(size, align);
      var n: Word := if align <= 8 then AlignUpTo8(size) else size + align - 8;
      var elem: Word := ptr;
      var room := limit - ptr;
      if align > 8 && n <= room {
        AlignedFront(ptr, size, align);
        elem := AlignTo(ptr, align);
      }
      if align <= 8 {
        SmallAlignment(ptr, align);
      }
      if destructor.None? {
        r := AllocateAligned(n);
      } else {
        r := AllocateAlignedWithCleanup(n, elem, destructor.value);
      }
      if r.Some? {
        r := Some(elem);
      }
    }
  }
}
