/** Stage-2 long descriptors and table indices, as in stage2.h and the helpers of stage2.c. */
module Descriptors {
  import opened Bits

  const PAGE_SIZE := 0x1000
  const DESCS_PER_TABLE := 512
  const L1_SHIFT := 30
  const L2_SHIFT := 21
  const L3_SHIFT := 12
  const INDEX_MASK := 0x1ff
  const DESC_INVALID := 0
  const ADDR_MASK := 0xfffffff000
  const NOT_ADDR_MASK := 0xffffff0000000fff
  const UINT32_LIMIT := 0x1_0000_0000
  const UINT64_LIMIT := 0x1_0000_0000_0000_0000

  /** stage2_page_index */
  function PageIndex(ipa: nat, shift: nat): nat {
    And(Shr(ipa, shift), INDEX_MASK)
  }

  predicate Aligned(value: nat) {
    And(value, PAGE_SIZE - 1) == 0
  }

  predicate Fits32(value: nat) {
    value <= 0xffff_ffff
  }

  /** Bits 1:0 are 0b11: a table descriptor at levels 1 and 2, a page descriptor at level 3. */
  predicate IsTableOrPage(desc: nat) {
    And(desc, 3) == 3
  }

  predicate IsValid(desc: nat) {
    And(desc, 1) != 0
  }

  function DescAddr(desc: nat): nat {
    And(desc, ADDR_MASK)
  }

  /** The bits of a descriptor outside the address: its type, and for a page its attributes. */
  function DescAttrs(desc: nat): nat {
    And(desc, NOT_ADDR_MASK)
  }

  /** What a page descriptor says: the page it maps to, and how it may be accessed. */
  datatype Leaf = Leaf(pa: nat, attrs: nat)

  function LeafOf(desc: nat): Leaf {
    Leaf(DescAddr(desc), DescAttrs(desc))
  }

  /** The leaf asked for by mapping a page to pa with the given attributes. */
  function PageLeaf(pa: nat, attrs: nat): Leaf {
    Leaf(pa, Or(DescAttrs(attrs), 3))
  }

  function TableDesc(pa: nat): nat {
    Or(And(pa, ADDR_MASK), 3)
  }

  function PageDesc(pa: nat, attrs: nat): nat {
    Or(Or(And(pa, ADDR_MASK), And(attrs, NOT_ADDR_MASK)), 3)
  }

  lemma AlignedIsMultiple(value: nat)
    ensures Aligned(value) <==> value % PAGE_SIZE == 0
  {
    Masks();
    AndOnes(value, 12);
    Low12(value);
  }

  lemma IndexField(x: nat)
    ensures And(x, INDEX_MASK) == x % 0x200
  {
    Masks();
    AndOnes(x, 9);
    Low9(x);
  }

  lemma PageNumber(ipa: nat) returns (v: nat)
    requires ipa < UINT32_LIMIT
    ensures v == ipa / PAGE_SIZE < 0x10_0000 && v / 0x40000 < 4
  {
    v := ipa / PAGE_SIZE;
  }

  /** The three index fields cut the page number of a 32-bit address into 2 + 9 + 9 bits. */
  lemma IndexFields(ipa: nat)
    requires ipa < UINT32_LIMIT
    ensures PageIndex(ipa, L1_SHIFT) == ipa / PAGE_SIZE / 0x40000 < 4
    ensures PageIndex(ipa, L2_SHIFT) == ipa / PAGE_SIZE / 0x200 % 0x200
    ensures PageIndex(ipa, L3_SHIFT) == ipa / PAGE_SIZE % 0x200
  {
    var v := PageNumber(ipa);
    ShrPage(ipa);
    IndexField(v / 0x40000);
    IndexField(v / 0x200);
    IndexField(v);
  }

  /** The address mask selects the 28-bit page field, in place. */
  lemma AddrField(x: nat)
    ensures And(x, ADDR_MASK) == 0x1000 * Low(Shr(x, 12), 28)
  {
    Masks();
    AndField(x, 12, 28);
    Shl12(Low(Shr(x, 12), 28));
  }

  lemma LowBits(desc: nat)
    ensures IsTableOrPage(desc) <==> desc % 4 == 3
    ensures IsValid(desc) <==> desc % 2 == 1
  {
    Masks();
    AndOnes(desc, 2);
    AndOnes(desc, 1);
    Low2(desc);
    Low1(desc);
  }

  /** What is stored under a mask comes back under it, if nothing else was set there. */
  lemma Stored(x: nat, y: nat, m: nat)
    requires And(x, m) == x && And(y, m) == 0
    ensures And(Or(x, y), m) == x
  {
    AndOr(x, y, m);
  }

  lemma StoredTwice(x: nat, y: nat, z: nat, m: nat)
    requires And(x, m) == x && And(y, m) == 0 && And(z, m) == 0
    ensures And(Or(Or(x, y), z), m) == x
  {
    Stored(x, y, m);
    AndOr(Or(x, y), z, m);
  }

  lemma Cleared(x: nat, y: nat, m: nat)
    requires And(y, m) == 0
    ensures And(And(x, y), m) == 0
  {
    AndAnd(x, y, m);
  }

  lemma MissesAddress(x: nat)
    requires Low(Shr(x, 12), 28) == 0
    ensures And(x, ADDR_MASK) == 0
  {
    AddrField(x);
  }

  lemma ThreeMissesAddress()
    ensures And(3, ADDR_MASK) == 0
  {
    ShrPage(3);
    LowOfShl(0, 28);
    Shl28(0);
    MissesAddress(3);
  }

  lemma AttributesMissAddress()
    ensures And(NOT_ADDR_MASK, ADDR_MASK) == 0
  {
    ShrPage(NOT_ADDR_MASK);
    Shl28(0xff_ffff);
    LowOfShl(0xff_ffff, 28);
    MissesAddress(NOT_ADDR_MASK);
  }

  lemma AlignedAddr(pa: nat)
    requires pa % PAGE_SIZE == 0 && pa < 0x100_0000_0000
    ensures And(pa, ADDR_MASK) == pa
  {
    AddrField(pa);
    ShrPage(pa);
    Masks();
    LowFits(pa / 0x1000, 28);
  }

  /** A page-aligned address of up to 40 bits survives the trip through a table descriptor. */
  lemma TableDescRoundTrip(pa: nat)
    requires pa % PAGE_SIZE == 0 && pa < 0x100_0000_0000
    ensures IsTableOrPage(TableDesc(pa)) && IsValid(TableDesc(pa)) && DescAddr(TableDesc(pa)) == pa
  {
    AlignedAddr(pa);
    OrThree(pa);
    LowBits(TableDesc(pa));
    ThreeMissesAddress();
    Stored(pa, 3, ADDR_MASK);
  }

  /** No attribute bits, however chosen, can change the address or the type of a page descriptor. */
  lemma PageDescRoundTrip(pa: nat, attrs: nat)
    requires pa % PAGE_SIZE == 0 && pa < 0x100_0000_0000
    ensures IsTableOrPage(PageDesc(pa, attrs)) && IsValid(PageDesc(pa, attrs))
    ensures DescAddr(PageDesc(pa, attrs)) == pa
  {
    hide And, Or;
    AlignedAddr(pa);
    AttributesMissAddress();
    var rest := And(attrs, NOT_ADDR_MASK);
    Cleared(attrs, NOT_ADDR_MASK, ADDR_MASK);
    ThreeMissesAddress();
    StoredTwice(pa, rest, 3, ADDR_MASK);
    OrThree(Or(pa, rest));
    LowBits(PageDesc(pa, attrs));
  }

  /** desc is a valid page descriptor with address bits 12 .. 39 of pa, and with every other bit as in attrs. */
  predicate IsPageFor(desc: nat, pa: nat, attrs: nat) {
    forall i: nat | i < 64 :: BitAt(desc, i) <==> i < 2 || BitAt(if 12 <= i < 40 then pa else attrs, i)
  }

  lemma MaskBits(i: nat)
    ensures BitAt(ADDR_MASK, i) <==> 12 <= i < 40
    ensures BitAt(NOT_ADDR_MASK, i) <==> i < 12 || 40 <= i < 64
    ensures BitAt(3, i) <==> i < 2
  {
    hide BitAt, Shl, Or, Ones;
    Masks();
    BitOfOnes(2, i);
    BitOfShl(Ones(28), 12, i);
    if i >= 12 {
      BitOfOnes(28, i - 12);
    }
    HighMask();
    BitOfShl(Ones(24), 40, i);
    BitOfOr(Shl(Ones(24), 40), Ones(12), i);
    BitOfOnes(12, i);
    if i >= 40 {
      BitOfOnes(24, i - 40);
    }
  }

  lemma HighMask()
    ensures NOT_ADDR_MASK == Or(Shl(Ones(24), 40), Ones(12))
  {
    hide Shl, Or, Ones;
    Masks();
    ByteMasks();
    ShlAdd(0xff_ffff, 28, 12);
    Shl12(0xff_ffff);
    Shl28(0xff_ffff * 0x1000);
    OnesGrow(12, 40);
    OrDisjoint(0xff_ffff, Ones(12), 40);
  }

  /** Bit by bit, what hv_stage2_map_region writes for a page. */
  lemma PageDescBits(pa: nat, attrs: nat)
    ensures IsPageFor(PageDesc(pa, attrs), pa, attrs)
  {
    hide BitAt, And, Or;
    forall i: nat | i < 64
      ensures BitAt(PageDesc(pa, attrs), i) <==> i < 2 || BitAt(if 12 <= i < 40 then pa else attrs, i)
    {
      MaskBits(i);
      BitOfAnd(pa, ADDR_MASK, i);
      BitOfAnd(attrs, NOT_ADDR_MASK, i);
      BitOfOr(And(pa, ADDR_MASK), And(attrs, NOT_ADDR_MASK), i);
      BitOfOr(Or(And(pa, ADDR_MASK), And(attrs, NOT_ADDR_MASK)), 3, i);
    }
  }

  /** Bit by bit, the attributes a mapped page has. */
  lemma LeafBits(pa: nat, attrs: nat, i: nat)
    ensures BitAt(PageLeaf(pa, attrs).attrs, i) <==> i < 2 || ((i < 12 || 40 <= i < 64) && BitAt(attrs, i))
  {
    hide BitAt, And, Or;
    MaskBits(i);
    BitOfAnd(attrs, NOT_ADDR_MASK, i);
    BitOfOr(DescAttrs(attrs), 3, i);
  }

  lemma ThreeIsAttribute()
    ensures And(3, NOT_ADDR_MASK) == 3
  {
    AndStep(3, NOT_ADDR_MASK);
    AndStep(1, NOT_ADDR_MASK / 2);
    AndStep(0, NOT_ADDR_MASK / 4);
  }

  /** The descriptor written for a page says what was asked for. */
  lemma LeafOfPageDesc(pa: nat, attrs: nat)
    requires pa % PAGE_SIZE == 0 && pa < 0x100_0000_0000
    ensures LeafOf(PageDesc(pa, attrs)) == PageLeaf(pa, attrs)
  {
    hide And, Or;
    PageDescRoundTrip(pa, attrs);
    AlignedAddr(pa);
    var rest := And(attrs, NOT_ADDR_MASK);
    AttributesMissAddress();
    AndCommutes(NOT_ADDR_MASK, ADDR_MASK);
    AndAnd(pa, ADDR_MASK, NOT_ADDR_MASK);
    AndZero(pa);
    AndAnd(attrs, NOT_ADDR_MASK, NOT_ADDR_MASK);
    AndSelf(NOT_ADDR_MASK);
    ThreeIsAttribute();
    AndOr(pa, rest, NOT_ADDR_MASK);
    AndOr(Or(pa, rest), 3, NOT_ADDR_MASK);
    OrZero(rest);
  }

  lemma AndZero(x: nat)
    ensures And(x, 0) == 0
  {
  }

  lemma OrZero(x: nat)
    ensures Or(0, x) == x
  {
  }

  /** Joining the page address and the page offset with OR adds them. */
  lemma AddrWithOffset(desc: nat, ipa: nat)
    ensures Or(DescAddr(desc), And(ipa, PAGE_SIZE - 1)) == DescAddr(desc) + ipa % PAGE_SIZE
  {
    var page := Low(Shr(desc, 12), 28);
    Masks();
    AddrField(desc);
    Shl12(page);
    AndOnes(ipa, 12);
    Low12(ipa);
    OrDisjoint(page, ipa % PAGE_SIZE, 12);
  }
}
