/** Slot arithmetic of the arena: how large a slot is carved for a layout, and where inside the
    slot the header and the user block lie. Addresses are absolute byte addresses. */
module Slots {
  import opened Bits
  import opened Wrappers

  const HEADER_SIZE := 16
  const MIN_SLOT_SIZE := 16
  const SLOT_ALIGN := 8

  /** A multiple of the word size, counted off in words. */
  predicate Aligned(a: nat) {
    if a < SLOT_ALIGN then a == 0 else Aligned(a - SLOT_ALIGN)
  }

  lemma {:induction false} AlignedMod(a: nat)
    ensures Aligned(a) <==> a % SLOT_ALIGN == 0
  {
    if a >= SLOT_ALIGN { AlignedMod(a - SLOT_ALIGN); }
  }

  lemma AlignedSum(x: nat, y: nat)
    requires Aligned(x)
    ensures Aligned(x + y) <==> Aligned(y)
  {
    AlignedMod(x); AlignedMod(y); AlignedMod(x + y);
  }

  /** Distinct word addresses are a word apart. */
  lemma AlignedGap(x: nat, y: nat)
    requires Aligned(x) && Aligned(y) && x < y
    ensures x + SLOT_ALIGN <= y
  {
    AlignedMod(x); AlignedMod(y);
  }

  lemma AlignUpOfAligned(a: nat)
    requires Aligned(a) && a + SLOT_ALIGN - 1 < USIZE
    ensures AlignUp(a, SLOT_ALIGN) == a
  {
    assert IsPow2(SLOT_ALIGN) by { assert Pow2(3) == SLOT_ALIGN; }
    AlignedMod(a);
    AlignUpIsLeastMultiple(a, SLOT_ALIGN);
  }

  datatype Layout = Layout(size: nat, align: nat)

  /** What Rust guarantees of every layout passed to a global allocator: the alignment is a power
      of two, the size is not zero, and rounding the size up to the alignment stays within `isize`. */
  ghost predicate ValidLayout(layout: Layout) {
    IsPow2(layout.align) && 1 <= layout.size && layout.size + layout.align - 1 <= ISIZE_MAX
  }

  function CheckedAdd(x: nat, y: nat): Option<nat> {
    if x + y < USIZE then Some(x + y) else None
  }

  function Max(x: nat, y: nat): nat {
    if x < y then y else x
  }

  /** src/memory/allocator.rs:57-63. The result is the least multiple of 8 that has room for the
      header, the worst-case alignment padding and the block; no addition overflows. */
  function RequiredSlotSize(layout: Layout): (r: Option<nat>)
    requires ValidLayout(layout)
    ensures r.Some? && Aligned(r.value)
    ensures HEADER_SIZE + (layout.align - 1) + layout.size <= r.value
    ensures r.value < HEADER_SIZE + (layout.align - 1) + layout.size + SLOT_ALIGN
    ensures MIN_SLOT_SIZE < r.value < USIZE
  {
    var padded := CheckedAdd(HEADER_SIZE, layout.align - 1);
    if padded.None? then None
    else
      var worst := CheckedAdd(padded.value, layout.size);
      if worst.None? then None
      else
        assert IsPow2(SLOT_ALIGN) by { assert Pow2(3) == SLOT_ALIGN; }
        AlignUpBounds(Max(worst.value, MIN_SLOT_SIZE), SLOT_ALIGN);
        AlignedMod(AlignUp(Max(worst.value, MIN_SLOT_SIZE), SLOT_ALIGN));
        Some(AlignUp(Max(worst.value, MIN_SLOT_SIZE), SLOT_ALIGN))
  }

  /** Slot size carved for a layout (`required_slot_size(layout)` unwrapped). */
  function Needed(layout: Layout): nat
    requires ValidLayout(layout)
  {
    RequiredSlotSize(layout).value
  }

  /** src/memory/allocator.rs:66-69: address of the user block in a slot. */
  function UserPtr(slot: nat, layout: Layout): nat
    requires ValidLayout(layout) && slot + Needed(layout) < USIZE
  {
    AlignUp(slot + HEADER_SIZE, layout.align)
  }

  lemma MultipleTransitive(u: nat, a: nat, d: nat)
    requires d > 0 && a > 0 && u % a == 0 && a % d == 0
    ensures u % d == 0
  {
    var q, r := u / a, a / d;
    assert u == q * a && a == r * d;
    assert u == (q * r) * d + 0;
    DivUnique(u, d, q * r, 0);
  }

  lemma PowersComparable(a: nat, j: nat)
    requires IsPow2(a)
    ensures a % Pow2(j) == 0 || (a <= Pow2(j) && Pow2(j) % a == 0)
  {
    var k: nat :| a == Pow2(k);
    if k >= j { Pow2Monotone(j, k); } else { Pow2Monotone(k, j); }
  }

  /** Aligning a word address to a power of two yields a word address. */
  lemma AlignKeepsWords(value: nat, align: nat)
    requires IsPow2(align) && align < USIZE && value + align - 1 < USIZE && Aligned(value)
    ensures Aligned(AlignUp(value, align))
  {
    AlignedMod(value);
    AlignedMod(AlignUp(value, align));
    var up := AlignUp(value, align);
    AlignUpBounds(value, align);
    assert Pow2(3) == SLOT_ALIGN;
    PowersComparable(align, 3);
    if align % SLOT_ALIGN == 0 {
      MultipleTransitive(up, align, SLOT_ALIGN);
    } else {
      MultipleTransitive(value, SLOT_ALIGN, align);
      MultiplesApart(value, up, align);
      assert up == value;
    }
  }

  /** The user block starts at the first address behind a header that has the asked alignment. */
  lemma UserAligned(slot: nat, layout: Layout)
    requires ValidLayout(layout) && slot + Needed(layout) < USIZE
    ensures UserPtr(slot, layout) % layout.align == 0
    ensures forall m: nat :: m >= slot + HEADER_SIZE && m % layout.align == 0 ==> m >= UserPtr(slot, layout)
  {
    AlignUpIsLeastMultiple(slot + HEADER_SIZE, layout.align);
  }

  /** The header and the user block lie inside the slot, both on a word boundary. */
  lemma SlotGeometry(slot: nat, size: nat, layout: Layout)
    requires ValidLayout(layout) && Aligned(slot)
    requires Needed(layout) <= size && slot + size < USIZE
    ensures slot + HEADER_SIZE <= UserPtr(slot, layout)
    ensures UserPtr(slot, layout) + layout.size <= slot + size
    ensures Aligned(UserPtr(slot, layout))
  {
    var min := slot + HEADER_SIZE;
    AlignedSum(slot, HEADER_SIZE);
    AlignKeepsWords(min, layout.align);
    AlignUpBounds(min, layout.align);
  }

  /** For byte alignment every multiple of 8 from 24 on is the slot size of some layout. */
  lemma ExactSize(n: nat)
    requires 24 <= n < ISIZE_MAX && n % SLOT_ALIGN == 0
    ensures ValidLayout(Layout(n - 16, 1)) && Needed(Layout(n - 16, 1)) == n
  {
    assert Pow2(0) == 1;
    assert ValidLayout(Layout(n - 16, 1));
    AlignedMod(Needed(Layout(n - 16, 1)));
  }
}
