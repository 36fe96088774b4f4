/**
 A pointer and a small state in one machine word (src/state_ptr.rs), for every alignment that is
 a power of two. The mask of the state bits is `align - 1`; addition and subtraction wrap around
 at the word size.
 */
module StatePtr {
  import opened Options
  import opened Words

  function Pow2(k: nat): (r: nat)
    ensures r > 0
  {
    if k == 0 then 1 else 2 * Pow2(k - 1)
  }

  /** The alignments of a 64-bit machine. */
  ghost predicate Alignment(align: nat) { exists k :: 0 <= k < 64 && align == Pow2(k) }

  /** The bits that `a` and `b` have in common, from the lowest on. */
  function And(a: nat, b: nat): nat
  {
    if a == 0 || b == 0 then 0
    else (if a % 2 == 1 && b % 2 == 1 then 1 else 0) + 2 * And(a / 2, b / 2)
  }

  function WrappingAdd(a: Word, b: Word): Word { if a + b < USIZE_SIZE then a + b else a + b - USIZE_SIZE }

  function WrappingSub(a: Word, b: Word): Word { if b <= a then a - b else a - b + USIZE_SIZE }

  // ---------------------------------------------------------------------------------------
  // Division by the alignment.

  lemma RemainderIsSmaller(align: nat, x: nat)
    requires align > 0
    ensures 0 <= x % align <= x && x % align < align && (x < align ==> x % align == x)
  {
    assert x == align * (x / align) + x % align;
    Multiple(align, x / align);
  }

  /** Quotient and remainder are unique. */
  lemma Division(align: nat, q: int, r: nat)
    requires r < align && align * q + r >= 0
    ensures (align * q + r) / align == q && (align * q + r) % align == r
  {
    var x := align * q + r;
    assert x == align * (x / align) + x % align;
    assert align * (x / align - q) == align * (x / align) - align * q;
    Multiple(align, x / align - q);
  }

  /** The remainder by twice as much is one binary digit longer. */
  lemma RemainderByDouble(p: nat, x: nat)
    requires p > 0
    ensures x % (2 * p) == 2 * ((x / 2) % p) + x % 2
  {
    var h, low := x / 2, x % 2;
    var q, r := h / p, h % p;
    assert h == p * q + r;
    assert (2 * p) * q == 2 * (p * q);
    assert x == (2 * p) * q + (2 * r + low);
    Division(2 * p, q, 2 * r + low);
  }

  /** Masking with the bits below a power of two is taking the remainder by it. */
  lemma {:induction false} AndIsRemainder(k: nat, x: nat)
    ensures And(x, Pow2(k) - 1) == x % Pow2(k)
  {
    if k > 0 {
      AndIsRemainder(k - 1, x / 2);
      RemainderByDouble(Pow2(k - 1), x);
      AndOdd(x, Pow2(k - 1) - 1);
    }
  }

  lemma AndOdd(x: nat, m: nat)
    ensures And(x, 2 * m + 1) == x % 2 + 2 * And(x / 2, m)
  {
    assert (2 * m + 1) % 2 == 1 && (2 * m + 1) / 2 == m;
  }

  lemma MaskIsRemainder(align: nat, x: nat)
    requires Alignment(align)
    ensures And(x, align - 1) == x % align <= x && x % align < align
  {
    var k :| 0 <= k < 64 && align == Pow2(k);
    AndIsRemainder(k, x);
    RemainderIsSmaller(align, x);
  }

  // ---------------------------------------------------------------------------------------
  // States and packed words.

  /** `word & STATE_MASK`. */
  function Masked(align: nat, word: Word): (r: Word)
    requires Alignment(align)
    ensures r == word % align && r < align
  {
    MaskIsRemainder(align, word);
    And(word, align - 1)
  }

  /** A pointer to a value of this alignment. */
  predicate Aligned(align: nat, ptr: Word)
    requires align > 0
  {
    ptr % align == 0
  }

  /** `State::new`. */
  function NewState(align: nat, value: Word): (r: Option<Word>)
    requires Alignment(align)
    ensures r == if value < align then Some(value) else None
  {
    RemainderIsSmaller(align, value);
    if Masked(align, value) == value then Some(value) else None
  }

  /** `State::new_truncated`. */
  function TruncatedState(align: nat, value: Word): (r: Word)
    requires Alignment(align)
    ensures r < align && (value < align ==> r == value)
  {
    RemainderIsSmaller(align, value);
    Masked(align, value)
  }

  /** `PtrState::new`. */
  function Pack(ptr: Word, state: Word): Word { WrappingAdd(ptr, state) }

  function StateOf(align: nat, word: Word): Word
    requires Alignment(align)
  {
    Masked(align, word)
  }

  function PtrOf(align: nat, word: Word): Word
    requires Alignment(align)
  {
    WrappingSub(word, Masked(align, word))
  }

  function WithState(align: nat, word: Word, state: Word): Word
    requires Alignment(align)
  {
    Pack(PtrOf(align, word), state)
  }

  function WithPtr(align: nat, word: Word, ptr: Word): Word
    requires Alignment(align)
  {
    Pack(ptr, StateOf(align, word))
  }

  lemma {:induction false} PowersDivide(k: nat, n: nat)
    requires k <= n
    ensures Pow2(n) == Pow2(k) * Pow2(n - k)
  {
    if k > 0 {
      PowersDivide(k - 1, n - 1);
    }
  }

  lemma WordSizeIsPower()
    ensures Pow2(64) == USIZE_SIZE
  {
    assert Pow2(8) == 256;
    PowersDivide(8, 16);
    PowersDivide(16, 32);
    PowersDivide(32, 64);
  }

  /** The word size is a multiple of every alignment. */
  lemma AlignmentDividesWord(align: nat) returns (n: nat)
    requires Alignment(align)
    ensures USIZE_SIZE == align * n
  {
    var k :| 0 <= k < 64 && align == Pow2(k);
    WordSizeIsPower();
    PowersDivide(k, 64);
    n := Pow2(64 - k);
  }

  lemma NextMultiple(align: nat, m: nat, n: nat)
    requires align > 0 && align * m < align * n
    ensures align * m + align <= align * n
  {
    assert align * (n - m) == align * n - align * m;
    Multiple(align, n - m);
  }

  /** The last aligned address leaves room for every state. */
  lemma RoomForState(align: nat, ptr: Word, state: nat)
    requires Alignment(align) && Aligned(align, ptr) && state < align
    ensures ptr + state < USIZE_SIZE
  {
    var n := AlignmentDividesWord(align);
    var m := ptr / align;
    assert ptr == align * m;
    NextMultiple(align, m, n);
  }

  // ---------------------------------------------------------------------------------------
  // Packing.

  /** Packing an aligned pointer with a state in range is lossless and does not carry. */
  lemma PackUnpack(align: nat, ptr: Word, state: Word)
    requires Alignment(align) && Aligned(align, ptr) && state < align
    ensures Pack(ptr, state) == ptr + state
    ensures PtrOf(align, Pack(ptr, state)) == ptr && StateOf(align, Pack(ptr, state)) == state
  {
    RoomForState(align, ptr, state);
    assert ptr == align * (ptr / align);
    Division(align, ptr / align, state);
  }

  /** Every word is the packing of an aligned pointer and a state in range. */
  lemma UnpackPack(align: nat, word: Word)
    requires Alignment(align)
    ensures Aligned(align, PtrOf(align, word)) && StateOf(align, word) < align
    ensures Pack(PtrOf(align, word), StateOf(align, word)) == word
  {
    RemainderIsSmaller(align, word);
    assert word == align * (word / align) + word % align;
    Division(align, word / align, 0);
  }

  /** `with_state` changes only the state and `with_ptr` only the pointer. */
  lemma UpdatesAreIndependent(align: nat, word: Word, ptr: Word, state: Word)
    requires Alignment(align) && Aligned(align, ptr) && state < align
    ensures PtrOf(align, WithState(align, word, state)) == PtrOf(align, word)
    ensures StateOf(align, WithState(align, word, state)) == state
    ensures PtrOf(align, WithPtr(align, word, ptr)) == ptr
    ensures StateOf(align, WithPtr(align, word, ptr)) == StateOf(align, word)
  {
    UnpackPack(align, word);
    PackUnpack(align, PtrOf(align, word), state);
    PackUnpack(align, ptr, StateOf(align, word));
  }

  /** A word equals a packed pair exactly when both halves do. */
  lemma WordEqualsPair(align: nat, word: Word, ptr: Word, state: Word)
    requires Alignment(align) && Aligned(align, ptr) && state < align
    ensures word == Pack(ptr, state) <==> PtrOf(align, word) == ptr && StateOf(align, word) == state
  {
    UnpackPack(align, word);
    PackUnpack(align, ptr, state);
  }

  // ---------------------------------------------------------------------------------------
  // The wait-list nodes of src/condvar.rs are aligned to 256 bytes.

  const NODE_ALIGN: nat := 256

  /** At that alignment every 8-bit state survives truncation, packing and unpacking. */
  lemma EightBitStatesFit(ptr: Word, state: Word)
    requires state < 256 && Aligned(NODE_ALIGN, ptr)
    ensures Alignment(NODE_ALIGN)
    ensures TruncatedState(NODE_ALIGN, state) == state && NewState(NODE_ALIGN, state) == Some(state)
    ensures StateOf(NODE_ALIGN, Pack(ptr, state)) == state && PtrOf(NODE_ALIGN, Pack(ptr, state)) == ptr
  {
    assert Pow2(8) == NODE_ALIGN;
    PackUnpack(NODE_ALIGN, ptr, state);
  }

  /** There, so it is on the bits of a machine word. */
  lemma NodeMaskIsRemainder(word: bv64)
    ensures word & 255 == word % 256
  {
  }

  /** An atomic word that holds a pointer and a state. */
  class AtomicPtrState {
    const align: nat
    var word: Word

    ghost predicate Valid() { Alignment(align) }

    constructor (align: nat, ptr: Word, state: Word)
      requires Alignment(align) && Aligned(align, ptr) && state < align
      ensures Valid() && this.align == align && Ptr() == ptr && State() == state
    {
      PackUnpack(align, ptr, state);
      this.align := align;
      word := Pack(ptr, state);
    }

    ghost function Ptr(): Word
      requires Valid()
      reads this
    {
      PtrOf(align, word)
    }

    ghost function State(): Word
      requires Valid()
      reads this
    {
      StateOf(align, word)
    }

    method Store(ptr: Word, state: Word)
      requires Valid() && Aligned(align, ptr) && state < align
      modifies this`word
      ensures Ptr() == ptr && State() == state
    {
      PackUnpack(align, ptr, state);
      word := Pack(ptr, state);
    }

    /** Returns the pair that was there before. */
    method Swap(ptr: Word, state: Word) returns (oldPtr: Word, oldState: Word)
      requires Valid() && Aligned(align, ptr) && state < align
      modifies this`word
      ensures oldPtr == old(Ptr()) && oldState == old(State()) && Ptr() == ptr && State() == state
    {
      PackUnpack(align, ptr, state);
      oldPtr, oldState := PtrOf(align, word), StateOf(align, word);
      word := Pack(ptr, state);
    }

    /** Compares and exchanges whole words, which amounts to comparing and exchanging pairs. */
    method CompareExchange(ptr: Word, state: Word, newPtr: Word, newState: Word) returns (ok: bool)
      requires Valid() && Aligned(align, ptr) && state < align && Aligned(align, newPtr) && newState < align
      modifies this`word
      ensures ok <==> old(Ptr()) == ptr && old(State()) == state
      ensures Ptr() == (if ok then newPtr else old(Ptr())) && State() == (if ok then newState else old(State()))
    {
      WordEqualsPair(align, word, ptr, state);
      PackUnpack(align, newPtr, newState);
      ok := word == Pack(ptr, state);
      if ok {
        word := Pack(newPtr, newState);
      }
    }
  }
}
