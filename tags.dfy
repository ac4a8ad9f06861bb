/** Subscriber type tags, the ownership rule they encode, and the
    process-wide counter that numbers adapter subscriber types. */
module Tags {

  /** The largest value of the 64-bit `size_t`. */
  const SIZE_MAX: nat := 0xFFFF_FFFF_FFFF_FFFF

  type SizeT = n: nat | n <= SIZE_MAX

  /** XSUBER_BASE_TYPE: the tag of the abstract base subscriber, (size_t)-1 / 2. */
  const BASE: SizeT := SIZE_MAX / 2

  /** Tags of subscriber classes written by users (checked at compile time). */
  predicate IsUserTag(tag: nat) { tag < BASE }

  /** Tags of the adapter subscribers the publisher creates around callables. */
  predicate IsAdapterTag(tag: nat) { tag > BASE }

  /** The custom deleter of a registry slot: the checking deleter destroys the
      subscriber only when its tag lies above the base tag; the non-checking
      deleter (used for the temporary lookup key of an erase) never does. */
  function DeleterDestroys(checking: bool, tag: nat): bool
  {
    checking && tag > BASE
  }

  /** The ownership rule: a user subscriber is never destroyed by the
      registry, whichever deleter runs; an adapter is destroyed exactly by
      the checking deleter; the base tag itself belongs to neither side. */
  lemma OwnershipByTag(tag: nat)
    ensures IsUserTag(tag) ==> !DeleterDestroys(true, tag) && !DeleterDestroys(false, tag)
    ensures IsAdapterTag(tag) ==> DeleterDestroys(true, tag) && !DeleterDestroys(false, tag)
    ensures !IsUserTag(BASE) && !IsAdapterTag(BASE)
    ensures !(IsUserTag(tag) && IsAdapterTag(tag))
  {
  }

  /** The identity of one `x_subinvoke_t<callable, bound-tuple>`
      instantiation, that is, of one adapter subscriber type. */
  type TypeId = nat

  /** `fetch_add(1)` on the atomic `size_t` counter: wraps to 0 after SIZE_MAX. */
  function NextSeqno(seqno: SizeT): (r: SizeT)
  {
    if seqno == SIZE_MAX then 0 else seqno + 1
  }

  /** The tags handed out by `k` successive `make_sub_type` calls starting
      from counter value `seqno`. */
  function TagsIssued(seqno: SizeT, k: nat): (r: seq<SizeT>)
    ensures |r| == k
    decreases k
  {
    if k == 0 then [] else [seqno] + TagsIssued(NextSeqno(seqno), k - 1)
  }

  /** From the initial counter value BASE + 1, the first 2^63 calls (every
      call a program can make before the counter wraps) hand out
      consecutive, hence distinct, tags that are all adapter tags. */
  lemma {:induction false} TagsIssuedAreAdapterTags(seqno: SizeT, k: nat)
    requires seqno > BASE
    requires seqno + k <= SIZE_MAX + 1
    ensures forall i :: 0 <= i < k ==> TagsIssued(seqno, k)[i] == seqno + i
    ensures forall i :: 0 <= i < k ==> IsAdapterTag(TagsIssued(seqno, k)[i])
    decreases k
  {
    if k > 1 {
      TagsIssuedAreAdapterTags(NextSeqno(seqno), k - 1);
    }
  }
}
