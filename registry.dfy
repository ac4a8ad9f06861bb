/** The topic registry (`m_xmap_suber`) as a value: its invariants, the
    dispatch cursor's view of it, and what each registry update does to
    them. */
module Registry {
  import opened Tags
  import opened Message
  import opened Subscription
  import IndexSequence

  function Min(a: nat, b: nat): nat
  {
    if a <= b then a else b
  }

  /** `m_xmap_suber[key]`: the topic's set, or an empty one. */
  function Lookup(subs: map<Key, seq<Entry>>, key: Key): seq<Entry>
  {
    if key in subs then subs[key] else []
  }

  /** The subscribers destroyed when the slots of `s` are released: those
      whose tag makes the checking deleter delete them. */
  function Doomed(s: seq<Entry>, tagOf: map<SubId, nat>): set<SubId>
  {
    set e | e in s && e.sub in tagOf && DeleterDestroys(true, tagOf[e.sub]) :: e.sub
  }

  /** The subscriber destroyed when the slot of `sub` in `s` is released
      (none when `s` holds no slot for it). */
  function Released(s: seq<Entry>, sub: SubId, tagOf: map<SubId, nat>): set<SubId>
  {
    if HasSub(s, sub) && sub in tagOf && DeleterDestroys(true, tagOf[sub]) then {sub} else {}
  }

  /** The subscribers the removals of a log delete: each removed subscriber
      whose tag makes the checking deleter delete it. */
  function DeletedBy(ev: seq<Event>, tagOf: map<SubId, nat>): set<SubId>
  {
    set e | e in ev && e.Removed? && e.sub in tagOf && DeleterDestroys(true, tagOf[e.sub]) :: e.sub
  }

  /** A log deletes exactly the adapters it removes from some topic: a
      user subscriber is never deleted by a removal. */
  lemma DeletedByOwnership(ev: seq<Event>, tagOf: map<SubId, nat>, x: SubId)
    requires forall y | y in tagOf :: y.User? ==> IsUserTag(tagOf[y])
    requires forall y | y in tagOf :: y.Adapter? ==> IsAdapterTag(tagOf[y])
    ensures x in DeletedBy(ev, tagOf) <==> x.Adapter? && x in tagOf && exists k :: Removed(k, x) in ev
  {
    if x in DeletedBy(ev, tagOf) {
      var e :| e in ev && e.Removed? && e.sub in tagOf && DeleterDestroys(true, tagOf[e.sub]) && e.sub == x;
      OwnershipByTag(tagOf[x]);
      assert Removed(e.key, x) in ev;
    }
    if x.Adapter? && x in tagOf && exists k :: Removed(k, x) in ev {
      var k :| Removed(k, x) in ev;
      OwnershipByTag(tagOf[x]);
      assert Removed(k, x).sub == x;
    }
  }

  /** A log with no removal deletes nobody, and the deletions of a joined
      log are those of its two parts. */
  lemma DeletedByAppend(a: seq<Event>, b: seq<Event>, tagOf: map<SubId, nat>)
    ensures DeletedBy([], tagOf) == {}
    ensures forall d, blk :: DeletedBy([Call(d, blk)], tagOf) == {}
    ensures DeletedBy(a + b, tagOf) == DeletedBy(a, tagOf) + DeletedBy(b, tagOf)
  {
    forall d, blk ensures DeletedBy([Call(d, blk)], tagOf) == {} {
      assert forall e | e in [Call(d, blk)] :: e.Call?;
    }
    assert forall e :: e in a + b <==> e in a || e in b;
  }

  /** The log of an erase by identity deletes what releasing that slot
      deletes. */
  lemma ErasedDeletes(s: seq<Entry>, key: Key, sub: SubId, tagOf: map<SubId, nat>)
    ensures DeletedBy(ErasedEvents(s, key, sub), tagOf) == Released(s, sub, tagOf)
  {
    if HasSub(s, sub) {
      assert ErasedEvents(s, key, sub) == [Removed(key, sub)];
      assert forall e | e in ErasedEvents(s, key, sub) :: e == Removed(key, sub);
    }
  }

  /** The log of erasing a whole topic deletes what releasing every slot of
      its set deletes. */
  lemma DroppedDeletes(key: Key, s: seq<Entry>, tagOf: map<SubId, nat>)
    ensures DeletedBy(Removals(key, s), tagOf) == Doomed(s, tagOf)
  {
    var r := Removals(key, s);
    forall x | x in Doomed(s, tagOf) ensures x in DeletedBy(r, tagOf) {
      var i :| 0 <= i < |s| && s[i].sub == x && x in tagOf && DeleterDestroys(true, tagOf[x]);
      assert r[i] == Removed(key, x);
    }
    forall x | x in DeletedBy(r, tagOf) ensures x in Doomed(s, tagOf) {
      var i :| 0 <= i < |r| && r[i].sub == x && x in tagOf && DeleterDestroys(true, tagOf[x]);
      assert s[i] in s;
    }
  }

  /** The call `translate` makes for subscriber `sub`: an adapter calls its
      callable with its bound arguments followed by the message arguments;
      a user subscriber receives the message arguments. */
  function DeliveryFor(seqNo: nat, m: Context, sub: SubId, bound: map<SubId, seq<Arg>>): Delivery
  {
    Delivery(seqNo, m, sub,
      if sub.Adapter? && sub in bound then IndexSequence.InvokeArgs(bound[sub], m.args) else m.args)
  }

  /** The calls `translate` makes, in order, when message `m` (number
      `seqNo` of its dispatch call) is delivered to the subscribers `vs`. */
  function Deliveries(seqNo: nat, m: Context, vs: seq<SubId>, bound: map<SubId, seq<Arg>>): (r: seq<Delivery>)
    ensures |r| == |vs|
    ensures forall i | 0 <= i < |vs| :: r[i] == DeliveryFor(seqNo, m, vs[i], bound)
  {
    if vs == [] then [] else Deliveries(seqNo, m, vs[..|vs| - 1], bound) + [DeliveryFor(seqNo, m, vs[|vs| - 1], bound)]
  }

  /** The bound arguments come first and the message arguments last in
      every call an adapter receives. */
  lemma AdapterCallArgs(seqNo: nat, m: Context, a: SubId, bound: map<SubId, seq<Arg>>)
    requires a.Adapter? && a in bound
    ensures var d := DeliveryFor(seqNo, m, a, bound);
      && |d.callArgs| == |bound[a]| + |m.args|
      && d.callArgs[..|bound[a]|] == bound[a]
      && d.callArgs[|bound[a]|..] == m.args
  {
  }

  // ---------------------------------------------------------------------
  // The log of calls and removals
  // ---------------------------------------------------------------------

  /** One entry of the publisher's ghost log: a call of `translate`
      through the slot whose control block is `block`, or the removal of a
      subscriber's slot from a topic's set. */
  datatype Event = Call(d: Delivery, block: nat) | Removed(key: Key, sub: SubId)

  /** The calls of a log, in order. */
  function CallsOf(ev: seq<Event>): (r: seq<Delivery>)
    ensures |r| <= |ev|
  {
    if ev == [] then []
    else CallsOf(ev[..|ev| - 1]) + (if ev[|ev| - 1].Call? then [ev[|ev| - 1].d] else [])
  }

  /** The calls of two logs one after the other are the calls of the first
      followed by those of the second. */
  lemma {:induction false} CallsOfAppend(a: seq<Event>, b: seq<Event>)
    ensures CallsOf(a + b) == CallsOf(a) + CallsOf(b)
    decreases |b|
  {
    if b == [] {
      assert a + b == a;
    } else {
      var b' := b[..|b| - 1];
      var last := if b[|b| - 1].Call? then [b[|b| - 1].d] else [];
      assert (a + b)[..|a + b| - 1] == a + b';
      assert (a + b)[|a + b| - 1] == b[|b| - 1];
      CallsOfAppend(a, b');
      calc {
        CallsOf(a + b);
        CallsOf(a + b') + last;
        (CallsOf(a) + CallsOf(b')) + last;
        CallsOf(a) + (CallsOf(b') + last);
        CallsOf(a) + CallsOf(b);
      }
    }
  }

  /** The delivery of every call of a log is among its calls. */
  lemma {:induction false} CallsOfHas(ev: seq<Event>, j: nat)
    requires j < |ev| && ev[j].Call?
    ensures ev[j].d in CallsOf(ev)
    decreases |ev|
  {
    if j < |ev| - 1 {
      assert ev[..|ev| - 1][j] == ev[j];
      CallsOfHas(ev[..|ev| - 1], j);
    }
  }

  /** A log of removals only holds no call. */
  lemma {:induction false} RemovalsHaveNoCalls(ev: seq<Event>)
    requires forall e | e in ev :: e.Removed?
    ensures CallsOf(ev) == []
    decreases |ev|
  {
    if ev != [] {
      assert ev[|ev| - 1] in ev;
      RemovalsHaveNoCalls(ev[..|ev| - 1]);
    }
  }

  /** The registry holds a slot for `x` in topic `k`. */
  predicate Holds(subs: map<Key, seq<Entry>>, k: Key, x: SubId)
  {
    k in subs && HasSub(subs[k], x)
  }

  /** The registry holds the slot `e` in topic `k`. */
  predicate SlotHeld(subs: map<Key, seq<Entry>>, k: Key, e: Entry)
  {
    k in subs && e in subs[k]
  }

  lemma SlotHeldHolds(subs: map<Key, seq<Entry>>, k: Key, e: Entry)
    requires SlotHeld(subs, k, e)
    ensures Holds(subs, k, e.sub)
  {
    var i :| 0 <= i < |subs[k]| && subs[k][i] == e;
  }

  /** No call of the log goes, for a topic, to a subscriber an earlier
      entry of the log removed from that topic. */
  ghost predicate NoCallAfterRemoval(ev: seq<Event>)
  {
    forall i, j | 0 <= i < j < |ev| && ev[i].Removed? && ev[j].Call? ::
      !(ev[j].d.msg.mkey == ev[i].key && ev[j].d.sub == ev[i].sub)
  }

  /** Every subscriber that `before` holds for a topic and `after` does
      not has its removal from that topic in the log. */
  ghost predicate Logged(ev: seq<Event>, before: map<Key, seq<Entry>>, after: map<Key, seq<Entry>>)
  {
    forall k, x | Holds(before, k, x) && !Holds(after, k, x) :: Removed(k, x) in ev
  }

  /** `ev` is what happened while the registry went from `before` to
      `after`: the registry only lost slots; every call went through a
      slot its topic held in `before`; every removed slot is gone in
      `after`; no call followed the removal of its own slot; and every
      slot lost was logged as removed. */
  ghost predicate LogOk(ev: seq<Event>, before: map<Key, seq<Entry>>, after: map<Key, seq<Entry>>)
  {
    && Shrinks(before, after)
    && (forall i | 0 <= i < |ev| && ev[i].Call? :: SlotHeld(before, ev[i].d.msg.mkey, Entry(ev[i].d.sub, ev[i].block)))
    && (forall i | 0 <= i < |ev| && ev[i].Removed? :: !Holds(after, ev[i].key, ev[i].sub))
    && NoCallAfterRemoval(ev)
    && Logged(ev, before, after)
  }

  /** A log stays what happened when the registry then loses topics but
      no subscriber (the deferred erase of an empty set). */
  lemma LogOkCleanup(ev: seq<Event>, s0: map<Key, seq<Entry>>, s1: map<Key, seq<Entry>>, s2: map<Key, seq<Entry>>)
    requires LogOk(ev, s0, s1) && Shrinks(s1, s2)
    requires forall k, x | Holds(s1, k, x) :: Holds(s2, k, x)
    ensures LogOk(ev, s0, s2)
  {
    forall i | 0 <= i < |ev| && ev[i].Removed? ensures !Holds(s2, ev[i].key, ev[i].sub) {
      if Holds(s2, ev[i].key, ev[i].sub) {
        ShrinksKeepsHasSub(s1, s2, ev[i].key, ev[i].sub);
      }
    }
    ShrinksTransitive(s0, s1, s2);
  }

  /** Two stretches of the log compose: a call of the second went through
      a slot held when it began, which no removal of the first can have
      removed; a subscriber lost over both was lost in one of them. */
  lemma LogCompose(a: seq<Event>, b: seq<Event>, s0: map<Key, seq<Entry>>, s1: map<Key, seq<Entry>>,
                   s2: map<Key, seq<Entry>>)
    requires LogOk(a, s0, s1) && LogOk(b, s1, s2)
    ensures LogOk(a + b, s0, s2)
  {
    var ab := a + b;
    forall i | 0 <= i < |ab| && ab[i].Call? ensures SlotHeld(s0, ab[i].d.msg.mkey, Entry(ab[i].d.sub, ab[i].block)) {
      if i < |a| {
        assert a[i] == ab[i];
      } else {
        assert b[i - |a|] == ab[i];
      }
    }
    forall i | 0 <= i < |ab| && ab[i].Removed? ensures !Holds(s2, ab[i].key, ab[i].sub) {
      if i < |a| {
        assert a[i] == ab[i];
        if Holds(s2, ab[i].key, ab[i].sub) {
          ShrinksKeepsHasSub(s1, s2, ab[i].key, ab[i].sub);
        }
      } else {
        assert b[i - |a|] == ab[i];
      }
    }
    forall i, j | 0 <= i < j < |ab| && ab[i].Removed? && ab[j].Call?
      ensures !(ab[j].d.msg.mkey == ab[i].key && ab[j].d.sub == ab[i].sub)
    {
      if j < |a| {
        assert a[i] == ab[i] && a[j] == ab[j];
      } else if i >= |a| {
        assert b[i - |a|] == ab[i] && b[j - |a|] == ab[j];
      } else {
        assert a[i] == ab[i] && b[j - |a|] == ab[j];
        SlotHeldHolds(s1, ab[j].d.msg.mkey, Entry(ab[j].d.sub, ab[j].block));
      }
    }
    forall k, x | Holds(s0, k, x) && !Holds(s2, k, x) ensures Removed(k, x) in ab {
      if Holds(s1, k, x) {
        assert Removed(k, x) in b;
      } else {
        assert Removed(k, x) in a;
      }
    }
    ShrinksTransitive(s0, s1, s2);
  }

  /** A log of removals only while the registry went from `before` to
      `after`: the registry only lost slots, each entry removes a slot
      `after` no longer holds, and every slot lost is logged. */
  ghost predicate RemovalLog(ev: seq<Event>, before: map<Key, seq<Entry>>, after: map<Key, seq<Entry>>)
  {
    && Shrinks(before, after)
    && (forall e | e in ev :: e.Removed? && !Holds(after, e.key, e.sub))
    && Logged(ev, before, after)
  }

  /** A log of removals only is what happened to the registry. */
  lemma RemovalLogOk(ev: seq<Event>, before: map<Key, seq<Entry>>, after: map<Key, seq<Entry>>)
    requires RemovalLog(ev, before, after)
    ensures LogOk(ev, before, after)
  {
    forall i | 0 <= i < |ev| && ev[i].Removed? ensures !Holds(after, ev[i].key, ev[i].sub) {
      assert ev[i] in ev;
    }
    forall i | 0 <= i < |ev| ensures !ev[i].Call? {
      assert ev[i] in ev;
    }
  }

  /** Removal logs compose: a slot gone stays gone as the registry
      shrinks, and a subscriber lost over both stretches was lost in one. */
  lemma RemovalLogCompose(a: seq<Event>, b: seq<Event>, s0: map<Key, seq<Entry>>, s1: map<Key, seq<Entry>>,
                          s2: map<Key, seq<Entry>>)
    requires RemovalLog(a, s0, s1) && RemovalLog(b, s1, s2)
    ensures RemovalLog(a + b, s0, s2)
  {
    forall e | e in a + b ensures e.Removed? && !Holds(s2, e.key, e.sub) {
      if e in a && Holds(s2, e.key, e.sub) {
        ShrinksKeepsHasSub(s1, s2, e.key, e.sub);
      }
    }
    forall k, x | Holds(s0, k, x) && !Holds(s2, k, x) ensures Removed(k, x) in a + b {
      if Holds(s1, k, x) {
        assert Removed(k, x) in b;
      } else {
        assert Removed(k, x) in a;
      }
    }
    ShrinksTransitive(s0, s1, s2);
  }

  /** The log of `unsubscribe(key, sub)` on a registered topic: the removal
      of the slot, when the set held one. */
  function ErasedEvents(s: seq<Entry>, key: Key, sub: SubId): seq<Event>
  {
    if HasSub(s, sub) then [Removed(key, sub)] else []
  }

  /** The log of `unsubscribe(key)`: the removal of every slot of the set. */
  function Removals(key: Key, s: seq<Entry>): seq<Event>
  {
    seq(|s|, i requires 0 <= i < |s| => Removed(key, s[i].sub))
  }

  /** The token was issued for its topic: the control block it observes
      was created for that topic and that subscriber. */
  ghost predicate IssuedBy(blockOwner: map<nat, (Key, SubId)>, t: Token)
  {
    t.wref.Ref? ==> t.wref.block in blockOwner && blockOwner[t.wref.block] == (t.mkey, t.wref.target)
  }

  // ---------------------------------------------------------------------
  // The registry's invariant and what each registry update does to it
  // ---------------------------------------------------------------------

  /** The registry's slots are consistent with the control blocks and
      tags behind them: each set holds an identity once; each slot's
      control block was created (for that topic and that subscriber); each
      slot's subscriber has a tag and has not been deleted; an adapter is
      numbered by the one control block that owns it. */
  ghost predicate SlotsOk(subs: map<Key, seq<Entry>>, nextBlock: nat, blockOwner: map<nat, (Key, SubId)>,
                          tagOf: map<SubId, nat>, destroyed: set<SubId>)
  {
    && (forall k | k in subs :: IdentityUnique(subs[k]))
    && (forall k, e | k in subs && e in subs[k] :: SlotOk(k, e, nextBlock, blockOwner, tagOf, destroyed))
  }

  /** One slot `e` of topic `k` agrees with its control block and tag. */
  ghost predicate SlotOk(k: Key, e: Entry, nextBlock: nat, blockOwner: map<nat, (Key, SubId)>,
                         tagOf: map<SubId, nat>, destroyed: set<SubId>)
  {
    && e.block < nextBlock
    && e.block in blockOwner && blockOwner[e.block] == (k, e.sub)
    && e.sub in tagOf
    && (e.sub.Adapter? ==> e.sub.id == e.block)
    && e.sub !in destroyed
  }

  /** Users carry user tags, adapters adapter tags (and their bound
      arguments), and every adapter type tag minted lies above the base. */
  ghost predicate TagsOk(tagOf: map<SubId, nat>, bound: map<SubId, seq<Arg>>, typeTags: map<TypeId, SizeT>)
  {
    && (forall x | x in tagOf :: x.User? ==> IsUserTag(tagOf[x]))
    && (forall x | x in tagOf :: x.Adapter? ==> IsAdapterTag(tagOf[x]) && x in bound)
    && (forall t | t in typeTags :: IsAdapterTag(typeTags[t]))
  }

  /** Control blocks are numbered in creation order, and only adapters
      (which the registry owns) are ever deleted. */
  ghost predicate LedgerOk(blockOwner: map<nat, (Key, SubId)>, destroyed: set<SubId>, nextBlock: nat)
  {
    && (forall b | b in blockOwner :: b < nextBlock)
    && (forall x | x in destroyed :: x.Adapter? && x.id < nextBlock)
  }

  /** The subscribers of `visited` are pairwise distinct. */
  ghost predicate Distinct(visited: seq<SubId>)
  {
    forall i, j | 0 <= i < j < |visited| :: visited[i] != visited[j]
  }

  /** The dispatch cursor's view of the active topic's set `s`: every slot
      before `pos` has been delivered the message, the slot at `pos` has
      been delivered it exactly when the cursor is live (its handler is
      running and has not removed itself), no later slot has been. */
  ghost predicate Partition(s: seq<Entry>, pos: nat, live: bool, visited: seq<SubId>)
  {
    && pos <= |s|
    && (live ==> pos < |s|)
    && (forall i | 0 <= i < pos :: s[i].sub in visited)
    && (forall i | pos <= i < |s| :: (s[i].sub in visited <==> live && i == pos))
  }

  /** The cursor and the registry agree: outside dispatch the cursor is
      reset; only the topic under dispatch may hold an empty set (its
      cleanup is deferred to dispatch); during dispatch that topic is
      registered and the cursor partitions its set. */
  ghost predicate CursorOk(subs: map<Key, seq<Entry>>, iterating: bool, cursorKey: Key, live: bool,
                           pos: nat, visited: seq<SubId>)
  {
    && (!iterating ==> !live && cursorKey == DefaultKey)
    && (forall k | k in subs && subs[k] == [] :: iterating && k == cursorKey)
    && (iterating ==> cursorKey in subs && Partition(subs[cursorKey], pos, live, visited) && Distinct(visited))
  }

  /** The slots of the active topic dispatch has still to reach. */
  ghost function RemainingOf(subs: map<Key, seq<Entry>>, iterating: bool, cursorKey: Key, pos: nat): nat
  {
    if iterating && cursorKey in subs && pos <= |subs[cursorKey]| then |subs[cursorKey]| - pos else 0
  }

  /** The registry after `unsubscribe(key, sub)` on a registered topic:
      the identity is erased from the topic's set, and the topic goes when
      its set is left empty, unless it is the topic under dispatch. */
  function EraseFrom(subs: map<Key, seq<Entry>>, key: Key, sub: SubId, active: bool): map<Key, seq<Entry>>
    requires key in subs
  {
    var rest := Erase(subs[key], sub);
    if rest == [] && !active then subs - {key} else subs[key := rest]
  }

  /** The erase hits the slot the dispatch cursor stands on. */
  predicate HitsCursor(s: seq<Entry>, sub: SubId, active: bool, pos: nat)
  {
    active && pos < |s| && s[pos].sub == sub
  }

  /** The cursor's position after the erase: one back when an earlier
      slot of the active set goes, unchanged otherwise (erasing the
      cursor's own slot moves the next slot under it). */
  function PosAfterErase(s: seq<Entry>, sub: SubId, active: bool, pos: nat): nat
  {
    if active && HasSub(s, sub) && IndexOf(s, sub) < pos then pos - 1 else pos
  }

  /** Erasing slot `j` keeps the partition, with the iterator shifted back
      when an earlier slot goes and the cursor cleared when the current
      slot goes. */
  lemma RemovalKeepsPartition(s: seq<Entry>, j: nat, pos: nat, live: bool, visited: seq<SubId>)
    requires j < |s| && Partition(s, pos, live, visited)
    ensures Partition(RemoveAt(s, j), if j < pos then pos - 1 else pos, live && j != pos, visited)
  {
    var r := RemoveAt(s, j);
    var pos' := if j < pos then pos - 1 else pos;
    forall i | 0 <= i < pos' ensures r[i].sub in visited {
      if i < j { assert r[i] == s[i]; } else { assert r[i] == s[i + 1]; }
    }
    forall i | pos' <= i < |r| ensures r[i].sub in visited <==> live && j != pos && i == pos' {
      if i < j { assert r[i] == s[i]; } else { assert r[i] == s[i + 1]; }
    }
  }

  lemma ShrinksTransitive(a: map<Key, seq<Entry>>, b: map<Key, seq<Entry>>, c: map<Key, seq<Entry>>)
    requires Shrinks(a, b) && Shrinks(b, c)
    ensures Shrinks(a, c)
  {
  }

  lemma ShrinksKeepsHasSub(a: map<Key, seq<Entry>>, b: map<Key, seq<Entry>>, k: Key, x: SubId)
    requires Shrinks(a, b) && k in b && HasSub(b[k], x)
    ensures k in a && HasSub(a[k], x)
  {
    var i :| 0 <= i < |b[k]| && b[k][i].sub == x;
    assert b[k][i] in a[k];
  }

  /** Registering `sub` under a new control block keeps the slots
      consistent, whether the set takes the new slot (a new identity) or
      refuses it (the identity is already there). */
  lemma AddKeepsSlots(subs: map<Key, seq<Entry>>, nextBlock: nat, blockOwner: map<nat, (Key, SubId)>,
                      tagOf: map<SubId, nat>, destroyed: set<SubId>, key: Key, sub: SubId)
    requires SlotsOk(subs, nextBlock, blockOwner, tagOf, destroyed)
    requires sub in tagOf && sub !in destroyed
    ensures SlotsOk(subs, nextBlock + 1, blockOwner[nextBlock := (key, sub)], tagOf, destroyed)
    ensures !HasSub(Lookup(subs, key), sub) && (sub.Adapter? ==> sub.id == nextBlock) ==>
      SlotsOk(subs[key := Lookup(subs, key) + [Entry(sub, nextBlock)]], nextBlock + 1,
              blockOwner[nextBlock := (key, sub)], tagOf, destroyed)
  {
    var cur := Lookup(subs, key);
    if !HasSub(cur, sub) && (sub.Adapter? ==> sub.id == nextBlock) {
      var grown := cur + [Entry(sub, nextBlock)];
      forall i | 0 <= i < |cur| ensures grown[i].sub != sub {
        assert grown[i] == cur[i];
      }
      assert IdentityUnique(grown);
      forall e | e in grown ensures e in cur || e == Entry(sub, nextBlock) {
        var i :| 0 <= i < |grown| && grown[i] == e;
        if i < |cur| { assert cur[i] == e; }
      }
    }
  }

  /** Registering a slot under a fresh control block revives no expired
      weak reference to an older block. */
  lemma AddKeepsExpired(subs: map<Key, seq<Entry>>, key: Key, sub: SubId, block: nat)
    ensures forall t: Token :: t.wref.Ref? && t.wref.block < block && !TokenValid(subs, t) ==>
      !TokenValid(subs[key := Lookup(subs, key) + [Entry(sub, block)]], t)
  {
    var cur := Lookup(subs, key);
    var subs' := subs[key := cur + [Entry(sub, block)]];
    forall t: Token | t.wref.Ref? && t.wref.block < block && !TokenValid(subs, t)
      ensures !TokenValid(subs', t)
    {
      forall k: Key, e: Entry | k in subs' && e in subs'[k] ensures e.block != t.wref.block {
        if k == key {
          var i :| 0 <= i < |cur| + 1 && (cur + [Entry(sub, block)])[i] == e;
          if i < |cur| {
            assert cur[i] == e && e in subs[key];
          }
        } else {
          assert e in subs[k];
        }
      }
    }
  }

  /** An adapter sits in one topic only: its identity is the control block
      of its slot, and that block belongs to one topic. */
  lemma AdapterSlotUnique(subs: map<Key, seq<Entry>>, nextBlock: nat, blockOwner: map<nat, (Key, SubId)>,
                          tagOf: map<SubId, nat>, destroyed: set<SubId>, key: Key, k: Key, e: Entry, sub: SubId)
    requires SlotsOk(subs, nextBlock, blockOwner, tagOf, destroyed)
    requires key in subs && HasSub(subs[key], sub) && sub.Adapter?
    requires k in subs && e in subs[k] && k != key
    ensures e.sub != sub
  {
    var j :| 0 <= j < |subs[key]| && subs[key][j].sub == sub;
    assert SlotOk(key, subs[key][j], nextBlock, blockOwner, tagOf, destroyed);
    assert SlotOk(k, e, nextBlock, blockOwner, tagOf, destroyed);
  }

  /** Erasing one identity from a registered topic only removes slots, and
      deleting the erased subscriber, when it is an adapter, leaves no slot
      pointing at a deleted object: an adapter has exactly one slot. */
  lemma EraseKeepsSlots(subs: map<Key, seq<Entry>>, nextBlock: nat, blockOwner: map<nat, (Key, SubId)>,
                        tagOf: map<SubId, nat>, destroyed: set<SubId>, key: Key, sub: SubId, active: bool)
    requires SlotsOk(subs, nextBlock, blockOwner, tagOf, destroyed) && key in subs
    requires forall x | x in tagOf :: x.User? ==> IsUserTag(tagOf[x])
    ensures SlotsOk(EraseFrom(subs, key, sub, active), nextBlock, blockOwner, tagOf,
                    destroyed + Released(subs[key], sub, tagOf))
    ensures Shrinks(subs, EraseFrom(subs, key, sub, active))
    ensures forall x | x in Released(subs[key], sub, tagOf) :: x.Adapter? && x.id < nextBlock
  {
    var s := subs[key];
    EraseRemovesIdentity(s, sub);
    var rest := Erase(s, sub);
    var subs' := EraseFrom(subs, key, sub, active);
    var gone := Released(s, sub, tagOf);
    var destroyed' := destroyed + gone;
    forall k, e | k in subs' && e in subs'[k]
      ensures e in subs[k] && SlotOk(k, e, nextBlock, blockOwner, tagOf, destroyed')
    {
      if k == key {
        assert subs'[k] == rest;
        var i :| 0 <= i < |rest| && rest[i] == e;
        assert rest[i].sub != sub;
      } else {
        assert subs'[k] == subs[k];
        if sub in gone {
          AdapterSlotUnique(subs, nextBlock, blockOwner, tagOf, destroyed, key, k, e, sub);
        }
      }
      assert SlotOk(k, e, nextBlock, blockOwner, tagOf, destroyed);
    }
    forall x | x in gone ensures x.Adapter? && x.id < nextBlock {
      var j :| 0 <= j < |s| && s[j].sub == sub;
      assert SlotOk(key, s[j], nextBlock, blockOwner, tagOf, destroyed);
    }
  }

  /** Erasing a whole topic only removes slots, and deleting the adapters
      it held leaves no slot pointing at a deleted object. */
  lemma DropKeepsSlots(subs: map<Key, seq<Entry>>, nextBlock: nat, blockOwner: map<nat, (Key, SubId)>,
                       tagOf: map<SubId, nat>, destroyed: set<SubId>, key: Key)
    requires SlotsOk(subs, nextBlock, blockOwner, tagOf, destroyed) && key in subs
    requires forall x | x in tagOf :: x.User? ==> IsUserTag(tagOf[x])
    ensures SlotsOk(subs - {key}, nextBlock, blockOwner, tagOf, destroyed + Doomed(subs[key], tagOf))
    ensures Shrinks(subs, subs - {key})
    ensures forall x | x in Doomed(subs[key], tagOf) :: x.Adapter? && x.id < nextBlock
  {
    var s := subs[key];
    forall k, e, e' | k in subs && k != key && e in subs[k] && e' in s
      ensures e'.sub != e.sub || e.sub.User?
    {
    }
    forall x | x in Doomed(s, tagOf) ensures x.Adapter? && x.id < nextBlock {
      var e :| e in s && e.sub == x && e.sub in tagOf && DeleterDestroys(true, tagOf[e.sub]);
    }
  }

  /** Erasing a topic whose set is empty leaves every slot as it was. */
  lemma DropEmptyKeepsSlots(subs: map<Key, seq<Entry>>, nextBlock: nat, blockOwner: map<nat, (Key, SubId)>,
                            tagOf: map<SubId, nat>, destroyed: set<SubId>, key: Key)
    requires SlotsOk(subs, nextBlock, blockOwner, tagOf, destroyed) && key in subs && subs[key] == []
    ensures SlotsOk(subs - {key}, nextBlock, blockOwner, tagOf, destroyed)
    ensures Shrinks(subs, subs - {key})
  {
  }

  /** Erasing one identity keeps the cursor's view: the iterator shifts
      back when an earlier slot goes, the cursor is cleared exactly when
      its own slot goes, the active topic is never erased, and dispatch's
      remaining work does not grow (it shrinks when the cursor is
      cleared). */
  lemma EraseKeepsCursor(subs: map<Key, seq<Entry>>, iterating: bool, cursorKey: Key, live: bool,
                         pos: nat, visited: seq<SubId>, key: Key, sub: SubId, live': bool, pos': nat)
    requires CursorOk(subs, iterating, cursorKey, live, pos, visited)
    requires key in subs && IdentityUnique(subs[key])
    requires live' == (live && !HitsCursor(subs[key], sub, iterating && key == cursorKey, pos))
    requires pos' == PosAfterErase(subs[key], sub, iterating && key == cursorKey, pos)
    ensures var subs' := EraseFrom(subs, key, sub, iterating && key == cursorKey);
      && CursorOk(subs', iterating, cursorKey, live', pos', visited)
      && RemainingOf(subs', iterating, cursorKey, pos') <= RemainingOf(subs, iterating, cursorKey, pos)
      && (live && !live' ==> RemainingOf(subs', iterating, cursorKey, pos') < RemainingOf(subs, iterating, cursorKey, pos))
  {
    var s := subs[key];
    var active := iterating && key == cursorKey;
    EraseRemovesIdentity(s, sub);
    if active && HasSub(s, sub) {
      var j := IndexOf(s, sub);
      RemovalKeepsPartition(s, j, pos, live, visited);
      assert HitsCursor(s, sub, active, pos) <==> j == pos;
    }
  }

  /** Erasing a topic other than the active one keeps the cursor's view
      and dispatch's remaining work. */
  lemma DropKeepsCursor(subs: map<Key, seq<Entry>>, iterating: bool, cursorKey: Key, live: bool,
                        pos: nat, visited: seq<SubId>, key: Key)
    requires CursorOk(subs, iterating, cursorKey, live, pos, visited)
    requires key in subs && !(iterating && key == cursorKey)
    ensures CursorOk(subs - {key}, iterating, cursorKey, live, pos, visited)
    ensures RemainingOf(subs - {key}, iterating, cursorKey, pos) == RemainingOf(subs, iterating, cursorKey, pos)
  {
  }

  /** Delivering to the slot under the cursor makes the cursor live and
      records a subscriber not delivered this message before. */
  lemma VisitKeepsCursor(subs: map<Key, seq<Entry>>, key: Key, pos: nat, visited: seq<SubId>)
    requires CursorOk(subs, true, key, false, pos, visited)
    requires key in subs && pos < |subs[key]| && IdentityUnique(subs[key])
    ensures subs[key][pos].sub !in visited
    ensures CursorOk(subs, true, key, true, pos, visited + [subs[key][pos].sub])
  {
    var s := subs[key];
    var v := visited + [s[pos].sub];
    forall i | pos <= i < |s| ensures s[i].sub in v <==> i == pos {
      if i != pos { assert s[i].sub != s[pos].sub; }
    }
  }

  /** Advancing past a live cursor: the slot just delivered joins the
      delivered prefix and dispatch's remaining work shrinks. */
  lemma AdvanceKeepsCursor(subs: map<Key, seq<Entry>>, key: Key, pos: nat, visited: seq<SubId>)
    requires CursorOk(subs, true, key, true, pos, visited)
    ensures CursorOk(subs, true, key, false, pos + 1, visited)
    ensures RemainingOf(subs, true, key, pos + 1) < RemainingOf(subs, true, key, pos)
  {
  }

  /** When the cursor has run off the end of the active set, every slot
      still in it has been delivered the message, and resetting the
      cursor and erasing the set if it is empty restores the view outside
      dispatch. */
  lemma FinishKeepsCursor(subs: map<Key, seq<Entry>>, key: Key, pos: nat, visited: seq<SubId>)
    requires CursorOk(subs, true, key, false, pos, visited)
    requires key in subs && pos >= |subs[key]|
    ensures forall e | e in subs[key] :: e.sub in visited
    ensures CursorOk(if subs[key] == [] then subs - {key} else subs, false, DefaultKey, false, pos, visited)
  {
    forall e | e in subs[key] ensures e.sub in visited {
      var i :| 0 <= i < |subs[key]| && subs[key][i] == e;
    }
  }

  // ---------------------------------------------------------------------
  // The publisher's whole invariant, and each operation's step on it
  // ---------------------------------------------------------------------

  /** The publisher's invariant over its state: the slots, the tags, the
      ledger of control blocks and deletions, and the cursor. */
  ghost predicate RegistryOk(subs: map<Key, seq<Entry>>, nextBlock: nat, blockOwner: map<nat, (Key, SubId)>,
                             tagOf: map<SubId, nat>, bound: map<SubId, seq<Arg>>, typeTags: map<TypeId, SizeT>,
                             destroyed: set<SubId>, iterating: bool, cursorKey: Key, live: bool, pos: nat,
                             visited: seq<SubId>)
  {
    && SlotsOk(subs, nextBlock, blockOwner, tagOf, destroyed)
    && TagsOk(tagOf, bound, typeTags)
    && LedgerOk(blockOwner, destroyed, nextBlock)
    && CursorOk(subs, iterating, cursorKey, live, pos, visited)
  }

  /** The state of a new publisher satisfies the invariant. */
  lemma InitialRegistry()
    ensures RegistryOk(map[], 0, map[], map[], map[], map[], {}, false, DefaultKey, false, 0, [])
  {
  }

  /** `unsubscribe(key, sub)` on a registered topic keeps the invariant. */
  lemma EraseKeepsRegistry(subs: map<Key, seq<Entry>>, nextBlock: nat, blockOwner: map<nat, (Key, SubId)>,
                           tagOf: map<SubId, nat>, bound: map<SubId, seq<Arg>>, typeTags: map<TypeId, SizeT>,
                           destroyed: set<SubId>, iterating: bool, cursorKey: Key, live: bool, pos: nat,
                           visited: seq<SubId>, key: Key, sub: SubId, live': bool, pos': nat)
    requires RegistryOk(subs, nextBlock, blockOwner, tagOf, bound, typeTags, destroyed, iterating, cursorKey, live, pos, visited)
    requires key in subs
    requires live' == (live && !HitsCursor(subs[key], sub, iterating && key == cursorKey, pos))
    requires pos' == PosAfterErase(subs[key], sub, iterating && key == cursorKey, pos)
    ensures RegistryOk(EraseFrom(subs, key, sub, iterating && key == cursorKey), nextBlock, blockOwner, tagOf, bound,
                       typeTags, destroyed + Released(subs[key], sub, tagOf), iterating, cursorKey, live', pos', visited)
    ensures Shrinks(subs, EraseFrom(subs, key, sub, iterating && key == cursorKey))
    ensures RemovalLog(ErasedEvents(subs[key], key, sub), subs, EraseFrom(subs, key, sub, iterating && key == cursorKey))
    ensures var subs' := EraseFrom(subs, key, sub, iterating && key == cursorKey);
      key in subs' ==> !HasSub(subs'[key], sub)
    ensures var subs' := EraseFrom(subs, key, sub, iterating && key == cursorKey);
      && RemainingOf(subs', iterating, cursorKey, pos') <= RemainingOf(subs, iterating, cursorKey, pos)
      && (live && !live' ==> RemainingOf(subs', iterating, cursorKey, pos') < RemainingOf(subs, iterating, cursorKey, pos))
  {
    EraseKeepsSlots(subs, nextBlock, blockOwner, tagOf, destroyed, key, sub, iterating && key == cursorKey);
    EraseRemovesIdentity(subs[key], sub);
    EraseKeepsCursor(subs, iterating, cursorKey, live, pos, visited, key, sub, live', pos');
    var subs' := EraseFrom(subs, key, sub, iterating && key == cursorKey);
    forall k, x | Holds(subs, k, x) && !Holds(subs', k, x) ensures Removed(k, x) in ErasedEvents(subs[key], key, sub) {
      assert k == key && x == sub;
    }
  }

  /** `unsubscribe(key)` on a registered topic other than the one under
      dispatch keeps the invariant. */
  lemma DropKeepsRegistry(subs: map<Key, seq<Entry>>, nextBlock: nat, blockOwner: map<nat, (Key, SubId)>,
                          tagOf: map<SubId, nat>, bound: map<SubId, seq<Arg>>, typeTags: map<TypeId, SizeT>,
                          destroyed: set<SubId>, iterating: bool, cursorKey: Key, live: bool, pos: nat,
                          visited: seq<SubId>, key: Key)
    requires RegistryOk(subs, nextBlock, blockOwner, tagOf, bound, typeTags, destroyed, iterating, cursorKey, live, pos, visited)
    requires key in subs && !(iterating && key == cursorKey)
    ensures RegistryOk(subs - {key}, nextBlock, blockOwner, tagOf, bound, typeTags,
                       destroyed + Doomed(subs[key], tagOf), iterating, cursorKey, live, pos, visited)
    ensures Shrinks(subs, subs - {key})
    ensures RemovalLog(Removals(key, subs[key]), subs, subs - {key})
  {
    DropKeepsSlots(subs, nextBlock, blockOwner, tagOf, destroyed, key);
    DropKeepsCursor(subs, iterating, cursorKey, live, pos, visited, key);
    forall k, x | Holds(subs, k, x) && !Holds(subs - {key}, k, x) ensures Removed(k, x) in Removals(key, subs[key]) {
      var i :| 0 <= i < |subs[key]| && subs[key][i].sub == x;
      assert Removals(key, subs[key])[i] == Removed(k, x);
    }
  }

  /** `iinvk_subscribe` outside dispatch keeps the invariant, whether the
      set takes the new slot or refuses it as a duplicate. */
  lemma AddKeepsRegistry(subs: map<Key, seq<Entry>>, nextBlock: nat, blockOwner: map<nat, (Key, SubId)>,
                         tagOf: map<SubId, nat>, bound: map<SubId, seq<Arg>>, typeTags: map<TypeId, SizeT>,
                         destroyed: set<SubId>, cursorKey: Key, pos: nat, visited: seq<SubId>, key: Key, sub: SubId)
    requires RegistryOk(subs, nextBlock, blockOwner, tagOf, bound, typeTags, destroyed, false, cursorKey, false, pos, visited)
    requires sub in tagOf && (sub.Adapter? ==> sub.id == nextBlock)
    ensures var cur := Lookup(subs, key);
      RegistryOk(if HasSub(cur, sub) then subs else subs[key := cur + [Entry(sub, nextBlock)]], nextBlock + 1,
                 blockOwner[nextBlock := (key, sub)], tagOf, bound, typeTags, destroyed, false, cursorKey, false, pos, visited)
  {
    AddKeepsSlots(subs, nextBlock, blockOwner, tagOf, destroyed, key, sub);
  }

  /** Recording the tag of a user subscriber keeps the invariant. */
  lemma UserTagKeepsRegistry(subs: map<Key, seq<Entry>>, nextBlock: nat, blockOwner: map<nat, (Key, SubId)>,
                             tagOf: map<SubId, nat>, bound: map<SubId, seq<Arg>>, typeTags: map<TypeId, SizeT>,
                             destroyed: set<SubId>, iterating: bool, cursorKey: Key, live: bool, pos: nat,
                             visited: seq<SubId>, id: nat, tag: nat)
    requires RegistryOk(subs, nextBlock, blockOwner, tagOf, bound, typeTags, destroyed, iterating, cursorKey, live, pos, visited)
    requires IsUserTag(tag)
    ensures RegistryOk(subs, nextBlock, blockOwner, tagOf[User(id) := tag], bound, typeTags, destroyed,
                       iterating, cursorKey, live, pos, visited)
  {
    var tagOf' := tagOf[User(id) := tag];
    forall k, e | k in subs && e in subs[k] ensures SlotOk(k, e, nextBlock, blockOwner, tagOf', destroyed) {
      assert SlotOk(k, e, nextBlock, blockOwner, tagOf, destroyed);
    }
  }

  /** Recording the tag and bound arguments of the adapter about to be
      created under the next control block keeps the invariant; no slot
      holds that adapter yet. */
  lemma AdapterTagKeepsRegistry(subs: map<Key, seq<Entry>>, nextBlock: nat, blockOwner: map<nat, (Key, SubId)>,
                                tagOf: map<SubId, nat>, bound: map<SubId, seq<Arg>>, typeTags: map<TypeId, SizeT>,
                                destroyed: set<SubId>, iterating: bool, cursorKey: Key, live: bool, pos: nat,
                                visited: seq<SubId>, tag: nat, args: seq<Arg>)
    requires RegistryOk(subs, nextBlock, blockOwner, tagOf, bound, typeTags, destroyed, iterating, cursorKey, live, pos, visited)
    requires IsAdapterTag(tag)
    ensures forall k | k in subs :: !HasSub(subs[k], Adapter(nextBlock))
    ensures RegistryOk(subs, nextBlock, blockOwner, tagOf[Adapter(nextBlock) := tag], bound[Adapter(nextBlock) := args],
                       typeTags, destroyed, iterating, cursorKey, live, pos, visited)
  {
    var a := Adapter(nextBlock);
    var tagOf' := tagOf[a := tag];
    forall k, e | k in subs && e in subs[k] ensures e.sub != a && SlotOk(k, e, nextBlock, blockOwner, tagOf', destroyed) {
      assert SlotOk(k, e, nextBlock, blockOwner, tagOf, destroyed);
    }
    forall k, i | k in subs && 0 <= i < |subs[k]| ensures subs[k][i].sub != a {
      assert subs[k][i] in subs[k];
    }
  }

  /** Setting the cursor to a registered topic, at its first slot, with
      nobody delivered yet, keeps the invariant. */
  lemma StartKeepsRegistry(subs: map<Key, seq<Entry>>, nextBlock: nat, blockOwner: map<nat, (Key, SubId)>,
                           tagOf: map<SubId, nat>, bound: map<SubId, seq<Arg>>, typeTags: map<TypeId, SizeT>,
                           destroyed: set<SubId>, cursorKey: Key, pos: nat, visited: seq<SubId>, key: Key)
    requires RegistryOk(subs, nextBlock, blockOwner, tagOf, bound, typeTags, destroyed, false, cursorKey, false, pos, visited)
    requires key in subs
    ensures RegistryOk(subs, nextBlock, blockOwner, tagOf, bound, typeTags, destroyed, true, key, false, 0, [])
  {
  }

  /** Delivering to the slot under the cursor keeps the invariant, with the
      cursor live and a subscriber not delivered this message before added
      to those that have been. */
  lemma VisitKeepsRegistry(subs: map<Key, seq<Entry>>, nextBlock: nat, blockOwner: map<nat, (Key, SubId)>,
                           tagOf: map<SubId, nat>, bound: map<SubId, seq<Arg>>, typeTags: map<TypeId, SizeT>,
                           destroyed: set<SubId>, key: Key, pos: nat, visited: seq<SubId>)
    requires RegistryOk(subs, nextBlock, blockOwner, tagOf, bound, typeTags, destroyed, true, key, false, pos, visited)
    requires key in subs && pos < |subs[key]|
    ensures subs[key][pos].sub !in visited
    ensures RegistryOk(subs, nextBlock, blockOwner, tagOf, bound, typeTags, destroyed, true, key, true, pos,
                       visited + [subs[key][pos].sub])
  {
    VisitKeepsCursor(subs, key, pos, visited);
  }

  /** Advancing past a live cursor keeps the invariant and shrinks
      dispatch's remaining work. */
  lemma AdvanceKeepsRegistry(subs: map<Key, seq<Entry>>, nextBlock: nat, blockOwner: map<nat, (Key, SubId)>,
                             tagOf: map<SubId, nat>, bound: map<SubId, seq<Arg>>, typeTags: map<TypeId, SizeT>,
                             destroyed: set<SubId>, key: Key, pos: nat, visited: seq<SubId>)
    requires RegistryOk(subs, nextBlock, blockOwner, tagOf, bound, typeTags, destroyed, true, key, true, pos, visited)
    ensures RegistryOk(subs, nextBlock, blockOwner, tagOf, bound, typeTags, destroyed, true, key, false, pos + 1, visited)
    ensures RemainingOf(subs, true, key, pos + 1) < RemainingOf(subs, true, key, pos)
  {
    AdvanceKeepsCursor(subs, key, pos, visited);
  }

  /** Once the cursor is past the end of the active set, every slot left
      in it has been delivered; resetting the cursor and erasing the set
      if it is empty keeps the invariant. */
  lemma FinishKeepsRegistry(subs: map<Key, seq<Entry>>, nextBlock: nat, blockOwner: map<nat, (Key, SubId)>,
                            tagOf: map<SubId, nat>, bound: map<SubId, seq<Arg>>, typeTags: map<TypeId, SizeT>,
                            destroyed: set<SubId>, key: Key, pos: nat, visited: seq<SubId>)
    requires RegistryOk(subs, nextBlock, blockOwner, tagOf, bound, typeTags, destroyed, true, key, false, pos, visited)
    requires key in subs && pos >= |subs[key]|
    ensures forall e | e in subs[key] :: e.sub in visited
    ensures var subs' := if subs[key] == [] then subs - {key} else subs;
      && RegistryOk(subs', nextBlock, blockOwner, tagOf, bound, typeTags, destroyed, false, DefaultKey, false, pos, visited)
      && Shrinks(subs, subs')
      && (forall k, x | Holds(subs, k, x) :: Holds(subs', k, x))
      && (key in subs' ==> subs'[key] != [])
  {
    FinishKeepsCursor(subs, key, pos, visited);
    if subs[key] == [] {
      DropEmptyKeepsSlots(subs, nextBlock, blockOwner, tagOf, destroyed, key);
    }
  }
}
