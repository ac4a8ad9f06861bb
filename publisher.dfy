/** `xmsg_publisher_t`: the message queue, the topic registry and the
    dispatch loop, with the cursor handshake that lets a handler unsubscribe
    while it is being delivered a message. */
module Publisher {
  import opened Tags
  import opened Message
  import opened Subscription
  import opened Registry
  import opened DispatchRecord

  class Publisher {
    /** m_xmsg_queue */
    var queue: seq<Context>
    /** m_xmap_suber */
    var subs: map<Key, seq<Entry>>
    /** m_iter_suber.first */
    var cursorKey: Key
    /** m_iter_suber.second != nullptr */
    var cursorLive: bool
    /** dispatch is inside its loop over the set of `cursorKey` */
    var iterating: bool
    /** dispatch's `itsub`, as a position in the active topic's set */
    var iterPos: nat
    /** sub_type_seqno */
    var seqno: SizeT
    /** `sub_type_value` of each adapter type initialised so far */
    var typeTags: map<TypeId, SizeT>
    /** `sub_type()` of each subscriber object registered so far */
    var tagOf: map<SubId, nat>
    /** the bound arguments (`m_xargs`) of each adapter */
    var bound: map<SubId, seq<Arg>>
    /** the number of control blocks created so far */
    var nextBlock: nat

    /** the topic and subscriber each control block was created for */
    ghost var blockOwner: map<nat, (Key, SubId)>
    /** the subscribers the registry has deleted */
    ghost var destroyed: set<SubId>
    /** every `translate` call and every slot removal so far, in order */
    ghost var log: seq<Event>
    /** the subscribers delivered the current message so far */
    ghost var passVisited: seq<SubId>

    ghost predicate Valid()
      reads this
    {
      RegistryOk(subs, nextBlock, blockOwner, tagOf, bound, typeTags, destroyed,
                 iterating, cursorKey, cursorLive, iterPos, passVisited)
    }

    /** The token was issued by this publisher for its topic: the control
        block it observes was created for that topic and that subscriber. */
    ghost predicate Issued(t: Token)
      reads this
    {
      IssuedBy(blockOwner, t)
    }

    /** `key` is the topic whose set dispatch is iterating. */
    predicate Active(key: Key)
      reads this
    {
      iterating && key == cursorKey
    }

    /** The slots of the active topic dispatch has still to reach. */
    ghost function Remaining(): nat
      reads this
    {
      RemainingOf(subs, iterating, cursorKey, iterPos)
    }

    /** `xmsg_publisher_t()`: empty queue and registry, no active cursor;
        the type-tag counter starts just above the base tag. */
    constructor ()
      ensures Valid() && !iterating && !cursorLive
      ensures queue == [] && subs == map[] && cursorKey == DefaultKey
      ensures seqno == BASE + 1 && typeTags == map[] && tagOf == map[] && bound == map[]
      ensures destroyed == {} && log == []
    {
      InitialRegistry();
      queue := [];
      subs := map[];
      cursorKey := DefaultKey;
      cursorLive := false;
      iterating := false;
      iterPos := 0;
      seqno := BASE + 1;
      typeTags := map[];
      tagOf := map[];
      bound := map[];
      nextBlock := 0;
      blockOwner := map[];
      destroyed := {};
      log := [];
      passVisited := [];
    }

    /** `size()`: the number of messages waiting to be dispatched. */
    function Size(): nat
      reads this
    {
      |queue|
    }

    /** `empty()`: no message is waiting. */
    function Empty(): bool
      reads this
    {
      Size() == 0
    }

    /** `publish(ctx)`: appends the message at the back of the queue. */
    method Publish(m: Context)
      requires Valid()
      modifies this`queue
      ensures Valid()
      ensures queue == old(queue) + [m]
      ensures Size() == old(Size()) + 1 && !Empty()
    {
      queue := queue + [m];
    }

    /** `publish(key, args...)`: builds the message and appends it. */
    method PublishArgs(key: Key, args: seq<Arg>)
      requires Valid()
      modifies this`queue
      ensures Valid()
      ensures queue == old(queue) + [Context(key, args)]
      ensures Size() == old(Size()) + 1 && !Empty()
    {
      Publish(Context(key, args));
    }

    /** `make_sub_type()`: returns the counter and increments it (wrapping
        like the `size_t` it is). */
    method MakeSubType() returns (tag: SizeT)
      modifies this`seqno
      ensures tag == old(seqno) && seqno == NextSeqno(old(seqno))
    {
      tag := seqno;
      seqno := NextSeqno(seqno);
    }

    /** `x_subinvoke_t<F, T>::sub_type_value`: computed by `make_sub_type`
        once per adapter type, at its first use, and reused after. */
    method AdapterTag(t: TypeId) returns (tag: SizeT)
      requires Valid()
      requires t in typeTags || seqno > BASE
      modifies this`seqno, this`typeTags
      ensures Valid()
      ensures IsAdapterTag(tag) && t in typeTags && typeTags[t] == tag
      ensures t in old(typeTags) ==> typeTags == old(typeTags) && seqno == old(seqno)
      ensures t !in old(typeTags) ==>
        tag == old(seqno) && typeTags == old(typeTags)[t := tag] && seqno == NextSeqno(old(seqno))
    {
      if t in typeTags {
        tag := typeTags[t];
      } else {
        tag := MakeSubType();
        typeTags := typeTags[t := tag];
      }
    }

    /** `iinvk_subscribe`: wraps the subscriber in a new owning slot and
        inserts it by identity into the topic's set. A new identity grows
        the set by that one slot and yields a valid token; an identity
        already present leaves the registry as it was and yields the empty
        token (the refused insert cannot leave a set empty, so the erase of
        an empty set that follows it never happens). Tokens that had
        expired stay expired. */
    method IInvkSubscribe(key: Key, sub: SubId) returns (t: Token)
      requires Valid() && !iterating
      requires sub in tagOf
      requires sub.Adapter? ==> sub.id == nextBlock
      modifies this`subs, this`nextBlock, this`blockOwner
      ensures Valid()
      ensures nextBlock == old(nextBlock) + 1
      ensures forall t' :: old(Issued(t')) ==> Issued(t')
      ensures HasSub(Lookup(old(subs), key), sub) ==> subs == old(subs) && t == EmptyToken
      ensures !HasSub(Lookup(old(subs), key), sub) ==>
        && subs == old(subs)[key := Lookup(old(subs), key) + [Entry(sub, old(nextBlock))]]
        && t == Token(key, Ref(old(nextBlock), sub))
        && TokenValid(subs, t) && Issued(t)
      ensures forall t': Token :: t'.wref.Ref? && t'.wref.block < old(nextBlock) && !TokenValid(old(subs), t') ==> !TokenValid(subs, t')
    {
      var block := nextBlock;
      var cur := Lookup(subs, key);
      ghost var owner' := blockOwner[block := (key, sub)];
      AddKeepsRegistry(subs, nextBlock, blockOwner, tagOf, bound, typeTags, destroyed, cursorKey, iterPos, passVisited, key, sub);
      AddKeepsExpired(subs, key, sub, block);
      if HasSub(cur, sub) {
        // The duplicate's added slot is released at once; its owner is a
        // user subscriber (adapters are always new), so nothing is deleted.
        t := EmptyToken;
        nextBlock, blockOwner := block + 1, owner';
      } else {
        var e := Entry(sub, block);
        var subs' := subs[key := cur + [e]];
        assert e in subs'[key];
        t := Token(key, Ref(block, sub));
        subs, nextBlock, blockOwner := subs', block + 1, owner';
      }
    }

    /** `subscribe(key, subscriber)` for a user subscriber: the pointer is
        not null and its tag lies below the base tag (both asserted); the
        registry never takes ownership of it. */
    method SubscribeUser(key: Key, id: nat, tag: nat) returns (t: Token)
      requires Valid() && !iterating
      requires IsUserTag(tag)
      requires User(id) in tagOf ==> tagOf[User(id)] == tag
      modifies this`subs, this`nextBlock, this`blockOwner, this`tagOf
      ensures Valid()
      ensures tagOf == old(tagOf)[User(id) := tag]
      ensures HasSub(Lookup(old(subs), key), User(id)) ==> subs == old(subs) && t == EmptyToken
      ensures !HasSub(Lookup(old(subs), key), User(id)) ==>
        && subs == old(subs)[key := Lookup(old(subs), key) + [Entry(User(id), old(nextBlock))]]
        && t == Token(key, Ref(old(nextBlock), User(id)))
        && TokenValid(subs, t) && Issued(t)
    {
      UserTagKeepsRegistry(subs, nextBlock, blockOwner, tagOf, bound, typeTags, destroyed,
                           iterating, cursorKey, cursorLive, iterPos, passVisited, id, tag);
      tagOf := tagOf[User(id) := tag];
      t := IInvkSubscribe(key, User(id));
    }

    /** `subscribe(key, callable, bound...)`: creates a new adapter around
        the callable and its bound arguments, tagged with its type's tag
        (minted on first use), and registers it as an owning slot. A new
        object is never already present, so the set always grows by it and
        the token is always valid. */
    method SubscribeAdapter(key: Key, callable: TypeId, args: seq<Arg>) returns (t: Token)
      requires Valid() && !iterating
      requires callable in typeTags || seqno > BASE
      modifies this`subs, this`nextBlock, this`blockOwner, this`tagOf, this`bound, this`seqno, this`typeTags
      ensures Valid()
      ensures var a := Adapter(old(nextBlock));
        && subs == old(subs)[key := Lookup(old(subs), key) + [Entry(a, old(nextBlock))]]
        && t == Token(key, Ref(old(nextBlock), a))
        && TokenValid(subs, t) && Issued(t)
        && callable in typeTags && tagOf == old(tagOf)[a := typeTags[callable]]
        && IsAdapterTag(tagOf[a])
        && bound == old(bound)[a := args]
      ensures callable in old(typeTags) ==> typeTags == old(typeTags) && seqno == old(seqno)
      ensures callable !in old(typeTags) ==>
        typeTags == old(typeTags)[callable := old(seqno)] && seqno == NextSeqno(old(seqno))
    {
      var a := Adapter(nextBlock);
      var tag := AdapterTag(callable);
      AdapterTagKeepsRegistry(subs, nextBlock, blockOwner, tagOf, bound, typeTags, destroyed,
                              iterating, cursorKey, cursorLive, iterPos, passVisited, tag, args);
      tagOf, bound := tagOf[a := tag], bound[a := args];
      t := IInvkSubscribe(key, a);
    }

    /** `unsubscribe(key, subscriber)`. An unknown topic is left alone.
        Otherwise the identity is erased from the topic's set. When it is
        the slot the dispatch cursor stands on, that slot is erased and the
        iterator moves to the next one in the same step, and the cursor is
        cleared so that dispatch does not advance again. When the set
        becomes empty the topic is erased, unless it is the topic under
        dispatch, whose cleanup dispatch performs itself. Releasing the slot
        deletes the subscriber when it is an adapter. */
    method UnsubscribePtr(key: Key, sub: SubId) returns (ghost ev: seq<Event>)
      requires Valid()
      modifies this`subs, this`destroyed, this`cursorLive, this`iterPos, this`log
      ensures Valid() && Shrinks(old(subs), subs)
      ensures log == old(log) + ev && RemovalLog(ev, old(subs), subs)
      ensures key !in old(subs) ==>
        subs == old(subs) && destroyed == old(destroyed) && cursorLive == old(cursorLive) && iterPos == old(iterPos)
        && ev == []
      ensures key in old(subs) ==>
        && ev == ErasedEvents(old(subs[key]), key, sub)
        && subs == EraseFrom(old(subs), key, sub, Active(key))
        && destroyed == old(destroyed) + Released(old(subs[key]), sub, tagOf)
        && iterPos == PosAfterErase(old(subs[key]), sub, Active(key), old(iterPos))
        && cursorLive == (old(cursorLive) && !HitsCursor(old(subs[key]), sub, Active(key), old(iterPos)))
      ensures key in subs ==> !HasSub(subs[key], sub)
      ensures cursorLive ==> old(cursorLive)
      ensures Remaining() <= old(Remaining())
      ensures old(cursorLive) && !cursorLive ==> Remaining() < old(Remaining())
    {
      ev := [];
      if key in subs {
        var s := subs[key];
        var active := Active(key);
        // The slot under the cursor is erased and the iterator advanced in
        // one step (in the sequence that stands for the set, the next slot
        // moves into the cursor's position), and the cursor is cleared.
        // Erasing another slot keeps the set's iterator valid; in the
        // sequence the position shifts back when an earlier slot goes.
        var live' := cursorLive && !HitsCursor(s, sub, active, iterPos);
        var pos' := PosAfterErase(s, sub, active, iterPos);
        var subs' := EraseFrom(subs, key, sub, active);
        ghost var destroyed' := destroyed + Released(s, sub, tagOf);
        EraseKeepsRegistry(subs, nextBlock, blockOwner, tagOf, bound, typeTags, destroyed,
                           iterating, cursorKey, cursorLive, iterPos, passVisited, key, sub, live', pos');
        ev := ErasedEvents(s, key, sub);
        subs, destroyed, cursorLive, iterPos, log := subs', destroyed', live', pos', log + ev;
      }
    }

    /** `unsubscribe(token)`: a token whose weak reference has expired (or
        is empty) changes nothing, so a second call with the same token is a
        no-op; a live one is unsubscribed through its key and pointer, after
        which a token this publisher issued has expired. */
    method UnsubscribeToken(t: Token) returns (ghost ev: seq<Event>)
      requires Valid()
      modifies this`subs, this`destroyed, this`cursorLive, this`iterPos, this`log
      ensures Valid() && Shrinks(old(subs), subs)
      ensures log == old(log) + ev && RemovalLog(ev, old(subs), subs)
      ensures !TokenValid(old(subs), t) || t.mkey !in old(subs) ==>
        subs == old(subs) && destroyed == old(destroyed) && cursorLive == old(cursorLive) && iterPos == old(iterPos)
        && ev == []
      ensures TokenValid(old(subs), t) && t.mkey in old(subs) ==>
        var key, sub := t.mkey, t.wref.target;
        && subs == EraseFrom(old(subs), key, sub, old(Active(key)))
        && destroyed == old(destroyed) + Released(old(subs[key]), sub, tagOf)
        && iterPos == PosAfterErase(old(subs[key]), sub, old(Active(key)), old(iterPos))
        && cursorLive == (old(cursorLive) && !HitsCursor(old(subs[key]), sub, old(Active(key)), old(iterPos)))
        && ev == ErasedEvents(old(subs[key]), key, sub)
      ensures Issued(t) ==> !TokenValid(subs, t)
      ensures cursorLive ==> old(cursorLive)
      ensures Remaining() <= old(Remaining())
      ensures old(cursorLive) && !cursorLive ==> Remaining() < old(Remaining())
    {
      ev := [];
      if TokenValid(subs, t) {
        ev := UnsubscribePtr(t.mkey, t.wref.target);
        if Issued(t) {
          forall k, e | k in subs && e in subs[k] ensures e.block != t.wref.block {
            assert e in old(subs)[k];
            assert SlotOk(k, e, nextBlock, blockOwner, tagOf, destroyed);
          }
        }
      }
    }

    /** `unsubscribe(key)`: erases the whole topic, releasing every slot of
        its set (deleting the adapters among them); an unknown topic, or the
        topic under dispatch, is left alone. */
    method UnsubscribeKey(key: Key) returns (ghost ev: seq<Event>)
      requires Valid()
      modifies this`subs, this`destroyed, this`log
      ensures Valid() && Shrinks(old(subs), subs)
      ensures log == old(log) + ev && RemovalLog(ev, old(subs), subs)
      ensures key !in old(subs) || Active(key) ==> subs == old(subs) && destroyed == old(destroyed) && ev == []
      ensures key in old(subs) && !Active(key) ==>
        && subs == old(subs) - {key} && destroyed == old(destroyed) + Doomed(old(subs[key]), tagOf)
        && ev == Removals(key, old(subs[key]))
      ensures Remaining() == old(Remaining())
    {
      ev := [];
      if key in subs && !Active(key) {
        DropKeepsRegistry(subs, nextBlock, blockOwner, tagOf, bound, typeTags, destroyed,
                          iterating, cursorKey, cursorLive, iterPos, passVisited, key);
        ev := Removals(key, subs[key]);
        subs, destroyed, log := subs - {key}, destroyed + Doomed(subs[key], tagOf), log + ev;
      }
    }

    /** One request of a handler: the `unsubscribe` overload it names,
        with that overload's effect. It only removes slots, never re-arms
        the cursor, and afterwards the registry holds no slot the request
        names; `unsubscribe(key)` has removed its topic unless that topic
        is under dispatch. */
    method RunRequest(r: Request) returns (ghost ev: seq<Event>)
      requires Valid()
      modifies this`subs, this`destroyed, this`cursorLive, this`iterPos, this`log
      ensures Valid() && Shrinks(old(subs), subs)
      ensures log == old(log) + ev && RemovalLog(ev, old(subs), subs)
      ensures Served([r], blockOwner, subs)
      ensures r.ByKey? && !Active(r.mkey) ==> r.mkey !in subs
      ensures r.ByPtr? && r.mkey !in old(subs) ==>
        subs == old(subs) && destroyed == old(destroyed) && cursorLive == old(cursorLive) && iterPos == old(iterPos)
        && ev == []
      ensures r.ByPtr? && r.mkey in old(subs) ==>
        var key, sub := r.mkey, r.sub;
        && ev == ErasedEvents(old(subs[key]), key, sub)
        && subs == EraseFrom(old(subs), key, sub, Active(key))
        && destroyed == old(destroyed) + Released(old(subs[key]), sub, tagOf)
        && iterPos == PosAfterErase(old(subs[key]), sub, Active(key), old(iterPos))
        && cursorLive == (old(cursorLive) && !HitsCursor(old(subs[key]), sub, Active(key), old(iterPos)))
      ensures r.ByToken? && (!TokenValid(old(subs), r.token) || r.token.mkey !in old(subs)) ==>
        subs == old(subs) && destroyed == old(destroyed) && cursorLive == old(cursorLive) && iterPos == old(iterPos)
        && ev == []
      ensures r.ByToken? && TokenValid(old(subs), r.token) && r.token.mkey in old(subs) ==>
        var key, sub := r.token.mkey, r.token.wref.target;
        && ev == ErasedEvents(old(subs[key]), key, sub)
        && subs == EraseFrom(old(subs), key, sub, Active(key))
        && destroyed == old(destroyed) + Released(old(subs[key]), sub, tagOf)
        && iterPos == PosAfterErase(old(subs[key]), sub, Active(key), old(iterPos))
        && cursorLive == (old(cursorLive) && !HitsCursor(old(subs[key]), sub, Active(key), old(iterPos)))
      ensures r.ByKey? && (r.mkey !in old(subs) || Active(r.mkey)) ==>
        subs == old(subs) && destroyed == old(destroyed) && ev == []
      ensures r.ByKey? && r.mkey in old(subs) && !Active(r.mkey) ==>
        && subs == old(subs) - {r.mkey} && destroyed == old(destroyed) + Doomed(old(subs[r.mkey]), tagOf)
        && ev == Removals(r.mkey, old(subs[r.mkey]))
      ensures r.ByKey? ==> cursorLive == old(cursorLive) && iterPos == old(iterPos)
      ensures cursorLive ==> old(cursorLive)
      ensures Remaining() <= old(Remaining())
      ensures old(cursorLive) && !cursorLive ==> Remaining() < old(Remaining())
    {
      match r {
        case ByToken(t) =>
          ev := UnsubscribeToken(t);
        case ByPtr(k, x) =>
          ev := UnsubscribePtr(k, x);
          forall e | k in subs && e in subs[k] ensures e.sub != x {
            var i :| 0 <= i < |subs[k]| && subs[k][i] == e;
          }
        case ByKey(k) =>
          ev := UnsubscribeKey(k);
      }
    }

    /** One request as the rest of a handler call sees it: RunRequest
        with only the clauses a handler call builds on (the registry only
        shrinks, every slot lost is logged, only what the request asks for
        is removed, no slot the request names is left, and the cursor is
        never revived), so that the per-overload clauses stay out of the
        handler loop's proof. */
    method ObeyRequest(r: Request) returns (ghost ev: seq<Event>)
      requires Valid()
      modifies this`subs, this`destroyed, this`cursorLive, this`iterPos, this`log
      ensures Valid() && Shrinks(old(subs), subs)
      ensures log == old(log) + ev && RemovalLog(ev, old(subs), subs)
      ensures Served([r], blockOwner, subs) && AskedBy(ev, [r], iterating, cursorKey)
      ensures destroyed == old(destroyed) + DeletedBy(ev, tagOf)
      ensures r.ByKey? && !Active(r.mkey) ==> r.mkey !in subs
      ensures cursorLive ==> old(cursorLive)
      ensures Remaining() <= old(Remaining())
      ensures old(cursorLive) && !cursorLive ==> Remaining() < old(Remaining())
    {
      ev := RunRequest(r);
      DeletedByAppend([], [], tagOf);
      match r {
        case ByToken(t) =>
          if TokenValid(old(subs), t) && t.mkey in old(subs) {
            ErasedAsked(old(subs)[t.mkey], t.mkey, t.wref.target, r, iterating, cursorKey);
            ErasedDeletes(old(subs)[t.mkey], t.mkey, t.wref.target, tagOf);
          }
        case ByPtr(k, x) =>
          if k in old(subs) {
            ErasedAsked(old(subs)[k], k, x, r, iterating, cursorKey);
            ErasedDeletes(old(subs)[k], k, x, tagOf);
          }
        case ByKey(k) =>
          if k in old(subs) && !Active(k) {
            DroppedAsked(k, old(subs)[k], iterating, cursorKey);
            DroppedDeletes(k, old(subs)[k], tagOf);
          }
      }
    }

    /** A handler call: runs the handler's requests in order. Afterwards
        the registry holds no slot any of them names (`unsubscribe(key,
        ptr)`, and an issued token's `unsubscribe`), every topic a
        `unsubscribe(key)` named is gone unless it is under dispatch, and
        every slot lost is logged as removed. */
    method RunHandler(script: seq<Request>) returns (ghost ev: seq<Event>)
      requires Valid()
      modifies this`subs, this`destroyed, this`cursorLive, this`iterPos, this`log
      ensures Valid() && Shrinks(old(subs), subs)
      ensures log == old(log) + ev && RemovalLog(ev, old(subs), subs)
      ensures Served(script, blockOwner, subs) && AskedBy(ev, script, iterating, cursorKey)
      ensures destroyed == old(destroyed) + DeletedBy(ev, tagOf)
      ensures forall k, x | ByPtr(k, x) in script :: !Holds(subs, k, x)
      ensures forall t | ByToken(t) in script && Issued(t) :: !TokenValid(subs, t)
      ensures forall k | ByKey(k) in script && !Active(k) :: k !in subs
      ensures cursorLive ==> old(cursorLive)
      ensures Remaining() <= old(Remaining())
      ensures old(cursorLive) && !cursorLive ==> Remaining() < old(Remaining())
    {
      var i := 0;
      ev := [];
      DeletedByAppend([], [], tagOf);
      while i < |script|
        invariant ScriptDone(script, i, ev, old(subs), old(destroyed), old(log), old(cursorLive), old(Remaining()))
      {
        ev := RunNext(script, i, ev, old(subs), old(destroyed), old(log), old(cursorLive), old(Remaining()));
        i := i + 1;
      }
      assert script[..i] == script;
      ServedOutcome(script, blockOwner, subs);
    }

    /** What the first `i` requests of a handler's script have done since
        the registry was `s0`, the deleted subscribers `d0`, the log `log0`,
        and the cursor's liveness and dispatch's remaining work were `live0`
        and `rem0`. */
    ghost predicate ScriptDone(script: seq<Request>, i: nat, ev: seq<Event>, s0: map<Key, seq<Entry>>,
                               d0: set<SubId>, log0: seq<Event>, live0: bool, rem0: nat)
      reads this
    {
      && i <= |script| && Valid()
      && log == log0 + ev && RemovalLog(ev, s0, subs) && destroyed == d0 + DeletedBy(ev, tagOf)
      && Served(script[..i], blockOwner, subs) && AskedBy(ev, script[..i], iterating, cursorKey)
      && (forall k | ByKey(k) in script[..i] && !Active(k) :: k !in subs)
      && (cursorLive ==> live0) && Remaining() <= rem0 && (live0 && !cursorLive ==> Remaining() < rem0)
    }

    /** One step of a handler call: runs request `i` of the script. */
    method RunNext(script: seq<Request>, i: nat, ghost ev: seq<Event>, ghost s0: map<Key, seq<Entry>>,
                   ghost d0: set<SubId>, ghost log0: seq<Event>, ghost live0: bool, ghost rem0: nat)
      returns (ghost ev': seq<Event>)
      requires i < |script| && ScriptDone(script, i, ev, s0, d0, log0, live0, rem0)
      modifies this`subs, this`destroyed, this`cursorLive, this`iterPos, this`log
      ensures ScriptDone(script, i + 1, ev', s0, d0, log0, live0, rem0)
    {
      ghost var before := subs;
      ghost var step := ObeyRequest(script[i]);
      DeletedByAppend(ev, step, tagOf);
      RemovalLogCompose(ev, step, s0, before, subs);
      ServedAppend(script[..i], [script[i]], blockOwner, before, subs);
      AskedByAppend(ev, step, script[..i], [script[i]], iterating, cursorKey);
      assert script[..i + 1] == script[..i] + [script[i]];
      AppendExtends(log0, ev, step);
      ev' := ev + step;
    }

    /** The first half of a step of `dispatch`'s inner loop: the slot
        under the cursor is delivered the message (`translate`), with the
        cursor live while its handler runs. The call goes to a subscriber
        the topic holds, and the handler only removes slots. */
    method VisitSlot(m: Context, seqNo: nat, handlers: map<SubId, seq<Request>>) returns (ghost ev: seq<Event>)
      requires Valid() && iterating && cursorKey == m.mkey && !cursorLive
      requires m.mkey in subs && iterPos < |subs[m.mkey]|
      modifies this`subs, this`destroyed, this`cursorLive, this`iterPos, this`passVisited, this`log
      ensures Valid() && Shrinks(old(subs), subs)
      ensures Remaining() <= old(Remaining())
      ensures !cursorLive ==> Remaining() < old(Remaining())
      ensures passVisited == old(passVisited) + [old(subs)[m.mkey][old(iterPos)].sub]
      ensures log == old(log) + ev && DispatchLog(ev, handlers, blockOwner, old(subs), subs)
      ensures CallsOf(ev) == [DeliveryFor(seqNo, m, old(subs)[m.mkey][old(iterPos)].sub, bound)]
      ensures ev[0] == Call(DeliveryFor(seqNo, m, old(subs)[m.mkey][old(iterPos)].sub, bound), old(subs)[m.mkey][old(iterPos)].block)
      ensures Served(HandlerOf(handlers, old(subs)[m.mkey][old(iterPos)].sub), blockOwner, subs)
      ensures AskedBy(ev, HandlerOf(handlers, old(subs)[m.mkey][old(iterPos)].sub), true, m.mkey)
      ensures destroyed == old(destroyed) + DeletedBy(ev, tagOf)
      ensures forall k | ByKey(k) in HandlerOf(handlers, old(subs)[m.mkey][old(iterPos)].sub) && k != m.mkey :: k !in subs
    {
      var key := m.mkey;
      var x := subs[key][iterPos].sub;
      ghost var blk := subs[key][iterPos].block;
      ghost var d := DeliveryFor(seqNo, m, x, bound);
      ghost var s0 := subs;
      assert SlotHeld(s0, d.msg.mkey, Entry(d.sub, blk)) by { assert s0[key][iterPos] == Entry(x, blk); }
      VisitKeepsRegistry(subs, nextBlock, blockOwner, tagOf, bound, typeTags, destroyed, key, iterPos, passVisited);
      cursorLive, passVisited, log := true, passVisited + [x], log + [Call(d, blk)];
      var script := HandlerOf(handlers, x);
      ghost var hev := RunHandler(script);
      ev := [Call(d, blk)] + hev;
      AppendExtends(old(log), [Call(d, blk)], hev);
      AskedByAppend([Call(d, blk)], hev, [], script, true, m.mkey);
      assert [] + script == script;
      DeletedByAppend([Call(d, blk)], hev, tagOf);
      CallThenRemovals(d, blk, hev, ev, handlers, blockOwner, s0, subs);
    }

    /** One step of `dispatch`'s inner loop: the visit, then the iterator
        advances, unless the handler's own unsubscribe already advanced it
        and cleared the cursor. Dispatch's remaining work strictly
        shrinks. */
    method DeliverSlot(m: Context, seqNo: nat, handlers: map<SubId, seq<Request>>) returns (ghost ev: seq<Event>)
      requires Valid() && iterating && cursorKey == m.mkey && !cursorLive
      requires m.mkey in subs && iterPos < |subs[m.mkey]|
      modifies this`subs, this`destroyed, this`cursorLive, this`iterPos, this`passVisited, this`log
      ensures Valid() && !cursorLive
      ensures Shrinks(old(subs), subs)
      ensures Remaining() < old(Remaining())
      ensures passVisited == old(passVisited) + [old(subs)[m.mkey][old(iterPos)].sub]
      ensures log == old(log) + ev && DispatchLog(ev, handlers, blockOwner, old(subs), subs)
      ensures CallsOf(ev) == [DeliveryFor(seqNo, m, old(subs)[m.mkey][old(iterPos)].sub, bound)]
      ensures destroyed == old(destroyed) + DeletedBy(ev, tagOf)
    {
      ev := VisitSlot(m, seqNo, handlers);
      if cursorLive {
        Advance();
      }
    }

    /** The handler returned with the cursor still set, so it did not
        remove its own slot: `++itsub` moves to the next slot and the cursor
        is cleared. */
    method Advance()
      requires Valid() && iterating && cursorLive
      modifies this`cursorLive, this`iterPos
      ensures Valid() && !cursorLive && iterPos == old(iterPos) + 1
      ensures Remaining() < old(Remaining())
    {
      AdvanceKeepsRegistry(subs, nextBlock, blockOwner, tagOf, bound, typeTags, destroyed, cursorKey, iterPos, passVisited);
      iterPos, cursorLive := iterPos + 1, false;
    }

    /** What the inner loop of `dispatch` keeps while it walks the
        topic's set: the cursor sits on the topic, the log grew by the
        pass's events, those events are the pass's record, and the
        subscribers deleted since the pass began (with `d0` deleted) are
        those its removals delete. */
    ghost predicate Passing(m: Context, seqNo: nat, handlers: map<SubId, seq<Request>>, ev: seq<Event>,
                            s0: map<Key, seq<Entry>>, d0: set<SubId>, log0: seq<Event>)
      reads this
    {
      && Valid() && iterating && cursorKey == m.mkey && !cursorLive
      && log == log0 + ev && PassLog(ev, seqNo, m, passVisited, handlers, blockOwner, s0, subs, bound)
      && destroyed == d0 + DeletedBy(ev, tagOf)
    }

    /** One iteration of DeliverAll: DeliverSlot, whose events extend the
        pass's record by the subscriber it visited. */
    method DeliverNext(m: Context, seqNo: nat, handlers: map<SubId, seq<Request>>, ghost ev: seq<Event>,
                       ghost s0: map<Key, seq<Entry>>, ghost d0: set<SubId>, ghost log0: seq<Event>)
      returns (ghost ev': seq<Event>)
      requires Passing(m, seqNo, handlers, ev, s0, d0, log0)
      requires iterPos < |subs[m.mkey]|
      modifies this`subs, this`destroyed, this`cursorLive, this`iterPos, this`passVisited, this`log
      ensures Passing(m, seqNo, handlers, ev', s0, d0, log0)
      ensures Remaining() < old(Remaining())
    {
      ghost var before, pv := subs, passVisited;
      ghost var x := subs[m.mkey][iterPos].sub;
      assert HasSub(before[m.mkey], x);
      ghost var step := DeliverSlot(m, seqNo, handlers);
      ExtendPass(ev, step, seqNo, m, pv, x, handlers, blockOwner, s0, before, subs, bound);
      DeletedByAppend(ev, step, tagOf);
      AppendExtends(log0, ev, step);
      ev' := ev + step;
    }

    /** Runs DeliverSlot until the cursor is past the end of the set. */
    method DeliverAll(m: Context, seqNo: nat, handlers: map<SubId, seq<Request>>) returns (ghost ev: seq<Event>)
      requires Valid() && iterating && cursorKey == m.mkey && !cursorLive && passVisited == []
      modifies this`subs, this`destroyed, this`cursorLive, this`iterPos, this`passVisited, this`log
      ensures Valid() && !cursorLive && m.mkey in subs && iterPos >= |subs[m.mkey]|
      ensures Shrinks(old(subs), subs)
      ensures log == old(log) + ev && DispatchLog(ev, handlers, blockOwner, old(subs), subs)
      ensures CallsOf(ev) == Deliveries(seqNo, m, passVisited, bound)
      ensures forall v | v in passVisited :: HasSub(old(subs)[m.mkey], v)
      ensures destroyed == old(destroyed) + DeletedBy(ev, tagOf)
    {
      ev := [];
      EmptyPass(seqNo, m, handlers, blockOwner, subs, bound);
      DeletedByAppend([], [], tagOf);
      while iterPos < |subs[m.mkey]|
        invariant Passing(m, seqNo, handlers, ev, old(subs), old(destroyed), old(log))
        decreases Remaining()
      {
        ev := DeliverNext(m, seqNo, handlers, ev, old(subs), old(destroyed), old(log));
      }
    }

    /** The inner loop of `dispatch` for one message whose topic is
        registered: the cursor is set to the topic and each slot delivered
        in turn; afterwards the cursor is reset and a set left empty is
        erased (the deferred cleanup). Each subscriber is delivered the
        message at most once, only subscribers of the topic are, and every
        subscriber still registered for the topic at the end has been. */
    method DeliverTopic(m: Context, seqNo: nat, handlers: map<SubId, seq<Request>>)
      returns (ghost visited: seq<SubId>, ghost ev: seq<Event>)
      requires Valid() && !iterating && m.mkey in subs
      modifies this`subs, this`destroyed, this`cursorLive, this`iterPos
      modifies this`cursorKey, this`iterating, this`passVisited, this`log
      ensures Valid() && !iterating
      ensures Shrinks(old(subs), subs)
      ensures m.mkey in subs ==> subs[m.mkey] != []
      ensures log == old(log) + ev && DispatchLog(ev, handlers, blockOwner, old(subs), subs)
      ensures CallsOf(ev) == Deliveries(seqNo, m, visited, bound)
      ensures Distinct(visited)
      ensures forall v | v in visited :: HasSub(old(subs)[m.mkey], v)
      ensures m.mkey in subs ==> forall e | e in subs[m.mkey] :: e.sub in visited
      ensures destroyed == old(destroyed) + DeletedBy(ev, tagOf)
    {
      var key := m.mkey;
      StartKeepsRegistry(subs, nextBlock, blockOwner, tagOf, bound, typeTags, destroyed, cursorKey, iterPos, passVisited, key);
      cursorKey, iterating, iterPos, passVisited := key, true, 0, [];
      ev := DeliverAll(m, seqNo, handlers);
      EndPass(m, handlers, ev, old(subs));
      visited := passVisited;
    }

    /** The end of `dispatch`'s inner loop: the topic's set, if the pass
        left it empty, is dropped, and the cursor is cleared. Every slot
        the set still holds was visited, and the pass's log stays the log
        of the whole stretch. */
    method EndPass(m: Context, handlers: map<SubId, seq<Request>>, ghost ev: seq<Event>, ghost s0: map<Key, seq<Entry>>)
      requires Valid() && iterating && cursorKey == m.mkey && !cursorLive
      requires m.mkey in subs && iterPos >= |subs[m.mkey]|
      requires DispatchLog(ev, handlers, blockOwner, s0, subs)
      modifies this`subs, this`cursorKey, this`iterating
      ensures Valid() && !iterating
      ensures subs == if old(subs)[m.mkey] == [] then old(subs) - {m.mkey} else old(subs)
      ensures m.mkey in subs ==> subs[m.mkey] != [] && forall e | e in subs[m.mkey] :: e.sub in passVisited
      ensures DispatchLog(ev, handlers, blockOwner, s0, subs)
    {
      var key := m.mkey;
      FinishKeepsRegistry(subs, nextBlock, blockOwner, tagOf, bound, typeTags, destroyed, key, iterPos, passVisited);
      var subs' := if subs[key] == [] then subs - {key} else subs;
      DispatchLogCleanup(ev, handlers, blockOwner, s0, subs, subs');
      cursorKey, iterating, subs := DefaultKey, false, subs';
    }

    /** One round of `dispatch`'s outer loop for message `m`, number
        `seqNo` of the call: when its topic is registered, the topic's
        subscribers are delivered it; otherwise nothing happens. Every call
        made is for this message and for a subscriber the topic held when
        the round began; no subscriber is called twice; and every
        subscriber the topic still holds at the end has been called. */
    method DispatchMessage(m: Context, seqNo: nat, handlers: map<SubId, seq<Request>>)
      returns (ghost added: seq<Delivery>, ghost ev: seq<Event>)
      requires Valid() && !iterating
      modifies this`subs, this`destroyed, this`cursorLive, this`iterPos
      modifies this`cursorKey, this`iterating, this`passVisited, this`log
      ensures Valid() && !iterating
      ensures log == old(log) + ev && RoundOk(added, ev, seqNo, m, handlers, blockOwner, old(subs), subs, bound)
      ensures destroyed == old(destroyed) + DeletedBy(ev, tagOf)
    {
      added, ev := [], [];
      DeletedByAppend([], [], tagOf);
      if m.mkey in subs {
        ghost var subs0 := subs;
        ghost var visited;
        visited, ev := DeliverTopic(m, seqNo, handlers);
        added := Deliveries(seqNo, m, visited, bound);
        forall d | d in added ensures DeliveredTo(d, seqNo, m, subs0, bound) {
          var i :| 0 <= i < |added| && added[i] == d;
          assert visited[i] in visited;
        }
        if m.mkey in subs {
          forall e | e in subs[m.mkey] ensures exists i | 0 <= i < |added| :: added[i].sub == e.sub {
            var i :| 0 <= i < |visited| && visited[i] == e.sub;
            assert added[i].sub == e.sub;
          }
        }
      }
    }

    /** `dispatch(maxcount)`: pops messages from the front of the queue, in
        publish order, while the queue is not empty and the budget lasts,
        delivering each to its topic's subscribers (a message whose topic
        has none is popped all the same), and returns how many it popped.
        The calls made deliver the popped messages in queue order, each to
        a subscriber its topic held when the dispatch began, each at most
        once per subscriber, and to every subscriber its topic still holds
        at the end; the log of the dispatch never calls a subscriber for a
        topic after removing it from that topic. */
    method Dispatch(maxCount: SizeT, handlers: map<SubId, seq<Request>>)
      returns (count: SizeT, ghost calls: seq<Delivery>, ghost ev: seq<Event>)
      requires Valid() && !iterating
      modifies this`queue, this`subs, this`destroyed, this`cursorLive, this`iterPos
      modifies this`cursorKey, this`iterating, this`passVisited, this`log
      ensures Valid() && !iterating
      ensures count == Min(maxCount, |old(queue)|)
      ensures queue == old(queue)[count..]
      ensures Size() == old(Size()) - count
      ensures old(Empty()) || maxCount == 0 ==> count == 0 && ev == [] && unchanged(this)
      ensures log == old(log) + ev && DispatchLog(ev, handlers, blockOwner, old(subs), subs)
      ensures calls == CallsOf(ev)
      ensures DeliveredInOrder(calls, old(queue), count, old(subs), bound)
      ensures OncePerMessage(calls)
      ensures Reached(calls, old(queue), count, subs)
      ensures ReachedOrRemoved(calls, ev, old(queue), count, old(subs))
      ensures HandlersObeyed(ev, handlers, blockOwner) && RemovalsAsked(ev, handlers)
      ensures RemovalsByCurrent(ev, handlers)
      ensures destroyed == old(destroyed) + DeletedBy(ev, tagOf)
    {
      count, calls, ev := PopRounds(maxCount, handlers);
      DispatchLogObeyed(ev, handlers, blockOwner, old(subs), subs);
    }

    /** `dispatch`'s outer loop: pops and delivers messages while the queue
        is not empty and the budget lasts. */
    method PopRounds(maxCount: SizeT, handlers: map<SubId, seq<Request>>)
      returns (count: SizeT, ghost calls: seq<Delivery>, ghost ev: seq<Event>)
      requires Valid() && !iterating
      modifies this`queue, this`subs, this`destroyed, this`cursorLive, this`iterPos
      modifies this`cursorKey, this`iterating, this`passVisited, this`log
      ensures count == Min(maxCount, |old(queue)|)
      ensures old(queue) == [] || maxCount == 0 ==> ev == [] && unchanged(this)
      ensures Recorded(old(queue), count, old(subs), old(destroyed), calls, ev, old(log), handlers)
    {
      ghost var q0 := queue;
      count, calls, ev := 0, [], [];
      EmptyRecord(q0, handlers, blockOwner, subs, bound);
      DeletedByAppend([], [], tagOf);
      if queue == [] || maxCount == 0 {
        return;
      }
      var budget := maxCount;
      while queue != [] && budget > 0
        invariant count + budget == maxCount
        invariant Recorded(q0, count, old(subs), old(destroyed), calls, ev, old(log), handlers)
        decreases budget
      {
        budget := budget - 1;
        calls, ev := DispatchNext(q0, count, old(subs), old(destroyed), calls, ev, old(log), handlers);
        count := count + 1;
      }
    }

    /** What `dispatch`'s outer loop keeps once it has popped the first `n`
        messages of the queue `q0` it began with: the rest of the queue is
        left, the log grew by `ev`, `calls` and `ev` are the record of the
        rounds so far, and the subscribers deleted since the call began
        (with `d0` deleted) are those the rounds' removals delete. */
    ghost predicate Recorded(q0: seq<Context>, n: nat, s0: map<Key, seq<Entry>>, d0: set<SubId>, calls: seq<Delivery>,
                             ev: seq<Event>, log0: seq<Event>, handlers: map<SubId, seq<Request>>)
      reads this
    {
      && Valid() && !iterating
      && n <= |q0| && queue == q0[n..]
      && log == log0 + ev && RecordOk(calls, ev, q0, n, handlers, blockOwner, s0, subs, bound)
      && destroyed == d0 + DeletedBy(ev, tagOf)
    }

    /** One round of `dispatch`'s outer loop: pops the front message,
        message number `n` of the call, and delivers it, extending the
        record of the call's earlier rounds. */
    method DispatchNext(ghost q0: seq<Context>, n: nat, ghost s0: map<Key, seq<Entry>>, ghost d0: set<SubId>,
                        ghost calls: seq<Delivery>, ghost ev: seq<Event>, ghost log0: seq<Event>,
                        handlers: map<SubId, seq<Request>>)
      returns (ghost calls': seq<Delivery>, ghost ev': seq<Event>)
      requires n < |q0| && Recorded(q0, n, s0, d0, calls, ev, log0, handlers)
      modifies this`queue, this`subs, this`destroyed, this`cursorLive, this`iterPos
      modifies this`cursorKey, this`iterating, this`passVisited, this`log
      ensures Recorded(q0, n + 1, s0, d0, calls', ev', log0, handlers)
      ensures ev <= ev' && calls <= calls'
    {
      var m := queue[0];
      assert m == q0[n] && queue[1..] == q0[n + 1..];
      queue := queue[1..];
      ghost var before := subs;
      ghost var added, step := DispatchMessage(m, n, handlers);
      ExtendRecord(calls, ev, added, step, q0, n, m, handlers, blockOwner, s0, before, subs, bound);
      DeletedByAppend(ev, step, tagOf);
      calls', ev' := calls + added, ev + step;
      AppendExtends(log0, ev, step);
      AppendExtends(ev, step, []);
      AppendExtends(calls, added, []);
    }
  }
}
