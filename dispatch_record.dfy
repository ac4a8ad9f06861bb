/** What one `dispatch` call does, as a record of calls: which messages
    went to which subscribers, in which order, and that none was missed. */
module DispatchRecord {
  import opened Message
  import opened Subscription
  import opened Registry

  /** `d` is the call made when message `m`, number `n` of its dispatch
      call, is delivered to a subscriber its topic holds in `subs`. */
  ghost predicate DeliveredTo(d: Delivery, n: nat, m: Context, subs: map<Key, seq<Entry>>, bound: map<SubId, seq<Arg>>)
  {
    && m.mkey in subs && HasSub(subs[m.mkey], d.sub)
    && d == DeliveryFor(n, m, d.sub, bound)
  }

  /** Each call of `calls` delivers one of the first `n` messages of the
      queue `q` to a subscriber its topic held in `subs0`, and the calls
      follow the order of the queue. */
  ghost predicate DeliveredInOrder(calls: seq<Delivery>, q: seq<Context>, n: nat, subs0: map<Key, seq<Entry>>,
                                   bound: map<SubId, seq<Arg>>)
  {
    && n <= |q|
    && (forall i | 0 <= i < |calls| ::
          calls[i].seqNo < n && DeliveredTo(calls[i], calls[i].seqNo, q[calls[i].seqNo], subs0, bound))
    && (forall i, j | 0 <= i < j < |calls| :: calls[i].seqNo <= calls[j].seqNo)
  }

  /** No subscriber is called twice for the same message. */
  ghost predicate OncePerMessage(calls: seq<Delivery>)
  {
    forall i, j | 0 <= i < j < |calls| && calls[i].seqNo == calls[j].seqNo :: calls[i].sub != calls[j].sub
  }

  /** Every subscriber that the topic of one of the first `n` messages of
      `q` holds in `subs` was called for that message. */
  ghost predicate Reached(calls: seq<Delivery>, q: seq<Context>, n: nat, subs: map<Key, seq<Entry>>)
  {
    forall k, e | 0 <= k < n && k < |q| && q[k].mkey in subs && e in subs[q[k].mkey] :: Called(calls, k, e.sub)
  }

  /** Some call of `calls` delivered message number `k` to `x`. */
  ghost predicate Called(calls: seq<Delivery>, k: nat, x: SubId)
  {
    exists i | 0 <= i < |calls| :: calls[i].seqNo == k && calls[i].sub == x
  }

  /** Every call of the log is for one of the first `n` messages. */
  ghost predicate CallsBefore(ev: seq<Event>, n: nat)
  {
    forall j | 0 <= j < |ev| && ev[j].Call? :: ev[j].d.seqNo < n
  }

  /** The log removes `x` from topic `key` before any call for a message
      after message number `k`, that is, in that message's round or
      earlier. */
  ghost predicate RemovedBy(ev: seq<Event>, key: Key, x: SubId, k: nat)
  {
    exists i | 0 <= i < |ev| && ev[i] == Removed(key, x) :: forall j | 0 <= j < i && ev[j].Call? :: ev[j].d.seqNo <= k
  }

  /** Every subscriber that the topic of one of the first `n` messages of
      `q` held when the dispatch began (in `s0`) was called for that
      message, or was removed from the topic by the end of that message's
      round. */
  ghost predicate ReachedOrRemoved(calls: seq<Delivery>, ev: seq<Event>, q: seq<Context>, n: nat,
                                   s0: map<Key, seq<Entry>>)
  {
    forall k, x | 0 <= k < n && k < |q| && Holds(s0, q[k].mkey, x) :: Called(calls, k, x) || RemovedBy(ev, q[k].mkey, x, k)
  }

  /** Delivering message `n` of the queue, found with registry `before`
      and leaving registry `after`, to each subscriber at most once and to
      every subscriber still registered at the end, extends the record of
      the earlier messages' calls. */
  lemma ExtendDelivered(calls: seq<Delivery>, added: seq<Delivery>, q: seq<Context>, n: nat,
                        subs0: map<Key, seq<Entry>>, before: map<Key, seq<Entry>>, after: map<Key, seq<Entry>>,
                        bound: map<SubId, seq<Arg>>)
    requires DeliveredInOrder(calls, q, n, subs0, bound) && OncePerMessage(calls) && Reached(calls, q, n, before)
    requires n < |q| && Shrinks(subs0, before) && Shrinks(before, after)
    requires forall d | d in added :: DeliveredTo(d, n, q[n], before, bound)
    requires forall i, j | 0 <= i < j < |added| :: added[i].sub != added[j].sub
    requires q[n].mkey in after ==> forall e | e in after[q[n].mkey] :: exists i | 0 <= i < |added| :: added[i].sub == e.sub
    ensures DeliveredInOrder(calls + added, q, n + 1, subs0, bound)
    ensures OncePerMessage(calls + added)
    ensures Reached(calls + added, q, n + 1, after)
  {
    var all := calls + added;
    forall i | 0 <= i < |all|
      ensures all[i].seqNo < n + 1 && DeliveredTo(all[i], all[i].seqNo, q[all[i].seqNo], subs0, bound)
    {
      if i >= |calls| {
        var d := added[i - |calls|];
        assert d in added && all[i] == d;
        ShrinksKeepsHasSub(subs0, before, q[n].mkey, d.sub);
      }
    }
    forall i, j | 0 <= i < j < |all| ensures all[i].seqNo <= all[j].seqNo {
      if j >= |calls| {
        assert added[j - |calls|] in added;
        if i >= |calls| { assert added[i - |calls|] in added; }
      }
    }
    forall i, j | 0 <= i < j < |all| && all[i].seqNo == all[j].seqNo ensures all[i].sub != all[j].sub {
      if j >= |calls| {
        assert added[j - |calls|] in added;
        if i >= |calls| { assert added[i - |calls|] in added; }
      }
    }
    forall i | 0 <= i < |added| ensures added[i].seqNo == n {
      assert added[i] in added;
    }
    ExtendReached(calls, added, q, n, before, after);
  }

  /** The completeness half of ExtendDelivered. */
  lemma ExtendReached(calls: seq<Delivery>, added: seq<Delivery>, q: seq<Context>, n: nat,
                      before: map<Key, seq<Entry>>, after: map<Key, seq<Entry>>)
    requires Reached(calls, q, n, before) && n < |q| && Shrinks(before, after)
    requires forall i | 0 <= i < |added| :: added[i].seqNo == n
    requires q[n].mkey in after ==> forall e | e in after[q[n].mkey] :: exists i | 0 <= i < |added| :: added[i].sub == e.sub
    ensures Reached(calls + added, q, n + 1, after)
  {
    var all := calls + added;
    forall k, e | 0 <= k < n + 1 && k < |q| && q[k].mkey in after && e in after[q[k].mkey]
      ensures Called(all, k, e.sub)
    {
      if k < n {
        assert e in before[q[k].mkey];
        assert Called(calls, k, e.sub);
        var i :| 0 <= i < |calls| && calls[i].seqNo == k && calls[i].sub == e.sub;
        assert all[i] == calls[i];
      } else {
        var i :| 0 <= i < |added| && added[i].sub == e.sub;
        assert all[|calls| + i] == added[i];
        assert Called(all, k, e.sub);
      }
    }
  }

  // ---------------------------------------------------------------------
  // Handlers and the slots their requests name
  // ---------------------------------------------------------------------

  /** The requests the handler of subscriber `h` issues each time it is
      called (none when it has no handler). */
  function HandlerOf(handlers: map<SubId, seq<Request>>, h: SubId): seq<Request>
  {
    if h in handlers then handlers[h] else []
  }

  /** Request `r` names slot `e` of topic `k`: `unsubscribe(key, ptr)` the
      slot of that identity in that topic; `unsubscribe(token)`, for a token
      the publisher issued, the slot its control block belongs to; and
      `unsubscribe(key)` no slot in particular (what it removes is a whole
      topic other than the one under dispatch, see CoversWhile). */
  ghost predicate Names(r: Request, blockOwner: map<nat, (Key, SubId)>, k: Key, e: Entry)
  {
    match r
    case ByPtr(k', x) => k == k' && e.sub == x
    case ByToken(t) => t.wref.Ref? && IssuedBy(blockOwner, t) && e.block == t.wref.block
    case ByKey(_) => false
  }

  /** The registry `subs` holds no slot that a request of `script` names. */
  ghost predicate Served(script: seq<Request>, blockOwner: map<nat, (Key, SubId)>, subs: map<Key, seq<Entry>>)
  {
    forall k, e, r {:trigger Names(r, blockOwner, k, e)} | k in subs && e in subs[k] && r in script :: !Names(r, blockOwner, k, e)
  }

  /** Request `r` asks for the removal of `x` from topic `k`:
      `unsubscribe(key, ptr)` for that identity in that topic,
      `unsubscribe(token)` for the topic and pointer its weak reference
      carries, and `unsubscribe(key)` for every subscriber of that topic. */
  predicate Covers(r: Request, k: Key, x: SubId)
  {
    match r
    case ByPtr(k', y) => k == k' && x == y
    case ByToken(t) => t.wref.Ref? && k == t.mkey && x == t.wref.target
    case ByKey(k') => k == k'
  }

  /** Request `r` asks for the removal of `x` from topic `k` at a time
      when `busy` says whether `k` is the topic under dispatch: as Covers,
      except that `unsubscribe(key)` leaves the topic under dispatch
      alone. */
  predicate CoversWhile(r: Request, k: Key, x: SubId, busy: bool)
  {
    Covers(r, k, x) && !(busy && r.ByKey?)
  }

  /** Every removal of the log is one a request of `script` asks for
      while dispatch iterates the set of `active` (when `iterating`). */
  ghost predicate AskedBy(ev: seq<Event>, script: seq<Request>, iterating: bool, active: Key)
  {
    forall e | e in ev && e.Removed? :: exists r | r in script :: CoversWhile(r, e.key, e.sub, iterating && e.key == active)
  }

  /** The log of an erase by identity or by token is asked for by a
      request for that removal, whichever topic is under dispatch. */
  lemma ErasedAsked(s: seq<Entry>, key: Key, sub: SubId, r: Request, iterating: bool, active: Key)
    requires Covers(r, key, sub) && !r.ByKey?
    ensures AskedBy(ErasedEvents(s, key, sub), [r], iterating, active)
  {
    assert r in [r];
  }

  /** The log of `unsubscribe(key)` on a topic not under dispatch is asked
      for by that request. */
  lemma DroppedAsked(key: Key, s: seq<Entry>, iterating: bool, active: Key)
    requires !(iterating && key == active)
    ensures AskedBy(Removals(key, s), [ByKey(key)], iterating, active)
  {
    forall e | e in Removals(key, s) && e.Removed?
      ensures exists r | r in [ByKey(key)] :: CoversWhile(r, e.key, e.sub, iterating && e.key == active)
    {
      var i :| 0 <= i < |s| && Removals(key, s)[i] == e;
      assert ByKey(key) in [ByKey(key)] && CoversWhile(ByKey(key), e.key, e.sub, iterating && e.key == active);
    }
  }

  /** The removals of two logs are asked for by the two scripts together. */
  lemma AskedByAppend(a: seq<Event>, b: seq<Event>, sa: seq<Request>, sb: seq<Request>, iterating: bool, active: Key)
    ensures AskedBy(a, sa, iterating, active) && AskedBy(b, sb, iterating, active) ==> AskedBy(a + b, sa + sb, iterating, active)
  {
    if AskedBy(a, sa, iterating, active) && AskedBy(b, sb, iterating, active) {
      forall e | e in a + b && e.Removed?
        ensures exists r | r in sa + sb :: CoversWhile(r, e.key, e.sub, iterating && e.key == active)
      {
        if e in a {
          var r :| r in sa && CoversWhile(r, e.key, e.sub, iterating && e.key == active);
          assert r in sa + sb;
        } else {
          var r :| r in sb && CoversWhile(r, e.key, e.sub, iterating && e.key == active);
          assert r in sa + sb;
        }
      }
    }
  }

  /** A slot a handler's request removed stays removed as the registry
      shrinks. */
  lemma ServedShrinks(script: seq<Request>, blockOwner: map<nat, (Key, SubId)>, s1: map<Key, seq<Entry>>,
                      s2: map<Key, seq<Entry>>)
    requires Served(script, blockOwner, s1) && Shrinks(s1, s2)
    ensures Served(script, blockOwner, s2)
  {
    forall k, e, r | k in s2 && e in s2[k] && r in script ensures !Names(r, blockOwner, k, e) {
      assert e in s1[k];
    }
  }

  /** Running one more request after a served script serves both. */
  lemma ServedAppend(a: seq<Request>, b: seq<Request>, blockOwner: map<nat, (Key, SubId)>, s1: map<Key, seq<Entry>>,
                     s2: map<Key, seq<Entry>>)
    requires Served(a, blockOwner, s1) && Shrinks(s1, s2) && Served(b, blockOwner, s2)
    ensures Served(a + b, blockOwner, s2)
  {
    ServedShrinks(a, blockOwner, s1, s2);
  }

  /** What a served script has achieved, request by request: the identity
      each `unsubscribe(key, ptr)` named is gone from its topic, and each
      token the publisher issued that an `unsubscribe(token)` named has
      expired. */
  lemma ServedOutcome(script: seq<Request>, blockOwner: map<nat, (Key, SubId)>, subs: map<Key, seq<Entry>>)
    requires Served(script, blockOwner, subs)
    ensures forall k, x | ByPtr(k, x) in script :: !Holds(subs, k, x)
    ensures forall t | ByToken(t) in script && IssuedBy(blockOwner, t) :: !TokenValid(subs, t)
  {
    forall k, x | ByPtr(k, x) in script ensures !Holds(subs, k, x) {
      if Holds(subs, k, x) {
        var i :| 0 <= i < |subs[k]| && subs[k][i].sub == x;
        assert Names(ByPtr(k, x), blockOwner, k, subs[k][i]);
      }
    }
    forall t | ByToken(t) in script && IssuedBy(blockOwner, t) ensures !TokenValid(subs, t) {
      if TokenValid(subs, t) {
        var k :| k in subs && exists e :: e in subs[k] && e.block == t.wref.block;
        var e :| e in subs[k] && e.block == t.wref.block;
        assert Names(ByToken(t), blockOwner, k, e);
      }
    }
  }

  /** The requests of the handlers the log calls, in the order of the
      calls. */
  function Requested(ev: seq<Event>, handlers: map<SubId, seq<Request>>): seq<Request>
  {
    if ev == [] then []
    else Requested(ev[..|ev| - 1], handlers) + (if ev[|ev| - 1].Call? then HandlerOf(handlers, ev[|ev| - 1].d.sub) else [])
  }

  /** The requests of two logs one after the other are those of the first
      followed by those of the second. */
  lemma {:induction false} RequestedAppend(a: seq<Event>, b: seq<Event>, handlers: map<SubId, seq<Request>>)
    ensures Requested(a + b, handlers) == Requested(a, handlers) + Requested(b, handlers)
    decreases |b|
  {
    if b == [] {
      assert a + b == a;
    } else {
      var b' := b[..|b| - 1];
      var last := if b[|b| - 1].Call? then HandlerOf(handlers, b[|b| - 1].d.sub) else [];
      assert (a + b)[..|a + b| - 1] == a + b';
      assert (a + b)[|a + b| - 1] == b[|b| - 1];
      RequestedAppend(a, b', handlers);
      calc {
        Requested(a + b, handlers);
        Requested(a + b', handlers) + last;
        (Requested(a, handlers) + Requested(b', handlers)) + last;
        Requested(a, handlers) + (Requested(b', handlers) + last);
        Requested(a, handlers) + Requested(b, handlers);
      }
    }
  }

  /** Every request of the handler of a call of the log is among the
      requests of the log. */
  lemma {:induction false} RequestedHas(ev: seq<Event>, i: nat, handlers: map<SubId, seq<Request>>)
    requires i < |ev| && ev[i].Call?
    ensures forall r | r in HandlerOf(handlers, ev[i].d.sub) :: r in Requested(ev, handlers)
    decreases |ev|
  {
    if i < |ev| - 1 {
      var ev' := ev[..|ev| - 1];
      assert ev'[i] == ev[i];
      RequestedHas(ev', i, handlers);
    }
  }

  /** Every request among the requests of the log is a request of the
      handler of one of its calls. */
  lemma {:induction false} RequestedFrom(ev: seq<Event>, r: Request, handlers: map<SubId, seq<Request>>)
    requires r in Requested(ev, handlers)
    ensures exists j | 0 <= j < |ev| && ev[j].Call? :: r in HandlerOf(handlers, ev[j].d.sub)
    decreases |ev|
  {
    var ev' := ev[..|ev| - 1];
    if r in Requested(ev', handlers) {
      RequestedFrom(ev', r, handlers);
      var j :| 0 <= j < |ev'| && ev'[j].Call? && r in HandlerOf(handlers, ev'[j].d.sub);
      assert ev'[j] == ev[j];
    }
  }

  /** The event `c` respects the requests `script`: a call does not go
      through a slot one of them names, and a removal is one of them asks
      for. */
  ghost predicate Obeys(script: seq<Request>, blockOwner: map<nat, (Key, SubId)>, c: Event)
  {
    && (c.Call? ==> forall r | r in script :: !Names(r, blockOwner, c.d.msg.mkey, Entry(c.d.sub, c.block)))
    && (c.Removed? ==> exists r | r in script :: Covers(r, c.key, c.sub))
  }

  /** The position of the last call of the log, or -1 when it has
      none. */
  function LastCallAt(ev: seq<Event>): (j: int)
    ensures -1 <= j < |ev|
    ensures j >= 0 ==> ev[j].Call?
    ensures forall l | j < l < |ev| :: ev[l].Removed?
  {
    if ev == [] then -1
    else if ev[|ev| - 1].Call? then |ev| - 1
    else LastCallAt(ev[..|ev| - 1])
  }

  /** The last call of a joined log is that of its second part, when
      that part has one. */
  lemma {:induction false} LastCallAppend(a: seq<Event>, b: seq<Event>)
    requires LastCallAt(b) >= 0
    ensures LastCallAt(a + b) == |a| + LastCallAt(b)
    decreases |b|
  {
    assert (a + b)[|a + b| - 1] == b[|b| - 1];
    if !b[|b| - 1].Call? {
      assert (a + b)[..|a + b| - 1] == a + b[..|b| - 1];
      LastCallAppend(a, b[..|b| - 1]);
    }
  }

  /** The removal `c`, logged after `prefix`, is one the handler of the
      last call of `prefix` asks for, with the topic of that call the one
      under dispatch: the handler whose call is running removes, and its
      `unsubscribe(key)` of the topic being iterated removes nothing. */
  ghost predicate AskedByCurrent(prefix: seq<Event>, handlers: map<SubId, seq<Request>>, c: Event)
  {
    c.Removed? ==>
      var j := LastCallAt(prefix);
      && j >= 0
      && exists r | r in HandlerOf(handlers, prefix[j].d.sub) :: CoversWhile(r, c.key, c.sub, c.key == prefix[j].d.msg.mkey)
  }

  /** A removal asked for by the current handler after a log stays so
      after that log joined to an earlier one. */
  lemma AskedByCurrentAppend(a: seq<Event>, b: seq<Event>, handlers: map<SubId, seq<Request>>, c: Event)
    ensures AskedByCurrent(b, handlers, c) ==> AskedByCurrent(a + b, handlers, c)
  {
    if c.Removed? && AskedByCurrent(b, handlers, c) {
      LastCallAppend(a, b);
      assert (a + b)[|a| + LastCallAt(b)] == b[LastCallAt(b)];
    }
  }

  /** No call of the log goes through a slot that the handler of an
      earlier call names, and every removal of the log is asked for by the
      handler of the call that runs when it happens. */
  ghost predicate Honoured(ev: seq<Event>, handlers: map<SubId, seq<Request>>, blockOwner: map<nat, (Key, SubId)>)
    decreases |ev|
  {
    ev != [] ==>
      && Honoured(ev[..|ev| - 1], handlers, blockOwner)
      && Obeys(Requested(ev[..|ev| - 1], handlers), blockOwner, ev[|ev| - 1])
      && AskedByCurrent(ev[..|ev| - 1], handlers, ev[|ev| - 1])
  }

  /** The same property, pair by pair: for calls `i` before `j`, no request
      of the handler of `i`'s subscriber names the slot `j` goes
      through. */
  ghost predicate HandlersObeyed(ev: seq<Event>, handlers: map<SubId, seq<Request>>,
                                 blockOwner: map<nat, (Key, SubId)>)
  {
    forall i, j, r | 0 <= i < j < |ev| && ev[i].Call? && ev[j].Call? && r in HandlerOf(handlers, ev[i].d.sub) ::
      !Names(r, blockOwner, ev[j].d.msg.mkey, Entry(ev[j].d.sub, ev[j].block))
  }

  /** Honoured states HandlersObeyed call by call. */
  lemma {:induction false} HonouredPairwise(ev: seq<Event>, handlers: map<SubId, seq<Request>>,
                                            blockOwner: map<nat, (Key, SubId)>)
    requires Honoured(ev, handlers, blockOwner)
    ensures HandlersObeyed(ev, handlers, blockOwner)
    decreases |ev|
  {
    if ev != [] {
      var ev' := ev[..|ev| - 1];
      HonouredPairwise(ev', handlers, blockOwner);
      forall i, j, r | 0 <= i < j < |ev| && ev[i].Call? && ev[j].Call? && r in HandlerOf(handlers, ev[i].d.sub)
        ensures !Names(r, blockOwner, ev[j].d.msg.mkey, Entry(ev[j].d.sub, ev[j].block))
      {
        assert ev'[i] == ev[i];
        if j < |ev| - 1 {
          assert ev'[j] == ev[j];
        } else {
          RequestedHas(ev', i, handlers);
        }
      }
    }
  }

  /** Once `h` has been called, a subscriber `y` whose removal from topic
      `k` the handler of `h` requests is never called for `k` again in the
      same dispatch. */
  lemma RemovedNotCalledAfter(ev: seq<Event>, handlers: map<SubId, seq<Request>>, blockOwner: map<nat, (Key, SubId)>,
                              h: SubId, k: Key, y: SubId)
    requires HandlersObeyed(ev, handlers, blockOwner) && ByPtr(k, y) in HandlerOf(handlers, h)
    ensures forall i, j | 0 <= i < j < |ev| && ev[i].Call? && ev[j].Call? && ev[i].d.sub == h ::
      !(ev[j].d.msg.mkey == k && ev[j].d.sub == y)
  {
    forall i, j | 0 <= i < j < |ev| && ev[i].Call? && ev[j].Call? && ev[i].d.sub == h
      ensures !(ev[j].d.msg.mkey == k && ev[j].d.sub == y)
    {
      assert !Names(ByPtr(k, y), blockOwner, ev[j].d.msg.mkey, Entry(ev[j].d.sub, ev[j].block));
    }
  }

  /** A subscriber whose handler unsubscribes it from topic `k` is called
      for at most one message of `k` per dispatch: after its first call,
      of any topic, it is not called for `k` again. */
  lemma SelfRemovalOnce(ev: seq<Event>, handlers: map<SubId, seq<Request>>, blockOwner: map<nat, (Key, SubId)>,
                        h: SubId, k: Key)
    requires HandlersObeyed(ev, handlers, blockOwner) && ByPtr(k, h) in HandlerOf(handlers, h)
    ensures forall i, j | 0 <= i < j < |ev| && ev[i].Call? && ev[j].Call? && ev[i].d.sub == h && ev[j].d.sub == h ::
      ev[j].d.msg.mkey != k
  {
    RemovedNotCalledAfter(ev, handlers, blockOwner, h, k, h);
  }

  /** Once `h` has been called, no call goes through the slot of a token
      the publisher issued whose `unsubscribe` the handler of `h`
      requests. */
  lemma TokenNotCalledAfter(ev: seq<Event>, handlers: map<SubId, seq<Request>>, blockOwner: map<nat, (Key, SubId)>,
                            h: SubId, t: Token)
    requires HandlersObeyed(ev, handlers, blockOwner) && ByToken(t) in HandlerOf(handlers, h)
    requires t.wref.Ref? && IssuedBy(blockOwner, t)
    ensures forall i, j | 0 <= i < j < |ev| && ev[i].Call? && ev[j].Call? && ev[i].d.sub == h ::
      ev[j].block != t.wref.block
  {
    forall i, j | 0 <= i < j < |ev| && ev[i].Call? && ev[j].Call? && ev[i].d.sub == h
      ensures ev[j].block != t.wref.block
    {
      assert !Names(ByToken(t), blockOwner, ev[j].d.msg.mkey, Entry(ev[j].d.sub, ev[j].block));
    }
  }

  /** Every removal of the log is asked for by a request of the handler
      of a call before it. */
  ghost predicate RemovalsAsked(ev: seq<Event>, handlers: map<SubId, seq<Request>>)
  {
    forall i | 0 <= i < |ev| && ev[i].Removed? ::
      exists j, r | 0 <= j < i && ev[j].Call? && r in HandlerOf(handlers, ev[j].d.sub) :: Covers(r, ev[i].key, ev[i].sub)
  }

  /** Honoured states RemovalsAsked removal by removal. */
  lemma {:induction false} HonouredAsked(ev: seq<Event>, handlers: map<SubId, seq<Request>>,
                                         blockOwner: map<nat, (Key, SubId)>)
    requires Honoured(ev, handlers, blockOwner)
    ensures RemovalsAsked(ev, handlers)
    decreases |ev|
  {
    if ev != [] {
      var ev' := ev[..|ev| - 1];
      HonouredAsked(ev', handlers, blockOwner);
      forall i | 0 <= i < |ev| && ev[i].Removed?
        ensures exists j, r | 0 <= j < i && ev[j].Call? && r in HandlerOf(handlers, ev[j].d.sub) :: Covers(r, ev[i].key, ev[i].sub)
      {
        if i < |ev| - 1 {
          assert ev'[i] == ev[i];
          var j, r :| 0 <= j < i && ev'[j].Call? && r in HandlerOf(handlers, ev'[j].d.sub) && Covers(r, ev'[i].key, ev'[i].sub);
          assert ev'[j] == ev[j];
        } else {
          var r :| r in Requested(ev', handlers) && Covers(r, ev[i].key, ev[i].sub);
          RequestedFrom(ev', r, handlers);
          var j :| 0 <= j < |ev'| && ev'[j].Call? && r in HandlerOf(handlers, ev'[j].d.sub);
          assert ev'[j] == ev[j];
        }
      }
    }
  }

  /** Every removal of the log happens during the call before it, with
      only removals in between, and is asked for by that call's handler;
      a removal from that call's own topic is asked for by
      `unsubscribe(key, ptr)` or `unsubscribe(token)`, never by
      `unsubscribe(key)`. */
  ghost predicate RemovalsByCurrent(ev: seq<Event>, handlers: map<SubId, seq<Request>>)
  {
    forall i | 0 <= i < |ev| && ev[i].Removed? :: RemovedByCurrent(ev, handlers, i)
  }

  /** The removal at position `i` of the log happens during the call at
      some earlier `j`, with only removals in between, and the handler of
      that call asks for it. */
  ghost predicate RemovedByCurrent(ev: seq<Event>, handlers: map<SubId, seq<Request>>, i: int)
    requires 0 <= i < |ev| && ev[i].Removed?
  {
    exists j | 0 <= j < i && ev[j].Call? && (forall l | j < l < i :: ev[l].Removed?) ::
      exists r | r in HandlerOf(handlers, ev[j].d.sub) :: CoversWhile(r, ev[i].key, ev[i].sub, ev[i].key == ev[j].d.msg.mkey)
  }

  /** Honoured states RemovedByCurrent for each removal of the log. */
  lemma {:induction false} HonouredCurrentAt(ev: seq<Event>, handlers: map<SubId, seq<Request>>,
                                             blockOwner: map<nat, (Key, SubId)>, i: int)
    requires Honoured(ev, handlers, blockOwner) && 0 <= i < |ev| && ev[i].Removed?
    ensures RemovedByCurrent(ev, handlers, i)
    decreases |ev|
  {
    var ev' := ev[..|ev| - 1];
    if i < |ev| - 1 {
      HonouredCurrentAt(ev', handlers, blockOwner, i);
      assert ev'[i] == ev[i];
      var j :| 0 <= j < i && ev'[j].Call? && (forall l | j < l < i :: ev'[l].Removed?) &&
        exists r | r in HandlerOf(handlers, ev'[j].d.sub) :: CoversWhile(r, ev'[i].key, ev'[i].sub, ev'[i].key == ev'[j].d.msg.mkey);
      assert ev'[j] == ev[j];
      assert forall l | j < l < i :: ev'[l] == ev[l];
    } else {
      var j := LastCallAt(ev');
      assert ev'[j] == ev[j];
      assert forall l | j < l < i :: ev'[l] == ev[l];
    }
  }

  /** Honoured states RemovalsByCurrent removal by removal. */
  lemma HonouredCurrent(ev: seq<Event>, handlers: map<SubId, seq<Request>>, blockOwner: map<nat, (Key, SubId)>)
    requires Honoured(ev, handlers, blockOwner)
    ensures RemovalsByCurrent(ev, handlers)
  {
    forall i | 0 <= i < |ev| && ev[i].Removed? ensures RemovedByCurrent(ev, handlers, i) {
      HonouredCurrentAt(ev, handlers, blockOwner, i);
    }
  }

  /** The pairwise reading of a stretch of dispatch: every handler called
      is obeyed by the later calls, every removal was asked for by the
      handler of an earlier call, and by the handler of the call running
      when it happened. */
  lemma DispatchLogObeyed(ev: seq<Event>, handlers: map<SubId, seq<Request>>, blockOwner: map<nat, (Key, SubId)>,
                          s0: map<Key, seq<Entry>>, s: map<Key, seq<Entry>>)
    ensures DispatchLog(ev, handlers, blockOwner, s0, s) ==>
      HandlersObeyed(ev, handlers, blockOwner) && RemovalsAsked(ev, handlers) && RemovalsByCurrent(ev, handlers)
  {
    if DispatchLog(ev, handlers, blockOwner, s0, s) {
      HonouredPairwise(ev, handlers, blockOwner);
      HonouredAsked(ev, handlers, blockOwner);
      HonouredCurrent(ev, handlers, blockOwner);
    }
  }

  /** A subscriber that no handler asks to remove from topic `k` is still
      registered for `k` at the end of a stretch of dispatch. */
  lemma UnrequestedSurvives(ev: seq<Event>, handlers: map<SubId, seq<Request>>, blockOwner: map<nat, (Key, SubId)>,
                            s0: map<Key, seq<Entry>>, s: map<Key, seq<Entry>>, k: Key, x: SubId)
    requires DispatchLog(ev, handlers, blockOwner, s0, s) && Holds(s0, k, x)
    requires forall h, r | h in handlers && r in handlers[h] :: !Covers(r, k, x)
    ensures Holds(s, k, x)
  {
    if !Holds(s, k, x) {
      assert Removed(k, x) in ev;
      var i :| 0 <= i < |ev| && ev[i] == Removed(k, x);
      HonouredAsked(ev, handlers, blockOwner);
    }
  }

  /** A subscriber of topic `key` that no handler asks to remove from it
      is called for every message of that topic the dispatch popped. */
  lemma UnrequestedReached(calls: seq<Delivery>, ev: seq<Event>, q: seq<Context>, n: nat,
                           handlers: map<SubId, seq<Request>>, blockOwner: map<nat, (Key, SubId)>,
                           s0: map<Key, seq<Entry>>, s: map<Key, seq<Entry>>, key: Key, x: SubId)
    requires DispatchLog(ev, handlers, blockOwner, s0, s) && Reached(calls, q, n, s) && Holds(s0, key, x)
    requires forall h, r | h in handlers && r in handlers[h] :: !Covers(r, key, x)
    ensures forall k | 0 <= k < n && k < |q| && q[k].mkey == key :: Called(calls, k, x)
  {
    UnrequestedSurvives(ev, handlers, blockOwner, s0, s, key, x);
    var p :| 0 <= p < |s[key]| && s[key][p].sub == x;
    assert s[key][p] in s[key];
  }

  /** A log that begins with a call, followed by removals the handler of
      that call asks for, obeys every handler, and its requests are those
      of that call's handler. */
  lemma {:induction false} HonouredOneCall(ev: seq<Event>, handlers: map<SubId, seq<Request>>,
                                           blockOwner: map<nat, (Key, SubId)>)
    requires ev != [] ==> ev[0].Call?
    requires forall i | 0 < i < |ev| :: ev[i].Removed?
    requires ev != [] ==> AskedBy(ev[1..], HandlerOf(handlers, ev[0].d.sub), true, ev[0].d.msg.mkey)
    ensures Honoured(ev, handlers, blockOwner)
    ensures Requested(ev, handlers) == if ev != [] && ev[0].Call? then HandlerOf(handlers, ev[0].d.sub) else []
    ensures ev != [] ==> LastCallAt(ev) == 0
    decreases |ev|
  {
    if ev != [] {
      var ev' := ev[..|ev| - 1];
      forall i | 0 < i < |ev'| ensures ev'[i].Removed? {
        assert ev'[i] == ev[i];
      }
      if |ev| > 1 {
        assert ev'[0] == ev[0];
        assert ev'[1..] <= ev[1..];
      }
      HonouredOneCall(ev', handlers, blockOwner);
      if |ev| > 1 {
        var c := ev[|ev| - 1];
        assert c in ev[1..];
        var r :| r in HandlerOf(handlers, ev[0].d.sub) && CoversWhile(r, c.key, c.sub, c.key == ev[0].d.msg.mkey);
        assert AskedByCurrent(ev', handlers, c);
      }
    }
  }

  /** Honoured logs compose when every handler called in the first has
      been served by the registry `s1` that holds the slots the calls of
      the second go through. */
  lemma {:induction false} HonouredCompose(a: seq<Event>, b: seq<Event>, handlers: map<SubId, seq<Request>>,
                                           blockOwner: map<nat, (Key, SubId)>, s1: map<Key, seq<Entry>>)
    requires Honoured(a, handlers, blockOwner) && Honoured(b, handlers, blockOwner)
    requires Served(Requested(a, handlers), blockOwner, s1)
    requires forall i | 0 <= i < |b| && b[i].Call? :: SlotHeld(s1, b[i].d.msg.mkey, Entry(b[i].d.sub, b[i].block))
    ensures Honoured(a + b, handlers, blockOwner)
    decreases |b|
  {
    if b == [] {
      assert a + b == a;
    } else {
      var b' := b[..|b| - 1];
      var c := b[|b| - 1];
      assert (a + b)[..|a + b| - 1] == a + b';
      assert (a + b)[|a + b| - 1] == c;
      forall i | 0 <= i < |b'| && b'[i].Call? ensures SlotHeld(s1, b'[i].d.msg.mkey, Entry(b'[i].d.sub, b'[i].block)) {
        assert b'[i] == b[i];
      }
      HonouredCompose(a, b', handlers, blockOwner, s1);
      RequestedAppend(a, b', handlers);
      if c.Call? {
        assert SlotHeld(s1, c.d.msg.mkey, Entry(c.d.sub, c.block));
        forall r | r in Requested(a + b', handlers) ensures !Names(r, blockOwner, c.d.msg.mkey, Entry(c.d.sub, c.block)) {
        }
      } else {
        var r :| r in Requested(b', handlers) && Covers(r, c.key, c.sub);
        assert r in Requested(a + b', handlers);
        AskedByCurrentAppend(a, b', handlers, c);
      }
    }
  }

  /** The registry `after` holds no slot that the handler of a subscriber
      called in the log names. */
  ghost predicate Pending(ev: seq<Event>, handlers: map<SubId, seq<Request>>, blockOwner: map<nat, (Key, SubId)>,
                          after: map<Key, seq<Entry>>)
  {
    Served(Requested(ev, handlers), blockOwner, after)
  }

  /** The log of a stretch of dispatch that took the registry from `before`
      to `after`: it is what happened (LogOk, so every slot lost is logged),
      every handler called was obeyed by the calls after it, every removal
      was asked for by the handler of an earlier call, and nothing any
      called subscriber's handler removed is back in `after`. */
  ghost predicate DispatchLog(ev: seq<Event>, handlers: map<SubId, seq<Request>>, blockOwner: map<nat, (Key, SubId)>,
                              before: map<Key, seq<Entry>>, after: map<Key, seq<Entry>>)
  {
    LogOk(ev, before, after) && Honoured(ev, handlers, blockOwner) && Pending(ev, handlers, blockOwner, after)
  }

  /** Two stretches of dispatch compose: a call of the second went through
      a slot held when it began, which the handlers called in the first
      had already removed if they named it. */
  lemma DispatchLogCompose(a: seq<Event>, b: seq<Event>, handlers: map<SubId, seq<Request>>,
                           blockOwner: map<nat, (Key, SubId)>, s0: map<Key, seq<Entry>>, s1: map<Key, seq<Entry>>,
                           s2: map<Key, seq<Entry>>)
    requires DispatchLog(a, handlers, blockOwner, s0, s1) && DispatchLog(b, handlers, blockOwner, s1, s2)
    ensures DispatchLog(a + b, handlers, blockOwner, s0, s2)
  {
    LogCompose(a, b, s0, s1, s2);
    HonouredCompose(a, b, handlers, blockOwner, s1);
    RequestedAppend(a, b, handlers);
    ServedAppend(Requested(a, handlers), Requested(b, handlers), blockOwner, s1, s2);
  }

  /** A stretch of dispatch stays one when the registry then loses topics
      but no subscriber. */
  lemma DispatchLogCleanup(ev: seq<Event>, handlers: map<SubId, seq<Request>>, blockOwner: map<nat, (Key, SubId)>,
                           s0: map<Key, seq<Entry>>, s1: map<Key, seq<Entry>>, s2: map<Key, seq<Entry>>)
    requires DispatchLog(ev, handlers, blockOwner, s0, s1) && Shrinks(s1, s2)
    requires forall k, x | Holds(s1, k, x) :: Holds(s2, k, x)
    ensures DispatchLog(ev, handlers, blockOwner, s0, s2)
  {
    LogOkCleanup(ev, s0, s1, s2);
    ServedShrinks(Requested(ev, handlers), blockOwner, s1, s2);
  }

  /** A call through a slot the registry holds, followed by the removals
      of that subscriber's handler, which serve its requests, is a stretch
      of dispatch whose only call is that one. */
  lemma CallThenRemovals(d: Delivery, block: nat, rest: seq<Event>, ev: seq<Event>,
                         handlers: map<SubId, seq<Request>>, blockOwner: map<nat, (Key, SubId)>,
                         s0: map<Key, seq<Entry>>, s1: map<Key, seq<Entry>>)
    requires ev == [Call(d, block)] + rest
    requires SlotHeld(s0, d.msg.mkey, Entry(d.sub, block)) && RemovalLog(rest, s0, s1)
    requires Served(HandlerOf(handlers, d.sub), blockOwner, s1) && AskedBy(rest, HandlerOf(handlers, d.sub), true, d.msg.mkey)
    ensures DispatchLog(ev, handlers, blockOwner, s0, s1) && CallsOf(ev) == [d]
  {
    RemovalLogOk(rest, s0, s1);
    assert LogOk([Call(d, block)], s0, s0);
    LogCompose([Call(d, block)], rest, s0, s0, s1);
    CallsOfAppend([Call(d, block)], rest);
    RemovalsHaveNoCalls(rest);
    assert CallsOf([Call(d, block)]) == [d] by { assert [Call(d, block)][..0] == []; }
    forall i | 0 < i < |ev| ensures ev[i].Removed? {
      assert ev[i] == rest[i - 1] && rest[i - 1] in rest;
    }
    assert ev[1..] == rest;
    HonouredOneCall(ev, handlers, blockOwner);
  }

  // ---------------------------------------------------------------------
  // The record of one pass and of one whole dispatch call
  // ---------------------------------------------------------------------

  /** The log of a pass over the set of `m`'s topic that has so far
      visited `vs`: its calls deliver `m` to `vs` in order, `vs` are
      subscribers the topic held in `s0`, and the log is a stretch of
      dispatch that took the registry from `s0` to `s`. */
  ghost predicate PassLog(ev: seq<Event>, seqNo: nat, m: Context, vs: seq<SubId>, handlers: map<SubId, seq<Request>>,
                          blockOwner: map<nat, (Key, SubId)>, s0: map<Key, seq<Entry>>, s: map<Key, seq<Entry>>,
                          bound: map<SubId, seq<Arg>>)
  {
    && DispatchLog(ev, handlers, blockOwner, s0, s) && CallsOf(ev) == Deliveries(seqNo, m, vs, bound)
    && m.mkey in s0 && (forall v | v in vs :: HasSub(s0[m.mkey], v))
  }

  /** Before the pass visits any slot its log is empty. */
  lemma EmptyPass(seqNo: nat, m: Context, handlers: map<SubId, seq<Request>>, blockOwner: map<nat, (Key, SubId)>,
                  s0: map<Key, seq<Entry>>, bound: map<SubId, seq<Arg>>)
    requires m.mkey in s0
    ensures PassLog([], seqNo, m, [], handlers, blockOwner, s0, s0, bound)
  {
  }

  /** Visiting one more slot of the topic, whose log calls only that
      subscriber, extends the pass's log. */
  lemma ExtendPass(ev: seq<Event>, step: seq<Event>, seqNo: nat, m: Context, vs: seq<SubId>, x: SubId,
                   handlers: map<SubId, seq<Request>>, blockOwner: map<nat, (Key, SubId)>,
                   s0: map<Key, seq<Entry>>, s1: map<Key, seq<Entry>>, s2: map<Key, seq<Entry>>,
                   bound: map<SubId, seq<Arg>>)
    ensures && PassLog(ev, seqNo, m, vs, handlers, blockOwner, s0, s1, bound)
            && m.mkey in s1 && HasSub(s1[m.mkey], x)
            && DispatchLog(step, handlers, blockOwner, s1, s2) && CallsOf(step) == [DeliveryFor(seqNo, m, x, bound)]
            ==> PassLog(ev + step, seqNo, m, vs + [x], handlers, blockOwner, s0, s2, bound)
  {
    if && PassLog(ev, seqNo, m, vs, handlers, blockOwner, s0, s1, bound)
       && m.mkey in s1 && HasSub(s1[m.mkey], x)
       && DispatchLog(step, handlers, blockOwner, s1, s2) && CallsOf(step) == [DeliveryFor(seqNo, m, x, bound)] {
      ShrinksKeepsHasSub(s0, s1, m.mkey, x);
      DispatchLogCompose(ev, step, handlers, blockOwner, s0, s1, s2);
      CallsOfAppend(ev, step);
      assert (vs + [x])[..|vs|] == vs;
    }
  }

  /** A log or a call record that grows by appending keeps what it had,
      and appending twice is appending the two stretches at once. */
  lemma AppendExtends<T>(a: seq<T>, b: seq<T>, c: seq<T>)
    ensures a <= a + b
    ensures a + b + c == a + (b + c)
  {
  }

  /** What a `dispatch` call has done after popping `n` messages of `q`:
      its log `ev` is a stretch of dispatch that took the registry from `s0`
      to `s`, and the calls in it are `calls`, for those messages only, in
      queue order, at most once per subscriber and message, reaching every
      subscriber the topics still hold, and reaching each subscriber a
      message's topic held at the start unless it was removed by the end of
      that message's round. */
  ghost predicate RecordOk(calls: seq<Delivery>, ev: seq<Event>, q: seq<Context>, n: nat,
                           handlers: map<SubId, seq<Request>>, blockOwner: map<nat, (Key, SubId)>,
                           s0: map<Key, seq<Entry>>, s: map<Key, seq<Entry>>, bound: map<SubId, seq<Arg>>)
  {
    && DispatchLog(ev, handlers, blockOwner, s0, s) && calls == CallsOf(ev)
    && DeliveredInOrder(calls, q, n, s0, bound) && OncePerMessage(calls) && Reached(calls, q, n, s)
    && CallsBefore(ev, n) && ReachedOrRemoved(calls, ev, q, n, s0)
  }

  /** Before any message is popped the record is empty. */
  lemma EmptyRecord(q: seq<Context>, handlers: map<SubId, seq<Request>>, blockOwner: map<nat, (Key, SubId)>,
                    s0: map<Key, seq<Entry>>, bound: map<SubId, seq<Arg>>)
    ensures RecordOk([], [], q, 0, handlers, blockOwner, s0, s0, bound)
  {
  }

  /** One round of dispatch's outer loop, for message `m`, number `n` of
      the call, that took the registry from `before` to `after`: its log
      `step` is a stretch of dispatch whose calls are `added`; each call
      delivers `m` to a subscriber its topic held in `before`; no
      subscriber is called twice; and every subscriber the topic still
      holds in `after` has been called. */
  ghost predicate RoundOk(added: seq<Delivery>, step: seq<Event>, n: nat, m: Context,
                          handlers: map<SubId, seq<Request>>, blockOwner: map<nat, (Key, SubId)>,
                          before: map<Key, seq<Entry>>, after: map<Key, seq<Entry>>, bound: map<SubId, seq<Arg>>)
  {
    && DispatchLog(step, handlers, blockOwner, before, after) && added == CallsOf(step)
    && (forall d | d in added :: DeliveredTo(d, n, m, before, bound))
    && (forall i, j | 0 <= i < j < |added| :: added[i].sub != added[j].sub)
    && (m.mkey in after ==> forall e | e in after[m.mkey] :: exists i | 0 <= i < |added| :: added[i].sub == e.sub)
  }

  /** Popping message `n` and delivering it as one round of dispatch does
      extends the record by that round's calls and log. */
  lemma ExtendRecord(calls: seq<Delivery>, ev: seq<Event>, added: seq<Delivery>, step: seq<Event>,
                     q: seq<Context>, n: nat, m: Context, handlers: map<SubId, seq<Request>>,
                     blockOwner: map<nat, (Key, SubId)>, s0: map<Key, seq<Entry>>, before: map<Key, seq<Entry>>,
                     after: map<Key, seq<Entry>>, bound: map<SubId, seq<Arg>>)
    ensures && RecordOk(calls, ev, q, n, handlers, blockOwner, s0, before, bound) && n < |q| && m == q[n]
            && RoundOk(added, step, n, m, handlers, blockOwner, before, after, bound)
            ==> RecordOk(calls + added, ev + step, q, n + 1, handlers, blockOwner, s0, after, bound)
  {
    if && RecordOk(calls, ev, q, n, handlers, blockOwner, s0, before, bound) && n < |q| && m == q[n]
       && RoundOk(added, step, n, m, handlers, blockOwner, before, after, bound) {
      DispatchLogCompose(ev, step, handlers, blockOwner, s0, before, after);
      CallsOfAppend(ev, step);
      ExtendDelivered(calls, added, q, n, s0, before, after, bound);
      forall j | 0 <= j < |step| && step[j].Call? ensures step[j].d.seqNo == n {
        CallsOfHas(step, j);
      }
      forall i | 0 <= i < |added| ensures added[i].seqNo == n {
        assert added[i] in added;
      }
      ExtendReachedOrRemoved(calls, ev, added, step, q, n, s0, before, after);
    }
  }

  /** The per-message completeness half of ExtendRecord: a subscriber the
      topic of message `n` held when the dispatch began was removed before
      this round, or is removed in it, or is still there at its end and so
      was called. */
  lemma ExtendReachedOrRemoved(calls: seq<Delivery>, ev: seq<Event>, added: seq<Delivery>, step: seq<Event>,
                               q: seq<Context>, n: nat, s0: map<Key, seq<Entry>>, before: map<Key, seq<Entry>>,
                               after: map<Key, seq<Entry>>)
    requires ReachedOrRemoved(calls, ev, q, n, s0) && CallsBefore(ev, n) && n < |q|
    requires Logged(ev, s0, before) && Logged(step, before, after)
    requires forall j | 0 <= j < |step| && step[j].Call? :: step[j].d.seqNo == n
    requires forall i | 0 <= i < |added| :: added[i].seqNo == n
    requires q[n].mkey in after ==> forall e | e in after[q[n].mkey] :: exists i | 0 <= i < |added| :: added[i].sub == e.sub
    ensures ReachedOrRemoved(calls + added, ev + step, q, n + 1, s0)
    ensures CallsBefore(ev + step, n + 1)
  {
    var all, log := calls + added, ev + step;
    forall j | 0 <= j < |log| && log[j].Call? ensures log[j].d.seqNo < n + 1 {
      if j < |ev| { assert log[j] == ev[j]; } else { assert log[j] == step[j - |ev|]; }
    }
    forall k, x | 0 <= k < n + 1 && k < |q| && Holds(s0, q[k].mkey, x)
      ensures Called(all, k, x) || RemovedBy(log, q[k].mkey, x, k)
    {
      var key := q[k].mkey;
      if k < n {
        if Called(calls, k, x) {
          var i :| 0 <= i < |calls| && calls[i].seqNo == k && calls[i].sub == x;
          assert all[i] == calls[i];
        } else {
          var i :| 0 <= i < |ev| && ev[i] == Removed(key, x) && forall j | 0 <= j < i && ev[j].Call? :: ev[j].d.seqNo <= k;
          assert log[i] == ev[i];
          forall j | 0 <= j < i && log[j].Call? ensures log[j].d.seqNo <= k { assert log[j] == ev[j]; }
        }
      } else if !Holds(before, key, x) {
        assert Removed(key, x) in ev;
        var i :| 0 <= i < |ev| && ev[i] == Removed(key, x);
        assert log[i] == ev[i];
        forall j | 0 <= j < i && log[j].Call? ensures log[j].d.seqNo <= k { assert log[j] == ev[j]; }
      } else if !Holds(after, key, x) {
        assert Removed(key, x) in step;
        var i :| 0 <= i < |step| && step[i] == Removed(key, x);
        assert log[|ev| + i] == step[i];
        forall j | 0 <= j < |ev| + i && log[j].Call? ensures log[j].d.seqNo <= k {
          if j < |ev| { assert log[j] == ev[j]; } else { assert log[j] == step[j - |ev|]; }
        }
      } else {
        var p :| 0 <= p < |after[key]| && after[key][p].sub == x;
        assert after[key][p] in after[key];
        var i :| 0 <= i < |added| && added[i].sub == x;
        assert all[|calls| + i] == added[i];
      }
    }
  }
}
