# pubsub: a verified model of `xmsg_publisher_t`

`xmsg_pubsub.h` is a single-threaded, in-process publish/subscribe bus.

- **Publishing.** Producers `publish` messages (a topic key plus an argument tuple) into a FIFO queue.
- **Subscribing.** Consumers `subscribe` to a topic in one of two ways:
  - with a subscriber object of their own, which they own;
  - with a callable and leading bound arguments. The bus wraps these in an adapter subscriber that the bus owns.
- **Tokens.** Every subscription returns a token: the topic key and a weak reference to the registry's slot. The token tells whether the subscription is still alive, and it can be used to unsubscribe.
- **Dispatch.** `dispatch(n)` pops up to `n` messages and hands each one to every subscriber of its topic.
- **Unsubscribing during dispatch.** A handler may unsubscribe itself, another subscriber or a whole topic while it is being called. A cursor handshake (`m_iter_suber`) lets `unsubscribe` erase the current element and advance dispatch's iterator in one step. It also defers erasing the topic under dispatch until dispatch has finished with it.

The Dafny project models this core, module by module:

- **`Tags`** (`tags.dfy`): the subscriber type tags and the ownership rule.
  - The base tag is `SIZE_MAX / 2`. User subscribers carry tags below it; adapters carry tags above it.
  - The checking deleter destroys a subscriber exactly when its tag lies above the base.
  - The process-wide `make_sub_type` counter is modelled, including its wrap-around.
- **`IndexSequence`** (`index_sequence.dfy`): the compile-time `xbuild_index_sequence_t`, and the argument order an adapter calls its callable with.
- **`Message`** (`message.dfy`): `xmsg_context_t`.
- **`Subscription`** (`subscription.dfy`): the objects a topic's set is made of.
  - Subscriber identities (the raw pointer).
  - Slots: the owning `shared_ptr`, numbered by its control block.
  - The identity-unique set, modelled as a sequence in iteration order.
  - Erase by identity, the weak reference and the token with its validity test.
  - The requests a handler can make.
- **`Registry`** (`registry.dfy`): the registry `m_xmap_suber` as a value.
  - Its invariant covers the slots, the tags, the ledger of control blocks and deleted subscribers, and the dispatch cursor's view of the active set.
  - One lemma per update shows that the update keeps the invariant.
  - The log's events (`Call` with the slot's control block, `Removed`) and what a valid log is: calls go to slots the registry held, removed slots stay gone, every slot the registry loses is logged as removed, and no call follows the removal of its own slot.
- **`Publisher`** (`publisher.dfy`): the class `xmsg_publisher_t`.
  - Its fields are the queue, the registry, the cursor and dispatch's iterator position, together with the tag bookkeeping.
  - Every public operation and `iinvk_subscribe` is a method with a contract.
  - `dispatch` is split into its outer loop (`Dispatch`, whose loop is `PopRounds`), one round of it (`DispatchNext`), one message (`DispatchMessage`), one topic (`DeliverTopic`), the inner loop (`DeliverAll`) and one slot (`DeliverSlot`, which calls the subscriber in `VisitSlot` and moves the iterator on in `Advance`).
  - Handlers are data: each subscriber's handler is the list of `unsubscribe` requests it issues when it is called (`RunHandler`, one request at a time by `RunNext` and `ObeyRequest`, each request by `RunRequest`).
  - The inner loop's body is `DeliverNext`, and the cleanup after it is `EndPass`.
  - A ghost log records, in order, every call of `translate` and every slot an `unsubscribe` removes, so delivery properties can be stated.
- **`DispatchRecord`** (`dispatch_record.dfy`): what one `dispatch` call has done, as predicates on its calls and its log, with the lemmas that extend the record by one slot and by one message. It also states what it means for a handler to be obeyed: no call after a handler's call goes through a slot its requests name. And it states that the registry loses only what was asked for: every removal in the log is one that a request of an earlier call's handler asks for.
- **`Hazard`** (`hazard.dfy`): the two `unsubscribe` overloads exactly as written, and the inputs that break them (see "## Findings").

Modelling choices:

- **Topic sets.** An `std::unordered_set` is modelled as a sequence in its iteration order. Erasing an element that is not the current one keeps the order of the rest, which is the set's guarantee that such an erase leaves the iteration undisturbed. In the sequence, the iterator's position moves back by one when an earlier element is erased. Erasing the current element moves the next element into the iterator's position. This is the `erase(itsub++)` step.
- **Keys and arguments.** The key type is `int` and an argument is a `string`, as in the demonstration program. Arity is not fixed, because the source checks it at compile time.
- **Tokens.** The `weak_ptr` in a token observes a control block. It has expired exactly when no registry slot holds that block any more.
- **The unsubscribe guard.** The publisher class uses the corrected guard, "this topic is under dispatch", for the three places where the source tests the cursor pointer instead (see "## Findings"). Outside that guard the model follows the source.
- **Where the documented design and the code differ, the model follows the code.** Two such places:
  - `unsubscribe(key)` on the topic under dispatch does nothing at all. It does not remove the subscribers and defer only the erase of the topic.
  - `sub_type_value` is computed by a static initialiser. The model computes it on the first subscribe of that adapter type. Either way each type gets one counter value above the base, fixed for the life of the process.

## Model

| member | source | states |
|---|---|---|
| Tags.OwnershipByTag | xmsg_pubsub.h:599-618 | A user tag (below the base) is never destroyed by either deleter. An adapter tag (above the base) is destroyed by the checking deleter and never by the non-checking one. The base tag itself belongs to neither category. |
| Tags.TagsIssuedAreAdapterTags | xmsg_pubsub.h:433-443 | Starting from a counter above the base, `k` successive `make_sub_type` calls that stay before the wrap hand out the consecutive values `seqno + i`. So the values are pairwise distinct and every one is an adapter tag. |
| IndexSequence.BuildExtendsIota | xmsg_pubsub.h:59-75 | Each recursive step of `xbuild_index_sequence_t` appends the current length of the accumulated indexes. Starting from `0..k-1`, `n` steps give exactly `0..k+n-1`. |
| IndexSequence.Indexes | xmsg_pubsub.h:72-75 | `xbuild_index_sequence_t<n>::type` has length `n`, and its element `i` is `i`. |
| IndexSequence.InvokeArgs | xmsg_pubsub.h:514-527 | The callable receives all bound arguments, in order, followed by all message arguments, in order. |
| Registry.AdapterCallArgs | xmsg_pubsub.h:491-503 | Every call that `translate` makes for an adapter passes its bound tuple first and the message's arguments last, and nothing else. |
| Subscription.EraseRemovesIdentity | xmsg_pubsub.h:567-580 | Erasing by identity (equality compares the stored pointers) removes that identity and no other, and removes one slot when the identity was present and none otherwise. The set stays identity-unique and gains no slot. |
| Subscription.ExpiredStaysExpired | xmsg_pubsub.h:422-428 | Once a token is no longer valid (`is_valid`, `operator bool`), any sequence of removals leaves it invalid. |
| Registry.RemovalKeepsPartition | xmsg_pubsub.h:760-764 | When a slot is erased from the active set, the partition into delivered and not-yet-delivered slots is kept. The iterator moves back when an earlier slot goes. The cursor is cleared exactly when its own slot goes. |
| Registry.AddKeepsSlots | xmsg_pubsub.h:939-953 | A new control block for `sub` keeps every slot consistent. The set either takes the new slot (new identity) or refuses it (identity already present). |
| Registry.AddKeepsExpired | xmsg_pubsub.h:939-945 | A slot under a new control block revives no expired weak reference to an older one. |
| Registry.EraseKeepsSlots | xmsg_pubsub.h:763-770 | Erasing one identity only removes slots. The subscriber deleted with it, if any, is an adapter (the checking deleter) held by no other slot. |
| Registry.DropKeepsSlots | xmsg_pubsub.h:805-812 | Erasing a whole topic only removes slots. Every subscriber deleted with it is an adapter held by no other slot. |
| Registry.DropEmptyKeepsSlots | xmsg_pubsub.h:908-911 | Erasing a topic whose set is empty removes no slot. |
| Registry.DeletedByOwnership | xmsg_pubsub.h:599-618 | The removals of a log delete a subscriber exactly when it is an adapter that some removal of the log takes out of a topic. A user subscriber is never deleted by a removal. |
| Registry.DeletedByAppend | xmsg_pubsub.h:757-770 | A log without removals deletes nobody, and a joined log deletes what its two parts delete. |
| Registry.ErasedDeletes | xmsg_pubsub.h:757-770 | The log of an erase by identity deletes what releasing that slot deletes: the subscriber when it is an adapter held by the set, nobody otherwise. |
| Registry.DroppedDeletes | xmsg_pubsub.h:805-812 | The log of erasing a whole topic deletes what releasing every slot of its set deletes: the adapters among them. |
| Registry.EraseKeepsCursor | xmsg_pubsub.h:747-782 | With the corrected guard, an erase keeps the cursor's view. The iterator shifts back when an earlier slot goes. The cursor is cleared exactly when its slot goes. An empty active set is kept for dispatch. Dispatch's remaining work does not grow, and it shrinks when the cursor is cleared. |
| Registry.DropKeepsCursor | xmsg_pubsub.h:803-815 | Erasing a topic other than the active one keeps the cursor's view and dispatch's remaining work. |
| Registry.VisitKeepsCursor | xmsg_pubsub.h:893-897 | The slot under the cursor has not been delivered the current message before. Delivering it makes the cursor live. |
| Registry.AdvanceKeepsCursor | xmsg_pubsub.h:899-903 | Advancing past a live cursor adds its slot to the delivered prefix and strictly shrinks the remaining work. |
| Registry.FinishKeepsCursor | xmsg_pubsub.h:893-911 | When the iterator reaches the end, every slot left in the set has been delivered. Resetting the cursor and erasing an empty set restores the state outside dispatch. |
| Registry.CallsOfAppend | xmsg_pubsub.h:893-904 | The calls in a log made of two stretches are the calls of the first followed by the calls of the second. |
| Registry.RemovalsHaveNoCalls | xmsg_pubsub.h:747-815 | A log of removals only, such as the one an `unsubscribe` writes, holds no call. |
| Registry.LogCompose | xmsg_pubsub.h:883-915 | Two valid stretches of log, the second starting from the registry the first ended with, form a valid log. A subscriber removed in the first stretch is never called in the second, and every slot lost over the two stretches is logged as removed. |
| Registry.LogOkCleanup | xmsg_pubsub.h:906-911 | A valid log stays valid when the registry then loses only topics whose sets hold no subscriber, as in the cleanup of an emptied set, so no slot goes unlogged. |
| Registry.RemovalLogOk | xmsg_pubsub.h:747-815 | A log of removals only, over a registry that only shrank, whose removed slots are gone and which logs every slot the registry lost, is a valid log. |
| Registry.RemovalLogCompose | xmsg_pubsub.h:897 | The removals of successive `unsubscribe` calls in one handler join into one log of removals of slots that are gone, which logs every slot lost over both calls. |
| Registry.InitialRegistry | xmsg_pubsub.h:663-667 | The state of a new publisher satisfies the invariant. |
| Registry.EraseKeepsRegistry | xmsg_pubsub.h:747-782 | `unsubscribe(key, ptr)` on a registered topic keeps the whole invariant. It only removes slots, and the identity is gone from the topic afterwards. Its log is the removal of that identity when the set held it, the slot is gone, and no other subscriber is lost. It never grows dispatch's remaining work. |
| Registry.DropKeepsRegistry | xmsg_pubsub.h:803-815 | `unsubscribe(key)` on a topic that is not under dispatch keeps the whole invariant and only removes slots. Every slot of the topic is logged as removed and is gone, and no subscriber of another topic is lost. |
| Registry.AddKeepsRegistry | xmsg_pubsub.h:933-954 | `iinvk_subscribe` keeps the whole invariant, whether it inserts or refuses a duplicate. |
| Registry.UserTagKeepsRegistry | xmsg_pubsub.h:693-698 | Registering the tag of a user subscriber, asserted to lie below the base, keeps the invariant. |
| Registry.AdapterTagKeepsRegistry | xmsg_pubsub.h:718-733 | A newly created adapter is held by no slot yet. Recording its tag and bound tuple keeps the invariant. |
| Registry.StartKeepsRegistry | xmsg_pubsub.h:889-893 | Pointing the cursor at a registered topic, at the first slot, keeps the invariant. |
| Registry.VisitKeepsRegistry | xmsg_pubsub.h:896-897 | Delivering to the slot under the cursor keeps the invariant, and it delivers to a subscriber not yet delivered this message. |
| Registry.AdvanceKeepsRegistry | xmsg_pubsub.h:899-903 | Advancing past a live cursor keeps the invariant. |
| Registry.FinishKeepsRegistry | xmsg_pubsub.h:906-911 | After the inner loop, every slot left has been delivered. The cursor reset and the deferred cleanup keep the invariant and only remove slots. |
| DispatchRecord.ExtendDelivered | xmsg_pubsub.h:883-915 | Delivering the next message of the queue, at most once to each subscriber, only to subscribers its topic holds and to every subscriber it still holds afterwards, extends the record. The calls stay in queue order, each goes to a subscriber held when the dispatch began, none is repeated for one message, and every surviving subscriber of every popped message's topic was called. |
| DispatchRecord.ExtendReached | xmsg_pubsub.h:893-911 | Every subscriber a popped message's topic still holds was called for that message, and the property survives further removals. |
| DispatchRecord.ExtendPass | xmsg_pubsub.h:893-904 | A visit whose log calls only the visited subscriber extends the pass's log: its calls are the message delivered to the visited subscribers, in visiting order. |
| DispatchRecord.ExtendRecord | xmsg_pubsub.h:885-914 | One round of the outer loop, with the guarantees of one message's delivery, extends the whole record: the valid log, its calls, their order, once per subscriber and message, and completeness, both against the registry at the end and against the registry at the start of the dispatch. |
| DispatchRecord.ExtendReachedOrRemoved | xmsg_pubsub.h:885-912 | Take a subscriber that the topic of message `n` held when the dispatch began. It was removed before round `n`, or it is removed during round `n` (before any call of a later message), or it is still there at the end of the round and so was called for message `n`. |
| DispatchRecord.ServedOutcome | xmsg_pubsub.h:757-797 | When the registry holds no slot that any request of a handler's script names, every identity an `unsubscribe(key, ptr)` of the script named is gone from its topic. Every token the publisher issued that an `unsubscribe(token)` named has expired. |
| DispatchRecord.ErasedAsked | xmsg_pubsub.h:747-797 | The log of an erase by identity, for `unsubscribe(key, ptr)` or `unsubscribe(token)`, removes only the slot that request asks for, whichever topic is under dispatch. |
| DispatchRecord.DroppedAsked | xmsg_pubsub.h:803-815 | The log of `unsubscribe(key)`, for a topic other than the one under dispatch, removes only slots of that topic (`CoversWhile`: while dispatch iterates a topic, `unsubscribe(key)` of it asks for no removal). |
| DispatchRecord.AskedByAppend | xmsg_pubsub.h:897 | The removals of two successive stretches are asked for by the two scripts together, with the same topic under dispatch. |
| DispatchRecord.CallThenRemovals | xmsg_pubsub.h:895-897 | Take a call through a slot the registry holds, followed by removals that the called subscriber's handler asks for while the call's topic is under dispatch, after which the registry holds no slot that handler names. That is a dispatch log whose only call is that one. |
| DispatchRecord.HonouredOneCall | xmsg_pubsub.h:895-897 | A log that begins with a call, followed only by removals that call's handler asks for, obeys every handler, and its requests are those of that handler. Its last call is its first event, so each removal is asked for by the running call's handler. |
| DispatchRecord.HonouredCompose | xmsg_pubsub.h:893-904 | Two stretches of log that each obey the handlers they call form one that does, provided the registry the second begins from holds no slot the first one's handlers named. A removal asked for in either stretch is still asked for by an earlier call, and by the handler of the call running when it happened. |
| DispatchRecord.HonouredPairwise | xmsg_pubsub.h:883-915 | The call-by-call form implies the pairwise form. For calls `i` before `j`, no request of the handler of `i`'s subscriber names the slot `j` goes through. |
| DispatchRecord.HonouredAsked | xmsg_pubsub.h:883-915 | In a log that obeys its handlers, every removal is asked for by a request of the handler of a call before it. The registry loses nothing that no handler asked to remove. |
| DispatchRecord.LastCallAt | xmsg_pubsub.h:893-904 | The position of the log's last call, or -1: it is a call, and everything after it is a removal. This is the call whose handler is running. |
| DispatchRecord.LastCallAppend | xmsg_pubsub.h:893-904 | The last call of a joined log is the last call of its second part, shifted by the first part's length, when the second part has one. |
| DispatchRecord.AskedByCurrentAppend | xmsg_pubsub.h:893-904 | A removal asked for by the running handler after a stretch of log stays so when an earlier stretch is put in front. |
| DispatchRecord.HonouredCurrentAt | xmsg_pubsub.h:893-904 | In a log that obeys its handlers, the removal at any position happens during an earlier call, with only removals in between, and that call's handler asks for it. An `unsubscribe(key)` of that call's own topic never does, since it is a no-op there (xmsg_pubsub.h:808-813). |
| DispatchRecord.HonouredCurrent | xmsg_pubsub.h:893-904 | The same for every removal of the log at once (`RemovalsByCurrent`). |
| DispatchRecord.DispatchLogObeyed | xmsg_pubsub.h:883-915 | A dispatch log gives the pairwise readings: handlers are obeyed by later calls, every removal was asked for earlier, and every removal was asked for by the handler of the last call before it (with only removals in between), never by an `unsubscribe(key)` of that call's topic (`RemovalsByCurrent`). |
| DispatchRecord.DispatchLogCompose | xmsg_pubsub.h:883-915 | Two dispatch logs, the second starting from the registry the first ended with, compose into one. It is a valid log, obeys every handler it calls, and removes only what those handlers asked for. The final registry holds no slot that any called handler named. |
| DispatchRecord.DispatchLogCleanup | xmsg_pubsub.h:906-911 | Erasing an emptied set after the inner loop keeps the pass's dispatch log. |
| DispatchRecord.RemovedNotCalledAfter | xmsg_pubsub.h:747-782 | In a dispatch that obeys its handlers, take a subscriber `y` whose removal from topic `k` the handler of `h` requests. Once `h` has been called, `y` is never called for `k` again. |
| DispatchRecord.SelfRemovalOnce | xmsg_pubsub.h:757-766 | A subscriber whose handler unsubscribes it from topic `k` is called at most once for `k` per dispatch. After its first call, of any topic, it is not called for `k` again. |
| DispatchRecord.TokenNotCalledAfter | xmsg_pubsub.h:790-797 | Take an issued token whose `unsubscribe` the handler of `h` requests. Once `h` has been called, no later call goes through the token's slot. |
| DispatchRecord.UnrequestedSurvives | xmsg_pubsub.h:883-915 | A subscriber that no handler asks to remove from a topic, by identity, token or topic, is still registered for that topic at the end of a stretch of dispatch. |
| DispatchRecord.UnrequestedReached | xmsg_pubsub.h:892-904 | A subscriber of a topic that no handler asks to remove from it is called for every message of that topic the dispatch popped. |
| Publisher.Publisher.constructor | xmsg_pubsub.h:663-667 | Empty queue and registry, cursor key `x_mkey_t()` and no cursor. The counter starts at the base plus one. |
| Publisher.Publisher.Publish | xmsg_pubsub.h:839-851 | Appends the message at the back of the queue, so `size()` grows by one and `empty()` is false. Nothing else changes. |
| Publisher.Publisher.PublishArgs | xmsg_pubsub.h:858-869 | Appends the message built from key and arguments, so `size()` grows by one and `empty()` is false. |
| Publisher.Publisher.MakeSubType | xmsg_pubsub.h:440-443 | Returns the counter and increments it, wrapping at `SIZE_MAX`. |
| Publisher.Publisher.AdapterTag | xmsg_pubsub.h:963-981 | An adapter type's tag is minted from the counter once and reused afterwards. It always lies above the base. |
| Publisher.Publisher.IInvkSubscribe | xmsg_pubsub.h:933-954 | For a new identity, the set grows by exactly that slot and the returned token is valid and issued for it. For an identity already present, the registry is unchanged and the empty token is returned. Earlier tokens stay issued, and expired tokens stay expired. |
| Publisher.Publisher.SubscribeUser | xmsg_pubsub.h:693-698 | Requires a user tag. Inserts by identity, with the same outcomes as `iinvk_subscribe`. The registry never takes ownership. |
| Publisher.Publisher.SubscribeAdapter | xmsg_pubsub.h:718-734 | A new adapter, carrying its type's tag above the base and its bound tuple, is always inserted. The token is valid. The counter advances only on a type's first use. |
| Publisher.Publisher.UnsubscribePtr | xmsg_pubsub.h:747-782 | An unknown topic changes nothing and logs nothing. Otherwise the identity is erased from the topic's set, and an adapter is deleted with its slot. The removal is logged when the set held the identity. The topic is erased when its set becomes empty, unless it is under dispatch. Erasing the cursor's slot advances the iterator in the same step and clears the cursor. Erasing an earlier slot shifts the iterator back. |
| Publisher.Publisher.UnsubscribeToken | xmsg_pubsub.h:790-797 | An expired or empty token, or one whose topic is gone, changes nothing, so a second call is a no-op. A live token does exactly what `unsubscribe(key, ptr)` does with its key and target: the same new registry, deleted subscribers, iterator, cursor and logged removal. Afterwards a token issued by this publisher has expired. |
| Publisher.Publisher.UnsubscribeKey | xmsg_pubsub.h:803-815 | Erases the topic, deletes its adapters and logs the removal of every slot. An unknown topic, or the topic under dispatch, is left alone and nothing is logged. |
| Publisher.Publisher.RunRequest | xmsg_pubsub.h:747-815 | One `unsubscribe` request of a handler does exactly what its overload does. For `unsubscribe(key, ptr)` and `unsubscribe(token)`, that is the same new registry, deleted subscribers, iterator, cursor and log as UnsubscribePtr and UnsubscribeToken; an unknown topic or an expired token changes nothing. `unsubscribe(key)` erases the topic and logs the removal of every slot, unless the topic is unknown or under dispatch, and leaves the iterator alone. Afterwards the registry holds no slot the request names, and every slot lost is logged. |
| Publisher.Publisher.ObeyRequest | xmsg_pubsub.h:747-815 | What the rest of a handler call relies on from one request. The invariant holds and the registry only shrinks. Every slot lost is logged as removed, and every removal logged is one the request asks for; an `unsubscribe(key)` of the topic under dispatch removes nothing. No slot the request names is left, a topic it erased is gone, and the cursor is never re-armed. The subscribers deleted are exactly the adapters its logged removals take out. |
| Publisher.Publisher.RunHandler | xmsg_pubsub.h:897 | Runs a handler's requests in order. Afterwards every identity an `unsubscribe(key, ptr)` named is gone from its topic, and every issued token an `unsubscribe(token)` named has expired. Every topic an `unsubscribe(key)` named is erased, unless it is under dispatch. The registry only shrank. Every slot it lost is logged as removed, and every removal is one a request of the script asks for, so no other slot is lost. An `unsubscribe(key)` of the topic under dispatch asks for no removal, so that topic loses only slots an `unsubscribe(key, ptr)` or `unsubscribe(token)` named. The cursor is never re-armed and dispatch's remaining work never grows. The subscribers deleted are exactly the adapters its logged removals take out (`DeletedBy`), added to those deleted before. |
| Publisher.Publisher.RunNext | xmsg_pubsub.h:897 | Running the next request of the script keeps what RunHandler promises, now for one more request: served requests, removals only as asked, every loss logged. The deleted subscribers stay those the removals so far delete. An `unsubscribe(key)` of the topic under dispatch still asks for no removal. |
| Publisher.Publisher.VisitSlot | xmsg_pubsub.h:895-897 | The slot under the cursor is delivered the message, with the cursor live while its handler runs. The log starts with that one call, through the slot's control block, followed by removals that subscriber's handler asks for, and nothing else. Afterwards no slot the handler named is left, and every other topic it unsubscribed is gone. The log is a dispatch log: every lost slot is logged and the handler is obeyed. The subscribers deleted are exactly the adapters its logged removals take out (`DeletedBy`), added to those deleted before. Each removal is asked for by the handler of the call running when it happens, and an `unsubscribe(key)` of that call's own topic asks for none, so the topic under dispatch loses only slots an `unsubscribe(key, ptr)` or `unsubscribe(token)` named. |
| Publisher.Publisher.DeliverSlot | xmsg_pubsub.h:895-903 | One iteration of the inner loop delivers the message to the slot under the cursor. It advances unless the handler already did, and strictly shrinks the remaining work. Its log is a dispatch log that calls exactly that subscriber, so the only slots lost are those that subscriber's handler asked to remove. The subscribers deleted are exactly the adapters its logged removals take out (`DeletedBy`), added to those deleted before. Each removal is asked for by the handler of the call running when it happens, and an `unsubscribe(key)` of that call's own topic asks for none, so the topic under dispatch loses only slots an `unsubscribe(key, ptr)` or `unsubscribe(token)` named. |
| Publisher.Publisher.Advance | xmsg_pubsub.h:898-902 | When the handler left the cursor set, the iterator moves to the next slot and the cursor is cleared. Dispatch's remaining work strictly shrinks. |
| Publisher.Publisher.DeliverNext | xmsg_pubsub.h:893-904 | One iteration of the inner loop extends the pass's record. The pass's log stays a dispatch log whose calls are the message delivered to the visited subscribers, in order. Every slot lost so far was asked for by a visited subscriber's handler. The remaining work strictly shrinks. The subscribers deleted since the pass began are exactly the adapters its removals take out. Each removal is asked for by the handler of the call running when it happens, and an `unsubscribe(key)` of that call's own topic asks for none, so the topic under dispatch loses only slots an `unsubscribe(key, ptr)` or `unsubscribe(token)` named. |
| Publisher.Publisher.DeliverAll | xmsg_pubsub.h:893-904 | The inner loop ends with the iterator at the end of the active set. Its log is a dispatch log, so a slot is lost only when a visited subscriber's handler asked for it. Its calls are the message delivered to the visited subscribers in order, all subscribers of the topic when the loop began. The subscribers deleted are exactly the adapters its logged removals take out (`DeletedBy`), added to those deleted before. Each removal is asked for by the handler of the call running when it happens, and an `unsubscribe(key)` of that call's own topic asks for none, so the topic under dispatch loses only slots an `unsubscribe(key, ptr)` or `unsubscribe(token)` named. |
| Publisher.Publisher.EndPass | xmsg_pubsub.h:906-911 | After the inner loop the set is erased if it is empty, and the cursor is cleared. Every slot the set still holds was visited, and the pass's log stays a dispatch log over the new registry. |
| Publisher.Publisher.DeliverTopic | xmsg_pubsub.h:889-911 | During one message, each subscriber is delivered it at most once, and only subscribers the topic held are. Every subscriber still registered at the end has been delivered it, and a subscriber is gone only if a called handler asked for its removal. The topic is erased afterwards if its set is empty. The calls are exactly those of the log. The subscribers deleted are exactly the adapters its logged removals take out (`DeletedBy`), added to those deleted before. Each removal is asked for by the handler of the call running when it happens, and an `unsubscribe(key)` of that call's own topic asks for none, so the topic under dispatch loses only slots an `unsubscribe(key, ptr)` or `unsubscribe(token)` named. |
| Publisher.Publisher.DispatchMessage | xmsg_pubsub.h:885-912 | Every call made for a popped message goes to a subscriber its topic held when the message was popped. No subscriber is called twice. Every subscriber the topic still holds afterwards was called, and one is missing only if a handler called in the round asked for its removal. An unregistered topic gets no call. The calls are those of the round's dispatch log. The subscribers deleted are exactly the adapters its logged removals take out (`DeletedBy`), added to those deleted before. Each removal is asked for by the handler of the call running when it happens, and an `unsubscribe(key)` of that call's own topic asks for none, so the topic under dispatch loses only slots an `unsubscribe(key, ptr)` or `unsubscribe(token)` named. |
| Publisher.Publisher.DispatchNext | xmsg_pubsub.h:885-914 | Pops the front message and extends the dispatch's record by its delivery. The new log and calls begin with the old ones (`ev <= ev'`, `calls <= calls'`). The record holds for one more message, including that every subscriber the message's topic held at the start of the dispatch was called for it, unless removed by the end of its round. The subscribers deleted since the dispatch began are exactly the adapters the removals of its rounds take out. Each removal is asked for by the handler of the call running when it happens, and an `unsubscribe(key)` of that call's own topic asks for none, so the topic under dispatch loses only slots an `unsubscribe(key, ptr)` or `unsubscribe(token)` named. |
| Publisher.Publisher.PopRounds | xmsg_pubsub.h:882-915 | The outer loop pops `min(n, size())` messages and ends with the record of all its rounds. On an empty queue or a zero budget it changes nothing. The subscribers deleted during the loop are exactly the adapters its logged removals take out. Each removal is asked for by the handler of the call running when it happens, and an `unsubscribe(key)` of that call's own topic asks for none, so the topic under dispatch loses only slots an `unsubscribe(key, ptr)` or `unsubscribe(token)` named. |
| Publisher.Publisher.Dispatch | xmsg_pubsub.h:875-918 | Pops `min(n, size())` messages from the front and returns that count. The queue afterwards is the rest of the old queue, so `size()` drops by the count. On an `empty()` queue, or with `n == 0`, it returns 0 and changes nothing at all. The calls deliver the popped messages in FIFO order, each to a subscriber its topic held when the dispatch began, and no subscriber twice for one message. Every subscriber a popped message's topic held when the dispatch began was called for it, unless it was removed by the end of that message's round. Every subscriber the topic still holds at the end was called. In the log, every slot lost is logged, every removal was asked for by the handler of an earlier call, in fact by the handler of the call running when it happened, and never by an `unsubscribe(key)` of that call's topic (`RemovalsByCurrent`), and no subscriber is called for a topic after its removal from it. Each called handler is obeyed: no later call goes through a slot its requests name, and no such slot is in the final registry. The subscribers deleted are exactly the adapters its logged removals take out (`DeletedBy`), added to those deleted before. |
| Hazard.UnsubscribePtrAsWritten | xmsg_pubsub.h:747-782 | As written, the guard on the cursor pointer decides between the erase-and-advance and the plain erase. Damage to dispatch's iterators can occur only while the topic is under dispatch and the cursor pointer is null. |
| Hazard.UnsubscribeKeyAsWritten | xmsg_pubsub.h:803-815 | As written, the topic under dispatch is erased whenever the cursor pointer is null. This breaks dispatch's iterator exactly in that case. |
| Hazard.SecondSelfUnsubscribeErasesActiveSet | xmsg_pubsub.h:757-781 | A handler that unsubscribes itself twice makes the second call erase the set dispatch is iterating. |
| Hazard.SelfThenTopicUnsubscribeErasesActiveSet | xmsg_pubsub.h:809-812 | A handler that unsubscribes itself and then its topic erases the set dispatch is iterating. |
| Hazard.SelfThenNextUnsubscribeErasesIteratorTarget | xmsg_pubsub.h:757-770 | A handler that unsubscribes itself and then the next subscriber erases the element dispatch's iterator points at. |

## Left out

- Concurrency: the counter's atomicity, and any call from another thread. The source supports one thread only.
- `main.cpp`, the demonstration driver with console output and sleeps, is not part of this model.
- Handlers are modelled as lists of `unsubscribe` requests. Three kinds of handler behaviour are left out:
  - Handlers that `publish` from inside `translate`. Dispatch would then also drain the new messages.
  - Handlers that `subscribe` from inside `translate`. Inserting a topic or a subscriber can rehash the map or the set. That invalidates dispatch's `itset`/`itsub`, and the source does not guard against it.
  - Handlers that throw.
- Publisher.Publisher.IInvkSubscribe: requires that no dispatch is in progress, for the rehash reason above. The same requirement applies to `SubscribeUser` and `SubscribeAdapter`.
- Publisher.Publisher.AdapterTag: requires that the counter has not wrapped (fewer than 2^63 adapter types). After the wrap, an adapter would carry a tag below the base and the registry would never delete it.
- Publisher.Publisher.SubscribeAdapter: carries the same no-wrap requirement as AdapterTag, for the same reason.
- The handler logic of user subscribers, and the callables and their return values: only the arguments they receive are modelled.
- The `std::invoke`/`std::bind` machinery, tuple decay, and the compile-time arity checks of `publish(key, args...)`.
- The `#if 0` code in the base subscriber.
- Reference counting inside `shared_ptr`/`weak_ptr` and pointer hashing: control blocks are numbered, and identity is equality of `SubId`.
- The iteration order of the unordered containers: the model fixes one order per set (insertion order in the sequence). Every property holds for any order.
- The static members (`sub_type_seqno`, each type's `sub_type_value`) are fields of the one publisher modelled. In the source they are shared by all publishers with the same template arguments.
- The destructor is not modelled. Destroying the publisher destroys `m_xmap_suber`, so the checking deleter deletes every adapter still registered and every outstanding token expires. The deleted copy and move operations have nothing to model.
- Publisher.Publisher.Dispatch: a handler is fixed per subscriber for the whole call (the `handlers` map), so what it does cannot depend on the message it is delivered.
- Publisher.Publisher.Dispatch: requires that no dispatch is in progress, so a handler that calls `dispatch()` again is not modelled.
- Publisher.Publisher.Dispatch: the handler-obedience clause covers `unsubscribe(key, ptr)` and `unsubscribe(token)` requests. An `unsubscribe(key)` request is covered only through the log: its removals are logged and asked for, it removes nothing from the topic under dispatch, and no call follows a logged removal.
- Publisher.Publisher.ObeyRequest: states the effect of one request only through the clauses a handler call builds on. These are: the registry shrinks, every lost slot is logged, every removal is asked for, no named slot is left, and the deleted subscribers are the adapters the logged removals take out. The iterator position and the exact new registry are stated by RunRequest's contract. They are kept out of the handler loop so that its proof stays small.
- Publisher.Publisher.Dispatch: the default argument `(size_t)-1` is not modelled; a caller passes `SIZE_MAX` for "no limit".

## Findings

| source | as written | input that shows it | evidently intended | confidence | as-written member | corrected member |
|---|---|---|---|---|---|---|
| xmsg_pubsub.h:757-758, 776-777 | "The topic is under dispatch" is tested as `m_iter_suber.second != nullptr`. After a handler removes itself, the pointer is null while dispatch still iterates the set, so `unsubscribe(key, ptr)` erases the emptied set. | Topic 100 holds only A. During A's delivery, A's handler calls `unsubscribe(100, A)` twice. The second call erases topic 100, and dispatch then uses `itset` and `itsub` into the freed set. | Defer the erase whenever the topic is the one dispatch is iterating, whether or not the cursor pointer is set. | not executed | Hazard.SecondSelfUnsubscribeErasesActiveSet | Registry.EraseKeepsCursor |
| xmsg_pubsub.h:809-810 | `unsubscribe(key)` skips the active topic only while the cursor pointer is set. | Topic 100 holds only A. During A's delivery, A's handler calls `unsubscribe(100, A)` and then `unsubscribe(100)`. Topic 100 is erased under dispatch. | Leave the topic alone whenever dispatch is iterating it. | not executed | Hazard.SelfThenTopicUnsubscribeErasesActiveSet | Registry.DropKeepsCursor |
| xmsg_pubsub.h:757-770 | With the cursor pointer null, erasing the element that `itsub` now points at takes the plain-erase path and leaves `itsub` dangling. | Topic 100 holds A then B. During A's delivery, A's handler calls `unsubscribe(100, A)`, which moves `itsub` to B, and then `unsubscribe(100, B)`. B's node is erased under `itsub`. | Erase the element under `itsub` by `erase(itsub++)` whenever the topic is under dispatch. | not executed | Hazard.SelfThenNextUnsubscribeErasesIteratorTarget | Publisher.Publisher.UnsubscribePtr |
