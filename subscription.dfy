/** Subscriber identities, the slots of a topic's subscriber set, and the
    subscription token that refers to a slot without owning it. */
module Subscription {
  import opened Message

  /** The identity (the raw pointer) of a subscriber object: a user
      subscriber owned by its caller, or an adapter the publisher created,
      numbered by the control block it was registered with. */
  datatype SubId = User(id: nat) | Adapter(id: nat)

  /** One element of a topic's `unordered_set`: the subscriber pointer and
      the control block of the `shared_ptr` that holds it. */
  datatype Entry = Entry(sub: SubId, block: nat)

  /** A `weak_ptr`: empty, or observing control block `block`, which
      stores the pointer `target`. */
  datatype WeakRef = NoRef | Ref(block: nat, target: SubId)

  /** `x_subkey_t`: the topic key and the weak reference. */
  datatype Token = Token(mkey: Key, wref: WeakRef)

  /** `x_subkey_t()`: the token an unsuccessful subscribe returns. */
  const EmptyToken: Token := Token(DefaultKey, NoRef)

  /** A topic's subscriber set in the model: a sequence whose order is the
      set's iteration order, holding each identity at most once
      (`x_equal_t` compares the stored pointers). */
  ghost predicate IdentityUnique(s: seq<Entry>)
  {
    forall i, j :: 0 <= i < j < |s| ==> s[i].sub != s[j].sub
  }

  /** The set holds a slot for identity `sub`. */
  predicate HasSub(s: seq<Entry>, sub: SubId)
  {
    exists i :: 0 <= i < |s| && s[i].sub == sub
  }

  /** The position of identity `sub`: the first slot that holds it. */
  function IndexOf(s: seq<Entry>, sub: SubId): (k: nat)
    requires HasSub(s, sub)
    ensures k < |s| && s[k].sub == sub
    ensures forall j :: 0 <= j < k ==> s[j].sub != sub
  {
    if s[0].sub == sub then 0
    else
      assert HasSub(s[1..], sub) by {
        var i :| 0 <= i < |s| && s[i].sub == sub;
        assert s[1..][i - 1].sub == sub;
      }
      1 + IndexOf(s[1..], sub)
  }

  /** The set without the slot at position `k`, the others keeping their
      relative order (erasing one element of an `unordered_set` leaves the
      iteration order of the rest undisturbed). */
  function RemoveAt(s: seq<Entry>, k: nat): (r: seq<Entry>)
    requires k < |s|
    ensures |r| == |s| - 1
    ensures forall j {:trigger r[j]} :: 0 <= j < k ==> r[j] == s[j]
    ensures forall j {:trigger r[j]} :: k <= j < |r| ==> r[j] == s[j + 1]
  {
    s[..k] + s[k + 1..]
  }

  /** `x_subset_t::erase` by value: removes the slot holding identity
      `sub`, if there is one. */
  function Erase(s: seq<Entry>, sub: SubId): (r: seq<Entry>)
  {
    if HasSub(s, sub) then RemoveAt(s, IndexOf(s, sub)) else s
  }

  /** Erasing by identity keeps the set identity-unique, removes that
      identity and no other, removes one slot when the identity was present
      and none otherwise, and never adds a slot. */
  lemma {:induction false} EraseRemovesIdentity(s: seq<Entry>, sub: SubId)
    requires IdentityUnique(s)
    ensures IdentityUnique(Erase(s, sub))
    ensures !HasSub(Erase(s, sub), sub)
    ensures forall x :: x != sub ==> (HasSub(Erase(s, sub), x) <==> HasSub(s, x))
    ensures |Erase(s, sub)| == if HasSub(s, sub) then |s| - 1 else |s|
    ensures forall e :: e in Erase(s, sub) ==> e in s
  {
    if HasSub(s, sub) {
      var k := IndexOf(s, sub);
      var r := RemoveAt(s, k);
      assert r == Erase(s, sub);
      forall x | x != sub
        ensures HasSub(r, x) <==> HasSub(s, x)
      {
        if HasSub(s, x) {
          var i :| 0 <= i < |s| && s[i].sub == x;
          assert i != k;
          if i < k { assert r[i].sub == x; } else { assert r[i - 1].sub == x; }
        }
        if HasSub(r, x) {
          var i :| 0 <= i < |r| && r[i].sub == x;
          if i < k { assert s[i].sub == x; } else { assert s[i + 1].sub == x; }
        }
      }
      forall i | 0 <= i < |r| ensures r[i].sub != sub {
        if i < k { assert r[i] == s[i]; } else { assert r[i] == s[i + 1]; }
      }
      forall e | e in r ensures e in s {
        var i :| 0 <= i < |r| && r[i] == e;
        if i < k { assert s[i] == e; } else { assert s[i + 1] == e; }
      }
    }
  }

  /** The control block `block` is held by some slot of the registry,
      that is, a weak reference to it has not expired. */
  predicate BlockLive(subs: map<Key, seq<Entry>>, block: nat)
  {
    exists k :: k in subs && exists e :: e in subs[k] && e.block == block
  }

  /** `x_subkey_t::is_valid` (and its `operator bool`): the weak reference
      has not expired. The empty token is never valid. */
  predicate TokenValid(subs: map<Key, seq<Entry>>, t: Token)
  {
    t.wref.Ref? && BlockLive(subs, t.wref.block)
  }

  /** `next` arises from `prev` by erasing slots and topics only: every
      topic of `next` is a topic of `prev` and every slot it holds was
      already there. */
  ghost predicate Shrinks(prev: map<Key, seq<Entry>>, next: map<Key, seq<Entry>>)
  {
    forall k :: k in next ==> k in prev && forall e :: e in next[k] ==> e in prev[k]
  }

  /** Once expired, a weak reference stays expired across any sequence of
      removals; the same holds for the tokens that carry it. */
  lemma {:induction false} ExpiredStaysExpired(prev: map<Key, seq<Entry>>, next: map<Key, seq<Entry>>, t: Token)
    requires Shrinks(prev, next)
    requires !TokenValid(prev, t)
    ensures !TokenValid(next, t)
  {
    if t.wref.Ref? {
      forall k, e | k in next && e in next[k] ensures e.block != t.wref.block {
        assert e in prev[k];
      }
    }
  }

  /** A request a handler issues while it is delivered a message: one of
      the three `unsubscribe` overloads. */
  datatype Request =
    | ByToken(token: Token)          // unsubscribe(const x_subkey_t &)
    | ByPtr(mkey: Key, sub: SubId)   // unsubscribe(key, subscriber pointer)
    | ByKey(mkey: Key)               // unsubscribe(key)

  /** One call of a subscriber's `translate` during dispatch: the position
      of the message in the queue at the start of the dispatch call, the
      message, the subscriber, and the arguments its handler receives. */
  datatype Delivery = Delivery(seqNo: nat, msg: Context, sub: SubId, callArgs: seq<Arg>)
}
