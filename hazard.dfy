/** The two `unsubscribe` overloads exactly as `xmsg_publisher_t` writes
    them, whose test for "this topic is under dispatch" looks at the
    cursor pointer `m_iter_suber.second` rather than at the topic. Once a
    handler has removed itself, that pointer is null while dispatch is
    still iterating the topic's set, and a further unsubscribe from the
    same handler can destroy the set, or the element, that dispatch's own
    iterators point into. The publisher class models the corrected test. */
module Hazard {
  import opened Message
  import opened Subscription

  /** `m_iter_suber` together with the dispatch loop it points into:
      whether dispatch is iterating, the topic (`first`), whether the
      cursor pointer is set (`second != nullptr`), and the position of
      dispatch's `itsub` in the topic's set. */
  datatype Cursor = Cursor(iterating: bool, key: Key, live: bool, pos: nat)

  /** The registry and cursor after a call, and whether the call left
      dispatch's `itset` or `itsub` pointing at something it erased. */
  datatype Step = Step(subs: map<Key, seq<Entry>>, cur: Cursor, breaks: bool)

  /** `unsubscribe(key, ptr)` as written: the in-step erase-and-advance
      only while the cursor pointer is set; otherwise a plain erase, and
      the topic is erased when its set is empty unless the cursor pointer
      is set for that topic. */
  function UnsubscribePtrAsWritten(subs: map<Key, seq<Entry>>, c: Cursor, key: Key, sub: SubId): (r: Step)
    ensures key !in subs ==> r == Step(subs, c, false)
    ensures key in subs && c.live && key == c.key && c.pos < |subs[key]| && subs[key][c.pos].sub == sub ==>
      !r.breaks && key in r.subs && !r.cur.live
    ensures r.breaks ==> c.iterating && key == c.key && !c.live
  {
    if key !in subs then Step(subs, c, false)
    else
      var s := subs[key];
      if c.live && key == c.key && c.pos < |s| && s[c.pos].sub == sub then
        // erase(itsub++) and clear the cursor pointer
        Step(subs[key := RemoveAt(s, c.pos)], c.(live := false), false)
      else
        var under := c.iterating && key == c.key;
        // a plain erase of the element `itsub` points at invalidates it
        var hitsIter := under && c.pos < |s| && s[c.pos].sub == sub;
        var rest := Erase(s, sub);
        var pos' := if under && HasSub(s, sub) && IndexOf(s, sub) < c.pos then c.pos - 1 else c.pos;
        var dropped := rest == [] && !(c.live && key == c.key);
        var subs' := if dropped then subs - {key} else subs[key := rest];
        Step(subs', c.(pos := pos'), hitsIter || (dropped && under))
  }

  /** `unsubscribe(key)` as written: the topic is erased unless the cursor
      pointer is set for it. */
  function UnsubscribeKeyAsWritten(subs: map<Key, seq<Entry>>, c: Cursor, key: Key): (r: Step)
    ensures key in subs && !(c.live && key == c.key) ==> key !in r.subs
    ensures r.breaks <==> key in subs && c.iterating && key == c.key && !c.live
  {
    if key in subs && !(c.live && key == c.key) then
      Step(subs - {key}, c, c.iterating && key == c.key)
    else
      Step(subs, c, false)
  }

  /** Two user subscribers. */
  const A: SubId := User(1)
  const B: SubId := User(2)

  /** Topic 100 holds only A, and dispatch is delivering to A (the cursor
      pointer is set and stands on A). A's handler unsubscribes itself by
      pointer twice. The first call takes the cursor path and leaves the
      now empty set in place for dispatch; the second finds the cursor
      pointer null, erases the topic, and so frees the set dispatch is
      still iterating. */
  lemma SecondSelfUnsubscribeErasesActiveSet()
    ensures var subs := map[100 := [Entry(A, 0)]];
      var c := Cursor(true, 100, true, 0);
      var first := UnsubscribePtrAsWritten(subs, c, 100, A);
      var second := UnsubscribePtrAsWritten(first.subs, first.cur, 100, A);
      && !first.breaks && 100 in first.subs && first.subs[100] == []
      && second.breaks && 100 !in second.subs && second.cur.iterating
  {
    var subs := map[100 := [Entry(A, 0)]];
    var first := UnsubscribePtrAsWritten(subs, Cursor(true, 100, true, 0), 100, A);
    assert first.subs[100] == RemoveAt([Entry(A, 0)], 0);
    assert !HasSub(first.subs[100], A);
  }

  /** A's handler unsubscribes itself, then unsubscribes the whole topic:
      the topic guard sees a null cursor pointer and erases the set
      dispatch is iterating. */
  lemma SelfThenTopicUnsubscribeErasesActiveSet()
    ensures var subs := map[100 := [Entry(A, 0)]];
      var c := Cursor(true, 100, true, 0);
      var first := UnsubscribePtrAsWritten(subs, c, 100, A);
      var second := UnsubscribeKeyAsWritten(first.subs, first.cur, 100);
      && !first.breaks && second.breaks && 100 !in second.subs
  {
  }

  /** Topic 100 holds A then B. A's handler unsubscribes itself (the
      iterator moves on to B), then unsubscribes B: the plain erase removes
      the very element dispatch's iterator now points at. */
  lemma SelfThenNextUnsubscribeErasesIteratorTarget()
    ensures var subs := map[100 := [Entry(A, 0), Entry(B, 1)]];
      var c := Cursor(true, 100, true, 0);
      var first := UnsubscribePtrAsWritten(subs, c, 100, A);
      var second := UnsubscribePtrAsWritten(first.subs, first.cur, 100, B);
      && !first.breaks && first.subs[100][first.cur.pos].sub == B
      && second.breaks
  {
    var first := UnsubscribePtrAsWritten(map[100 := [Entry(A, 0), Entry(B, 1)]], Cursor(true, 100, true, 0), 100, A);
    assert first.subs[100] == RemoveAt([Entry(A, 0), Entry(B, 1)], 0);
  }
}
