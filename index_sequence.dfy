/** The compile-time index sequence builder and the argument order an
    adapter subscriber uses when it calls its callable. */
module IndexSequence {

  /** `xbuild_index_sequence_t<n, xindex_sequence_t<acc...>>`: each step
      appends the current length of the accumulated indexes and counts `n`
      down; at 0 the accumulated sequence is the result. */
  function Build(n: nat, acc: seq<nat>): seq<nat>
    decreases n
  {
    if n == 0 then acc else Build(n - 1, acc + [|acc|])
  }

  /** `s` is 0, 1, ..., |s| - 1. */
  ghost predicate IsIota(s: seq<nat>)
  {
    forall i :: 0 <= i < |s| ==> s[i] == i
  }

  /** Building from an accumulator that is already 0 .. |acc| - 1 extends it
      by exactly `n` further consecutive indexes. */
  lemma {:induction false} BuildExtendsIota(n: nat, acc: seq<nat>)
    requires IsIota(acc)
    ensures |Build(n, acc)| == |acc| + n
    ensures IsIota(Build(n, acc))
    decreases n
  {
    if n > 0 {
      var next := acc + [|acc|];
      assert IsIota(next);
      BuildExtendsIota(n - 1, next);
    }
  }

  /** `xbuild_index_sequence_t<n>::type`: the indexes 0 .. n - 1. */
  function Indexes(n: nat): (r: seq<nat>)
    ensures |r| == n
    ensures IsIota(r)
  {
    BuildExtendsIota(n, []);
    Build(n, [])
  }

  /** `x_subinvoke_t::sub_invoke`: the callable receives the bound
      arguments, expanded through their index sequence, followed by the
      message arguments, expanded through theirs. Whatever the arities,
      that is the bound arguments first and the message arguments after. */
  function InvokeArgs<T>(bound: seq<T>, args: seq<T>): (r: seq<T>)
    ensures |r| == |bound| + |args|
    ensures r[..|bound|] == bound
    ensures r[|bound|..] == args
  {
    var bi := Indexes(|bound|);
    var ai := Indexes(|args|);
    seq(|bi|, i requires 0 <= i < |bi| => bound[bi[i]]) +
    seq(|ai|, i requires 0 <= i < |ai| => args[ai[i]])
  }
}
