/** What the other modules share: optional values, sequences without repetition, sizes of sets and searching in a text. */
module Sequences {
  datatype Option<+T> = None | Some(value: T)

  ghost predicate NoRepeats<T>(s: seq<T>) { forall i, j :: 0 <= i < j < |s| ==> s[i] != s[j] }

  /** `steps` lead from each of `states` to the next. */
  ghost predicate Chain<S(!new), T(!new)>(states: seq<S>, steps: seq<T>, leads: (S, T, S) -> bool) {
    |states| == |steps| + 1 && forall i {:trigger steps[i]} :: 0 <= i < |steps| ==> leads(states[i], steps[i], states[i + 1])
  }

  lemma ChainOn<S(!new), T(!new)>(states: seq<S>, steps: seq<T>, leads: (S, T, S) -> bool, t: T, s: S)
    requires Chain(states, steps, leads) && leads(states[|steps|], t, s)
    ensures Chain(states + [s], steps + [t], leads) && (states + [s])[0] == states[0] && (states + [s])[|steps| + 1] == s
  {}

  lemma Prefixes<T>(s: seq<T>, i: nat)
    requires i < |s|
    ensures s[..i + 1][..i] == s[..i] && s[..i + 1][i] == s[i] && |s[..i + 1]| == i + 1
  {}

  /** `picked` are the elements of `s` at the positions `at`, in their order, which are those where `wanted` holds. */
  ghost predicate Picks<T(!new)>(s: seq<T>, picked: seq<T>, at: seq<nat>, wanted: T -> bool) {
    && |at| == |picked| && (forall j, k :: 0 <= j < k < |at| ==> at[j] < at[k])
    && (forall k :: 0 <= k < |at| ==> at[k] < |s| && picked[k] == s[at[k]] && wanted(picked[k]))
    && forall i :: 0 <= i < |s| && wanted(s[i]) ==> i in at
  }

  lemma PicksMore<T(!new)>(s: seq<T>, picked: seq<T>, at: seq<nat>, wanted: T -> bool) returns (more: seq<nat>)
    requires s != [] && Picks(s[1..], picked, at, wanted)
    ensures Picks(s, (if wanted(s[0]) then [s[0]] else []) + picked, more, wanted)
  {
    more := seq(|at|, k requires 0 <= k < |at| => at[k] + 1);
    PicksShifted(s, picked, at, wanted, more);
    if wanted(s[0]) {
      PicksFirst(s, picked, more, wanted);
      more := [0] + more;
    } else {
      assert [] + picked == picked;
    }
  }

  /** As `Picks`, but for the first of `s`. */
  ghost predicate PicksLater<T(!new)>(s: seq<T>, picked: seq<T>, at: seq<nat>, wanted: T -> bool) {
    && |at| == |picked| && (forall j, k :: 0 <= j < k < |at| ==> at[j] < at[k])
    && (forall k :: 0 <= k < |at| ==> 0 < at[k] < |s| && picked[k] == s[at[k]] && wanted(picked[k]))
    && forall i :: 0 < i < |s| && wanted(s[i]) ==> i in at
  }

  lemma PicksShifted<T(!new)>(s: seq<T>, picked: seq<T>, at: seq<nat>, wanted: T -> bool, more: seq<nat>)
    requires s != [] && Picks(s[1..], picked, at, wanted)
    requires |more| == |at| && forall k :: 0 <= k < |at| ==> more[k] == at[k] + 1
    ensures PicksLater(s, picked, more, wanted)
  {
    forall i | 0 < i < |s| && wanted(s[i]) ensures i in more {
      assert s[1..][i - 1] == s[i];
      var k :| 0 <= k < |at| && at[k] == i - 1;
      assert more[k] == i;
    }
  }

  lemma PicksFirst<T(!new)>(s: seq<T>, picked: seq<T>, at: seq<nat>, wanted: T -> bool)
    requires s != [] && PicksLater(s, picked, at, wanted) && wanted(s[0])
    ensures Picks(s, [s[0]] + picked, [0] + at, wanted)
  {
    var all := [0] + at;
    forall i | 0 <= i < |s| && wanted(s[i]) ensures i in all {
      if i == 0 {
        assert all[0] == 0;
      } else {
        var k :| 0 <= k < |at| && at[k] == i;
        assert all[k + 1] == i;
      }
    }
  }

  lemma PicksSnoc<T(!new)>(s: seq<T>, picked: seq<T>, at: seq<nat>, wanted: T -> bool) returns (more: seq<nat>)
    requires s != [] && Picks(s[..|s| - 1], picked, at, wanted)
    ensures Picks(s, picked + (if wanted(s[|s| - 1]) then [s[|s| - 1]] else []), more, wanted)
  {
    var n := |s| - 1;
    if wanted(s[n]) {
      more := at + [n];
      assert more[|at|] == n;
      forall i | 0 <= i < n && wanted(s[i]) ensures i in more { assert s[..n][i] == s[i] && i in at; }
    } else {
      more := at;
      assert picked + [] == picked;
      forall i | 0 <= i < n && wanted(s[i]) ensures i in more { assert s[..n][i] == s[i]; }
    }
  }

  lemma {:induction false} SubsetSize<T>(a: set<T>, b: set<T>)
    requires a <= b
    ensures |a| <= |b|
  {
    if a != {} {
      var x :| x in a;
      SubsetSize(a - {x}, b - {x});
    }
  }

  lemma DisjointSize<T>(a: set<T>, b: set<T>)
    requires a !! b
    ensures |a + b| == |a| + |b|
  {}

  /** The first position of `c` at or after `from`, `|s|` if there is none. */
  function Find(s: string, c: char, from: nat): (k: nat)
    requires from <= |s|
    ensures from <= k <= |s| && (k < |s| ==> s[k] == c)
    decreases |s| - from
  {
    if from == |s| || s[from] == c then from else Find(s, c, from + 1)
  }

  lemma {:induction false} FindIsFirst(s: string, c: char, from: nat)
    requires from <= |s|
    ensures forall i :: from <= i < Find(s, c, from) ==> s[i] != c
    decreases |s| - from
  {
    if from < |s| && s[from] != c { FindIsFirst(s, c, from + 1); }
  }

  method FindFirstOf(s: string, c: char, from: nat) returns (k: nat)
    requires from <= |s|
    ensures k == Find(s, c, from) && forall i :: from <= i < k ==> s[i] != c
  {
    k := from;
    while k < |s| && s[k] != c
      invariant from <= k <= |s| && Find(s, c, from) == Find(s, c, k) && forall i :: from <= i < k ==> s[i] != c
    {
      k := k + 1;
    }
  }
}
