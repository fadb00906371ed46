/** Taking some elements of a list in their order, and joining lists. */
module Selections {

  /** `chosen` are the elements of `all` at the given positions, in order. */
  predicate ChosenAt<T(==)>(all: seq<T>, chosen: seq<T>, at: seq<nat>) {
    && |at| == |chosen| && (forall i, j | 0 <= i < j < |at| :: at[i] < at[j])
    && forall i | 0 <= i < |at| :: at[i] < |all| && chosen[i] == all[at[i]]
  }

  /** Exactly the elements at the positions to keep, in their order. */
  ghost predicate SelectsAt<T>(all: seq<T>, chosen: seq<T>, keep: int -> bool) {
    exists at :: ChosenAt(all, chosen, at) && forall i: nat | i < |all| :: i in at <==> keep(i)
  }

  /** Exactly the elements to keep, in their order, as often as they occur. */
  ghost predicate Selects<T>(all: seq<T>, chosen: seq<T>, keep: T -> bool) {
    exists at :: ChosenAt(all, chosen, at) && forall i: nat | i < |all| :: i in at <==> keep(all[i])
  }

  lemma SelectsIs<T>(all: seq<T>, chosen: seq<T>, keep: T -> bool, positions: int -> bool)
    requires forall i: nat | i < |all| :: positions(i) == keep(all[i])
    ensures Selects(all, chosen, keep) <==> SelectsAt(all, chosen, positions)
  {
    hide ChosenAt;
    if at :| ChosenAt(all, chosen, at) && forall i: nat | i < |all| :: i in at <==> keep(all[i]) {
      assert forall i: nat | i < |all| :: i in at <==> positions(i);
    }
    if at :| ChosenAt(all, chosen, at) && forall i: nat | i < |all| :: i in at <==> positions(i) {
      assert forall i: nat | i < |all| :: i in at <==> keep(all[i]);
    }
  }

  lemma SelectsNothing<T>(keep: T -> bool)
    ensures Selects([], [], keep)
  {
    assert ChosenAt<T>([], [], []);
  }

  lemma SelectsNoneAt<T>(keep: int -> bool)
    ensures SelectsAt<T>([], [], keep)
  {
    assert ChosenAt<T>([], [], []);
  }

  // ---- one more element ----

  function Moved(at: seq<nat>): (moved: seq<nat>)
    ensures |moved| == |at| && forall i | 0 <= i < |at| :: moved[i] == at[i] + 1
  {
    seq(|at|, i requires 0 <= i < |at| => at[i] + 1)
  }

  lemma MovedHolds(at: seq<nat>, i: nat)
    ensures i + 1 in Moved(at) <==> i in at
    ensures 0 !in Moved(at)
  {
    if i in at { var j :| 0 <= j < |at| && at[j] == i; assert Moved(at)[j] == i + 1; }
    if i + 1 in Moved(at) { var j :| 0 <= j < |at| && Moved(at)[j] == i + 1; assert at[j] == i; }
  }

  lemma ChosenMoved<T>(x: T, rest: seq<T>, chosen: seq<T>, at: seq<nat>)
    requires ChosenAt(rest, chosen, at)
    ensures ChosenAt([x] + rest, chosen, Moved(at)) && ChosenAt([x] + rest, [x] + chosen, [0] + Moved(at))
  {
    var all := [x] + rest;
    forall i | 0 <= i < |at| ensures all[at[i] + 1] == chosen[i] { }
    var more := [0] + Moved(at);
    forall i, j | 0 <= i < j < |more| ensures more[i] < more[j] {
      assert more[j] == Moved(at)[j - 1] == at[j - 1] + 1;
      if i > 0 { assert more[i] == Moved(at)[i - 1] == at[i - 1] + 1 && at[i - 1] < at[j - 1]; }
    }
    forall i | 0 <= i < |more| ensures more[i] < |all| && ([x] + chosen)[i] == all[more[i]] {
      if i > 0 { assert more[i] == at[i - 1] + 1; }
    }
  }

  /** The same positions one place later, and the first one as well if asked for. */
  function Fronted(first: bool, at: seq<nat>): seq<nat> { if first then [0] + Moved(at) else Moved(at) }

  lemma FrontedHolds(first: bool, at: seq<nat>)
    ensures 0 in Fronted(first, at) <==> first
    ensures forall i: nat :: i + 1 in Fronted(first, at) <==> i in at
  {
    forall i: nat ensures i + 1 in Fronted(first, at) <==> i in at { MovedHolds(at, i); }
    MovedHolds(at, 0);
  }

  lemma ChosenFronted<T>(x: T, rest: seq<T>, chosen: seq<T>, at: seq<nat>, first: bool)
    requires ChosenAt(rest, chosen, at)
    ensures ChosenAt([x] + rest, (if first then [x] else []) + chosen, Fronted(first, at))
  {
    ChosenMoved(x, rest, chosen, at);
    hide ChosenAt, Moved;
    assert [] + chosen == chosen;
  }

  /** One more element at the front. */
  lemma SelectsFirstAt<T>(x: T, rest: seq<T>, chosen: seq<T>, later: int -> bool, keep: int -> bool)
    requires SelectsAt(rest, chosen, later) && forall i: nat | i < |rest| :: keep(i + 1) == later(i)
    ensures SelectsAt([x] + rest, (if keep(0) then [x] else []) + chosen, keep)
  {
    hide ChosenAt, Fronted, Moved;
    var at: seq<nat> :| ChosenAt(rest, chosen, at) && forall i: nat | i < |rest| :: i in at <==> later(i);
    ChosenFronted(x, rest, chosen, at, keep(0));
    var more := Fronted(keep(0), at);
    FrontedHolds(keep(0), at);
    forall i: nat | i < |[x] + rest| ensures i in more <==> keep(i) {
      if i > 0 { assert (i - 1) + 1 in more <==> i - 1 in at; assert keep((i - 1) + 1) == later(i - 1); }
    }
  }

  lemma SelectsFirst<T>(x: T, rest: seq<T>, chosen: seq<T>, keep: T -> bool)
    requires Selects(rest, chosen, keep)
    ensures Selects([x] + rest, (if keep(x) then [x] else []) + chosen, keep)
  {
    hide ChosenAt, Fronted, Moved;
    var all := [x] + rest;
    var at: seq<nat> :| ChosenAt(rest, chosen, at) && forall i: nat | i < |rest| :: i in at <==> keep(rest[i]);
    ChosenFronted(x, rest, chosen, at, keep(x));
    var more := Fronted(keep(x), at);
    FrontedHolds(keep(x), at);
    forall i: nat | i < |all| ensures i in more <==> keep(all[i]) {
      if i > 0 { assert (i - 1) + 1 in more <==> i - 1 in at; assert all[i] == rest[i - 1]; }
    }
  }

  lemma ChosenAtEnd<T>(all: seq<T>, chosen: seq<T>, at: seq<nat>, x: T)
    requires ChosenAt(all, chosen, at)
    ensures ChosenAt(all + [x], chosen, at) && ChosenAt(all + [x], chosen + [x], at + [|all|])
    ensures |all| !in at
  {
  }

  /** The same positions, and the last one as well if asked for. */
  function Extended(last: bool, at: seq<nat>, n: nat): seq<nat> { if last then at + [n] else at }

  lemma ExtendedHolds(last: bool, at: seq<nat>, n: nat, i: nat)
    ensures i in Extended(last, at, n) <==> i in at || (last && i == n)
  {
  }

  /** One more element at the end. */
  lemma SelectsMore<T>(all: seq<T>, chosen: seq<T>, keep: T -> bool, x: T)
    requires Selects(all, chosen, keep)
    ensures Selects(all + [x], if keep(x) then chosen + [x] else chosen, keep)
  {
    var at: seq<nat> :| ChosenAt(all, chosen, at) && forall i: nat | i < |all| :: i in at <==> keep(all[i]);
    ChosenAtEnd(all, chosen, at, x);
    var more := Extended(keep(x), at, |all|);
    assert ChosenAt(all + [x], if keep(x) then chosen + [x] else chosen, more);
    hide ChosenAt, Extended;
    forall i: nat | i < |all + [x]| ensures i in more <==> keep((all + [x])[i]) {
      ExtendedHolds(keep(x), at, |all|, i);
      if i < |all| { assert (all + [x])[i] == all[i]; }
    }
  }

  lemma SelectedAre<T>(all: seq<T>, chosen: seq<T>, keep: T -> bool)
    requires Selects(all, chosen, keep)
    ensures forall x :: x in chosen <==> x in all && keep(x)
  {
    var at: seq<nat> :| ChosenAt(all, chosen, at) && forall i: nat | i < |all| :: i in at <==> keep(all[i]);
    forall x ensures x in chosen <==> x in all && keep(x) {
      if x in chosen { var i :| 0 <= i < |chosen| && chosen[i] == x; assert at[i] in at; }
      if x in all && keep(x) { var i: nat :| i < |all| && all[i] == x; assert i in at; var j :| 0 <= j < |at| && at[j] == i; assert chosen[j] == x; }
    }
  }

  function Joined<T>(parts: seq<seq<T>>): seq<T> {
    if parts == [] then [] else Joined(parts[..|parts| - 1]) + parts[|parts| - 1]
  }

  lemma {:induction false} JoinedHolds<T>(parts: seq<seq<T>>, x: T)
    ensures x in Joined(parts) <==> exists i :: 0 <= i < |parts| && x in parts[i]
  {
    if parts != [] {
      var n := |parts| - 1;
      var early := parts[..n];
      JoinedHolds(early, x);
      assert forall i | 0 <= i < n :: early[i] == parts[i];
      assert x in Joined(parts) <==> x in Joined(early) || x in parts[n];
    }
  }
}
