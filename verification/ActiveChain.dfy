/**
 The active chain: a vector with one slot per height, set by naming a tip.  Finding the fork with
 another branch and listing a block locator only read it.
 */
module ActiveChain {
  import opened Wrappers
  import opened Arithmetic
  import opened BlockTree

  type Slots = seq<Option<nat>>

  /** Slot `h` holds an entry of height `h` whose parent is in the slot below. */
  ghost predicate IsBranch(ns: seq<Node>, c: Slots) {
    WellFormed(ns) && forall h | 0 <= h < |c| :: BranchAt(ns, c, h)
  }

  ghost predicate BranchAt(ns: seq<Node>, c: Slots, h: nat)
    requires h < |c|
  {
    && c[h].Some? && c[h].value < |ns| && ns[c[h].value].height == h
    && (h > 0 ==> ns[c[h].value].prev == c[h - 1])
  }

  /** Slot `h` holds the tip's ancestor at height `h`. */
  ghost predicate Shows(ns: seq<Node>, c: Slots, tip: nat)
    requires WellFormed(ns) && tip < |ns|
  {
    |c| == ns[tip].height + 1 && forall h | 0 <= h < |c| :: c[h] == Some(Walk(ns, tip, h))
  }

  function Slot(c: Slots, h: int): Option<nat> {
    if h < 0 || h >= |c| then None else c[h]
  }

  function TipOf(c: Slots): Option<nat> {
    if c == [] then None else c[|c| - 1]
  }

  predicate Contains(ns: seq<Node>, c: Slots, i: nat)
    requires i < |ns|
  {
    Slot(c, ns[i].height) == Some(i)
  }

  // ----- the two descriptions agree

  lemma {:induction false} BranchWalk(ns: seq<Node>, c: Slots, g: nat, h: nat)
    requires IsBranch(ns, c) && h <= g < |c|
    ensures BranchAt(ns, c, g) && Some(Walk(ns, c[g].value, h)) == c[h]
  {
    assert BranchAt(ns, c, g);
    if h < g {
      BranchWalk(ns, c, g - 1, h);
    }
  }

  lemma BranchShows(ns: seq<Node>, c: Slots)
    requires IsBranch(ns, c) && c != []
    ensures BranchAt(ns, c, |c| - 1) && Shows(ns, c, c[|c| - 1].value)
  {
    assert BranchAt(ns, c, |c| - 1);
    forall h | 0 <= h < |c| ensures c[h] == Some(Walk(ns, c[|c| - 1].value, h)) {
      BranchWalk(ns, c, |c| - 1, h);
    }
  }

  lemma ShowsBranch(ns: seq<Node>, c: Slots, tip: nat)
    requires WellFormed(ns) && tip < |ns| && Shows(ns, c, tip)
    ensures IsBranch(ns, c)
  {
    forall h | 0 <= h < |c| ensures BranchAt(ns, c, h) {
      WalkHeight(ns, tip, h);
      if h > 0 {
        WalkOn(ns, tip, h, h - 1);
        var a := Walk(ns, tip, h);
        assert NodeOk(ns, a);
        assert Walk(ns, a, h - 1) == ns[a].prev.value;
      }
    }
  }

  /** What the chain contains is exactly the tip and its ancestors. */
  lemma ContainsExact(ns: seq<Node>, c: Slots, tip: nat, i: nat)
    requires WellFormed(ns) && tip < |ns| && Shows(ns, c, tip) && i < |ns|
    ensures Contains(ns, c, i) <==> ns[i].height <= ns[tip].height && Walk(ns, tip, ns[i].height) == i
  {
  }

  /** The ancestors of an entry of the chain are in the chain. */
  lemma ContainsBelow(ns: seq<Node>, c: Slots, i: nat, h: nat)
    requires IsBranch(ns, c) && i < |ns| && Contains(ns, c, i) && h <= ns[i].height
    ensures Some(Walk(ns, i, h)) == Slot(c, h)
  {
    BranchWalk(ns, c, ns[i].height, h);
  }

  lemma BranchGrown(ns: seq<Node>, ms: seq<Node>, c: Slots)
    requires IsBranch(ns, c) && WellFormed(ms) && Grown(ns, ms)
    ensures IsBranch(ms, c)
  {
    forall h | 0 <= h < |c| ensures BranchAt(ms, c, h) {
      assert BranchAt(ns, c, h);
    }
  }

  // ----- the locator

  /** The height of entry `k` of a locator that starts at height `top`. */
  function LocatorHeight(top: nat, k: nat): int {
    if k <= 11 then top - k else top - 9 - Pow(2, k - 10)
  }

  function StepAt(k: nat): nat {
    if k <= 10 then 1 else Pow(2, k - 10)
  }

  lemma LocatorStep(top: nat, k: nat)
    ensures LocatorHeight(top, k) - StepAt(k) == LocatorHeight(top, k + 1)
    ensures StepAt(k + 1) == if k + 1 > 10 then 2 * StepAt(k) else StepAt(k)
    ensures StepAt(k) > 0
  {
    PowPositive(2, if k <= 10 then 0 else k - 10);
    assert Pow(2, 0) == 1;
    assert Pow(2, 1) == 2 * Pow(2, 0);
    assert Pow(2, 2) == 2 * Pow(2, 1);
    if k > 10 {
      assert Pow(2, k + 1 - 10) == 2 * Pow(2, k - 10);
    }
  }

  ghost predicate LocatorAt(ns: seq<Node>, start: nat, have: seq<nat>, k: nat)
    requires WellFormed(ns) && start < |ns| && k < |have|
  {
    && have[k] < |ns| && ns[have[k]].height == (if LocatorHeight(ns[start].height, k) < 0 then 0 else
        LocatorHeight(ns[start].height, k))
    && ns[have[k]].height <= ns[start].height && have[k] == Walk(ns, start, ns[have[k]].height)
  }

  /** A locator: from `start` back through ancestors at the locator heights, only the last one at height 0. */
  ghost predicate IsLocator(ns: seq<Node>, start: nat, have: seq<nat>)
    requires WellFormed(ns) && start < |ns|
  {
    && have != [] && have[0] == start
    && forall k | 0 <= k < |have| :: LocatorAt(ns, start, have, k) && (ns[have[k]].height == 0 <==> k == |have| - 1)
  }

  lemma LocatorDescends(ns: seq<Node>, start: nat, have: seq<nat>, k: nat)
    requires WellFormed(ns) && start < |ns| && IsLocator(ns, start, have) && k + 1 < |have|
    ensures LocatorAt(ns, start, have, k) && LocatorAt(ns, start, have, k + 1)
        && ns[have[k + 1]].height < ns[have[k]].height
  {
    assert LocatorAt(ns, start, have, k) && LocatorAt(ns, start, have, k + 1);
    LocatorStep(ns[start].height, k);
  }

  /** Twelve entries, plus at most the logarithm of the height. */
  lemma LocatorLength(ns: seq<Node>, start: nat, have: seq<nat>)
    requires WellFormed(ns) && start < |ns| && IsLocator(ns, start, have)
    ensures |have| <= 12 || Pow(2, |have| - 12) + 9 < ns[start].height
  {
    if |have| > 12 {
      var k := |have| - 2;
      assert LocatorAt(ns, start, have, k);
      assert Pow(2, 1) == 2;
      assert LocatorHeight(ns[start].height, k) == ns[start].height - 9 - Pow(2, k - 10);
    }
  }

  class Chain {
    var slots: Slots

    constructor ()
      ensures slots == []
    {
      slots := [];
    }

    /** The loop stops at the first slot that already holds its entry; everything below is then right as well. */
    method SetTip(ns: seq<Node>, tip: Option<nat>)
      requires IsBranch(ns, slots) && (tip.Some? ==> tip.value < |ns|)
      modifies this
      ensures IsBranch(ns, slots)
      ensures if tip.None? then slots == [] else Shows(ns, slots, tip.value)
    {
      if tip.None? {
        slots := [];
        return;
      }
      ghost var was := slots;
      var size := ns[tip.value].height + 1;
      if size <= |slots| {
        slots := slots[..size];
      } else {
        slots := slots + seq(size - |slots|, _ => None);
      }
      ghost var resized := slots;
      var p := tip;
      ghost var left: int := size - 1;
      while p.Some? && slots[ns[p.value].height] != p
        invariant |slots| == size == |resized| && -1 <= left < size
        invariant if p.None? then left == -1 else
            p.value < |ns| && ns[p.value].height == left && p.value == Walk(ns, tip.value, left)
        invariant forall h | left < h < size :: slots[h] == Some(Walk(ns, tip.value, h))
        invariant forall h | 0 <= h <= left :: slots[h] == resized[h]
        decreases left
      {
        assert NodeOk(ns, p.value);
        slots := slots[ns[p.value].height := p];
        if left > 0 {
          WalkOn(ns, tip.value, left, left - 1);
        }
        p := ns[p.value].prev;
        left := left - 1;
      }
      forall h | 0 <= h <= left ensures slots[h] == Some(Walk(ns, tip.value, h)) {
        BranchWalk(ns, was, left, h);
        WalkOn(ns, tip.value, left, h);
      }
      ShowsBranch(ns, slots, tip.value);
    }

    function Tip(): (r: Option<nat>)
      reads this
    {
      TipOf(slots)
    }

    /** The highest block shared with the chain; none only if no block is shared. */
    method FindFork(ns: seq<Node>, i: nat) returns (r: Option<nat>)
      requires Skips(ns) && IsBranch(ns, slots) && i < |ns|
      ensures r.Some? ==> r.value < |ns| && Contains(ns, slots, r.value)
      ensures r.Some? ==> ns[r.value].height <= ns[i].height && Walk(ns, i, ns[r.value].height) == r.value
      ensures forall h | 0 <= h <= ns[i].height && (r.Some? ==> ns[r.value].height < h) ::
          Slot(slots, h) != Some(Walk(ns, i, h))
    {
      r := Some(i);
      if ns[i].height > |slots| - 1 {
        r := GetAncestor(ns, i, |slots| - 1);
        if r.Some? {
          WalkHeight(ns, i, |slots| - 1);
        }
      }
      while r.Some? && !Contains(ns, slots, r.value)
        invariant r.Some? ==>
            r.value < |ns| && ns[r.value].height <= ns[i].height && Walk(ns, i, ns[r.value].height) == r.value
        invariant forall h | 0 <= h <= ns[i].height && (r.Some? ==> ns[r.value].height < h) ::
            Slot(slots, h) != Some(Walk(ns, i, h))
        decreases if r.Some? then ns[r.value].height + 1 else 0
      {
        var p := r.value;
        assert NodeOk(ns, p);
        if ns[p].height > 0 {
          WalkOn(ns, i, ns[p].height, ns[p].height - 1);
        }
        r := ns[p].prev;
      }
    }

    /** The locator of `from`, or of the tip. */
    method GetLocator(ns: seq<Node>, from: Option<nat>) returns (have: seq<nat>)
      requires Skips(ns) && IsBranch(ns, slots) && (from.Some? ==> from.value < |ns|)
      ensures from.None? && slots == [] ==> have == []
      ensures slots != [] ==> Tip().Some? && Tip().value < |ns|
      ensures from.Some? ==> IsLocator(ns, from.value, have)
      ensures from.None? && slots != [] ==> IsLocator(ns, Tip().value, have)
    {
      hide Pow;
      var step: nat := 1;
      have := [];
      var p := from;
      if p.None? {
        p := Tip();
      }
      if slots != [] {
        assert BranchAt(ns, slots, |slots| - 1);
      }
      if p.None? {
        return;
      }
      ghost var start := p.value;
      ghost var top := ns[start].height;
      while p.Some?
        invariant p.Some? && p.value < |ns| && step == StepAt(|have|)
        invariant LocatorAt(ns, start, have + [p.value], |have|)
        invariant forall k | 0 <= k < |have| :: LocatorAt(ns, start, have, k) && ns[have[k]].height > 0
        invariant have + [p.value] != [] && (have + [p.value])[0] == start
        decreases ns[p.value].height
      {
        ghost var k := |have|;
        LocatorStep(top, k);
        have := have + [p.value];
        if ns[p.value].height == 0 {
          break;
        }
        var height := if ns[p.value].height - step > 0 then ns[p.value].height - step else 0;
        assert height == if LocatorHeight(top, k + 1) < 0 then 0 else LocatorHeight(top, k + 1);
        WalkOn(ns, start, ns[p.value].height, height);
        WalkHeight(ns, p.value, height);
        if Contains(ns, slots, p.value) {
          ContainsBelow(ns, slots, p.value, height);
          p := Slot(slots, height);
        } else {
          p := GetAncestor(ns, p.value, height);
        }
        if |have| > 10 {
          step := step * 2;
        }
      }
    }
  }
}
