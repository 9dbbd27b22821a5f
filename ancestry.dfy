/** The upward walk of `get_top_level_package`: from a package, follow one
    parent link at a time until a package without a parent is reached.
    Which parent is followed, and what counts as "no parent", is a
    parameter: the step from a package id. */
module Ancestry {
  import opened Host

  /** One step up from a package: it is at the top, it has this parent, or
      looking up its parent raised. */
  datatype Step = Top | Up(parent: Package) | Fail(error: Error)

  type Stepper = string -> Step

  /** The walk from `id` ends (at a top or at a failure) within `n` steps. */
  predicate Stops(step: Stepper, id: string, n: nat)
    decreases n
  {
    n > 0 && match step(id)
      case Up(p) => Stops(step, p.id, n - 1)
      case _ => true
  }

  /** Where the walk from `p` ends: the first package on the way up that has
      no parent, or the error of the first failing step. */
  function Climb(step: Stepper, p: Package, n: nat): Result<Package>
    requires Stops(step, p.id, n)
    decreases n
  {
    match step(p.id)
    case Top => Ok(p)
    case Fail(e) => Raised(e)
    case Up(q) => Climb(step, q, n - 1)
  }

  /** `target` is reached from `id` by one to `n` parent steps. */
  ghost predicate Above(step: Stepper, id: string, target: Package, n: nat)
    decreases n
  {
    n > 0 && step(id).Up? && (step(id).parent == target || Above(step, step(id).parent.id, target, n - 1))
  }

  ghost predicate IsAncestor(step: Stepper, id: string, target: Package) {
    exists n: nat :: Above(step, id, target, n)
  }

  /** A walk that ends well ends at a package without a parent, which is
      `p` itself or one of its ancestors. */
  lemma {:induction false} ClimbReachesTop(step: Stepper, p: Package, n: nat)
    requires Stops(step, p.id, n)
    requires Climb(step, p, n).Ok?
    ensures step(Climb(step, p, n).value.id) == Top
    ensures Climb(step, p, n).value == p || Above(step, p.id, Climb(step, p, n).value, n)
    decreases n
  {
    match step(p.id)
    case Top =>
    case Up(q) =>
      ClimbReachesTop(step, q, n - 1);
  }

  /** The walk does not depend on the bound it was proved to stop within. */
  lemma {:induction false} ClimbAnyBound(step: Stepper, p: Package, n: nat, m: nat)
    requires Stops(step, p.id, n) && Stops(step, p.id, m)
    ensures Climb(step, p, n) == Climb(step, p, m)
    decreases n
  {
    match step(p.id)
    case Top =>
    case Fail(_) =>
    case Up(q) =>
      ClimbAnyBound(step, q, n - 1, m - 1);
  }

  /** The top above `id`: the end of the walk that starts at its parent. */
  ghost function TopAbove(step: Stepper, id: string): Result<Package>
    requires step(id).Up?
    requires exists n: nat :: Stops(step, id, n)
  {
    var n: nat :| Stops(step, id, n);
    Climb(step, step(id).parent, n - 1)
  }

  /** The top above `id`, when the walk finds it, has no parent and is an
      ancestor of `id`. */
  lemma TopAboveIsAncestor(step: Stepper, id: string)
    requires step(id).Up?
    requires exists n: nat :: Stops(step, id, n)
    requires TopAbove(step, id).Ok?
    ensures step(TopAbove(step, id).value.id) == Top
    ensures IsAncestor(step, id, TopAbove(step, id).value)
  {
    var n: nat :| Stops(step, id, n) && TopAbove(step, id) == Climb(step, step(id).parent, n - 1);
    var t := TopAbove(step, id).value;
    ClimbReachesTop(step, step(id).parent, n - 1);
    if t != step(id).parent {
      assert Above(step, step(id).parent.id, t, n - 1);
    }
    assert Above(step, id, t, n);
  }

  lemma StopsUp(step: Stepper, id: string, n: nat)
    requires Stops(step, id, n) && step(id).Up?
    ensures n > 0 && Stops(step, step(id).parent.id, n - 1)
  {
  }

  /** Any bound the walk from `id` stops within gives the same top. */
  lemma TopAboveAt(step: Stepper, id: string, n: nat)
    requires step(id).Up? && Stops(step, id, n)
    ensures Stops(step, step(id).parent.id, n - 1)
    ensures TopAbove(step, id) == Climb(step, step(id).parent, n - 1)
  {
    var m: nat :| Stops(step, id, m) && TopAbove(step, id) == Climb(step, step(id).parent, m - 1);
    StopsUp(step, id, m);
    ClimbAnyBound(step, step(id).parent, n - 1, m - 1);
  }

  /** When every step up lands on a package that package_show returns for
      its id, so does the end of the walk. */
  lemma {:induction false} ClimbShown(cat: Catalog, step: Stepper, p: Package, n: nat)
    requires Stops(step, p.id, n)
    requires Show(cat, p.id) == Ok(p)
    requires forall id :: step(id).Up? ==> Show(cat, step(id).parent.id) == Ok(step(id).parent)
    ensures Climb(step, p, n).Ok? ==> Show(cat, Climb(step, p, n).value.id) == Ok(Climb(step, p, n).value)
    decreases n
  {
    match step(p.id)
    case Top =>
    case Fail(_) =>
    case Up(q) =>
      ClimbShown(cat, step, q, n - 1);
  }

  /** Packages linked one to the next by steps up. */
  ghost predicate Linked(step: Stepper, path: seq<Package>) {
    forall i :: 0 <= i < |path| - 1 ==> step(path[i].id) == Up(path[i + 1])
  }

  /** A walk that stops within `m` steps from the head of a linked path
      passes every package of the path with steps to spare. */
  lemma {:induction false} StopsAlong(step: Stepper, path: seq<Package>, i: nat, m: nat)
    requires Linked(step, path) && i < |path|
    requires Stops(step, path[0].id, m)
    ensures m > i && Stops(step, path[i].id, m - i)
    decreases i
  {
    if i > 0 {
      StopsAlong(step, path, i - 1, m);
      assert step(path[i - 1].id) == Up(path[i]);
      StopsUp(step, path[i - 1].id, m - (i - 1));
    }
  }

  /** A walk that stops from the end of a linked path stops from each of
      its packages, with one more step for each package before the end. */
  lemma {:induction false} StopsBack(step: Stepper, path: seq<Package>, i: nat, k: nat)
    requires Linked(step, path) && i < |path|
    requires Stops(step, path[|path| - 1].id, k)
    ensures Stops(step, path[i].id, k + (|path| - 1 - i))
    decreases |path| - i
  {
    if i < |path| - 1 {
      StopsBack(step, path, i + 1, k);
    }
  }

  /** A walk that comes back to where it started never stops. */
  lemma {:induction false} CycleNeverStops(step: Stepper, cycle: seq<Package>, m: nat)
    requires |cycle| > 0 && Linked(step, cycle)
    requires step(cycle[|cycle| - 1].id).Up? && step(cycle[|cycle| - 1].id).parent.id == cycle[0].id
    ensures !Stops(step, cycle[0].id, m)
    decreases m
  {
    if Stops(step, cycle[0].id, m) {
      var last := |cycle| - 1;
      StopsAlong(step, cycle, last, m);
      StopsUp(step, cycle[last].id, m - last);
      CycleNeverStops(step, cycle, m - last - 1);
      assert false;
    }
  }

  /** A linked path grows by the step up from its last package. */
  lemma LinkedSnoc(step: Stepper, path: seq<Package>, next: Package)
    requires |path| > 0 && Linked(step, path) && step(path[|path| - 1].id) == Up(next)
    ensures Linked(step, path + [next])
  {
    var longer := path + [next];
    forall i | 0 <= i < |longer| - 1
      ensures step(longer[i].id) == Up(longer[i + 1])
    {
      if i < |path| - 1 {
        assert longer[i] == path[i] && longer[i + 1] == path[i + 1];
      }
    }
  }

  /** A linked path whose last step up returns to one of its packages: no
      walk from its head stops. */
  lemma PathCycleNeverStops(step: Stepper, path: seq<Package>, j: nat, next: Package)
    requires Linked(step, path) && j < |path|
    requires step(path[|path| - 1].id) == Up(next) && next.id == path[j].id
    ensures forall n: nat :: !Stops(step, path[0].id, n)
  {
    var cycle := path[j..];
    assert Linked(step, cycle) by {
      forall i | 0 <= i < |cycle| - 1
        ensures step(cycle[i].id) == Up(cycle[i + 1])
      {
        assert cycle[i] == path[j + i] && cycle[i + 1] == path[j + i + 1];
      }
    }
    assert cycle[|cycle| - 1] == path[|path| - 1];
    forall n: nat
      ensures !Stops(step, path[0].id, n)
    {
      if Stops(step, path[0].id, n) {
        StopsAlong(step, path, j, n);
        CycleNeverStops(step, cycle, n - j);
      }
    }
  }

  /** A finishing walk from the head of a linked path ends where the walk
      from its `i`-th package ends. */
  lemma {:induction false} ClimbAlong(step: Stepper, path: seq<Package>, i: nat, n: nat)
    requires Linked(step, path) && i < |path|
    requires Stops(step, path[0].id, n)
    ensures n > i && Stops(step, path[i].id, n - i)
    ensures Climb(step, path[0], n) == Climb(step, path[i], n - i)
    decreases i
  {
    StopsAlong(step, path, i, n);
    if i > 0 {
      ClimbAlong(step, path, i - 1, n);
      assert step(path[i - 1].id) == Up(path[i]);
    }
  }

  /** Where a linked path reaches a package without a parent, or a failing
      step, every finishing walk from its head ends the same way. */
  lemma WalkEnds(step: Stepper, path: seq<Package>)
    requires |path| > 0 && Linked(step, path)
    requires !step(path[|path| - 1].id).Up?
    ensures Stops(step, path[0].id, |path|)
    ensures forall n: nat :: Stops(step, path[0].id, n) ==>
      Climb(step, path[0], n) ==
        if step(path[|path| - 1].id).Top? then Ok(path[|path| - 1]) else Raised(step(path[|path| - 1].id).error)
  {
    assert Stops(step, path[|path| - 1].id, 1);
    StopsBack(step, path, 0, 1);
    forall n: nat | Stops(step, path[0].id, n)
      ensures Climb(step, path[0], n) ==
        if step(path[|path| - 1].id).Top? then Ok(path[|path| - 1]) else Raised(step(path[|path| - 1].id).error)
    {
      ClimbAlong(step, path, |path| - 1, n);
    }
  }
}
