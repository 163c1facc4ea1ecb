/**
 * Ordering finalizers by their dependencies: topologicalSort of
 * packages/kiosk-runtime/src/finalization-runner.ts, and the version string of the resulting plan.
 */
module FinalizationPlan {
  import opened Prelude

  /** The registered finalizers: each id with the ids it must come after. */
  type Dependencies = map<string, seq<string>>

  datatype SortError = DependencyCycle(id: string) | UnknownDependency(id: string)

  /** Every finalizer once, each after all its dependencies. */
  ghost predicate IsPlan(after: Dependencies, plan: seq<string>) {
    && Distinct(plan)
    && (forall id :: id in plan <==> id in after)
    && InOrder(after, plan)
  }

  predicate Distinct(plan: seq<string>) {
    forall i, j | 0 <= i < j < |plan| :: plan[i] != plan[j]
  }

  /** All listed finalizers are registered, and what they depend on is listed before them. */
  predicate InOrder(after: Dependencies, plan: seq<string>) {
    forall k | 0 <= k < |plan| ::
      plan[k] in after && forall dependency <- after[plan[k]] :: dependency in plan[..k]
  }

  /** A path along dependencies: each entry lists the next one. */
  predicate IsPath(after: Dependencies, path: seq<string>) {
    forall i | 0 <= i < |path| - 1 :: path[i] in after && path[i + 1] in after[path[i]]
  }

  predicate IsCycle(after: Dependencies, path: seq<string>) {
    |path| > 1 && path[0] == path[|path| - 1] && IsPath(after, path)
  }

  ghost predicate HasCycle(after: Dependencies) {
    exists path :: IsCycle(after, path)
  }

  predicate HasUnknown(after: Dependencies) {
    exists id <- after :: exists dependency <- after[id] :: dependency !in after
  }

  /** The position of an id in a plan. */
  function Position(plan: seq<string>, id: string): (k: nat)
    requires id in plan
    ensures k < |plan| && plan[k] == id
  {
    if plan[0] == id then 0 else 1 + Position(plan[1..], id)
  }

  /** Along a path positions go down. */
  lemma {:induction false} PathGoesDown(after: Dependencies, plan: seq<string>, path: seq<string>)
    requires IsPlan(after, plan) && IsPath(after, path) && |path| > 1
    ensures path[0] in plan && path[|path| - 1] in plan
    ensures Position(plan, path[|path| - 1]) < Position(plan, path[0])
    decreases |path|
  {
    var n := |path| - 1;
    var last, before := path[n], path[n - 1];
    assert before in after && last in after[before];
    assert before in plan;
    var k := Position(plan, before);
    assert last in plan[..k];
    var i :| 0 <= i < k && plan[i] == last;
    assert Position(plan, last) == i;
    if n > 1 {
      PathGoesDown(after, plan, path[..n]);
    }
  }

  /** A plan exists only without cycles and without unknown dependencies. */
  lemma PlanExcludesErrors(after: Dependencies, plan: seq<string>)
    requires IsPlan(after, plan)
    ensures !HasCycle(after) && !HasUnknown(after)
  {
    if HasCycle(after) {
      var path :| IsCycle(after, path);
      PathGoesDown(after, plan, path);
    }
    forall id, dependency | id in after && dependency in after[id]
      ensures dependency in after
    {
      var k := Position(plan, id);
      assert dependency in plan[..k];
    }
  }

  /** The depth-first search with the sets the source keeps. */
  class Sorter {
    const after: Dependencies
    var visiting: set<string>
    var visited: set<string>
    var result: seq<string>

    constructor (after: Dependencies)
      ensures Valid() && this.after == after && visiting == {} && result == []
    {
      this.after := after;
      visiting, visited, result := {}, {}, [];
    }

    ghost predicate Valid()
      reads this
    {
      && (forall id :: id in visited <==> id in result)
      && Distinct(result) && InOrder(after, result)
      && visiting <= after.Keys && visiting !! visited
    }

    /** `stack` is the path from the root of the search to the caller. */
    method Visit(id: string, ghost stack: seq<string>) returns (error: Option<SortError>)
      requires Valid() && IsPath(after, stack + [id])
      requires forall other :: other in visiting <==> other in stack
      modifies this
      ensures error.None? ==> Valid() && visiting == old(visiting) && id in visited && old(visited) <= visited
      ensures error.Some? && error.value.DependencyCycle? ==> HasCycle(after)
      ensures error.Some? && error.value.UnknownDependency? ==>
                error.value.id !in after && (stack == [] ==> error.value.id == id || HasUnknown(after))
                && (stack != [] ==> HasUnknown(after))
      decreases after.Keys - visiting
    {
      if id in visited {
        return None;
      }
      if id in visiting {
        ghost var i :| 0 <= i < |stack| && stack[i] == id;
        ghost var cycle := stack[i..] + [id];
        assert IsPath(after, cycle) by { TailOfPath(after, stack + [id], i); assert (stack + [id])[i..] == cycle; }
        assert IsCycle(after, cycle);
        return Some(DependencyCycle(id));
      }
      if id !in after {
        if stack != [] {
          var caller := stack[|stack| - 1];
          assert (stack + [id])[|stack| - 1] == caller && (stack + [id])[|stack|] == id;
          assert caller in after && id in after[caller];
        }
        return Some(UnknownDependency(id));
      }
      ghost var here := stack + [id];
      visiting := visiting + {id};
      var i := 0;
      while i < |after[id]|
        invariant 0 <= i <= |after[id]|
        invariant Valid() && visiting == old(visiting) + {id} && old(visited) <= visited
        invariant forall k | 0 <= k < i :: after[id][k] in visited
      {
        assert IsPath(after, here + [after[id][i]]) by { ExtendPath(after, here, after[id][i]); }
        error := Visit(after[id][i], here);
        if error.Some? {
          return;
        }
        i := i + 1;
      }
      visiting := visiting - {id};
      visited := visited + {id};
      AppendInOrder(after, result, id);
      result := result + [id];
      assert visiting == old(visiting);
      return None;
    }
  }

  lemma TailOfPath(after: Dependencies, path: seq<string>, i: nat)
    requires IsPath(after, path) && i <= |path|
    ensures IsPath(after, path[i..])
  {
    var tail := path[i..];
    forall k | 0 <= k < |tail| - 1 ensures tail[k] in after && tail[k + 1] in after[tail[k]] {
      assert tail[k] == path[i + k] && tail[k + 1] == path[i + k + 1];
    }
  }

  lemma AppendInOrder(after: Dependencies, plan: seq<string>, id: string)
    requires InOrder(after, plan) && id in after && forall dependency <- after[id] :: dependency in plan
    ensures InOrder(after, plan + [id])
  {
    var longer := plan + [id];
    forall k | 0 <= k < |longer|
      ensures longer[k] in after && forall dependency <- after[longer[k]] :: dependency in longer[..k]
    {
      if k < |plan| {
        assert longer[..k] == plan[..k];
      } else {
        assert longer[..k] == plan;
      }
    }
  }

  lemma ExtendPath(after: Dependencies, path: seq<string>, next: string)
    requires IsPath(after, path) && path != [] && path[|path| - 1] in after && next in after[path[|path| - 1]]
    ensures IsPath(after, path + [next])
  {
  }

  /**
   * freeze(): the finalizers in plan order, or an error. `keys` are the registered ids in the order
   * of their registration.
   */
  method TopologicalSort(after: Dependencies, keys: seq<string>) returns (r: Result<seq<string>, SortError>)
    requires forall id :: id in keys <==> id in after
    ensures r.Ok? <==> !HasCycle(after) && !HasUnknown(after)
    ensures r.Ok? ==> IsPlan(after, r.value)
    ensures r.Err? ==> if r.error.DependencyCycle? then HasCycle(after) else HasUnknown(after)
  {
    var sorter := new Sorter(after);
    var i := 0;
    while i < |keys|
      invariant 0 <= i <= |keys|
      invariant sorter.after == after && sorter.Valid() && sorter.visiting == {}
      invariant forall k | 0 <= k < i :: keys[k] in sorter.visited
    {
      var error := sorter.Visit(keys[i], []);
      if error.Some? {
        return Err(error.value);
      }
      i := i + 1;
    }
    r := Ok(sorter.result);
    PlanExcludesErrors(after, r.value);
  }

  // ----- The version of a plan -----

  datatype Finalizer = Finalizer(id: string, version: string) {
    function Label(): string {
      id + "@" + version
    }

    /** The bar that joins the labels does not occur in this one. */
    predicate BarFree() {
      '|' !in id && '|' !in version
    }
  }

  /** No bars, and the '@' between id and version can be told: no version holds one, or no id does. */
  predicate Separable(plan: seq<Finalizer>) {
    && (forall f <- plan :: f.BarFree())
    && ((forall f <- plan :: '@' !in f.version) || (forall f <- plan :: '@' !in f.id))
  }

  /** The labels joined with bars. */
  function PlanVersion(plan: seq<Finalizer>): string {
    if plan == [] then ""
    else if |plan| == 1 then plan[0].Label()
    else plan[0].Label() + "|" + PlanVersion(plan[1..])
  }

  lemma FirstAt(a: string, x: string, c: char)
    requires c !in a
    ensures (a + [c] + x)[|a|] == c && forall i | 0 <= i < |a| :: (a + [c] + x)[i] != c
    ensures (a + [c] + x)[..|a|] == a && (a + [c] + x)[|a| + 1..] == x
  {
  }

  /** The part before the first separator, and the part after it, are determined. */
  lemma SplitAtFirst(a: string, x: string, b: string, y: string, c: char)
    requires c !in a && c !in b && a + [c] + x == b + [c] + y
    ensures a == b && x == y
  {
    FirstAt(a, x, c);
    FirstAt(b, y, c);
  }

  lemma LastAt(a: string, x: string, c: char)
    requires c !in x
    ensures (a + [c] + x)[|a|] == c && forall i | |a| < i < |a| + 1 + |x| :: (a + [c] + x)[i] != c
    ensures (a + [c] + x)[..|a|] == a && (a + [c] + x)[|a| + 1..] == x
  {
  }

  /** The part before the last separator, and the part after it, are determined. */
  lemma SplitAtLast(a: string, x: string, b: string, y: string, c: char)
    requires c !in x && c !in y && a + [c] + x == b + [c] + y
    ensures a == b && x == y
  {
    LastAt(a, x, c);
    LastAt(b, y, c);
  }

  lemma LabelIsInjective(f: Finalizer, g: Finalizer)
    requires Separable([f, g]) && f.Label() == g.Label()
    ensures f == g
  {
    assert [f, g][0] == f && [f, g][1] == g;
    if '@' !in f.version && '@' !in g.version {
      SplitAtLast(f.id, f.version, g.id, g.version, '@');
    } else {
      SplitAtFirst(f.id, f.version, g.id, g.version, '@');
    }
  }

  lemma LabelHasNoBar(f: Finalizer)
    requires f.BarFree()
    ensures '|' !in f.Label() && '@' in f.Label()
  {
    assert f.Label()[|f.id|] == '@';
  }

  /** The version string tells an empty plan, a plan of one and a longer plan apart. */
  lemma PlanVersionShape(p: seq<Finalizer>)
    requires forall f <- p :: f.BarFree()
    ensures PlanVersion(p) == "" <==> p == []
    ensures '|' in PlanVersion(p) <==> |p| > 1
  {
    if p != [] {
      LabelHasNoBar(p[0]);
      if |p| > 1 {
        assert PlanVersion(p)[|p[0].Label()|] == '|';
      }
    }
  }

  lemma SeparableParts(p: seq<Finalizer>, q: seq<Finalizer>)
    requires Separable(p + q)
    ensures (forall f <- p :: f.BarFree()) && (forall f <- q :: f.BarFree())
    ensures p != [] && q != [] ==> Separable([p[0], q[0]]) && Separable(p[1..] + q[1..])
  {
    assert forall f <- p :: f in p + q;
    assert forall f <- q :: f in p + q;
  }

  /**
   * Two plans without bars in their ids and versions, and with '@' only in ids or only in versions, have the same
   * version string only if they are the same plan.
   */
  lemma {:induction false} PlanVersionIsInjective(p: seq<Finalizer>, q: seq<Finalizer>)
    requires Separable(p + q) && PlanVersion(p) == PlanVersion(q)
    ensures p == q
    decreases |p|
  {
    SeparableParts(p, q);
    PlanVersionShape(p);
    PlanVersionShape(q);
    hide Separable;
    if |p| == 1 {
      LabelIsInjective(p[0], q[0]);
    } else if |p| > 1 {
      LabelHasNoBar(p[0]);
      LabelHasNoBar(q[0]);
      SplitAtFirst(p[0].Label(), PlanVersion(p[1..]), q[0].Label(), PlanVersion(q[1..]), '|');
      LabelIsInjective(p[0], q[0]);
      PlanVersionIsInjective(p[1..], q[1..]);
      assert p == [p[0]] + p[1..] && q == [q[0]] + q[1..];
    }
  }

  /**
   * Where the condition fails, different plans share a version string, and the plan check lets one pass for the
   * other: a bar can stand for the join of two labels, and an '@' on both sides can be read in two ways.
   */
  lemma PlanVersionCollision(x: string, y: string, z: string, v: string)
    ensures PlanVersion([Finalizer(x + "@" + y + "|" + z, v)]) == PlanVersion([Finalizer(x, y), Finalizer(z, v)])
    ensures PlanVersion([Finalizer(x, y + "|" + z + "@" + v)]) == PlanVersion([Finalizer(x, y), Finalizer(z, v)])
    ensures PlanVersion([Finalizer(x + "@" + y, z)]) == PlanVersion([Finalizer(x, y + "@" + z)])
  {
    var p := [Finalizer(x, y), Finalizer(z, v)];
    assert p[1..] == [Finalizer(z, v)];
    assert PlanVersion(p) == x + "@" + y + "|" + (z + "@" + v);
    assert x + "@" + y + "|" + (z + "@" + v) == (x + "@" + y + "|" + z) + "@" + v == x + "@" + (y + "|" + z + "@" + v);
    assert (x + "@" + y) + "@" + z == x + "@" + (y + "@" + z);
  }
}
