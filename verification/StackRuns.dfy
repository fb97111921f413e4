/**
 What the context-dependent containers refine: a stack with one value per level.  A
 push of the context duplicates the top value, a pop drops it, and an operation of
 the container changes the top value, or, through an escape hatch, every value.
 */
module StackRuns {
  import opened SaveStack

  /** A step of a run: a push or a pop of the context, or an operation of the container. */
  datatype Step<W> = Push | Pop | Act(act: W)

  function Change<W>(s: Step<W>): int {
    if s.Push? then 1 else if s.Pop? then -1 else 0
  }

  /** A push duplicates the top value, a pop drops it and an operation changes it. */
  ghost function Apply<A, W>(f: (A, W) -> A, stack: seq<A>, s: Step<W>): (r: seq<A>)
    requires stack != []
    ensures |r| == |stack| + Change(s)
  {
    var n := |stack| - 1;
    match s
    case Push => stack + [stack[n]]
    case Pop => stack[..n]
    case Act(a) => stack[n := f(stack[n], a)]
  }

  ghost function After<A, W>(f: (A, W) -> A, stack: seq<A>, steps: seq<Step<W>>): (r: seq<A>)
    requires Legal(|stack|, steps)
    ensures |r| == Depth(|stack|, steps)
    decreases |steps|
  {
    if steps == [] then stack else After(f, Apply(f, stack, steps[0]), steps[1..])
  }

  /** The number of levels after the steps. */
  ghost function Depth<W>(n: int, steps: seq<Step<W>>): (d: int)
    ensures Legal(n, steps) ==> d > 0
    decreases |steps|
  {
    if steps == [] then n else Depth(n + Change(steps[0]), steps[1..])
  }

  /** The steps never pop the last level. */
  ghost predicate Legal<W>(n: int, steps: seq<Step<W>>)
    decreases |steps|
  {
    n > 0 && (steps != [] ==> Legal(n + Change(steps[0]), steps[1..]))
  }

  /** A run that stays above its lowest n levels leaves these n levels as they are. */
  lemma {:induction false} AfterKeeps<A, W>(f: (A, W) -> A, stack: seq<A>, n: nat, steps: seq<Step<W>>)
    requires n <= |stack| && Legal(|stack| - n, steps)
    ensures Legal(|stack|, steps) && n < Depth(|stack|, steps) && After(f, stack, steps)[..n] == stack[..n]
    decreases |steps|
  {
    if steps != [] {
      var stack' := Apply(f, stack, steps[0]);
      AfterKeeps(f, stack', n, steps[1..]);
      assert stack'[..n] == stack[..n];
    }
  }

  lemma {:induction false} DepthShift<W>(n: int, m: int, steps: seq<Step<W>>)
    ensures Depth(n + m, steps) == Depth(n, steps) + m
    decreases |steps|
  {
    if steps != [] {
      assert n + m + Change(steps[0]) == n + Change(steps[0]) + m;
      DepthShift(n + Change(steps[0]), m, steps[1..]);
    }
  }

  lemma {:induction false} AfterSnoc<A, W>(f: (A, W) -> A, stack: seq<A>, steps: seq<Step<W>>, s: Step<W>)
    requires Legal(|stack|, steps) && Depth(|stack|, steps) + Change(s) > 0
    ensures Legal(|stack|, steps + [s]) && After(f, stack, steps + [s]) == Apply(f, After(f, stack, steps), s)
    decreases |steps|
  {
    if steps == [] {
      var one := [s];
      assert steps + one == one && one[1..] == steps;
      assert After(f, Apply(f, stack, s), one[1..]) == Apply(f, stack, s);
    } else {
      assert (steps + [s])[1..] == steps[1..] + [s];
      AfterSnoc(f, Apply(f, stack, steps[0]), steps[1..], s);
    }
  }

  /** Push, any run that pops no further, pop: the stack is the same as before. */
  lemma PushRunPop<A, W>(f: (A, W) -> A, stack: seq<A>, steps: seq<Step<W>>)
    requires stack != [] && Legal(1, steps) && Depth(1, steps) == 1
    ensures Legal(|stack| + 1, steps + [Pop])
    ensures After(f, Apply(f, stack, Push), steps + [Pop]) == stack
  {
    var pushed := Apply(f, stack, Step<W>.Push);
    AfterKeeps(f, pushed, |stack|, steps);
    DepthShift(1, |stack|, steps);
    AfterSnoc(f, pushed, steps, Pop);
  }

  /** The operation of a list: appending an element. */
  ghost function Snoc<T>(s: seq<T>, x: T): seq<T> {
    s + [x]
  }

  // ---------- operations that reach every level ----------

  /** How a container with an escape hatch to level zero acts on a stack of values. */
  datatype Effects<!A, !W> = Effects(local: (A, W) -> A, everywhere: (A, W) -> A, escapes: (A, W) -> bool)

  ghost function Everywhere<A, W>(g: (A, W) -> A, stack: seq<A>, w: W): (r: seq<A>)
    ensures |r| == |stack| && forall i :: 0 <= i < |r| ==> r[i] == g(stack[i], w)
  {
    seq(|stack|, i requires 0 <= i < |stack| => g(stack[i], w))
  }

  /** A write that changes what every saved copy stands for in the same way. */
  lemma EverywhereView<S, A, W>(f: S -> A, f': S -> A, g: (A, W) -> A, w: W, t: Track<S>, live: S, live': S, top: nat)
    requires t.Valid() && t.level <= top
    requires forall k :: 0 <= k < |t.saved| ==> f'(t.saved[k].copy) == g(f(t.saved[k].copy), w)
    requires f'(live) == f'(live') == g(f(live), w)
    ensures View(f', t.MakeCurrent(top, live), live', top) == Everywhere(g, View(f, t, live, top), w)
  {
    WriteLevels(t, live, live', top);
    var t' := t.MakeCurrent(top, live);
    forall i | 0 <= i < top ensures f'(t'.At(live', i)) == g(f(t.At(live, i)), w) {
      assert Levels(t', live', top)[i] == Levels(t, live, top)[i];
      if i < t.level { AtIsSaved(t, live, i); }
    }
  }

  /** Like Apply, but an operation that escapes acts on every level. */
  ghost function ApplyAll<A, W>(e: Effects<A, W>, stack: seq<A>, s: Step<W>): (r: seq<A>)
    requires stack != []
    ensures |r| == |stack| + Change(s)
  {
    if s.Act? && e.escapes(stack[|stack| - 1], s.act) then Everywhere(e.everywhere, stack, s.act)
    else Apply(e.local, stack, s)
  }

  ghost function AfterAll<A, W>(e: Effects<A, W>, stack: seq<A>, steps: seq<Step<W>>): (r: seq<A>)
    requires Legal(|stack|, steps)
    ensures |r| == Depth(|stack|, steps)
    decreases |steps|
  {
    if steps == [] then stack else AfterAll(e, ApplyAll(e, stack, steps[0]), steps[1..])
  }

  /** The operations of a run that escape, in order. */
  ghost function Escaped<A, W>(e: Effects<A, W>, stack: seq<A>, steps: seq<Step<W>>): seq<W>
    requires Legal(|stack|, steps)
    decreases |steps|
  {
    if steps == [] then []
    else
      (if steps[0].Act? && e.escapes(stack[|stack| - 1], steps[0].act) then [steps[0].act] else [])
      + Escaped(e, ApplyAll(e, stack, steps[0]), steps[1..])
  }

  ghost function Fold<A, W>(g: (A, W) -> A, a: A, ws: seq<W>): A {
    if ws == [] then a else Fold(g, g(a, ws[0]), ws[1..])
  }

  /** After any run above them, the lowest n levels have seen the operations that escape and nothing else. */
  lemma {:induction false} AfterAllKeeps<A, W>(e: Effects<A, W>, stack: seq<A>, n: nat, steps: seq<Step<W>>)
    requires n <= |stack| && Legal(|stack| - n, steps)
    ensures Legal(|stack|, steps) && n < Depth(|stack|, steps)
    ensures forall i :: 0 <= i < n ==>
              AfterAll(e, stack, steps)[i] == Fold(e.everywhere, stack[i], Escaped(e, stack, steps))
    decreases |steps|
  {
    if steps != [] {
      var stack' := ApplyAll(e, stack, steps[0]);
      AfterAllKeeps(e, stack', n, steps[1..]);
      var rest := Escaped(e, stack', steps[1..]);
      if steps[0].Act? && e.escapes(stack[|stack| - 1], steps[0].act) {
        var w := steps[0].act;
        assert ([w] + rest)[1..] == rest;
      } else {
        assert [] + rest == rest;
      }
    }
  }

  /** Push, any run that pops no further, pop: every level has seen the operations that escape and nothing else. */
  lemma PushRunPopAll<A, W>(e: Effects<A, W>, stack: seq<A>, steps: seq<Step<W>>)
    requires stack != [] && Legal(1, steps) && Depth(1, steps) == 1
    ensures var pushed := ApplyAll(e, stack, Step<W>.Push);
            && Legal(|pushed|, steps) && Depth(|pushed|, steps) == |pushed|
            && forall i :: 0 <= i < |stack| ==>
               AfterAll(e, pushed, steps)[i] == Fold(e.everywhere, stack[i], Escaped(e, pushed, steps))
  {
    AfterAllKeeps(e, ApplyAll(e, stack, Step<W>.Push), |stack|, steps);
    DepthShift(1, |stack|, steps);
  }
}
