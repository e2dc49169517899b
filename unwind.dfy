/**
 * Resource acquisition and release, as a log replayed against a stack.
 *
 * The probe functions acquire resources one after another and, when a later step
 * fails, jump to a chain of labels that releases what was acquired, most recent
 * first. `Replay` checks such a log: every release must give back the most
 * recently acquired resource still held.
 */
module Unwind {
  datatype Option<T> = None | Some(value: T)

  datatype Step<R> = Acquire(res: R) | Release(res: R)

  /** The stack of resources held after `steps`, starting from `held`; None if a
      release does not match the top of the stack. */
  function Replay<R(==)>(held: seq<R>, steps: seq<Step<R>>): Option<seq<R>>
    decreases |steps|
  {
    if steps == [] then Some(held)
    else match steps[0]
      case Acquire(r) => Replay(held + [r], steps[1..])
      case Release(r) =>
        if held != [] && held[|held| - 1] == r then Replay(held[..|held| - 1], steps[1..])
        else None
  }

  /** Acquiring each of rs, in order. */
  function Acquisitions<R>(rs: seq<R>): (steps: seq<Step<R>>)
    ensures |steps| == |rs|
    ensures forall i :: 0 <= i < |rs| ==> steps[i] == Acquire(rs[i])
  {
    if rs == [] then [] else [Acquire(rs[0])] + Acquisitions(rs[1..])
  }

  /** Releasing each of rs, last first: the error labels of a probe function. */
  function Unwinding<R>(rs: seq<R>): (steps: seq<Step<R>>)
    ensures |steps| == |rs|
    ensures forall i :: 0 <= i < |rs| ==> steps[i] == Release(rs[|rs| - 1 - i])
  {
    if rs == [] then [] else Unwinding(rs[1..]) + [Release(rs[0])]
  }

  lemma {:induction false} ReplayConcat<R>(held: seq<R>, a: seq<Step<R>>, b: seq<Step<R>>)
    ensures Replay(held, a + b) ==
            match Replay(held, a)
            case None => None
            case Some(h) => Replay(h, b)
    decreases |a|
  {
    if a != [] {
      assert (a + b)[0] == a[0];
      assert (a + b)[1..] == a[1..] + b;
      match a[0]
      case Acquire(r) => ReplayConcat(held + [r], a[1..], b);
      case Release(r) =>
        if held != [] && held[|held| - 1] == r {
          ReplayConcat(held[..|held| - 1], a[1..], b);
        }
    } else {
      assert a + b == b;
    }
  }

  /** Acquiring rs pushes them on the stack, in order. */
  lemma {:induction false} AcquireAll<R>(held: seq<R>, rs: seq<R>)
    ensures Replay(held, Acquisitions(rs)) == Some(held + rs)
    decreases |rs|
  {
    if rs == [] {
      assert held + rs == held;
    } else {
      AcquireAll(held + [rs[0]], rs[1..]);
      assert held + [rs[0]] + rs[1..] == held + rs;
    }
  }

  /** Acquiring rs and then running the unwinding chain leaves exactly what was held
      before: nothing leaks and every release matches. */
  lemma {:induction false} UnwindRestores<R>(held: seq<R>, rs: seq<R>)
    ensures Replay(held, Acquisitions(rs) + Unwinding(rs)) == Some(held)
    decreases |rs|
  {
    if rs == [] {
      assert Acquisitions(rs) + Unwinding(rs) == [];
    } else {
      var r := rs[0];
      var middle := Acquisitions(rs[1..]) + Unwinding(rs[1..]);
      assert Acquisitions(rs) + Unwinding(rs) == [Acquire(r)] + (middle + [Release(r)]);
      UnwindRestores(held + [r], rs[1..]);
      ReplayConcat(held + [r], middle, [Release(r)]);
      assert (held + [r])[..|held + [r]| - 1] == held;
    }
  }
}
