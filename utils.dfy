/**
  `compose` from `podcast_downloader/utils.py`: `reduce` over the functions
  with `lambda f, g: lambda x: f(g(x))` and no initial value.
 */
module Utils {
  import opened Wrappers

  /** Applies the functions right to left: the last one first, the first one last. */
  function ApplyAll<T>(fs: seq<T -> T>, x: T): T
  {
    if fs == [] then x else fs[0](ApplyAll(fs[1..], x))
  }

  /** The `reduce` loop: the accumulated function absorbs the next one on its right. */
  function ComposeFrom<T>(acc: T -> T, rest: seq<T -> T>): T -> T
    decreases |rest|
  {
    if rest == [] then acc
    else
      var g := rest[0];
      ComposeFrom(x => acc(g(x)), rest[1..])
  }

  /**
    `compose(*functions)`: `None` stands for the `TypeError` that `reduce`
    raises on an empty argument list.
   */
  function Compose<T>(fs: seq<T -> T>): (r: Option<T -> T>)
    ensures r.None? <==> fs == []
  {
    if fs == [] then None else Some(ComposeFrom(fs[0], fs[1..]))
  }

  lemma {:induction false} ComposeFromApplies<T>(acc: T -> T, rest: seq<T -> T>, x: T)
    ensures ComposeFrom(acc, rest)(x) == acc(ApplyAll(rest, x))
    decreases |rest|
  {
    if rest != [] {
      var g := rest[0];
      ComposeFromApplies(y => acc(g(y)), rest[1..], x);
      assert ApplyAll(rest, x) == g(ApplyAll(rest[1..], x));
    }
  }

  /** `compose(f1, ..., fn)(x) == f1(f2(...fn(x)))`. */
  lemma ComposeApplies<T>(fs: seq<T -> T>, x: T)
    requires fs != []
    ensures Compose(fs).Some? && Compose(fs).value(x) == ApplyAll(fs, x)
  {
    ComposeFromApplies(fs[0], fs[1..], x);
  }

  /** `compose(f, g)(x) == f(g(x))`. */
  lemma ComposeTwo<T>(f: T -> T, g: T -> T, x: T)
    ensures Compose([f, g]).Some? && Compose([f, g]).value(x) == f(g(x))
  {
    ComposeApplies([f, g], x);
    assert [f, g][1..] == [g] && [g][1..] == [];
    assert ApplyAll([g], x) == g(x);
    assert ApplyAll([f, g], x) == f(ApplyAll([g], x));
  }

  /** A single function is returned as it is. */
  lemma ComposeSingle<T>(f: T -> T)
    ensures Compose([f]) == Some(f)
  {
  }
}
