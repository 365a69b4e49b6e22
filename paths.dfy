/**
 * Unix paths as strings, with `PathBuf::push` and `PathBuf::from_iter`
 * (a left fold of `push` starting from the empty path).
 */
module Paths {

  predicate IsAbsolute(p: string) {
    |p| > 0 && p[0] == '/'
  }

  /**
   * `PathBuf::push`: an absolute path replaces the base; otherwise a
   * separator is inserted when the base is non-empty and does not already
   * end in one.
   */
  function Push(base: string, p: string): (r: string)
    ensures IsAbsolute(p) ==> r == p
    ensures !IsAbsolute(p) && (base == [] || base[|base| - 1] == '/') ==> r == base + p
    ensures !IsAbsolute(p) && base != [] && base[|base| - 1] != '/' ==> r == base + "/" + p
  {
    if IsAbsolute(p) then p
    else if base == [] || base[|base| - 1] == '/' then base + p
    else base + "/" + p
  }

  /** `PathBuf::from_iter(ps)`: push every element, in order, onto the empty path. */
  function Collect(ps: seq<string>): string
  {
    if ps == [] then "" else Push(Collect(ps[..|ps| - 1]), ps[|ps| - 1])
  }

  /** The empty path is a left identity of push. */
  lemma PushEmptyBase(p: string)
    ensures Push("", p) == p
  {
  }

  /** `push` is associative, so a path can be built from either end. */
  lemma PushAssociative(x: string, y: string, z: string)
    ensures Push(Push(x, y), z) == Push(x, Push(y, z))
  {
    if IsAbsolute(z) {
    } else if IsAbsolute(y) {
      assert IsAbsolute(Push(y, z));
    } else if y == [] {
      assert Push(y, z) == z;
      if x != [] && x[|x| - 1] != '/' {
        assert Push(x, y) == x + "/";
      } else {
        assert Push(x, y) == x;
      }
    } else {
      PushRelative(x, y, z);
    }
  }

  /** The separator `push` puts after `base`. */
  function Sep(base: string): string
  {
    if base == [] || base[|base| - 1] == '/' then "" else "/"
  }

  lemma PushForm(base: string, p: string)
    requires !IsAbsolute(p)
    ensures Push(base, p) == base + Sep(base) + p
  {
  }

  lemma SepOfJoin(x: string, s: string, y: string)
    requires y != []
    ensures Sep(x + s + y) == Sep(y)
  {
    var j := x + s + y;
    assert j[|j| - 1] == y[|y| - 1];
  }

  lemma RelativeJoin(y: string, s: string, z: string)
    requires y != [] && !IsAbsolute(y)
    ensures !IsAbsolute(y + s + z)
  {
    assert (y + s + z)[0] == y[0];
  }

  /** `PushAssociative` when neither `y` nor `z` is absolute and `y` is not empty. */
  lemma PushRelative(x: string, y: string, z: string)
    requires !IsAbsolute(y) && !IsAbsolute(z) && y != []
    ensures Push(Push(x, y), z) == Push(x, Push(y, z))
  {
    PushForm(x, y);
    PushForm(y, z);
    SepOfJoin(x, Sep(x), y);
    RelativeJoin(y, Sep(y), z);
    PushForm(x + Sep(x) + y, z);
    PushForm(x, y + Sep(y) + z);
    assert (x + Sep(x) + y) + Sep(y) + z == x + Sep(x) + (y + Sep(y) + z);
  }

  lemma CollectSingle(p: string)
    ensures Collect([p]) == p
  {
    assert [p][..0] == [];
  }

  lemma CollectAppend(ps: seq<string>, p: string)
    ensures Collect(ps + [p]) == Push(Collect(ps), p)
  {
    assert (ps + [p])[..|ps|] == ps;
  }

  /**
   * Pulling the first element out of a fold of at least two elements:
   * `from_iter([a] + rest) == a.join(from_iter(rest))` when `rest` is
   * non-empty. With `rest` empty the join would add a trailing separator.
   */
  lemma {:induction false} CollectCons(a: string, rest: seq<string>)
    requires rest != []
    ensures Collect([a] + rest) == Push(a, Collect(rest))
  {
    var n := |rest|;
    var last := rest[n - 1];
    var init := rest[..n - 1];
    assert [a] + rest == ([a] + init) + [last];
    CollectAppend([a] + init, last);
    assert rest == init + [last];
    CollectAppend(init, last);
    if init == [] {
      CollectSingle(a);
      assert [a] + init == [a];
      assert Collect(init) == "";
      PushEmptyBase(last);
    } else {
      CollectCons(a, init);
      PushAssociative(a, Collect(init), last);
    }
  }

  /**
   * `PathBuf::from_iter` as the loop the standard library runs: start from
   * the empty path and push every element.
   */
  method CollectPaths(ps: seq<string>) returns (p: string)
    ensures p == Collect(ps)
  {
    p := "";
    for i := 0 to |ps|
      invariant p == Collect(ps[..i])
    {
      assert ps[..i + 1] == ps[..i] + [ps[i]];
      CollectAppend(ps[..i], ps[i]);
      p := Push(p, ps[i]);
    }
    assert ps[..|ps|] == ps;
  }
}
