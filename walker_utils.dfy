/**
 * `ArchiveStack` of the in-tree walker (src/anyreader_walker/utils.rs):
 * only the stack is stored; the full, root and nested paths are derived
 * from it on demand.
 */
module WalkerUtils {
  import opened Base
  import opened Entry
  import opened Paths

  /** `full_path`: every stacked path, bottom to top. */
  function FullPathOf(stack: seq<EntryDetails>): string
  {
    Collect(PathsOf(stack))
  }

  /** `root_path`: the first-pushed path, or the empty path. */
  function RootPathOf(stack: seq<EntryDetails>): string
  {
    if stack == [] then "" else stack[0].path
  }

  /** `nested_path_iter`: the stacked paths without the first. */
  function NestedPathsOf(stack: seq<EntryDetails>): (ps: seq<string>)
    ensures |ps| == if stack == [] then 0 else |stack| - 1
  {
    if stack == [] then [] else PathsOf(stack[1..])
  }

  /** `nested_path`: the join of `nested_path_iter`. */
  function NestedPathOf(stack: seq<EntryDetails>): string
  {
    Collect(NestedPathsOf(stack))
  }

  /** The nested path skips the root: it is empty up to depth 1. */
  lemma NestedPathEmptyUpToDepthOne(stack: seq<EntryDetails>)
    ensures |stack| <= 1 ==> NestedPathOf(stack) == ""
    ensures |stack| >= 1 ==> NestedPathsOf(stack) == PathsOf(stack)[1..]
  {
    if |stack| >= 1 {
      assert NestedPathsOf(stack) == PathsOf(stack)[1..];
    }
  }

  /**
   * Below the root, the full path is the root joined with the nested path.
   * (At depth 1 the full path is the root itself: joining an empty nested
   * path would add a trailing separator.)
   */
  lemma FullPathIsRootJoinNested(stack: seq<EntryDetails>)
    ensures |stack| >= 2 ==> FullPathOf(stack) == Push(RootPathOf(stack), NestedPathOf(stack))
    ensures |stack| == 1 ==> FullPathOf(stack) == RootPathOf(stack)
    ensures stack == [] ==> FullPathOf(stack) == "" && RootPathOf(stack) == ""
  {
    if |stack| >= 1 {
      var ps := PathsOf(stack);
      assert ps == [stack[0].path] + NestedPathsOf(stack);
      if |stack| >= 2 {
        CollectCons(stack[0].path, NestedPathsOf(stack));
      } else {
        CollectSingle(stack[0].path);
      }
    }
  }

  class ArchiveStack {
    var stack: seq<EntryDetails>

    /** `ArchiveStack::new`. */
    constructor ()
      ensures stack == []
    {
      stack := [];
    }

    function CurrentDepth(): nat
      reads this
    {
      |stack|
    }

    function IsEmpty(): (b: bool)
      reads this
      ensures b <==> CurrentDepth() == 0
    {
      stack == []
    }

    function LastEntry(): (e: Option<EntryDetails>)
      reads this
      ensures e.None? <==> CurrentDepth() == 0
      ensures e.Some? ==> e.value == stack[CurrentDepth() - 1]
    {
      if stack == [] then None else Some(stack[|stack| - 1])
    }

    function FullPath(): string
      reads this
    {
      FullPathOf(stack)
    }

    function RootPath(): string
      reads this
    {
      RootPathOf(stack)
    }

    function NestedPath(): string
      reads this
    {
      NestedPathOf(stack)
    }

    method PushDetails(details: EntryDetails)
      modifies this
      ensures stack == old(stack) + [details]
      ensures CurrentDepth() == old(CurrentDepth()) + 1 && LastEntry() == Some(details)
      ensures old(stack) != [] ==> RootPath() == old(RootPath())
      ensures FullPath() == Push(old(FullPath()), details.path)
    {
      assert PathsOf(stack + [details]) == PathsOf(stack) + [details.path];
      CollectAppend(PathsOf(stack), details.path);
      stack := stack + [details];
    }

    method PopDetails() returns (finished: Option<EntryDetails>)
      modifies this
      ensures old(stack) == [] ==> finished == None && stack == []
      ensures old(stack) != [] ==>
        finished == Some(old(stack)[|old(stack)| - 1]) && stack == old(stack)[..|old(stack)| - 1]
      ensures CurrentDepth() == if old(CurrentDepth()) == 0 then 0 else old(CurrentDepth()) - 1
    {
      if stack == [] {
        finished := None;
      } else {
        finished := Some(stack[|stack| - 1]);
        stack := stack[..|stack| - 1];
      }
    }
  }

  /** Pushing then popping gives back the pushed entry and the former stack. */
  method PushPopRestores(s: ArchiveStack, d: EntryDetails) returns (popped: Option<EntryDetails>)
    modifies s
    ensures popped == Some(d) && s.stack == old(s.stack)
  {
    s.PushDetails(d);
    popped := s.PopDetails();
    assert s.stack == (old(s.stack) + [d])[..|old(s.stack)|];
  }
}
