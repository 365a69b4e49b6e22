/**
 * `ArchiveStack` of the anyreader-walker crate
 * (crates/anyreader-walker/src/utils.rs): a LIFO of entry details that
 * also keeps, in a field of its own, the nested path made of all stacked
 * paths. Pushing extends that field; popping rebuilds it from the stack.
 */
module WalkerCrateUtils {
  import opened Base
  import opened Entry
  import opened Paths

  class ArchiveStack {
    var stack: seq<EntryDetails>
    var nestedPath: string

    /** The nested path is always the in-order join of the stacked paths. */
    ghost predicate Valid()
      reads this
    {
      nestedPath == Collect(PathsOf(stack))
    }

    /** `ArchiveStack::new`. */
    constructor ()
      ensures Valid() && stack == [] && nestedPath == ""
    {
      stack := [];
      nestedPath := "";
    }

    function CurrentDepth(): nat
      reads this
    {
      |stack|
    }

    function NestedPath(): string
      reads this
    {
      nestedPath
    }

    /** `is_empty` holds exactly when no entry is stacked. */
    function IsEmpty(): (b: bool)
      reads this
      ensures b <==> CurrentDepth() == 0
    {
      stack == []
    }

    /** The most recently pushed entry that has not been popped. */
    function LastEntry(): (e: Option<EntryDetails>)
      reads this
      ensures e.None? <==> CurrentDepth() == 0
      ensures e.Some? ==> e.value == stack[CurrentDepth() - 1]
    {
      if stack == [] then None else Some(stack[|stack| - 1])
    }

    method PushDetails(details: EntryDetails) returns (p: string)
      requires Valid()
      modifies this
      ensures Valid()
      ensures stack == old(stack) + [details]
      ensures nestedPath == Push(old(nestedPath), details.path) && p == nestedPath
      ensures CurrentDepth() == old(CurrentDepth()) + 1 && LastEntry() == Some(details)
    {
      assert (old(stack) + [details])[..|old(stack)|] == old(stack);
      nestedPath := Push(nestedPath, details.path);
      stack := stack + [details];
      p := nestedPath;
    }

    method PopDetails() returns (p: string, finished: Option<EntryDetails>)
      requires Valid()
      modifies this
      ensures Valid() && p == nestedPath
      ensures old(stack) == [] ==> finished == None && stack == [] && nestedPath == ""
      ensures old(stack) != [] ==>
        finished == Some(old(stack)[|old(stack)| - 1]) && stack == old(stack)[..|old(stack)| - 1]
      ensures CurrentDepth() == if old(CurrentDepth()) == 0 then 0 else old(CurrentDepth()) - 1
    {
      if stack == [] {
        finished := None;
      } else {
        finished := Some(stack[|stack| - 1]);
        stack := stack[..|stack| - 1];
      }
      nestedPath := CollectPaths(PathsOf(stack));
      p := nestedPath;
    }
  }

  /** The path facts the documented example relies on. */
  lemma ExamplePaths(first: EntryDetails)
    requires first.path == "first.tar"
    ensures Push(Push("", first.path), "second.tar") == "first.tar/second.tar"
    ensures Collect(PathsOf([first])) == "first.tar"
  {
    PushEmptyBase(first.path);
    PushForm("first.tar", "second.tar");
    assert PathsOf([first]) == [first.path];
    CollectSingle(first.path);
  }

  /**
   * The documented example: after pushing "first.tar" (5 bytes) and
   * "second.tar" (10 bytes) the nested path is "first.tar/second.tar" at
   * depth 2; one pop leaves "first.tar".
   */
  method DocumentedExample() returns (afterPushes: string, depth: nat, afterPop: string)
    ensures afterPushes == "first.tar/second.tar" && depth == 2 && afterPop == "first.tar"
  {
    var first := EntryDetails("first.tar", 5);
    ExamplePaths(first);
    var stack := new ArchiveStack();
    var _ := stack.PushDetails(first);
    var _ := stack.PushDetails(EntryDetails("second.tar", 10));
    afterPushes := stack.NestedPath();
    depth := stack.CurrentDepth();
    var _, _ := stack.PopDetails();
    afterPop := stack.NestedPath();
  }
}
