/**
 * The input registry (src/extraction/input.rs): inputs are registered by
 * path, once each, with the archive format detected on registration; they
 * are handed out sorted by path, emptying the registry.
 *
 * The file system is a map from paths to file contents, and the directory
 * walk is the sequence of items `WalkDir` yields.
 */
module Input {
  import opened Base
  import opened Options
  import opened Formats

  /** Where an input's bytes come from. */
  datatype Origin = Filesystem | InMemory | Boxed

  /** `ContentKind`: a registered input, its detected format and the bytes its reader yields. */
  datatype Content = Content(path: string, format: Format, origin: Origin, data: seq<byte>)

  /** `InputError`: the path and why it could not be registered. */
  datatype InputError = InputError(path: string, error: FormatError)

  /** `input_path_exists` over a list: whether any entry has the path. */
  function HasPath(cs: seq<Content>, path: string): (b: bool)
    ensures b <==> exists i :: 0 <= i < |cs| && cs[i].path == path
    decreases |cs|
  {
    if cs == [] then false
    else
      var n := |cs| - 1;
      assert forall i :: 0 <= i < n ==> cs[..n][i] == cs[i];
      cs[n].path == path || HasPath(cs[..n], path)
  }

  /** No two entries share a path. */
  predicate DistinctPaths(cs: seq<Content>)
  {
    forall i, j :: 0 <= i < j < |cs| ==> cs[i].path != cs[j].path
  }

  datatype Registration = Registration(contents: seq<Content>, result: Result<(), InputError>)

  /**
   * `add_path` / `add_buffer` once detection has run: a path already
   * registered is accepted and nothing changes; an unsupported format is
   * accepted and dropped when `ignore_unsupported` is set; any other
   * detection error is reported with the path; otherwise one entry is
   * appended.
   */
  function Register(cs: seq<Content>, path: string, detected: Result<Format, FormatError>, origin: Origin, data: seq<byte>, ignoreUnsupported: bool): Registration
  {
    if HasPath(cs, path) then Registration(cs, Ok(()))
    else match detected
      case Ok(format) => Registration(cs + [Content(path, format, origin, data)], Ok(()))
      case Err(e) =>
        if e == UnsupportedFormat && ignoreUnsupported then Registration(cs, Ok(()))
        else Registration(cs, Err(InputError(path, e)))
  }

  /** A file's bytes, or None when it cannot be opened. */
  function Open(fs: map<string, seq<byte>>, path: string): Option<seq<byte>>
  {
    if path in fs then Some(fs[path]) else None
  }

  /** The cases of a registration, every one of them. */
  lemma RegisterCases(cs: seq<Content>, path: string, detected: Result<Format, FormatError>, origin: Origin, data: seq<byte>, ignore: bool)
    ensures var r := Register(cs, path, detected, origin, data, ignore);
      && (HasPath(cs, path) ==> r == Registration(cs, Ok(())))
      && (!HasPath(cs, path) && detected == Err(UnsupportedFormat) && ignore ==> r == Registration(cs, Ok(())))
      && (!HasPath(cs, path) && detected.Err? && !(detected.error == UnsupportedFormat && ignore) ==>
            r == Registration(cs, Err(InputError(path, detected.error))))
      && (|r.contents| == |cs| + 1 <==> !HasPath(cs, path) && detected.Ok?)
      && (r.contents != cs ==> r.contents == cs + [Content(path, detected.value, origin, data)])
  {
  }

  /** Registration keeps the registry free of duplicate paths, and afterwards the path is registered unless it failed or was dropped. */
  lemma RegisterKeepsPathsDistinct(cs: seq<Content>, path: string, detected: Result<Format, FormatError>, origin: Origin, data: seq<byte>, ignore: bool)
    requires DistinctPaths(cs)
    ensures DistinctPaths(Register(cs, path, detected, origin, data, ignore).contents)
    ensures HasPath(Register(cs, path, detected, origin, data, ignore).contents, path) <==> HasPath(cs, path) || detected.Ok?
  {
    var r := Register(cs, path, detected, origin, data, ignore);
    if r.contents != cs {
      var c := Content(path, detected.value, origin, data);
      assert forall i :: 0 <= i < |cs| ==> r.contents[i] == cs[i];
      assert r.contents[|cs|] == c;
    }
  }

  // ---------------------------------------------------------------------
  // Walking a directory.

  /** What `WalkDir` yields: an error (with the path it concerns, if any), or an entry. */
  datatype WalkItem = WalkError(at: Option<string>) | WalkEntry(path: string, isFile: bool)

  datatype Directory = Directory(contents: seq<Content>, errors: seq<InputError>)

  /** One walk item: an error is recorded as Io at its path (or the root); a file is added, its error recorded. */
  function DirectoryStep(d: Directory, root: string, item: WalkItem, fs: map<string, seq<byte>>, gunzip: seq<byte> -> seq<byte>, opts: ExtractionOptions): Directory
  {
    match item
    case WalkError(at) => d.(errors := d.errors + [InputError(if at.Some? then at.value else root, Io)])
    case WalkEntry(path, isFile) =>
      if !isFile then d
      else
        var r := Register(d.contents, path, TryFromPath(gunzip, Open(fs, path), opts), Filesystem, if path in fs then fs[path] else [], opts.ignoreUnsupported);
        Directory(r.contents, d.errors + if r.result.Err? then [r.result.error] else [])
  }

  /** `add_directory`: every walk item in turn, carrying on past failures. */
  function DirectorySpec(cs: seq<Content>, root: string, walk: seq<WalkItem>, fs: map<string, seq<byte>>, gunzip: seq<byte> -> seq<byte>, opts: ExtractionOptions): Directory
    decreases |walk|
  {
    if walk == [] then Directory(cs, [])
    else DirectoryStep(DirectorySpec(cs, root, walk[..|walk| - 1], fs, gunzip, opts), root, walk[|walk| - 1], fs, gunzip, opts)
  }

  /**
   * The walk carries on past failures: entries already registered stay,
   * every file whose format is detected ends up registered, and every walk
   * error is reported as an Io error at its path
   * (`DirectoryReportsEveryFailure` gives the errors exactly).
   */
  lemma {:induction false} DirectoryRegistersEveryFile(cs: seq<Content>, root: string, walk: seq<WalkItem>, fs: map<string, seq<byte>>, gunzip: seq<byte> -> seq<byte>, opts: ExtractionOptions)
    ensures var d := DirectorySpec(cs, root, walk, fs, gunzip, opts);
      && cs <= d.contents
      && (forall i :: 0 <= i < |walk| && walk[i].WalkEntry? && walk[i].isFile && TryFromPath(gunzip, Open(fs, walk[i].path), opts).Ok? ==>
            HasPath(d.contents, walk[i].path))
      && (forall i :: 0 <= i < |walk| && walk[i].WalkError? ==>
            InputError(if walk[i].at.Some? then walk[i].at.value else root, Io) in d.errors)
    decreases |walk|
  {
    if walk != [] {
      var n := |walk| - 1;
      var before := DirectorySpec(cs, root, walk[..n], fs, gunzip, opts);
      DirectoryRegistersEveryFile(cs, root, walk[..n], fs, gunzip, opts);
      assert forall i :: 0 <= i < n ==> walk[..n][i] == walk[i];
      DirectoryStepKeeps(before, root, walk[n], fs, gunzip, opts);
    }
  }

  /** One walk step keeps the entries and errors so far and only appends. */
  lemma DirectoryStepKeeps(d: Directory, root: string, item: WalkItem, fs: map<string, seq<byte>>, gunzip: seq<byte> -> seq<byte>, opts: ExtractionOptions)
    ensures var e := DirectoryStep(d, root, item, fs, gunzip, opts);
      && d.contents <= e.contents && d.errors <= e.errors
      && (forall p :: HasPath(d.contents, p) ==> HasPath(e.contents, p))
      && (item.WalkEntry? && item.isFile && TryFromPath(gunzip, Open(fs, item.path), opts).Ok? ==> HasPath(e.contents, item.path))
      && (item.WalkError? ==> InputError(if item.at.Some? then item.at.value else root, Io) in e.errors)
  {
    var e := DirectoryStep(d, root, item, fs, gunzip, opts);
    forall p | HasPath(d.contents, p)
      ensures HasPath(e.contents, p)
    {
      var i :| 0 <= i < |d.contents| && d.contents[i].path == p;
      assert e.contents[i] == d.contents[i];
    }
    if item.WalkEntry? && item.isFile && TryFromPath(gunzip, Open(fs, item.path), opts).Ok? && !HasPath(d.contents, item.path) {
      assert e.contents[|e.contents| - 1].path == item.path;
    }
  }

  /**
   * What one walk item must add to the errors, given the registry before
   * it: a walk error is Io at its path (or at the root); a file not yet
   * registered whose detection fails is that error at its path, unless it
   * is an unsupported format and those are ignored; nothing else fails.
   */
  function ItemFailures(contents: seq<Content>, root: string, item: WalkItem, fs: map<string, seq<byte>>, gunzip: seq<byte> -> seq<byte>, opts: ExtractionOptions): seq<InputError>
  {
    match item
    case WalkError(at) => [InputError(if at.Some? then at.value else root, Io)]
    case WalkEntry(path, isFile) =>
      if !isFile || HasPath(contents, path) then []
      else match TryFromPath(gunzip, Open(fs, path), opts)
        case Ok(_) => []
        case Err(e) => if e == UnsupportedFormat && opts.ignoreUnsupported then [] else [InputError(path, e)]
  }

  /** The failures of a walk in walk order, each item judged against the registry the items before it left. */
  function WalkFailures(cs: seq<Content>, root: string, walk: seq<WalkItem>, fs: map<string, seq<byte>>, gunzip: seq<byte> -> seq<byte>, opts: ExtractionOptions): seq<InputError>
    decreases |walk|
  {
    if walk == [] then []
    else
      var n := |walk| - 1;
      WalkFailures(cs, root, walk[..n], fs, gunzip, opts) + ItemFailures(DirectorySpec(cs, root, walk[..n], fs, gunzip, opts).contents, root, walk[n], fs, gunzip, opts)
  }

  /** One walk step appends exactly the item's failures to the errors. */
  lemma DirectoryStepFails(d: Directory, root: string, item: WalkItem, fs: map<string, seq<byte>>, gunzip: seq<byte> -> seq<byte>, opts: ExtractionOptions)
    ensures DirectoryStep(d, root, item, fs, gunzip, opts).errors == d.errors + ItemFailures(d.contents, root, item, fs, gunzip, opts)
  {
  }

  /**
   * `add_directory` returns one error per failure and nothing else, in walk
   * order: every walk error, and every walked file that could not be
   * registered.
   */
  lemma {:induction false} DirectoryReportsEveryFailure(cs: seq<Content>, root: string, walk: seq<WalkItem>, fs: map<string, seq<byte>>, gunzip: seq<byte> -> seq<byte>, opts: ExtractionOptions)
    ensures DirectorySpec(cs, root, walk, fs, gunzip, opts).errors == WalkFailures(cs, root, walk, fs, gunzip, opts)
    decreases |walk|
  {
    if walk != [] {
      var n := |walk| - 1;
      DirectoryReportsEveryFailure(cs, root, walk[..n], fs, gunzip, opts);
      DirectoryStepFails(DirectorySpec(cs, root, walk[..n], fs, gunzip, opts), root, walk[n], fs, gunzip, opts);
    }
  }

  /**
   * A walked file that is not yet registered and whose detection fails
   * (other than an ignored unsupported format) is reported with its path
   * and its error.
   */
  lemma FailedRegistrationReported(cs: seq<Content>, root: string, walk: seq<WalkItem>, fs: map<string, seq<byte>>, gunzip: seq<byte> -> seq<byte>, opts: ExtractionOptions, i: nat)
    requires i < |walk| && walk[i].WalkEntry? && walk[i].isFile
    requires !HasPath(DirectorySpec(cs, root, walk[..i], fs, gunzip, opts).contents, walk[i].path)
    requires var t := TryFromPath(gunzip, Open(fs, walk[i].path), opts); t.Err? && !(t.error == UnsupportedFormat && opts.ignoreUnsupported)
    ensures InputError(walk[i].path, TryFromPath(gunzip, Open(fs, walk[i].path), opts).error) in DirectorySpec(cs, root, walk, fs, gunzip, opts).errors
  {
    var e := InputError(walk[i].path, TryFromPath(gunzip, Open(fs, walk[i].path), opts).error);
    assert ItemFailures(DirectorySpec(cs, root, walk[..i], fs, gunzip, opts).contents, root, walk[i], fs, gunzip, opts) == [e];
    ItemFailureInWalk(cs, root, walk, fs, gunzip, opts, i, e);
    DirectoryReportsEveryFailure(cs, root, walk, fs, gunzip, opts);
  }

  /** Each item's failures are among the walk's. */
  lemma {:induction false} ItemFailureInWalk(cs: seq<Content>, root: string, walk: seq<WalkItem>, fs: map<string, seq<byte>>, gunzip: seq<byte> -> seq<byte>, opts: ExtractionOptions, i: nat, e: InputError)
    requires i < |walk| && e in ItemFailures(DirectorySpec(cs, root, walk[..i], fs, gunzip, opts).contents, root, walk[i], fs, gunzip, opts)
    ensures e in WalkFailures(cs, root, walk, fs, gunzip, opts)
    decreases |walk|
  {
    var n := |walk| - 1;
    var pre := WalkFailures(cs, root, walk[..n], fs, gunzip, opts);
    assert WalkFailures(cs, root, walk, fs, gunzip, opts) == pre + ItemFailures(DirectorySpec(cs, root, walk[..n], fs, gunzip, opts).contents, root, walk[n], fs, gunzip, opts);
    if i < n {
      assert walk[..n][..i] == walk[..i] && walk[..n][i] == walk[i];
      ItemFailureInWalk(cs, root, walk[..n], fs, gunzip, opts, i, e);
      assert e in pre;
    }
  }

  // ---------------------------------------------------------------------
  // Ordering by path.

  /**
   * A path component, as `Path::components` yields them on Unix, declared
   * in the order `Component` derives: the root, a leading ".", "..", and a
   * name.
   */
  datatype Component = RootDir | CurDir | ParentDir | Normal(name: string)

  /** The pieces of `p` between separators, empty ones included. */
  function Split(p: string): (ps: seq<string>)
    ensures |ps| >= 1
    decreases |p|
  {
    if p == [] then [""]
    else
      var rest := Split(p[1..]);
      if p[0] == '/' then [""] + rest else [[p[0]] + rest[0]] + rest[1..]
  }

  /** Pieces past the start: empty pieces and "." are dropped, ".." is ParentDir, the rest are names. */
  function Normals(ps: seq<string>): seq<Component>
    decreases |ps|
  {
    if ps == [] then []
    else
      var rest := Normals(ps[1..]);
      if ps[0] == "" || ps[0] == "." then rest
      else if ps[0] == ".." then [ParentDir] + rest
      else [Normal(ps[0])] + rest
  }

  /**
   * `Path::components`: a leading separator is RootDir; otherwise a
   * leading "." piece is CurDir; repeated separators, a trailing one and
   * every other "." piece yield nothing.
   */
  function Components(p: string): seq<Component>
  {
    var ps := Split(p);
    if p != [] && p[0] == '/' then [RootDir] + Normals(ps[1..])
    else if ps[0] == "." then [CurDir] + Normals(ps[1..])
    else Normals(ps)
  }

  /** Names compare character by character, a prefix first (as their UTF-8 bytes do). */
  predicate NameLe(a: string, b: string)
    decreases |a|
  {
    a == [] || (b != [] && (a[0] < b[0] || (a[0] == b[0] && NameLe(a[1..], b[1..]))))
  }

  lemma {:induction false} NameLeTotal(a: string, b: string)
    ensures NameLe(a, b) || NameLe(b, a)
    decreases |a|
  {
    if a != [] && b != [] && a[0] == b[0] {
      NameLeTotal(a[1..], b[1..]);
    }
  }

  lemma {:induction false} NameLeTransitive(a: string, b: string, c: string)
    requires NameLe(a, b) && NameLe(b, c)
    ensures NameLe(a, c)
    decreases |a|
  {
    if a != [] && a[0] == b[0] && b[0] == c[0] {
      NameLeTransitive(a[1..], b[1..], c[1..]);
    }
  }

  lemma {:induction false} NameLeAntisymmetric(a: string, b: string)
    requires NameLe(a, b) && NameLe(b, a)
    ensures a == b
    decreases |a|
  {
    if a != [] {
      NameLeAntisymmetric(a[1..], b[1..]);
      assert a == [a[0]] + a[1..] && b == [b[0]] + b[1..];
    }
  }

  function Rank(c: Component): nat
  {
    match c
    case RootDir => 0
    case CurDir => 1
    case ParentDir => 2
    case Normal(_) => 3
  }

  /** The derived order of `Component`: by variant, then names by their bytes. */
  predicate ComponentLt(x: Component, y: Component)
  {
    Rank(x) < Rank(y) || (x.Normal? && y.Normal? && x.name != y.name && NameLe(x.name, y.name))
  }

  lemma ComponentTrichotomy(x: Component, y: Component)
    ensures ComponentLt(x, y) || x == y || ComponentLt(y, x)
  {
    if x.Normal? && y.Normal? {
      NameLeTotal(x.name, y.name);
    }
  }

  lemma ComponentLtTransitive(x: Component, y: Component, z: Component)
    requires ComponentLt(x, y) && ComponentLt(y, z)
    ensures ComponentLt(x, z)
  {
    if x.Normal? && y.Normal? && z.Normal? {
      NameLeTransitive(x.name, y.name, z.name);
      if x.name == z.name {
        NameLeAntisymmetric(x.name, y.name);
      }
    }
  }

  /** Component sequences compare lexicographically, a prefix first. */
  predicate ComponentsLe(a: seq<Component>, b: seq<Component>)
    decreases |a|
  {
    a == [] || (b != [] && (ComponentLt(a[0], b[0]) || (a[0] == b[0] && ComponentsLe(a[1..], b[1..]))))
  }

  lemma {:induction false} ComponentsLeReflexive(a: seq<Component>)
    ensures ComponentsLe(a, a)
    decreases |a|
  {
    if a != [] {
      ComponentsLeReflexive(a[1..]);
    }
  }

  /**
   * `Path::cmp`, as `sort_by` uses it: component by component, so that
   * paths with the same components are equal and a directory's entries
   * sort next to the directory's name.
   */
  function PathLe(a: string, b: string): (le: bool)
    ensures Components(a) == Components(b) ==> le
  {
    ComponentsLeReflexive(Components(a));
    ComponentsLe(Components(a), Components(b))
  }

  lemma {:induction false} ComponentsLeTotal(a: seq<Component>, b: seq<Component>)
    ensures ComponentsLe(a, b) || ComponentsLe(b, a)
    decreases |a|
  {
    if a != [] && b != [] {
      ComponentTrichotomy(a[0], b[0]);
      if a[0] == b[0] {
        ComponentsLeTotal(a[1..], b[1..]);
      }
    }
  }

  lemma {:induction false} ComponentsLeTransitive(a: seq<Component>, b: seq<Component>, c: seq<Component>)
    requires ComponentsLe(a, b) && ComponentsLe(b, c)
    ensures ComponentsLe(a, c)
    decreases |a|
  {
    if a != [] {
      if a[0] == b[0] && b[0] == c[0] {
        ComponentsLeTransitive(a[1..], b[1..], c[1..]);
      } else if ComponentLt(a[0], b[0]) && ComponentLt(b[0], c[0]) {
        ComponentLtTransitive(a[0], b[0], c[0]);
      }
    }
  }

  lemma PathLeTotal(a: string, b: string)
    ensures PathLe(a, b) || PathLe(b, a)
  {
    ComponentsLeTotal(Components(a), Components(b));
  }

  lemma PathLeTransitive(a: string, b: string, c: string)
    requires PathLe(a, b) && PathLe(b, c)
    ensures PathLe(a, c)
  {
    ComponentsLeTransitive(Components(a), Components(b), Components(c));
  }

  /** A string without separators is one piece. */
  lemma {:induction false} SplitPlain(x: string)
    requires forall i :: 0 <= i < |x| ==> x[i] != '/'
    ensures Split(x) == [x]
    decreases |x|
  {
    if x != [] {
      SplitPlain(x[1..]);
      assert [x[0]] + x[1..] == x;
    }
  }

  /** A separator after a first piece without one splits it off. */
  lemma {:induction false} SplitSeparated(x: string, y: string)
    requires forall i :: 0 <= i < |x| ==> x[i] != '/'
    ensures Split(x + "/" + y) == [x] + Split(y)
    decreases |x|
  {
    var p := x + "/" + y;
    if x == [] {
      assert p[1..] == y;
    } else {
      assert p[0] == x[0] && p[1..] == x[1..] + "/" + y;
      SplitSeparated(x[1..], y);
      assert [x[0]] + x[1..] == x;
    }
  }

  /** A piece `Path::components` yields as a name. */
  predicate IsName(x: string)
  {
    x != "" && x != "." && x != ".." && forall i :: 0 <= i < |x| ==> x[i] != '/'
  }

  /**
   * A directory `d` holding `x` sorts before a sibling file `d` + `ext`
   * (say "in/a/x.tar" before "in/a.tar"): the component `d` is a prefix
   * of `d` + `ext`. Character by character the order is the other way
   * round, as '.' comes before '/'.
   */
  lemma DirectoryBeforeDottedSibling(root: string, d: string, x: string, ext: string)
    requires IsName(root) && IsName(d) && IsName(x)
    requires ext != [] && ext[0] == '.' && forall i :: 0 <= i < |ext| ==> ext[i] != '/'
    ensures var nested := root + "/" + d + "/" + x;
      var sibling := root + "/" + d + ext;
      && PathLe(nested, sibling) && !PathLe(sibling, nested)
      && NameLe(sibling, nested) && !NameLe(nested, sibling)
  {
    DirectoryBeforeSiblingByComponents(root, d, x, ext);
    SiblingBeforeDirectoryByCharacters(root + "/" + d, x, ext);
  }

  /** The component half: `d` is a proper prefix, so below `d.ext`. */
  lemma DirectoryBeforeSiblingByComponents(root: string, d: string, x: string, ext: string)
    requires IsName(root) && IsName(d) && IsName(x)
    requires ext != [] && ext[0] == '.' && forall i :: 0 <= i < |ext| ==> ext[i] != '/'
    ensures PathLe(root + "/" + d + "/" + x, root + "/" + d + ext)
    ensures !PathLe(root + "/" + d + ext, root + "/" + d + "/" + x)
  {
    var de := d + ext;
    assert IsName(de) by {
      assert de[..|d|] == d && de[|d|] == '.';
      assert forall i :: 0 <= i < |de| ==> de[i] == if i < |d| then d[i] else ext[i - |d|];
    }
    NestedComponents(root, d, x);
    assert root + "/" + d + ext == root + "/" + de;
    PieceComponents(root, de);
    NameLePrefix(d, [], ext);
    NameLePrefix(d, ext, []);
    assert d + [] == d;
    ComponentOrder(Normal(root), Normal(d), Normal(x), Normal(de));
  }

  /** The character half: after the common prefix, '.' is below '/'. */
  lemma SiblingBeforeDirectoryByCharacters(c: string, x: string, ext: string)
    requires ext != [] && ext[0] == '.'
    ensures NameLe(c + ext, c + "/" + x) && !NameLe(c + "/" + x, c + ext)
  {
    assert c + "/" + x == c + ("/" + x);
    NameLePrefix(c, ext, "/" + x);
    NameLePrefix(c, "/" + x, ext);
  }

  /** [r, a, x] comes before [r, b] exactly when a comes before b, here strictly. */
  lemma ComponentOrder(r: Component, a: Component, x: Component, b: Component)
    requires ComponentLt(a, b) && !ComponentLt(b, a) && a != b
    ensures ComponentsLe([r, a, x], [r, b]) && !ComponentsLe([r, b], [r, a, x])
  {
    assert [r, a, x][1..] == [a, x] && [r, b][1..] == [b];
  }

  /** The components of `root/d/x`. */
  lemma NestedComponents(root: string, d: string, x: string)
    requires IsName(root) && IsName(d) && IsName(x)
    ensures Components(root + "/" + d + "/" + x) == [Normal(root), Normal(d), Normal(x)]
  {
    var p := root + "/" + d + "/" + x;
    assert p == root + "/" + (d + "/" + x);
    SplitSeparated(root, d + "/" + x);
    SplitSeparated(d, x);
    SplitPlain(x);
    SplitNames(root, d, x);
    assert p[0] == root[0];
    RelativeComponents(p);
  }

  lemma SplitNames(root: string, d: string, x: string)
    requires IsName(root) && IsName(d) && IsName(x)
    ensures Normals([root] + ([d] + [x])) == [Normal(root), Normal(d), Normal(x)]
  {
    NameComponent(x, []);
    NameComponent(d, [x]);
    NameComponent(root, [d] + [x]);
  }

  /** The components of `root/y`. */
  lemma PieceComponents(root: string, y: string)
    requires IsName(root) && IsName(y)
    ensures Components(root + "/" + y) == [Normal(root), Normal(y)]
  {
    var p := root + "/" + y;
    SplitSeparated(root, y);
    SplitPlain(y);
    NameComponent(y, []);
    NameComponent(root, [y]);
    assert p[0] == root[0];
    RelativeComponents(p);
  }

  /** A common prefix does not change how names compare. */
  lemma {:induction false} NameLePrefix(c: string, a: string, b: string)
    ensures NameLe(c + a, c + b) <==> NameLe(a, b)
    decreases |c|
  {
    if c != [] {
      assert (c + a)[0] == c[0] && (c + a)[1..] == c[1..] + a;
      assert (c + b)[0] == c[0] && (c + b)[1..] == c[1..] + b;
      NameLePrefix(c[1..], a, b);
    } else {
      assert c + a == a && c + b == b;
    }
  }

  /** A piece other than "", "." and ".." is a name. */
  lemma NameComponent(x: string, rest: seq<string>)
    requires x != "" && x != "." && x != ".."
    ensures Normals([x] + rest) == [Normal(x)] + Normals(rest)
  {
    assert ([x] + rest)[1..] == rest;
  }

  /** A path starting with neither a separator nor a "." piece is its pieces' components. */
  lemma RelativeComponents(p: string)
    requires p != [] && p[0] != '/' && Split(p)[0] != "."
    ensures Components(p) == Normals(Split(p))
  {
  }

  /** An order on paths, as `sort_by` is given one by its comparator. */
  type PathOrder = (string, string) -> bool

  /** The comparator is total and transitive, as `Ord` requires. */
  ghost predicate TotalPreorder(le: PathOrder)
  {
    (forall a, b :: le(a, b) || le(b, a)) &&
    (forall a, b, c :: le(a, b) && le(b, c) ==> le(a, c))
  }

  lemma PathLeTotalPreorder()
    ensures TotalPreorder(PathLe)
  {
    forall a, b
      ensures PathLe(a, b) || PathLe(b, a)
    {
      PathLeTotal(a, b);
    }
    forall a, b, c | PathLe(a, b) && PathLe(b, c)
      ensures PathLe(a, c)
    {
      PathLeTransitive(a, b, c);
    }
  }

  predicate SortedBy(le: PathOrder, cs: seq<Content>)
  {
    forall i, j :: 0 <= i < j < |cs| ==> le(cs[i].path, cs[j].path)
  }

  predicate SortedByPath(cs: seq<Content>)
  {
    SortedBy(PathLe, cs)
  }

  /** Places `c` after every entry whose path is not greater, which keeps equal paths in arrival order. */
  function Insert(le: PathOrder, c: Content, cs: seq<Content>): seq<Content>
    decreases |cs|
  {
    if cs == [] then [c]
    else if !le(cs[0].path, c.path) then [c] + cs
    else [cs[0]] + Insert(le, c, cs[1..])
  }

  /** `sort_by`: a stable sort, written as insertion. */
  function SortBy(le: PathOrder, cs: seq<Content>): seq<Content>
    decreases |cs|
  {
    if cs == [] then [] else Insert(le, cs[|cs| - 1], SortBy(le, cs[..|cs| - 1]))
  }

  /** `sort_by(|a, b| a.path.cmp(&b.path))`. */
  function SortByPath(cs: seq<Content>): seq<Content>
  {
    SortBy(PathLe, cs)
  }

  /** Inserting adds exactly the one entry. */
  lemma {:induction false} InsertPermutes(le: PathOrder, c: Content, cs: seq<Content>)
    ensures multiset(Insert(le, c, cs)) == multiset(cs) + multiset{c}
    decreases |cs|
  {
    if cs != [] && le(cs[0].path, c.path) {
      InsertPermutes(le, c, cs[1..]);
      assert cs == [cs[0]] + cs[1..];
    }
  }

  lemma {:induction false} InsertSorted(le: PathOrder, c: Content, cs: seq<Content>)
    requires TotalPreorder(le) && SortedBy(le, cs)
    ensures SortedBy(le, Insert(le, c, cs))
    decreases |cs|
  {
    if cs == [] {
    } else if !le(cs[0].path, c.path) {
      forall j | 0 <= j < |cs|
        ensures le(c.path, cs[j].path)
      {
        if j > 0 {
          assert le(cs[0].path, cs[j].path);
        }
      }
      InsertFront(le, c, cs);
    } else {
      var t := cs[1..];
      assert SortedBy(le, t) by {
        forall i, j | 0 <= i < j < |t|
          ensures le(t[i].path, t[j].path)
        {
          assert t[i] == cs[i + 1] && t[j] == cs[j + 1];
        }
      }
      InsertSorted(le, c, t);
      InsertPermutes(le, c, t);
      assert cs == [cs[0]] + t;
      InsertBehind(le, cs[0], c, t);
    }
  }

  /** `c` goes in front of a sorted list whose entries are all no smaller. */
  lemma InsertFront(le: PathOrder, c: Content, cs: seq<Content>)
    requires SortedBy(le, cs)
    requires forall j :: 0 <= j < |cs| ==> le(c.path, cs[j].path)
    ensures SortedBy(le, [c] + cs)
    ensures multiset([c] + cs) == multiset(cs) + multiset{c}
  {
    var s := [c] + cs;
    forall i, j | 0 <= i < j < |s|
      ensures le(s[i].path, s[j].path)
    {
      if i > 0 {
        assert s[i] == cs[i - 1];
      }
      assert s[j] == cs[j - 1];
    }
  }

  /** A head no greater than anything behind it stays in front. */
  lemma InsertBehind(le: PathOrder, h: Content, c: Content, t: seq<Content>)
    requires SortedBy(le, [h] + t) && le(h.path, c.path)
    requires SortedBy(le, Insert(le, c, t)) && multiset(Insert(le, c, t)) == multiset(t) + multiset{c}
    ensures SortedBy(le, [h] + Insert(le, c, t))
    ensures multiset([h] + Insert(le, c, t)) == multiset([h] + t) + multiset{c}
  {
    var u := Insert(le, c, t);
    var s := [h] + u;
    forall k | 0 <= k < |u|
      ensures le(h.path, u[k].path)
    {
      assert u[k] in multiset(u);
      if u[k] != c {
        assert u[k] in multiset(t);
        var m :| 0 <= m < |t| && t[m] == u[k];
        assert ([h] + t)[0] == h && ([h] + t)[m + 1] == t[m];
      }
    }
    forall i, j | 0 <= i < j < |s|
      ensures le(s[i].path, s[j].path)
    {
      assert s[j] == u[j - 1];
      if i > 0 {
        assert s[i] == u[i - 1];
      }
    }
  }

  /** Sorting by a total order puts the entries in that order. */
  lemma {:induction false} SortBySorts(le: PathOrder, cs: seq<Content>)
    requires TotalPreorder(le)
    ensures SortedBy(le, SortBy(le, cs))
    decreases |cs|
  {
    if cs != [] {
      var n := |cs| - 1;
      SortBySorts(le, cs[..n]);
      InsertSorted(le, cs[n], SortBy(le, cs[..n]));
    }
  }

  /** Sorting keeps every entry, each as often as it occurs. */
  lemma {:induction false} SortByPermutes(le: PathOrder, cs: seq<Content>)
    ensures multiset(SortBy(le, cs)) == multiset(cs)
    decreases |cs|
  {
    if cs != [] {
      var n := |cs| - 1;
      SortByPermutes(le, cs[..n]);
      InsertPermutes(le, cs[n], SortBy(le, cs[..n]));
      assert cs == cs[..n] + [cs[n]];
    }
  }

  /** Sorting gives every entry once, ordered by path. */
  lemma SortByPathSorts(cs: seq<Content>)
    ensures SortedByPath(SortByPath(cs))
    ensures multiset(SortByPath(cs)) == multiset(cs)
  {
    PathLeTotalPreorder();
    SortBySorts(PathLe, cs);
    SortByPermutes(PathLe, cs);
  }

  // ---------------------------------------------------------------------
  // The registry object.

  class InputContents {
    var contents: seq<Content>

    /** `new`: an empty registry. */
    constructor ()
      ensures contents == []
    {
      contents := [];
    }

    function Len(): nat
      reads this
    {
      |contents|
    }

    /** `is_empty`: nothing is registered. */
    function IsEmpty(): (e: bool)
      reads this
      ensures e <==> Len() == 0
    {
      contents == []
    }

    /** `input_path_exists`. */
    function InputPathExists(path: string): (b: bool)
      reads this
      ensures b <==> exists i :: 0 <= i < |contents| && contents[i].path == path
    {
      HasPath(contents, path)
    }

    /** `add_path`: detection reads the file; a file that cannot be opened is an Io error. */
    method AddPath(path: string, fs: map<string, seq<byte>>, gunzip: seq<byte> -> seq<byte>, opts: ExtractionOptions)
      returns (r: Result<(), InputError>)
      modifies this
      ensures Registration(contents, r) ==
        Register(old(contents), path, TryFromPath(gunzip, Open(fs, path), opts), Filesystem, if path in fs then fs[path] else [], opts.ignoreUnsupported)
    {
      if InputPathExists(path) {
        return Ok(());
      }
      var detected := TryFromPath(gunzip, Open(fs, path), opts);
      if detected.Err? {
        if detected.error == UnsupportedFormat && opts.ignoreUnsupported {
          return Ok(());
        }
        return Err(InputError(path, detected.error));
      }
      contents := contents + [Content(path, detected.value, Filesystem, fs[path])];
      r := Ok(());
    }

    /** `add_buffer`: detection runs over the buffer itself. */
    method AddBuffer(path: string, buffer: seq<byte>, gunzip: seq<byte> -> seq<byte>, opts: ExtractionOptions)
      returns (r: Result<(), InputError>)
      modifies this
      ensures Registration(contents, r) ==
        Register(old(contents), path, DetectType(gunzip, buffer, opts), InMemory, buffer, opts.ignoreUnsupported)
    {
      if InputPathExists(path) {
        return Ok(());
      }
      var detected := DetectType(gunzip, buffer, opts);
      if detected.Err? {
        if detected.error == UnsupportedFormat && opts.ignoreUnsupported {
          return Ok(());
        }
        return Err(InputError(path, detected.error));
      }
      contents := contents + [Content(path, detected.value, InMemory, buffer)];
      r := Ok(());
    }

    /** `add_reader`: the caller names the format; the entry is appended even for a path already there. */
    method AddReader(path: string, data: seq<byte>, format: Format)
      modifies this
      ensures contents == old(contents) + [Content(path, format, Boxed, data)]
      ensures Len() == old(Len()) + 1
    {
      contents := contents + [Content(path, format, Boxed, data)];
    }

    /** `add_directory`, proved against `DirectorySpec`. */
    method AddDirectory(root: string, walk: seq<WalkItem>, fs: map<string, seq<byte>>, gunzip: seq<byte> -> seq<byte>, opts: ExtractionOptions)
      returns (errors: seq<InputError>)
      modifies this
      ensures Directory(contents, errors) == DirectorySpec(old(contents), root, walk, fs, gunzip, opts)
    {
      errors := [];
      for i := 0 to |walk|
        invariant Directory(contents, errors) == DirectorySpec(old(contents), root, walk[..i], fs, gunzip, opts)
      {
        assert walk[..i + 1][..i] == walk[..i];
        match walk[i]
        case WalkError(at) =>
          errors := errors + [InputError(if at.Some? then at.value else root, Io)];
        case WalkEntry(path, isFile) =>
          if isFile {
            var added := AddPath(path, fs, gunzip, opts);
            if added.Err? {
              errors := errors + [added.error];
            } else {
              assert errors + [] == errors;
            }
          }
      }
      assert walk[..|walk|] == walk;
    }

    /** `contents_sequential`: every entry, sorted by path; the registry is left empty. */
    method ContentsSequential() returns (sorted: seq<Content>)
      modifies this
      ensures sorted == SortByPath(old(contents)) && contents == []
      ensures SortedByPath(sorted) && multiset(sorted) == multiset(old(contents))
    {
      sorted := SortByPath(contents);
      SortByPathSorts(contents);
      contents := [];
    }
  }
}
