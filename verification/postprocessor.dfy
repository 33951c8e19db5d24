/** The editor's asset postprocessor: which changed assets are Ecsact
    packages, whether code generation runs, and the plan it derives (generated
    script moves and deletions, the generator's argument string, and the
    runtime builder's file list). The asset database, the generator process
    and the builder are not modelled; the discovered package paths are a
    parameter. */
module Postprocessor {
  import opened Native
  import opened Seqs

  // ---------------------------------------------------------------------
  // Path.GetExtension

  /** Directory and volume separators on the editor's platform. */
  predicate IsSeparator(c: char)
  {
    c == '/' || c == '\\' || c == ':'
  }

  /** `Path.GetExtension` over the first `i` characters of `p`: scan back for
      a '.', stopping at a separator; a '.' in the last position of the whole
      path gives the empty extension. */
  function ExtensionBefore(p: string, i: nat): (e: string)
    requires i <= |p|
    ensures e == "" || (|e| <= |p| && p[|p| - |e|..] == e && e[0] == '.')
    decreases i
  {
    if i == 0 then ""
    else if p[i - 1] == '.' then (if i == |p| then "" else p[i - 1..])
    else if IsSeparator(p[i - 1]) then ""
    else ExtensionBefore(p, i - 1)
  }

  function Extension(p: string): string
  {
    ExtensionBefore(p, |p|)
  }

  const PackageExtension: string := ".ecsact"

  predicate IsPackage(p: string)
  {
    Extension(p) == PackageExtension
  }

  /** The extension test is an ordinal suffix test: ".ecsact" holds no dot
      after its first character and no separator. */
  lemma PackageIffSuffix(p: string)
    ensures IsPackage(p) <==> |p| >= 7 && p[|p| - 7..] == PackageExtension
  {
    var n := |p|;
    if n >= 7 && p[n - 7..] == PackageExtension {
      assert forall j :: 0 <= j < 7 ==> p[n - 7 + j] == PackageExtension[j];
      ExtensionSkips(p, n);
      ExtensionSkips(p, n - 1);
      ExtensionSkips(p, n - 2);
      ExtensionSkips(p, n - 3);
      ExtensionSkips(p, n - 4);
      ExtensionSkips(p, n - 5);
    }
  }

  /** A character that is neither a dot nor a separator is skipped. */
  lemma ExtensionSkips(p: string, i: nat)
    requires 0 < i <= |p| && p[i - 1] != '.' && !IsSeparator(p[i - 1])
    ensures ExtensionBefore(p, i) == ExtensionBefore(p, i - 1)
  {
  }

  /** The dot must be in the last path component: a directory named like a
      package does not make its files packages, and a trailing dot has no
      extension. */
  lemma ExtensionIsLastComponentOnly()
    ensures !IsPackage("pkgs.ecsact/readme")
    ensures !IsPackage("a.ecsact.")
    ensures IsPackage("Assets/game.ecsact")
  {
    PackageIffSuffix("pkgs.ecsact/readme");
    PackageIffSuffix("a.ecsact.");
    PackageIffSuffix("Assets/game.ecsact");
  }

  // ---------------------------------------------------------------------
  // Classification

  /** The order-preserving filter of `ps` to packages. */
  function FilterPackages(ps: seq<string>): (r: seq<string>)
    ensures |r| <= |ps|
    ensures forall p :: p in r <==> p in ps && IsPackage(p)
    decreases |ps|
  {
    if ps == [] then []
    else (if IsPackage(ps[0]) then [ps[0]] else []) + FilterPackages(ps[1..])
  }

  /** Filtering is a homomorphism over concatenation, so order is kept. */
  lemma {:induction false} FilterPackagesAppend(a: seq<string>, b: seq<string>)
    ensures FilterPackages(a + b) == FilterPackages(a) + FilterPackages(b)
    decreases |a|
  {
    if a != [] {
      assert (a + b)[0] == a[0] && (a + b)[1..] == a[1..] + b;
      FilterPackagesAppend(a[1..], b);
    } else {
      assert a + b == b;
    }
  }

  lemma {:induction false} FilterPackagesIdempotent(ps: seq<string>)
    ensures FilterPackages(FilterPackages(ps)) == FilterPackages(ps)
    decreases |ps|
  {
    if ps != [] {
      var head := if IsPackage(ps[0]) then [ps[0]] else [];
      FilterPackagesAppend(head, FilterPackages(ps[1..]));
      FilterPackagesIdempotent(ps[1..]);
    }
  }

  /** A moved asset: where it went and where it came from. */
  datatype MovedPkg = MovedPkg(to: string, from: string)

  /** The loop over `movedAssets`: index `i` is read from `movedFromAssetPaths`
      only when `movedAssets[i]` is a package, so that array only needs to be
      long enough for those indices. */
  predicate MovedFromCovers(moved: seq<string>, movedFrom: seq<string>)
  {
    forall i :: 0 <= i < |moved| && IsPackage(moved[i]) ==> i < |movedFrom|
  }

  function MovedFromIndex(moved: seq<string>, movedFrom: seq<string>, i: nat): (r: seq<MovedPkg>)
    requires i <= |moved| && MovedFromCovers(moved, movedFrom)
    ensures forall m :: m in r ==>
      exists j :: i <= j < |moved| && IsPackage(moved[j]) && j < |movedFrom| && m == MovedPkg(moved[j], movedFrom[j])
    ensures forall j :: i <= j < |moved| && IsPackage(moved[j]) ==> MovedPkg(moved[j], movedFrom[j]) in r
    decreases |moved| - i
  {
    if i == |moved| then []
    else (if IsPackage(moved[i]) then [MovedPkg(moved[i], movedFrom[i])] else []) + MovedFromIndex(moved, movedFrom, i + 1)
  }

  /** `movedPkgs`: one entry per moved package, paired with the path at the
      same index, in index order. The source path's extension is not checked. */
  function MovedPackages(moved: seq<string>, movedFrom: seq<string>): (r: seq<MovedPkg>)
    requires MovedFromCovers(moved, movedFrom)
    ensures forall m :: m in r ==>
      exists j :: 0 <= j < |moved| && IsPackage(moved[j]) && j < |movedFrom| && m == MovedPkg(moved[j], movedFrom[j])
    ensures forall j :: 0 <= j < |moved| && IsPackage(moved[j]) ==> MovedPkg(moved[j], movedFrom[j]) in r
  {
    MovedFromIndex(moved, movedFrom, 0)
  }

  /** One more moved asset adds at most one entry, at the end, paired with
      the source path at its own index: with `MovedPackages([], f) == []`
      this fixes the list's order and multiplicity. */
  lemma MovedPackagesAppend(moved: seq<string>, a: string, movedFrom: seq<string>)
    requires MovedFromCovers(moved + [a], movedFrom)
    ensures MovedFromCovers(moved, movedFrom)
    ensures IsPackage(a) ==> |moved| < |movedFrom|
    ensures MovedPackages(moved + [a], movedFrom)
         == MovedPackages(moved, movedFrom) + (if IsPackage(a) then [MovedPkg(a, movedFrom[|moved|])] else [])
  {
    MovedFromIndexAppend(moved, a, movedFrom, 0);
  }

  lemma {:induction false} MovedFromIndexAppend(moved: seq<string>, a: string, movedFrom: seq<string>, i: nat)
    requires i <= |moved| && MovedFromCovers(moved + [a], movedFrom)
    ensures MovedFromCovers(moved, movedFrom)
    ensures IsPackage(a) ==> |moved| < |movedFrom|
    ensures MovedFromIndex(moved + [a], movedFrom, i)
         == MovedFromIndex(moved, movedFrom, i) + (if IsPackage(a) then [MovedPkg(a, movedFrom[|moved|])] else [])
    decreases |moved| - i
  {
    var ma := moved + [a];
    forall j | 0 <= j < |moved| && IsPackage(moved[j])
      ensures j < |movedFrom|
    {
      assert ma[j] == moved[j];
    }
    assert ma[|moved|] == a;
    var last := if IsPackage(a) then [MovedPkg(a, movedFrom[|moved|])] else [];
    if i == |moved| {
      assert MovedFromIndex(ma, movedFrom, i + 1) == [];
      assert MovedFromIndex(ma, movedFrom, i) == last + [];
    } else {
      MovedFromIndexAppend(moved, a, movedFrom, i + 1);
      assert ma[i] == moved[i];
      var head := if IsPackage(moved[i]) then [MovedPkg(moved[i], movedFrom[i])] else [];
      var rest := MovedFromIndex(moved, movedFrom, i + 1);
      assert MovedFromIndex(ma, movedFrom, i) == head + (rest + last);
      assert MovedFromIndex(moved, movedFrom, i) == head + rest;
      assert head + (rest + last) == (head + rest) + last;
    }
  }

  function Destinations(ms: seq<MovedPkg>): (r: seq<string>)
    ensures |r| == |ms| && forall k :: 0 <= k < |ms| ==> r[k] == ms[k].to
  {
    seq(|ms|, k requires 0 <= k < |ms| => ms[k].to)
  }

  /** The destinations of the moved packages are exactly the package filter
      of the moved assets, in order. */
  lemma {:induction false} MovedDestinationsAreFiltered(moved: seq<string>, movedFrom: seq<string>, i: nat)
    requires i <= |moved| && MovedFromCovers(moved, movedFrom)
    ensures Destinations(MovedFromIndex(moved, movedFrom, i)) == FilterPackages(moved[i..])
    decreases |moved| - i
  {
    if i < |moved| {
      MovedDestinationsAreFiltered(moved, movedFrom, i + 1);
      var tail := moved[i..];
      assert tail[0] == moved[i] && tail[1..] == moved[i + 1..];
      var head := if IsPackage(moved[i]) then [MovedPkg(moved[i], movedFrom[i])] else [];
      var rest := MovedFromIndex(moved, movedFrom, i + 1);
      assert MovedFromIndex(moved, movedFrom, i) == head + rest;
      assert FilterPackages(tail) == (if IsPackage(moved[i]) then [moved[i]] else []) + FilterPackages(moved[i + 1..]);
      DestinationsAppend(head, rest);
    }
  }

  lemma DestinationsAppend(a: seq<MovedPkg>, b: seq<MovedPkg>)
    ensures Destinations(a + b) == Destinations(a) + Destinations(b)
  {
  }

  /** A non-package source moved onto a package path still counts. */
  lemma SourceExtensionIgnored()
    ensures MovedFromCovers(["a.ecsact"], ["notes.txt"])
    ensures MovedPackages(["a.ecsact"], ["notes.txt"]) == [MovedPkg("a.ecsact", "notes.txt")]
  {
    PackageIffSuffix("a.ecsact");
  }

  datatype Classified = Classified(imported: seq<string>, deleted: seq<string>, moved: seq<MovedPkg>)

  /** `OnPostprocessAllAssets`: classify, then run code generation only when
      some list is non-empty. `None` means code generation does not run. */
  function Postprocess(imported: seq<string>, deleted: seq<string>, moved: seq<string>, movedFrom: seq<string>): (r: Option<Classified>)
    requires MovedFromCovers(moved, movedFrom)
    ensures r.Some? <==>
      || (exists p :: p in imported && IsPackage(p))
      || (exists p :: p in deleted && IsPackage(p))
      || (exists i :: 0 <= i < |moved| && IsPackage(moved[i]))
    ensures r.Some? ==>
      r.value.imported == FilterPackages(imported) && r.value.deleted == FilterPackages(deleted)
      && r.value.moved == MovedPackages(moved, movedFrom)
  {
    var c := Classified(FilterPackages(imported), FilterPackages(deleted), MovedPackages(moved, movedFrom));
    SomePackageIffNonEmpty(imported);
    SomePackageIffNonEmpty(deleted);
    SomeMovedIffNonEmpty(moved, movedFrom);
    if |c.imported| > 0 || |c.deleted| > 0 || |c.moved| > 0 then Some(c) else None
  }

  lemma SomePackageIffNonEmpty(ps: seq<string>)
    ensures |FilterPackages(ps)| > 0 <==> exists p :: p in ps && IsPackage(p)
  {
    var r := FilterPackages(ps);
    if |r| > 0 {
      assert r[0] in r;
    }
    if exists p :: p in ps && IsPackage(p) {
      var p :| p in ps && IsPackage(p);
      assert p in r;
    }
  }

  lemma SomeMovedIffNonEmpty(moved: seq<string>, movedFrom: seq<string>)
    requires MovedFromCovers(moved, movedFrom)
    ensures |MovedPackages(moved, movedFrom)| > 0 <==> exists i :: 0 <= i < |moved| && IsPackage(moved[i])
  {
    var r := MovedPackages(moved, movedFrom);
    if |r| > 0 {
      assert r[0] in r;
    }
    if exists i :: 0 <= i < |moved| && IsPackage(moved[i]) {
      var i :| 0 <= i < |moved| && IsPackage(moved[i]);
      assert MovedPkg(moved[i], movedFrom[i]) in r;
    }
  }

  // ---------------------------------------------------------------------
  // The code generation plan

  /** The generator's argument string: `path + " "` appended for each
      package, starting from "". */
  function Arguments(ps: seq<string>): (s: string)
    ensures ps == [] <==> s == ""
    ensures ps != [] ==> s[|s| - 1] == ' '
    decreases |ps|
  {
    if ps == [] then "" else Arguments(ps[..|ps| - 1]) + ps[|ps| - 1] + " "
  }

  lemma {:induction false} ArgumentsCons(p: string, ps: seq<string>)
    ensures Arguments([p] + ps) == p + " " + Arguments(ps)
    decreases |ps|
  {
    if ps == [] {
      assert ([p] + ps)[..0] == [];
    } else {
      var init, last := ps[..|ps| - 1], ps[|ps| - 1];
      var qs := [p] + ps;
      assert qs[..|qs| - 1] == [p] + init && qs[|qs| - 1] == last;
      assert Arguments(qs) == Arguments([p] + init) + last + " ";
      ArgumentsCons(p, init);
      assert Arguments(ps) == Arguments(init) + last + " ";
      assert (p + " " + Arguments(init)) + last + " " == p + " " + (Arguments(init) + last + " ");
    }
  }

  /** Split a space-terminated argument string back into its parts. */
  function SplitArguments(s: string): seq<string>
    decreases |s|
  {
    if s == "" then []
    else
      var k := IndexOf(s, ' ');
      if k == |s| then [s] else [s[..k]] + SplitArguments(s[k + 1..])
  }

  /** The argument string loses nothing as long as no path contains a space. */
  lemma {:induction false} ArgumentsRoundTrip(ps: seq<string>)
    requires forall i :: 0 <= i < |ps| ==> ' ' !in ps[i]
    ensures SplitArguments(Arguments(ps)) == ps
    decreases |ps|
  {
    if ps != [] {
      var p, rest := ps[0], ps[1..];
      assert ps == [p] + rest;
      ArgumentsCons(p, rest);
      var s := p + " " + Arguments(rest);
      assert s[..|p|] == p && s[|p|] == ' ';
      assert forall j :: 0 <= j < |p| ==> s[j] == p[j];
      forall j | 0 <= j < |p|
        ensures s[j] != ' '
      {
        assert p[j] in p;
      }
      assert s[|p| + 1..] == Arguments(rest);
      ArgumentsRoundTrip(rest);
    }
  }

  /** No quoting: a path with a space reaches the generator as two arguments. */
  lemma ArgumentsNotQuoted()
    ensures Arguments(["a b"]) == "a b "
    ensures SplitArguments(Arguments(["a b"])) == ["a", "b"]
  {
    var s := "a b ";
    var t := "b ";
    assert Arguments(["a b"]) == s;
    assert s[0] == 'a' && s[1] == ' ' && t[0] == 'b' && t[1] == ' ';
    assert IndexOf(s, ' ') == 1 && IndexOf(t, ' ') == 1;
    assert s[..1] == "a" && s[2..] == t;
    assert t[..1] == "b" && t[2..] == "";
    assert SplitArguments(t) == ["b"];
  }

  /** What `RefreshEcsactCodegen` does with its inputs: move each moved
      package's generated script, delete each deleted package's generated
      script, start the generator with every discovered package, and hand the
      same list to the runtime builder. */
  datatype CodegenPlan = CodegenPlan(
    scriptMoves: seq<(string, string)>,
    scriptDeletes: seq<string>,
    arguments: string,
    ecsactFiles: seq<string>)

  function RefreshPlan(c: Classified, packages: seq<string>): (plan: CodegenPlan)
    ensures |plan.scriptMoves| == |c.moved|
    ensures forall k :: 0 <= k < |c.moved| ==> plan.scriptMoves[k] == (c.moved[k].from + ".cs", c.moved[k].to + ".cs")
    ensures |plan.scriptDeletes| == |c.deleted|
    ensures forall k :: 0 <= k < |c.deleted| ==> plan.scriptDeletes[k] == c.deleted[k] + ".cs"
    ensures plan.ecsactFiles == packages
    ensures plan.arguments == Arguments(plan.ecsactFiles)
  {
    CodegenPlan(
      seq(|c.moved|, k requires 0 <= k < |c.moved| => (c.moved[k].from + ".cs", c.moved[k].to + ".cs")),
      seq(|c.deleted|, k requires 0 <= k < |c.deleted| => c.deleted[k] + ".cs"),
      Arguments(packages),
      packages)
  }

  /** Run on what `OnPostprocessAllAssets` classified, the plan moves the
      generated script of each moved-to package path, in the order the moves
      were reported, and deletes the generated script of each deleted
      package path, in the order the deletions were reported. */
  lemma PlanFollowsAssets(imported: seq<string>, deleted: seq<string>, moved: seq<string>, movedFrom: seq<string>,
                          packages: seq<string>)
    requires MovedFromCovers(moved, movedFrom)
    requires Postprocess(imported, deleted, moved, movedFrom).Some?
    ensures var plan := RefreshPlan(Postprocess(imported, deleted, moved, movedFrom).value, packages);
      var dests, gone := FilterPackages(moved), FilterPackages(deleted);
      && |plan.scriptMoves| == |dests|
      && (forall k :: 0 <= k < |dests| ==> plan.scriptMoves[k].1 == dests[k] + ".cs")
      && |plan.scriptDeletes| == |gone|
      && (forall k :: 0 <= k < |gone| ==> plan.scriptDeletes[k] == gone[k] + ".cs")
  {
    MovedDestinationsAreFiltered(moved, movedFrom, 0);
    assert moved[0..] == moved;
  }

  /** The builder's file list and the generator's arguments always describe
      the same packages, and neither depends on which assets changed. */
  lemma PlanIgnoresWhichAssetsChanged(c1: Classified, c2: Classified, packages: seq<string>)
    requires forall i :: 0 <= i < |packages| ==> ' ' !in packages[i]
    ensures RefreshPlan(c1, packages).arguments == RefreshPlan(c2, packages).arguments
    ensures SplitArguments(RefreshPlan(c1, packages).arguments) == RefreshPlan(c1, packages).ecsactFiles
  {
    ArgumentsRoundTrip(packages);
  }
}
