/**
 * The `thread` step of the assets build task (bundles/asset/tasks/assets.js,
 * and assets.ts, whose `thread` is the same): every file the glob produced is
 * copied, one after the other, to a destination under the application's
 * public assets directory. The destination keeps the part of the source
 * path that follows the first `assets` after the last `bundles/`.
 */
module AssetsTask {
  import opened Options
  import opened JsString

  /** The fixed directory every copy lands in, relative to the application root. */
  const PublicAssets := "/www/public/assets/"

  const BundlesMarker := "bundles/"
  const AssetsMarker := "assets"

  /** `file.replace(/\\/g, '/')`: Windows separators become POSIX ones. */
  function Normalise(file: string): string
  {
    ReplaceAll(file, '\\', '/')
  }

  /** `path.split('bundles/').pop()`: the text after the last `bundles/`. */
  function Segment(path: string): string
  {
    Last(Split(path, BundlesMarker))
  }

  /**
   * `seg.split('assets')`, `shift()`, `join('assets')`: the pieces after the
   * first one, glued back together with the separator they were split on.
   */
  function AfterAssets(seg: string): string
  {
    Join(Split(seg, AssetsMarker)[1..], AssetsMarker)
  }

  /** The rewritten path `amended` of one source file. */
  function Amend(file: string): string
  {
    AfterAssets(Segment(Normalise(file)))
  }

  /** `${appRoot}/www/public/assets/${amended}` */
  function Destination(appRoot: string, file: string): string
  {
    appRoot + PublicAssets + Amend(file)
  }

  /** One `fs.copy(source, dest)` call. */
  datatype Copy = Copy(source: string, dest: string)

  /**
   * The segment is the tail of the path after its last `bundles/`: it holds
   * no `bundles/`, and either the path has none and the segment is all of
   * it, or an occurrence sits right before the segment and none starts
   * after that one.
   */
  lemma SegmentAfterLastBundles(path: string)
    ensures IsSuffix(Segment(path), path)
    ensures !Contains(Segment(path), BundlesMarker)
    ensures !Contains(path, BundlesMarker) ==> Segment(path) == path
    ensures Contains(path, BundlesMarker) ==>
              var p := |path| - |Segment(path)| - |BundlesMarker|;
              OccursAt(path, BundlesMarker, p) &&
              forall j :: p < j ==> !OccursAt(path, BundlesMarker, j)
  {
    var k := LastStart(path, BundlesMarker, 0);
    LastOfSplit(path, BundlesMarker);
    NoSepAfterLastStart(path, BundlesMarker, 0);
    assert path[0..] == path;
    if Contains(path, BundlesMarker) {
      NoLaterOccurrence(path, BundlesMarker, k - |BundlesMarker|);
    }
  }

  /**
   * The rewrite of a segment is everything after its first `assets` (later
   * occurrences kept as they were), or the empty string when it has none.
   */
  lemma AfterFirstAssets(seg: string)
    ensures !Contains(seg, AssetsMarker) ==> AfterAssets(seg) == ""
    ensures IsSuffix(AfterAssets(seg), seg)
    ensures Contains(seg, AssetsMarker) ==>
              IndexOf(seg, AssetsMarker).Some? &&
              var i := IndexOf(seg, AssetsMarker).value;
              OccursAt(seg, AssetsMarker, i) &&
              (forall j :: 0 <= j < i ==> !OccursAt(seg, AssetsMarker, j)) &&
              AfterAssets(seg) == seg[i + |AssetsMarker|..]
  {
    IndexOfFirst(seg, AssetsMarker);
    SplitDropFirst(seg, AssetsMarker);
  }

  /** The rewritten path is a backslash-free suffix of the normalised source path. */
  lemma AmendIsSuffix(file: string)
    ensures IsSuffix(Amend(file), Normalise(file))
    ensures '\\' !in Amend(file)
  {
    var n := Normalise(file);
    ReplaceAllFacts(file, '\\', '/');
    assert '\\' !in n by {
      forall i | 0 <= i < |n|
        ensures n[i] != '\\'
      {
      }
    }
    SegmentAfterLastBundles(n);
    AfterFirstAssets(Segment(n));
    SuffixOfSuffix(Amend(file), Segment(n), n);
    SuffixKeepsAbsent(Amend(file), n, '\\');
  }

  /**
   * Every destination is the public assets directory of the application
   * followed by a backslash-free suffix of the normalised source path.
   */
  lemma DestinationUnderPublicAssets(appRoot: string, file: string)
    ensures var d, root := Destination(appRoot, file), appRoot + PublicAssets;
            |root| <= |d| && d[..|root|] == root &&
            IsSuffix(d[|root|..], Normalise(file)) && '\\' !in d[|root|..]
  {
    AmendIsSuffix(file);
    assert Destination(appRoot, file)[|appRoot + PublicAssets|..] == Amend(file);
  }

  /** The copies `thread` makes for `files` when none is refused, in glob order. */
  function Plan(appRoot: string, files: seq<string>): seq<Copy>
  {
    if files == [] then []
    else Plan(appRoot, files[..|files| - 1]) + [Copy(files[|files| - 1], Destination(appRoot, files[|files| - 1]))]
  }

  /** The plan holds exactly one copy per file, in order, each to that file's destination. */
  lemma {:induction false} PlanCopiesEachFile(appRoot: string, files: seq<string>)
    ensures |Plan(appRoot, files)| == |files|
    ensures forall k :: 0 <= k < |files| ==> Plan(appRoot, files)[k] == Copy(files[k], Destination(appRoot, files[k]))
    decreases |files|
  {
    if files != [] {
      var init := files[..|files| - 1];
      PlanCopiesEachFile(appRoot, init);
      forall k | 0 <= k < |files| - 1
        ensures Plan(appRoot, files)[k] == Copy(files[k], Destination(appRoot, files[k]))
      {
        assert files[k] == init[k];
      }
    }
  }

  /**
   * The copy loop of `thread`. The glob result is given as `files`;
   * `refused` holds the destinations the file system will not write, and
   * the first refused copy rejects the whole task, so no later file is
   * copied. `copies` are the `fs.copy` calls made, in order: the plan for
   * the files reached, the last of them the refused one when `failed`.
   */
  method Thread(appRoot: string, files: seq<string>, refused: set<string>)
    returns (copies: seq<Copy>, failed: bool)
    ensures |copies| <= |files|
    ensures copies == Plan(appRoot, files[..|copies|])
    ensures !failed ==> |copies| == |files|
    ensures failed ==> |copies| >= 1 && copies[|copies| - 1].dest in refused
    ensures failed ==> forall k :: 0 <= k < |copies| - 1 ==> copies[k].dest !in refused
    ensures !failed ==> forall k :: 0 <= k < |copies| ==> copies[k].dest !in refused
  {
    copies, failed := [], false;
    var n := 0;
    while n < |files|
      invariant 0 <= n <= |files|
      invariant |copies| == n
      invariant copies == Plan(appRoot, files[..n])
      invariant forall k :: 0 <= k < n ==> copies[k].dest !in refused
    {
      var dest := Destination(appRoot, files[n]);
      assert files[..n + 1][..n] == files[..n];
      copies := copies + [Copy(files[n], dest)];
      if dest in refused {
        return copies, true;
      }
      n := n + 1;
    }
  }
}
