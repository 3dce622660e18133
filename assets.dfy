/** The asset-path rewrite applied to demonstration model files: `file`
    paths that point into a `robosuite` tree are moved under the local
    robosuite install. */
module AssetPaths {
  import opened Common
  import opened Paths

  /** A child of `<asset>`: its tag and its optional `file` attribute. */
  datatype Elem = Elem(tag: string, file: Option<string>)

  /** The loop's search from the end for the last component equal to
      `robosuite`, or -1 when there is none. */
  function LastRobosuite(parts: seq<string>): (r: int)
    ensures -1 <= r < |parts|
  {
    if |parts| == 0 then -1
    else if parts[|parts| - 1] == "robosuite" then |parts| - 1
    else LastRobosuite(parts[..|parts| - 1])
  }

  /** The search finds the last `robosuite`, and -1 exactly when there is
      none. */
  lemma {:induction false} LastRobosuiteExact(parts: seq<string>)
    ensures LastRobosuite(parts) == -1 <==> "robosuite" !in parts
    ensures LastRobosuite(parts) >= 0 ==> parts[LastRobosuite(parts)] == "robosuite"
    ensures forall j :: LastRobosuite(parts) < j < |parts| ==> parts[j] != "robosuite"
  {
    if |parts| > 0 && parts[|parts| - 1] != "robosuite" {
      var init := parts[..|parts| - 1];
      LastRobosuiteExact(init);
      assert parts == init + [parts[|parts| - 1]];
      forall j | LastRobosuite(parts) < j < |parts| ensures parts[j] != "robosuite" {
        if j < |parts| - 1 {
          assert parts[j] == init[j];
        }
      }
    }
  }

  /** The path splice: the install components, then the components strictly
      after the last `robosuite`; a path with no such component is kept. */
  function RewritePath(oldPath: string, installParts: seq<string>): string
  {
    var parts := Split(oldPath);
    var last := LastRobosuite(parts);
    if last < 0 then oldPath else Join(installParts + parts[last + 1..])
  }

  predicate IsCandidate(e: Elem)
  {
    e.tag == "mesh" || e.tag == "texture"
  }

  /** What the loop does to one element. */
  function EditElem(e: Elem, installParts: seq<string>): Elem
  {
    if IsCandidate(e) && e.file.Some? then e.(file := Some(RewritePath(e.file.value, installParts))) else e
  }

  /** The loop body on one element of the list being visited. */
  function EditIfTagged(e: Elem, tag: string, installParts: seq<string>): Elem
  {
    if e.tag == tag && e.file.Some? then e.(file := Some(RewritePath(e.file.value, installParts))) else e
  }

  /** `edit_model_xml` on the children of `<asset>`: the meshes are visited
      in document order, then the textures; each one with a `file` gets the
      rewritten path under the components of the robosuite install
      directory, and nothing else changes. */
  method EditModelXml(asset: array<Elem>, installDir: string)
    modifies asset
    ensures forall i :: 0 <= i < asset.Length ==> asset[i] == EditElem(old(asset[i]), Split(installDir))
  {
    var pathSplit := Split(installDir);
    VisitTag(asset, "mesh", pathSplit);
    VisitTag(asset, "texture", pathSplit);
    forall i | 0 <= i < asset.Length
      ensures asset[i] == EditElem(old(asset[i]), pathSplit)
    {
      OneVisitPerElement(old(asset[i]), pathSplit);
    }
  }

  /** The loop over `findall(tag)`. */
  method VisitTag(asset: array<Elem>, tag: string, pathSplit: seq<string>)
    modifies asset
    ensures forall i :: 0 <= i < asset.Length ==> asset[i] == EditIfTagged(old(asset[i]), tag, pathSplit)
  {
    for i := 0 to asset.Length
      invariant forall j :: 0 <= j < i ==> asset[j] == EditIfTagged(old(asset[j]), tag, pathSplit)
      invariant forall j :: i <= j < asset.Length ==> asset[j] == old(asset[j])
    {
      var e := asset[i];
      if e.tag != tag || e.file.None? {
        continue;
      }
      var oldPathSplit := Split(e.file.value);
      var ind := LastRobosuite(oldPathSplit);
      if ind >= 0 {
        var newPath := Join(pathSplit + oldPathSplit[ind + 1..]);
        asset[i] := e.(file := Some(newPath));
      }
    }
  }

  /** Visiting the meshes and then the textures edits each candidate once. */
  lemma OneVisitPerElement(e: Elem, installParts: seq<string>)
    ensures EditIfTagged(EditIfTagged(e, "mesh", installParts), "texture", installParts) == EditElem(e, installParts)
  {
  }

  // ---------------------------------------------------------------------
  // Properties

  /** Elements keep their tags; only a candidate with a `file` can change,
      and only its `file`. */
  lemma EditTouchesOnlyCandidateFiles(e: Elem, installParts: seq<string>)
    ensures EditElem(e, installParts).tag == e.tag
    ensures !IsCandidate(e) || e.file.None? ==> EditElem(e, installParts) == e
    ensures EditElem(e, installParts).file.Some? <==> e.file.Some?
  {
  }

  /** A path with no `robosuite` component is left as it is. */
  lemma NoRobosuiteUnchanged(oldPath: string, installParts: seq<string>)
    requires "robosuite" !in Split(oldPath)
    ensures RewritePath(oldPath, installParts) == oldPath
  {
    LastRobosuiteExact(Split(oldPath));
  }

  /** A path with a `robosuite` component becomes the install components
      followed by a suffix of the old components that holds no
      `robosuite`. */
  lemma RewrittenComponents(oldPath: string, installDir: string)
    requires "robosuite" in Split(oldPath)
    ensures var parts := Split(oldPath);
            var suffix := parts[LastRobosuite(parts) + 1..];
            && "robosuite" !in suffix
            && parts == parts[..LastRobosuite(parts)] + ["robosuite"] + suffix
            && Split(RewritePath(oldPath, Split(installDir))) == Split(installDir) + suffix
  {
    var parts := Split(oldPath);
    LastRobosuiteExact(parts);
    var last := LastRobosuite(parts);
    var suffix := parts[last + 1..];
    assert parts == parts[..last] + [parts[last]] + suffix;
    var all := Split(installDir) + suffix;
    forall i | 0 <= i < |all| ensures '/' !in all[i] {
      if i < |Split(installDir)| {
        assert all[i] == Split(installDir)[i];
      } else {
        assert all[i] == suffix[i - |Split(installDir)|] == parts[last + 1 + i - |Split(installDir)|];
      }
    }
    SplitJoin(all);
    assert "robosuite" !in suffix by {
      forall k | 0 <= k < |suffix| ensures suffix[k] != "robosuite" {
        assert suffix[k] == parts[last + 1 + k];
      }
    }
  }

  /** When the install directory itself ends in `robosuite`, as the
      directory of the robosuite package does, a rewritten path is a fixed
      point of the rewrite. */
  lemma RewriteIdempotent(oldPath: string, installDir: string)
    requires Split(installDir)[|Split(installDir)| - 1] == "robosuite"
    ensures RewritePath(RewritePath(oldPath, Split(installDir)), Split(installDir)) == RewritePath(oldPath, Split(installDir))
  {
    var install := Split(installDir);
    var once := RewritePath(oldPath, install);
    if "robosuite" in Split(oldPath) {
      var m := |install| - 1;
      RewrittenLast(oldPath, installDir);
      RewriteAt(once, install, m);
    } else {
      NoRobosuiteUnchanged(oldPath, install);
      NoRobosuiteUnchanged(once, install);
    }
  }

  /** In a rewritten path the last `robosuite` is the install directory's
      own last component, and what follows it is the kept suffix. */
  lemma RewrittenLast(oldPath: string, installDir: string)
    requires Split(installDir)[|Split(installDir)| - 1] == "robosuite"
    requires "robosuite" in Split(oldPath)
    ensures var once := RewritePath(oldPath, Split(installDir));
            var m := |Split(installDir)| - 1;
            && 0 <= m < |Split(once)|
            && LastRobosuite(Split(once)) == m
            && once == Join(Split(installDir) + Split(once)[m + 1..])
  {
    var install := Split(installDir);
    var parts := Split(oldPath);
    var last := LastRobosuite(parts);
    RewrittenComponents(oldPath, installDir);
    var suffix := parts[last + 1..];
    RewriteAt(oldPath, install, last);
    var once := RewritePath(oldPath, install);
    assert once == Join(install + suffix);
    assert Split(once) == install + suffix;
    LastAfterInstall(install, suffix);
  }

  lemma LastAfterInstall(install: seq<string>, suffix: seq<string>)
    requires |install| >= 1 && install[|install| - 1] == "robosuite" && "robosuite" !in suffix
    ensures LastRobosuite(install + suffix) == |install| - 1
    ensures (install + suffix)[|install|..] == suffix
  {
    var all := install + suffix;
    var m := |install| - 1;
    forall j | m < j < |all| ensures all[j] != "robosuite" {
      assert all[j] == suffix[j - |install|];
    }
    LastIsUnique(all, m);
  }

  /** The rewrite of a path whose last `robosuite` is at index `m`. */
  lemma RewriteAt(path: string, installParts: seq<string>, m: int)
    requires 0 <= m < |Split(path)| && LastRobosuite(Split(path)) == m
    ensures RewritePath(path, installParts) == Join(installParts + Split(path)[m + 1..])
  {
    var last := LastRobosuite(Split(path));
    assert !(last < 0);
  }

  /** The last occurrence is the index after which none occurs. */
  lemma {:induction false} LastIsUnique(parts: seq<string>, m: int)
    requires 0 <= m < |parts| && parts[m] == "robosuite"
    requires forall j :: m < j < |parts| ==> parts[j] != "robosuite"
    ensures LastRobosuite(parts) == m
  {
    if m < |parts| - 1 {
      var init := parts[..|parts| - 1];
      assert init[m] == parts[m];
      forall j | m < j < |init| ensures init[j] != "robosuite" {
        assert init[j] == parts[j];
      }
      LastIsUnique(init, m);
    }
  }
}
