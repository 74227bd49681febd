/**
 The guard of a build tree: whether the published bundle is the one that the tree
 has built.  A digest stands for the contents it is made from.
 */
module ReleaseGuard {
  import opened Bytes
  import opened Results

  type Contents = seq<Byte>

  type Files = map<string, Contents>

  const FORMAT := "volvoxai-native-release-finalization/v1"

  /** The parts of the evidence that the guard looks at. */
  datatype Document = Document(
    format: string,
    directory: string,
    artifact: Contents,
    linkMap: Contents,
    objects: seq<(string, Contents)>,
    release: Contents,
    debug: Contents)

  /** The paths of a tree and of the published bundle, and which paths are inside the build directory. */
  datatype Options = Options(
    directory: string,
    inside: set<string>,
    artifact: string,
    debug: string,
    linkMap: string,
    evidence: string,
    publishedArtifact: string,
    publishedDebug: string,
    publishedEvidence: string)

  /** What the JSON decoder makes of the evidence files that it accepts. */
  type Documents = map<Contents, Document>

  predicate IsFile(files: Files, path: string) {
    path in files && files[path] != []
  }

  predicate Holds(files: Files, path: string, contents: Contents) {
    IsFile(files, path) && files[path] == contents
  }

  /** The link inputs are files of the build directory, each listed once, and as they were. */
  ghost predicate ObjectsFit(files: Files, inside: set<string>, objects: seq<(string, Contents)>) {
    && objects != []
    && (forall i | 0 <= i < |objects| :: objects[i].0 in inside && Holds(files, objects[i].0, objects[i].1))
    && (forall i, j | 0 <= i < j < |objects| :: objects[i].0 != objects[j].0)
  }

  /** The evidence of a tree describes the files of the tree. */
  ghost predicate TreeFits(files: Files, documents: Documents, o: Options) {
    && IsFile(files, o.artifact) && IsFile(files, o.debug) && IsFile(files, o.linkMap) && IsFile(files, o.evidence)
    && files[o.evidence] in documents
    && var d := documents[files[o.evidence]];
       && d.format == FORMAT && d.directory == o.directory
       && d.artifact == files[o.artifact] && d.linkMap == files[o.linkMap]
       && ObjectsFit(files, o.inside, d.objects)
       && d.release == files[o.artifact] && d.debug == files[o.debug]
  }

  /** All three published files are those of the tree. */
  ghost predicate OwnBundlePublished(files: Files, o: Options) {
    && o.artifact in files && Holds(files, o.publishedArtifact, files[o.artifact])
    && o.debug in files && Holds(files, o.publishedDebug, files[o.debug])
    && o.evidence in files && o.publishedEvidence in files && files[o.publishedEvidence] == files[o.evidence]
  }

  method CheckObjects(files: Files, inside: set<string>, objects: seq<(string, Contents)>) returns (ok: bool)
    ensures ok <==> ObjectsFit(files, inside, objects)
  {
    if objects == [] {
      return false;
    }
    var seen: set<string> := {};
    for k := 0 to |objects|
      invariant forall i | 0 <= i < k :: objects[i].0 in inside && Holds(files, objects[i].0, objects[i].1)
      invariant forall i, j | 0 <= i < j < k :: objects[i].0 != objects[j].0
      invariant forall path :: path in seen <==> exists i :: 0 <= i < k && objects[i].0 == path
    {
      var (path, contents) := objects[k];
      if path !in inside || path in seen {
        return false;
      }
      seen := seen + {path};
      if !Holds(files, path, contents) {
        return false;
      }
    }
    return true;
  }

  /** The guard accepts exactly when the tree fits its evidence and its bundle is the one published. */
  method ValidateBundle(files: Files, documents: Documents, o: Options) returns (ok: bool)
    ensures ok <==> TreeFits(files, documents, o) && OwnBundlePublished(files, o)
  {
    if !IsFile(files, o.artifact) || !IsFile(files, o.debug) || !IsFile(files, o.linkMap)
      || !IsFile(files, o.evidence) {
      return false;
    }
    if files[o.evidence] !in documents {
      return false;
    }
    var d := documents[files[o.evidence]];
    if d.format != FORMAT || d.directory != o.directory || d.artifact != files[o.artifact]
      || d.linkMap != files[o.linkMap] {
      return false;
    }
    var objectsFit := CheckObjects(files, o.inside, d.objects);
    if !objectsFit || d.release != files[o.artifact] || d.debug != files[o.debug] {
      return false;
    }
    return Holds(files, o.publishedArtifact, files[o.artifact])
      && Holds(files, o.publishedDebug, files[o.debug])
      && o.publishedEvidence in files && files[o.publishedEvidence] == files[o.evidence];
  }

  /** Of two build trees that publish to one place, the guards accept at most one directory. */
  lemma OneTreeIsAccepted(files: Files, documents: Documents, a: Options, b: Options)
    requires a.publishedArtifact == b.publishedArtifact && a.publishedDebug == b.publishedDebug
    requires a.publishedEvidence == b.publishedEvidence
    requires TreeFits(files, documents, a) && OwnBundlePublished(files, a)
    requires TreeFits(files, documents, b) && OwnBundlePublished(files, b)
    ensures a.directory == b.directory
    ensures files[a.artifact] == files[b.artifact] && files[a.debug] == files[b.debug]
  {
    assert files[a.evidence] == files[b.evidence];
  }

  ghost predicate Accepted(files: Files, documents: Documents, o: Options) {
    TreeFits(files, documents, o) && OwnBundlePublished(files, o)
  }

  /** A file with contents, the same before and after. */
  ghost predicate Same(before: Files, after: Files, path: string) {
    path in before && path in after && before[path] == after[path] && after[path] != []
  }

  /** The tree's outputs, the published files, and every link input that the evidence lists. */
  ghost predicate AllSame(before: Files, after: Files, documents: Documents, o: Options)
    requires o.evidence in before && before[o.evidence] in documents
  {
    && Same(before, after, o.artifact) && Same(before, after, o.debug) && Same(before, after, o.linkMap)
    && Same(before, after, o.publishedArtifact) && Same(before, after, o.publishedDebug)
    && Same(before, after, o.publishedEvidence)
    && forall input | input in documents[before[o.evidence]].objects :: Same(before, after, input.0)
  }

  /** With unchanged evidence, an accepted tree stays accepted exactly as long as none of these files changes. */
  lemma EveryChangeIsSeen(before: Files, after: Files, documents: Documents, o: Options)
    requires Accepted(before, documents, o) && Same(before, after, o.evidence)
    ensures Accepted(after, documents, o) <==> AllSame(before, after, documents, o)
  {
    var objects := documents[before[o.evidence]].objects;
    if Accepted(after, documents, o) {
      forall input | input in objects ensures Same(before, after, input.0) {
        var i :| 0 <= i < |objects| && objects[i] == input;
        assert Holds(before, objects[i].0, objects[i].1) && Holds(after, objects[i].0, objects[i].1);
      }
    }
    if AllSame(before, after, documents, o) {
      forall i | 0 <= i < |objects| ensures objects[i].0 in o.inside && Holds(after, objects[i].0, objects[i].1) {
        assert objects[i] in objects && Holds(before, objects[i].0, objects[i].1);
      }
    }
  }

  /** Accepted evidence is of the known format, and lists link inputs of the build directory, each once. */
  lemma AcceptedEvidence(files: Files, documents: Documents, o: Options)
    requires Accepted(files, documents, o)
    ensures var d := documents[files[o.evidence]];
      && d.format == "volvoxai-native-release-finalization/v1" && d.directory == o.directory
      && d.objects != [] && (forall input | input in d.objects :: input.0 in o.inside)
      && (forall i, j | 0 <= i < |d.objects| && 0 <= j < |d.objects| && d.objects[i].0 == d.objects[j].0 :: i == j)
      && d.artifact == d.release
  {
    var objects := documents[files[o.evidence]].objects;
    forall input | input in objects ensures input.0 in o.inside {
      var i :| 0 <= i < |objects| && objects[i] == input;
      assert objects[i].0 in o.inside;
    }
  }
}
