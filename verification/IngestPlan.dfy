/** backend/asset/ingest.go, the first half: which objects a delivery copies, to which keys, and which
    keys it deletes afterwards. */
module IngestPlan {
  import opened Text
  import opened Paths

  /** A copy: the key that the object gets in the storage bucket, and the object as CopySource names it,
      "bucket/key". For a listed file the target is also the path recorded in the database. */
  datatype Copy = Copy(target: string, source: string)

  /** The path of the metadata file, what it names, and the fresh prefix of the asset's storage. There
      are streams only if it names a SMIL file. */
  datatype Delivery = Delivery(
    bucket: string,
    jsonMetaPath: string,
    storagePrefix: string,
    smilFile: string,
    videos: seq<string>,
    subs: seq<string>,
    files: seq<string>)

  function BasePath(d: Delivery): string { Dir(d.jsonMetaPath) }

  function Original(d: Delivery, p: string): string { Join([d.bucket, BasePath(d), p]) }

  function StreamTarget(d: Delivery, p: string): string { Join([Join([d.storagePrefix, "stream"]), Base(p)]) }

  function ListedTarget(d: Delivery, p: string): string { Join([d.storagePrefix, "mux", Base(p)]) }

  function ListedKey(d: Delivery, p: string): string { Join([BasePath(d), p]) }

  /** How the loop over a list of files treats a path: the copy it plans and the key it deletes. */
  datatype Rule = Rule(copy: string -> Copy, key: string -> string)

  /** The delete key of a stream carries the name of the bucket. */
  function StreamRule(d: Delivery): Rule {
    Rule(p => Copy(StreamTarget(d, p), Original(d, p)), p => Original(d, p))
  }

  function ListedRule(d: Delivery): Rule {
    Rule(p => Copy(ListedTarget(d, p), Original(d, p)), p => ListedKey(d, p))
  }

  function Mapped<T>(f: string -> T, paths: seq<string>): (r: seq<T>)
    ensures |r| == |paths|
  {
    seq(|paths|, i requires 0 <= i < |paths| => f(paths[i]))
  }

  function Listed(d: Delivery): seq<Copy> { Mapped(ListedRule(d).copy, d.files) }

  /** Later copies with the same target replace earlier ones. */
  function Planned(m: map<string, string>, files: seq<Copy>): map<string, string> {
    if files == [] then m
    else Planned(m, files[..|files| - 1])[files[|files| - 1].target := files[|files| - 1].source]
  }

  /** What is copied besides the listed files. */
  function OtherCopies(d: Delivery): map<string, string> {
    if d.smilFile == "" then map[]
    else
      var rule := StreamRule(d);
      var smil := rule.copy(d.smilFile);
      Planned(Planned(map[smil.target := smil.source], Mapped(rule.copy, d.videos)), Mapped(rule.copy, d.subs))
  }

  function Copies(d: Delivery): map<string, string> { Planned(OtherCopies(d), Listed(d)) }

  /** The metadata file is deleted without a copy, the SMIL file is copied and not deleted. */
  function DeleteKeys(d: Delivery): seq<string> {
    [d.jsonMetaPath] + OtherKeys(d) + Mapped(ListedRule(d).key, d.files)
  }

  function OtherKeys(d: Delivery): seq<string> {
    if d.smilFile == "" then [] else Mapped(StreamRule(d).key, d.videos) + Mapped(StreamRule(d).key, d.subs)
  }

  /** The objects that the delete step names: its keys in the ingest bucket. */
  function DeletedObjects(d: Delivery): set<string> { set k | k in DeleteKeys(d) :: d.bucket + "/" + k }

  // ---- The loops ----

  /** The loop over the videos, the subtitles or the listed files. */
  method AddFiles(filesToCopy: map<string, string>, objectsToDelete: seq<string>, rule: Rule, paths: seq<string>)
    returns (copies: map<string, string>, deletes: seq<string>)
    ensures copies == Planned(filesToCopy, Mapped(rule.copy, paths))
    ensures deletes == objectsToDelete + Mapped(rule.key, paths)
  {
    copies, deletes := filesToCopy, objectsToDelete;
    ghost var files := Mapped(rule.copy, paths);
    for n := 0 to |paths|
      invariant copies == Planned(filesToCopy, files[..n])
      invariant deletes == objectsToDelete + Mapped(rule.key, paths)[..n]
    {
      var coi := rule.copy(paths[n]);
      copies := copies[coi.target := coi.source];
      deletes := deletes + [rule.key(paths[n])];
      assert files[..n + 1][..n] == files[..n];
    }
    assert files[..|files|] == files;
  }

  method PlanStreams(d: Delivery) returns (filesToCopy: map<string, string>, objectsToDelete: seq<string>)
    ensures filesToCopy == OtherCopies(d)
    ensures objectsToDelete == [d.jsonMetaPath] + OtherKeys(d)
  {
    filesToCopy, objectsToDelete := map[], [d.jsonMetaPath];
    if d.smilFile != "" {
      var rule := StreamRule(d);
      var smil := rule.copy(d.smilFile);
      filesToCopy := filesToCopy[smil.target := smil.source];
      filesToCopy, objectsToDelete := AddFiles(filesToCopy, objectsToDelete, rule, d.videos);
      filesToCopy, objectsToDelete := AddFiles(filesToCopy, objectsToDelete, rule, d.subs);
      AppendAssociates([d.jsonMetaPath], Mapped(rule.key, d.videos), Mapped(rule.key, d.subs));
    }
  }

  lemma AppendAssociates(a: seq<string>, b: seq<string>, c: seq<string>)
    ensures a + b + c == a + (b + c)
  {
  }

  /** The whole plan. */
  method PlanIngest(d: Delivery) returns (filesToCopy: map<string, string>, objectsToDelete: seq<string>)
    ensures filesToCopy == Copies(d)
    ensures objectsToDelete == DeleteKeys(d)
  {
    filesToCopy, objectsToDelete := PlanStreams(d);
    filesToCopy, objectsToDelete := AddFiles(filesToCopy, objectsToDelete, ListedRule(d), d.files);
  }

  // ---- Which copies the plan keeps ----

  predicate KeptIn(m: map<string, string>, f: Copy) {
    f.target in m && m[f.target] == f.source
  }

  ghost predicate SameTargetSameSource(files: seq<Copy>) {
    forall i, j :: 0 <= i < j < |files| && files[i].target == files[j].target ==> files[i].source == files[j].source
  }

  lemma {:induction false} PlannedLast(m: map<string, string>, files: seq<Copy>, i: nat)
    requires i < |files|
    requires forall j :: i < j < |files| && files[j].target == files[i].target ==> files[j].source == files[i].source
    ensures KeptIn(Planned(m, files), files[i])
  {
    if i < |files| - 1 {
      PlannedLast(m, files[..|files| - 1], i);
    }
  }

  lemma {:induction false} TargetsArePlanned(m: map<string, string>, files: seq<Copy>, i: nat)
    requires i < |files|
    ensures files[i].target in Planned(m, files)
  {
    if i < |files| - 1 {
      TargetsArePlanned(m, files[..|files| - 1], i);
    }
  }

  /** The plan copies every listed file to its recorded path exactly when no two listed files with
      different sources share a target; in particular when the targets are distinct. */
  lemma {:induction false} PlanKeepsAllIff(m: map<string, string>, files: seq<Copy>)
    ensures (forall i :: 0 <= i < |files| ==> KeptIn(Planned(m, files), files[i])) <==> SameTargetSameSource(files)
  {
    if SameTargetSameSource(files) {
      forall i | 0 <= i < |files| ensures KeptIn(Planned(m, files), files[i]) {
        PlannedLast(m, files, i);
      }
    }
  }

  // ---- In terms of the listed paths ----

  /** The two base names get one key: they are equal, or neither names anything. */
  predicate SameName(p: string, q: string) {
    Base(p) == Base(q) || (Base(p) in {".", "/"} && Base(q) in {".", "/"})
  }

  /** Two listed files get one path exactly when their base names are the same, whatever folders they
      come from. The prefix is made of letters, digits, "_", "." and a UUID behind a dash. */
  lemma SameTargetIffSameName(d: Delivery, p: string, q: string)
    requires Plain(d.storagePrefix)
    ensures ListedTarget(d, p) == ListedTarget(d, q) <==> SameName(p, q)
  {
    var x, y := Base(p), Base(q);
    JoinBehindTwo(d.storagePrefix, "mux", x);
    JoinBehindTwo(d.storagePrefix, "mux", y);
    BehindTwoIff(d.storagePrefix, x, y);
  }

  lemma BehindTwoIff(a: string, x: string, y: string)
    requires x != "" && y != ""
    ensures BehindTwo(a, "mux", x) == BehindTwo(a, "mux", y) <==> x == y || (x in {".", "/"} && y in {".", "/"})
  {
    var folder := a + "/" + "mux";
    assert forall z: string :: (folder + "/" + z)[|folder| + 1..] == z;
    assert |folder + "/" + x| > |folder| > |a| && |folder + "/" + y| > |folder|;
  }

  /** The object that is copied is the one that is deleted: the path stays inside the bucket. */
  predicate Inside(d: Delivery, p: string) { Original(d, p) == d.bucket + "/" + ListedKey(d, p) }

  /** It does when the metadata file has a relative path and there is no ".." on the way. */
  lemma InsideWhenRelative(d: Delivery, p: string)
    requires Plain(d.bucket) && p != "" && BasePath(d) != "" && BasePath(d)[0] != '/'
    requires ".." !in Split(BasePath(d), '/') && ".." !in Split(p, '/')
    requires Reduce([], Split(BasePath(d), '/') + Split(p, '/'), false) != []
    ensures Inside(d, p)
  {
    var base := BasePath(d);
    JoinThree(d.bucket, base, p);
    JoinTwo(base, p);
    SplitAppend(base, p);
    CleanBelow(d.bucket, base + "/" + p);
  }

  // ---- The plan, said outright ----

  lemma {:induction false} PlannedKeys(m: map<string, string>, files: seq<Copy>, target: string)
    ensures target in Planned(m, files) <==> target in m || exists i :: 0 <= i < |files| && files[i].target == target
    ensures target in Planned(m, files) ==>
      || (target in m && Planned(m, files)[target] == m[target])
      || exists i :: 0 <= i < |files| && files[i] == Copy(target, Planned(m, files)[target])
  {
    if files != [] {
      var front, last := files[..|files| - 1], files[|files| - 1];
      PlannedKeys(m, front, target);
      assert files == front + [last];
    }
  }

  /** A path of the delivery is copied to this target: the SMIL file or one of its streams below
      "stream", or a listed file below "mux". */
  ghost predicate Copied(d: Delivery, p: string, target: string) {
    || (d.smilFile != "" && (p == d.smilFile || p in d.videos || p in d.subs) && target == StreamTarget(d, p))
    || (p in d.files && target == ListedTarget(d, p))
  }

  lemma MappedMembers<T>(f: string -> T, paths: seq<string>, x: T)
    ensures x in Mapped(f, paths) <==> exists p :: p in paths && f(p) == x
  {
    forall p | p in paths && f(p) == x ensures x in Mapped(f, paths) {
      var i :| 0 <= i < |paths| && paths[i] == p;
      assert Mapped(f, paths)[i] == x;
    }
  }

  /** The copy map: a target is in it exactly if some path of the delivery is copied there, and then its
      source is such a path's object. */
  lemma CopiesExactly(d: Delivery, target: string)
    ensures target in Copies(d) <==> exists p :: Copied(d, p, target)
    ensures target in Copies(d) ==> exists p :: Copied(d, p, target) && Copies(d)[target] == Original(d, p)
  {
    if p :| Copied(d, p, target) {
      CopiedIsPlanned(d, p, target);
    }
    if target in Copies(d) {
      var p := PlannedIsCopied(d, target);
    }
  }

  lemma CopiedIsPlanned(d: Delivery, p: string, target: string)
    requires Copied(d, p, target)
    ensures target in Copies(d)
  {
    PlannedKeys(OtherCopies(d), Listed(d), target);
    var stream := StreamRule(d).copy;
    if p in d.files && target == ListedTarget(d, p) {
      InPlan(ListedRule(d).copy, d.files, p);
    } else {
      var smil := stream(d.smilFile);
      var first := Planned(map[smil.target := smil.source], Mapped(stream, d.videos));
      PlannedKeys(map[smil.target := smil.source], Mapped(stream, d.videos), target);
      PlannedKeys(first, Mapped(stream, d.subs), target);
      if p in d.videos {
        InPlan(stream, d.videos, p);
      } else if p in d.subs {
        InPlan(stream, d.subs, p);
      }
    }
  }

  lemma InPlan(copy: string -> Copy, paths: seq<string>, p: string)
    requires p in paths
    ensures exists i :: 0 <= i < |paths| && Mapped(copy, paths)[i].target == copy(p).target
  {
    var i :| 0 <= i < |paths| && paths[i] == p;
    assert Mapped(copy, paths)[i] == copy(p);
  }

  lemma PlannedIsCopied(d: Delivery, target: string) returns (p: string)
    requires target in Copies(d)
    ensures Copied(d, p, target) && Copies(d)[target] == Original(d, p)
  {
    var source := Copies(d)[target];
    PlannedKeys(OtherCopies(d), Listed(d), target);
    if i :| 0 <= i < |d.files| && Listed(d)[i] == Copy(target, source) {
      p := d.files[i];
    } else {
      var stream := StreamRule(d).copy;
      var smil := stream(d.smilFile);
      var first := Planned(map[smil.target := smil.source], Mapped(stream, d.videos));
      PlannedKeys(first, Mapped(stream, d.subs), target);
      PlannedKeys(map[smil.target := smil.source], Mapped(stream, d.videos), target);
      if i :| 0 <= i < |d.subs| && Mapped(stream, d.subs)[i] == Copy(target, source) {
        p := d.subs[i];
      } else if i :| 0 <= i < |d.videos| && Mapped(stream, d.videos)[i] == Copy(target, source) {
        p := d.videos[i];
      } else {
        p := d.smilFile;
      }
    }
  }

  /** The delete list: the metadata file, the streams under keys with the bucket's name in front, and the
      listed files; the SMIL file is not on it. */
  lemma DeleteKeysExactly(d: Delivery, k: string)
    ensures k in DeleteKeys(d) <==>
      || k == d.jsonMetaPath
      || (d.smilFile != "" && exists p :: (p in d.videos || p in d.subs) && k == Join([d.bucket, BasePath(d), p]))
      || exists p :: p in d.files && k == Join([BasePath(d), p])
  {
    MappedMembers(ListedRule(d).key, d.files, k);
    MappedMembers(StreamRule(d).key, d.videos, k);
    MappedMembers(StreamRule(d).key, d.subs, k);
  }

  /** Where a named file goes, for a path of a folder and a name. */
  lemma TargetsOfNames(d: Delivery, folder: string, name: string)
    requires Plain(d.storagePrefix) && Plain(name)
    ensures ListedTarget(d, folder + "/" + name) == d.storagePrefix + "/" + "mux" + "/" + name
    ensures StreamTarget(d, folder + "/" + name) == d.storagePrefix + "/" + "stream" + "/" + name
  {
    BaseInFolder(folder, name);
    JoinBehindTwo(d.storagePrefix, "mux", name);
    StreamBehindTwo(d.storagePrefix, name);
  }

  lemma StreamBehindTwo(prefix: string, name: string)
    requires Plain(prefix) && Plain(name)
    ensures Join([Join([prefix, "stream"]), name]) == prefix + "/" + "stream" + "/" + name
  {
    FolderOfTwo(prefix, "stream");
    JoinTwo(prefix + "/" + "stream", name);
    JoinThree(prefix, "stream", name);
    assert prefix + "/" + "stream" + "/" + name == prefix + "/" + ("stream" + "/" + name);
    JoinBehindTwo(prefix, "stream", name);
  }

  lemma FolderOfTwo(a: string, b: string)
    requires Plain(a) && Plain(b)
    ensures Join([a, b]) == a + "/" + b
  {
    JoinTwo(a, b);
    CleanInFolder(a, b);
    SplitWhole(b, '/');
    assert Split(b, '/') == [b] && [b][1..] == [];
    assert [a] + [b] == [a, b];
    JoinWithTwo(a, b);
  }
}
