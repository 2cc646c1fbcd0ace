/** backend/asset/ingest.go, the second half, and `copyObjects` of backend/asset/copy-objects.go: copy in
    parallel, and delete the originals only if every copy succeeded. */
module Ingest {
  import opened Runs
  import opened IngestPlan
  import opened Paths
  import opened Text

  // ---- The parallel copy and the delete step ----

  /** A goroutine of copyObjects. Appending to the shared error slice reads it and writes it back, in
      two steps, under the mutex. */
  datatype Pc =
    | Copying
    | WantsMu
    | Reading
    | Writing(seen: seq<nat>)
    | Unlocking
    | Finished(ok: bool)

  datatype Outcome = CopiesFailed | StreamsFailed | DeletingDisabled | DeleteFailed | Deleted

  /** The main goroutine: waits for all copies, creates the streams, deletes. */
  datatype Main = Waiting | Streaming | Deleting | Ended(outcome: Outcome)

  /** Contents, known by numbers, by the name of the object: "bucket/key" among the delivered objects,
      the key in the storage bucket. */
  type Bucket = map<string, nat>

  /** `errors` names the goroutine of each appended error. */
  datatype State = State(
    plan: seq<Copy>,
    deletes: set<string>,
    gos: seq<Pc>,
    mu: Option<nat>,
    errors: seq<nat>,
    ingest: Bucket,
    storage: Bucket,
    main: Main)

  /** `gone` is what DeleteObjects removes: all of the list or some of it, whether it then reports an
      error or, for single keys, none at all. */
  datatype Action =
    | CopyOk(i: nat)
    | CopyFail(i: nat)
    | LockMu(i: nat)
    | ReadErrors(i: nat)
    | WriteErrors(i: nat)
    | UnlockMu(i: nat)
    | Wait
    | CreateStreams(ok: bool)
    | SkipDelete
    | DeleteFiles(ok: bool, gone: set<string>)

  /** All copies go to a folder with a fresh name, so nothing is stored there before. */
  function Start(plan: seq<Copy>, deletes: set<string>, ingest: Bucket): State {
    State(plan, deletes, seq(|plan|, _ => Copying), None, [], ingest, map[], Waiting)
  }

  predicate At(s: State, i: nat, pc: Pc) { i < |s.gos| && s.gos[i] == pc }

  predicate AllFinished(s: State) { forall i :: 0 <= i < |s.gos| ==> s.gos[i].Finished? }

  function Step(s: State, a: Action): Option<State> {
    match a
    case CopyOk(i) =>
      if At(s, i, Copying) && i < |s.plan| && s.plan[i].source in s.ingest then
        Some(s.(gos := s.gos[i := Finished(true)],
                storage := s.storage[s.plan[i].target := s.ingest[s.plan[i].source]]))
      else None
    case CopyFail(i) => if At(s, i, Copying) then Some(s.(gos := s.gos[i := WantsMu])) else None
    case LockMu(i) =>
      if At(s, i, WantsMu) && s.mu.None? then Some(s.(gos := s.gos[i := Reading], mu := Some(i))) else None
    case ReadErrors(i) =>
      if At(s, i, Reading) then Some(s.(gos := s.gos[i := Writing(s.errors)])) else None
    case WriteErrors(i) =>
      if i < |s.gos| && s.gos[i].Writing? then
        Some(s.(gos := s.gos[i := Unlocking], errors := s.gos[i].seen + [i]))
      else None
    case UnlockMu(i) =>
      if At(s, i, Unlocking) then Some(s.(gos := s.gos[i := Finished(false)], mu := None)) else None
    case Wait =>
      if s.main.Waiting? && AllFinished(s) then
        Some(s.(main := if |s.errors| > 0 then Ended(CopiesFailed) else Streaming))
      else None
    case CreateStreams(ok) =>
      if s.main.Streaming? then Some(s.(main := if ok then Deleting else Ended(StreamsFailed))) else None
    case SkipDelete => if s.main.Deleting? then Some(s.(main := Ended(DeletingDisabled))) else None
    case DeleteFiles(ok, gone) =>
      if s.main.Deleting? && gone <= s.deletes then
        Some(s.(main := Ended(if ok then Deleted else DeleteFailed), ingest := s.ingest - gone))
      else None
  }

  function After(plan: seq<Copy>, deletes: set<string>, ingest: Bucket, acts: seq<Action>): Option<State> {
    Run(Start(plan, deletes, ingest), Step, acts)
  }

  predicate InsideMu(pc: Pc) { pc.Reading? || pc.Writing? || pc.Unlocking? }

  /** The goroutine has appended its error. */
  predicate Reported(pc: Pc) { pc.Unlocking? || pc == Finished(false) }

  /** `ingest` is the bucket as it was delivered. */
  ghost predicate GoOk(s: State, ingest: Bucket, i: nat)
    requires i < |s.gos| == |s.plan|
  {
    && (InsideMu(s.gos[i]) <==> s.mu == Some(i))
    && (s.gos[i].Writing? ==> s.gos[i].seen == s.errors)
    && (multiset(s.errors)[i] == if Reported(s.gos[i]) then 1 else 0)
    && (s.gos[i] == Finished(true) ==> StoredFrom(s.storage, ingest, s.plan[i]))
  }

  /** The storage bucket has the delivered content of the copy's source under its target. */
  predicate StoredFrom(storage: Bucket, ingest: Bucket, c: Copy) {
    c.source in ingest && c.target in storage && storage[c.target] == ingest[c.source]
  }

  ghost predicate DistinctTargets(plan: seq<Copy>) {
    forall i, j :: 0 <= i < j < |plan| ==> plan[i].target != plan[j].target
  }

  /** Past the copies without an error. */
  predicate Clean(main: Main) {
    main.Streaming? || main.Deleting? || (main.Ended? && main.outcome != CopiesFailed)
  }

  ghost predicate Inv(plan: seq<Copy>, deletes: set<string>, ingest: Bucket, s: State) {
    && s.plan == plan && s.deletes == deletes && |s.gos| == |plan|
    && (forall i :: 0 <= i < |s.gos| ==> GoOk(s, ingest, i))
    && (forall i :: i in s.errors ==> i < |s.gos|)
    && (Clean(s.main) ==> AllFinished(s) && s.errors == [])
    && (forall k :: k in s.ingest ==> k in ingest && s.ingest[k] == ingest[k])
    && (s.ingest != ingest ==> s.main.Ended? && (s.main.outcome == DeleteFailed || s.main.outcome == Deleted))
    && (forall k :: k in ingest && k !in s.ingest ==> k in deletes)
  }

  /** Copying moves no lock and no error. */
  lemma OtherKeptByCopy(plan: seq<Copy>, deletes: set<string>, ingest: Bucket, s: State, a: Action, i: nat)
    requires DistinctTargets(plan) && Inv(plan, deletes, ingest, s) && (a.CopyOk? || a.CopyFail?) && Step(s, a).Some?
    requires i < |s.gos| && i != a.i
    ensures GoOk(Step(s, a).value, ingest, i)
  {
    assert GoOk(s, ingest, i) && GoOk(s, ingest, a.i);
  }

  lemma OtherKept(plan: seq<Copy>, deletes: set<string>, ingest: Bucket, s: State, a: Action, i: nat)
    requires DistinctTargets(plan) && Inv(plan, deletes, ingest, s) && Step(s, a).Some?
    requires i < |s.gos| && Step(s, a).value.gos[i] == s.gos[i]
    ensures GoOk(Step(s, a).value, ingest, i)
  {
    if a.CopyOk? || a.CopyFail? {
      OtherKeptByCopy(plan, deletes, ingest, s, a, i);
    } else {
      assert GoOk(s, ingest, i);
      if a.WriteErrors? || a.LockMu? || a.UnlockMu? {
        assert GoOk(s, ingest, a.i);
      }
    }
  }

  predicate OfGoroutine(a: Action) { !a.Wait? && !a.CreateStreams? && !a.SkipDelete? && !a.DeleteFiles? }

  lemma ActorKept(plan: seq<Copy>, deletes: set<string>, ingest: Bucket, s: State, a: Action)
    requires Inv(plan, deletes, ingest, s) && OfGoroutine(a) && Step(s, a).Some?
    ensures a.i < |s.gos| && GoOk(Step(s, a).value, ingest, a.i)
  {
    assert GoOk(s, ingest, a.i);
  }

  lemma StepKeepsInv(plan: seq<Copy>, deletes: set<string>, ingest: Bucket, s: State, a: Action)
    requires DistinctTargets(plan) && Inv(plan, deletes, ingest, s) && Step(s, a).Some?
    ensures Inv(plan, deletes, ingest, Step(s, a).value)
  {
    var s' := Step(s, a).value;
    forall i | 0 <= i < |s'.gos| ensures GoOk(s', ingest, i) {
      if s'.gos[i] == s.gos[i] {
        OtherKept(plan, deletes, ingest, s, a, i);
      } else {
        ActorKept(plan, deletes, ingest, s, a);
      }
    }
    if a.WriteErrors? { assert GoOk(s, ingest, a.i); }
  }

  lemma Reachable(plan: seq<Copy>, deletes: set<string>, ingest: Bucket, acts: seq<Action>)
    requires DistinctTargets(plan) && After(plan, deletes, ingest, acts).Some?
    ensures Inv(plan, deletes, ingest, After(plan, deletes, ingest, acts).value)
  {
    forall s, a | Inv(plan, deletes, ingest, s) && Step(s, a).Some?
      ensures Inv(plan, deletes, ingest, Step(s, a).value)
    {
      StepKeepsInv(plan, deletes, ingest, s, a);
    }
    Invariance(Start(plan, deletes, ingest), Step, acts, s => Inv(plan, deletes, ingest, s));
  }

  /** When all goroutines are done, the errors are those of exactly the failed copies, each once, under
      any schedule: no concurrent append is lost, so there are none if and only if all copies succeeded. */
  lemma ErrorsAreTheFailures(plan: seq<Copy>, deletes: set<string>, ingest: Bucket, acts: seq<Action>)
    requires DistinctTargets(plan) && After(plan, deletes, ingest, acts).Some?
    requires AllFinished(After(plan, deletes, ingest, acts).value)
    ensures var s := After(plan, deletes, ingest, acts).value;
      && |s.gos| == |plan|
      && (forall i :: 0 <= i < |plan| ==> multiset(s.errors)[i] == if s.gos[i] == Finished(true) then 0 else 1)
      && (s.errors == [] <==> forall i :: 0 <= i < |plan| ==> s.gos[i] == Finished(true))
  {
    Reachable(plan, deletes, ingest, acts);
    var s := After(plan, deletes, ingest, acts).value;
    forall i | 0 <= i < |plan| ensures multiset(s.errors)[i] == if s.gos[i] == Finished(true) then 0 else 1 {
      assert GoOk(s, ingest, i);
    }
    if s.errors != [] {
      assert s.errors[0] in s.errors;
      assert s.errors[0] in multiset(s.errors);
    }
  }

  // ---- No media is lost ----

  /** `plan` lists the entries of the copy map, in the order in which Go iterates it. */
  ghost predicate Iterates(plan: seq<Copy>, m: map<string, string>) {
    && DistinctTargets(plan)
    && (forall i :: 0 <= i < |plan| ==> KeptIn(m, plan[i]))
    && (forall k :: k in m ==> exists i :: 0 <= i < |plan| && plan[i].target == k)
  }

  /** In every reachable state, nothing has been deleted that is not on the list, and as soon as
      anything has been, every entry of the copy map is stored at its target. */
  lemma DeletedOnlyAfterAllCopies(
    copies: map<string, string>, plan: seq<Copy>, deletes: set<string>, ingest: Bucket, acts: seq<Action>,
    target: string)
    requires Iterates(plan, copies) && After(plan, deletes, ingest, acts).Some? && target in copies
    ensures var s := After(plan, deletes, ingest, acts).value;
      && (forall k :: k in s.ingest ==> k in ingest && s.ingest[k] == ingest[k])
      && (forall k :: k in ingest && k !in s.ingest ==> k in deletes)
      && (s.main.Deleting? || s.ingest != ingest ==> StoredFrom(s.storage, ingest, Copy(target, copies[target])))
  {
    Reachable(plan, deletes, ingest, acts);
    var s := After(plan, deletes, ingest, acts).value;
    if s.main.Deleting? || s.ingest != ingest {
      var i :| 0 <= i < |plan| && plan[i].target == target;
      ErrorsAreTheFailures(plan, deletes, ingest, acts);
      assert GoOk(s, ingest, i);
    }
  }

  /** The delivered file is still there, or stored at its recorded path. */
  predicate Safe(s: State, ingest: Bucket, f: Copy) {
    f.source in ingest && f.source !in s.ingest ==> StoredFrom(s.storage, ingest, f)
  }

  /** No media is lost: a listed file whose path was not given to another source is safe in every
      reachable state, whether the delete step succeeded, failed half-way or never ran. */
  lemma DeletedFilesWereCopied(d: Delivery, plan: seq<Copy>, ingest: Bucket, acts: seq<Action>, n: nat)
    requires n < |d.files| && KeptIn(Copies(d), Listed(d)[n]) && Iterates(plan, Copies(d))
    requires After(plan, DeletedObjects(d), ingest, acts).Some?
    ensures Safe(After(plan, DeletedObjects(d), ingest, acts).value, ingest, Listed(d)[n])
  {
    DeletedOnlyAfterAllCopies(Copies(d), plan, DeletedObjects(d), ingest, acts, Listed(d)[n].target);
  }

  // ---- Exactly when ----

  lemma IteratesOneMore(front: seq<Copy>, rest: map<string, string>, c: Copy)
    requires Iterates(front, rest) && c.target !in rest
    ensures Iterates(front + [c], rest[c.target := c.source])
  {
    var plan, m := front + [c], rest[c.target := c.source];
    forall k | k in m ensures exists i :: 0 <= i < |plan| && plan[i].target == k {
      if k == c.target {
        assert plan[|front|].target == k;
      } else {
        var i :| 0 <= i < |front| && front[i].target == k;
        assert plan[i].target == k;
      }
    }
  }

  /** Every map can be iterated. */
  lemma {:induction false} SomeOrder(m: map<string, string>) returns (plan: seq<Copy>)
    ensures Iterates(plan, m)
    decreases m.Keys
  {
    plan := [];
    if k :| k in m {
      var rest := m - {k};
      var front := SomeOrder(rest);
      IteratesOneMore(front, rest, Copy(k, m[k]));
      assert rest[k := m[k]] == m;
      plan := front + [Copy(k, m[k])];
    }
  }

  function CopyAll(n: nat): seq<Action> { seq(n, i requires 0 <= i => CopyOk(i)) }

  /** The run in which the first n copies succeed, one after the other. */
  lemma {:induction false} CopyAllRuns(plan: seq<Copy>, deletes: set<string>, ingest: Bucket, n: nat)
    requires n <= |plan| && forall i :: 0 <= i < |plan| ==> plan[i].source in ingest
    ensures var r := After(plan, deletes, ingest, CopyAll(n));
      && r.Some?
      && r.value == Start(plan, deletes, ingest).(gos := r.value.gos, storage := r.value.storage)
      && |r.value.gos| == |plan|
      && (forall i :: 0 <= i < |plan| ==> r.value.gos[i] == if i < n then Finished(true) else Copying)
  {
    if n > 0 {
      CopyAllRuns(plan, deletes, ingest, n - 1);
      assert CopyAll(n)[..n - 1] == CopyAll(n - 1);
    }
  }

  lemma RunSnoc(plan: seq<Copy>, deletes: set<string>, ingest: Bucket, acts: seq<Action>, a: Action)
    requires After(plan, deletes, ingest, acts).Some?
    ensures After(plan, deletes, ingest, acts + [a]) == Step(After(plan, deletes, ingest, acts).value, a)
  {
    assert (acts + [a])[..|acts|] == acts;
  }

  lemma AllCopied(plan: seq<Copy>, deletes: set<string>, ingest: Bucket) returns (s: State)
    requires forall i :: 0 <= i < |plan| ==> plan[i].source in ingest
    ensures After(plan, deletes, ingest, CopyAll(|plan|)) == Some(s)
    ensures AllFinished(s) && s.errors == [] && s.main == Waiting && s.deletes == deletes
  {
    CopyAllRuns(plan, deletes, ingest, |plan|);
    s := After(plan, deletes, ingest, CopyAll(|plan|)).value;
  }

  /** The run in which everything succeeds. */
  lemma PerfectRun(plan: seq<Copy>, deletes: set<string>, ingest: Bucket) returns (acts: seq<Action>)
    requires forall i :: 0 <= i < |plan| ==> plan[i].source in ingest
    ensures After(plan, deletes, ingest, acts).Some?
    ensures After(plan, deletes, ingest, acts).value.main == Ended(Deleted)
    ensures forall k :: k in After(plan, deletes, ingest, acts).value.ingest ==> k !in deletes
  {
    var s := AllCopied(plan, deletes, ingest);
    var streaming := s.(main := Streaming);
    var deleting := s.(main := Deleting);
    var copied := CopyAll(|plan|);
    var waited, streamed := copied + [Wait], copied + [Wait] + [CreateStreams(true)];
    acts := streamed + [DeleteFiles(true, deletes)];
    assert After(plan, deletes, ingest, waited) == Some(streaming) by {
      RunSnoc(plan, deletes, ingest, copied, Wait);
    }
    assert After(plan, deletes, ingest, streamed) == Some(deleting) by {
      RunSnoc(plan, deletes, ingest, waited, CreateStreams(true));
    }
    RunSnoc(plan, deletes, ingest, streamed, DeleteFiles(true, deletes));
  }

  /** No schedule, no failure and no content of the bucket loses a listed file. */
  ghost predicate LosesNothing(d: Delivery) {
    forall plan: seq<Copy>, ingest: Bucket, acts: seq<Action>, n: nat ::
      Iterates(plan, Copies(d)) && After(plan, DeletedObjects(d), ingest, acts).Some? && n < |d.files| ==>
        Safe(After(plan, DeletedObjects(d), ingest, acts).value, ingest, Listed(d)[n])
  }

  /** Different contents under any two of the keys. */
  lemma {:induction false} SomeContents(keys: set<string>) returns (ingest: Bucket)
    ensures ingest.Keys == keys
    ensures forall k, l :: k in keys && l in keys && ingest[k] == ingest[l] ==> k == l
    ensures forall k :: k in keys ==> ingest[k] < |keys|
    decreases keys
  {
    if keys == {} {
      ingest := map[];
    } else {
      var k :| k in keys;
      var rest := SomeContents(keys - {k});
      ingest := rest[k := |keys| - 1];
    }
  }

  /** A file whose path went to another source is lost, if it is deleted, by a run in which everything
      succeeds. */
  lemma ReplacedFileIsLost(d: Delivery, n: nat) returns (plan: seq<Copy>, ingest: Bucket, acts: seq<Action>)
    requires n < |d.files| && !KeptIn(Copies(d), Listed(d)[n]) && Listed(d)[n].source in DeletedObjects(d)
    ensures Iterates(plan, Copies(d)) && After(plan, DeletedObjects(d), ingest, acts).Some?
    ensures After(plan, DeletedObjects(d), ingest, acts).value.main == Ended(Deleted)
    ensures !Safe(After(plan, DeletedObjects(d), ingest, acts).value, ingest, Listed(d)[n])
  {
    var f := Listed(d)[n];
    plan := SomeOrder(Copies(d));
    ingest := SomeContents(Copies(d).Values + {f.source});
    acts := PerfectRun(plan, DeletedObjects(d), ingest);
    TargetsArePlanned(OtherCopies(d), Listed(d), n);
    DeletedOnlyAfterAllCopies(Copies(d), plan, DeletedObjects(d), ingest, acts, f.target);
  }

  lemma NotListedNotDeleted(d: Delivery, plan: seq<Copy>, ingest: Bucket, acts: seq<Action>, name: string)
    requires Iterates(plan, Copies(d)) && After(plan, DeletedObjects(d), ingest, acts).Some?
    requires name in ingest && name !in DeletedObjects(d)
    ensures name in After(plan, DeletedObjects(d), ingest, acts).value.ingest
  {
    Reachable(plan, DeletedObjects(d), ingest, acts);
  }

  /** The listed file keeps its path, or is not among the objects that are deleted. */
  predicate KeptOrLeft(d: Delivery, n: nat)
    requires n < |d.files|
  {
    KeptIn(Copies(d), Listed(d)[n]) || Listed(d)[n].source !in DeletedObjects(d)
  }

  lemma KeptOrLeftIsSafe(d: Delivery, plan: seq<Copy>, ingest: Bucket, acts: seq<Action>, n: nat)
    requires n < |d.files| && KeptOrLeft(d, n) && Iterates(plan, Copies(d))
    requires After(plan, DeletedObjects(d), ingest, acts).Some?
    ensures Safe(After(plan, DeletedObjects(d), ingest, acts).value, ingest, Listed(d)[n])
  {
    var f := Listed(d)[n];
    if KeptIn(Copies(d), f) {
      DeletedFilesWereCopied(d, plan, ingest, acts, n);
    } else if f.source in ingest {
      NotListedNotDeleted(d, plan, ingest, acts, f.source);
    }
  }

  /** Exactly when nothing is lost: every listed file keeps its path or is not deleted. */
  lemma LosesNothingIff(d: Delivery)
    ensures LosesNothing(d) <==> forall n :: 0 <= n < |d.files| ==> KeptOrLeft(d, n)
  {
    if n :| 0 <= n < |d.files| && !KeptOrLeft(d, n) {
      var plan, ingest, acts := ReplacedFileIsLost(d, n);
    } else {
      forall plan: seq<Copy>, ingest: Bucket, acts: seq<Action>, n: nat |
        Iterates(plan, Copies(d)) && After(plan, DeletedObjects(d), ingest, acts).Some? && n < |d.files|
        ensures Safe(After(plan, DeletedObjects(d), ingest, acts).value, ingest, Listed(d)[n])
      {
        KeptOrLeftIsSafe(d, plan, ingest, acts, n);
      }
    }
  }

  lemma ListedIsDeleted(d: Delivery, n: nat)
    requires n < |d.files| && Inside(d, d.files[n])
    ensures Listed(d)[n].source in DeletedObjects(d)
  {
    var keys := Mapped(ListedRule(d).key, d.files);
    assert DeleteKeys(d)[|DeleteKeys(d)| - |keys| + n] == keys[n];
  }

  lemma PlanKeepsAllIffNames(d: Delivery)
    requires Plain(d.storagePrefix)
    ensures (forall n :: 0 <= n < |d.files| ==> KeptIn(Copies(d), Listed(d)[n])) <==>
      forall i, j :: 0 <= i < j < |d.files| && SameName(d.files[i], d.files[j]) ==>
        Original(d, d.files[i]) == Original(d, d.files[j])
  {
    var files := Listed(d);
    PlanKeepsAllIff(OtherCopies(d), files);
    forall i, j | 0 <= i < j < |files|
      ensures files[i].target == files[j].target <==> SameName(d.files[i], d.files[j])
    {
      SameTargetIffSameName(d, d.files[i], d.files[j]);
    }
    assert forall i :: 0 <= i < |files| ==> files[i].source == Original(d, d.files[i]);
  }

  /** The same in terms of the listed paths, when none of them leaves the bucket: nothing is lost if and
      only if files of one base name are one file. */
  lemma LosesNothingIffNames(d: Delivery)
    requires Plain(d.storagePrefix) && forall n :: 0 <= n < |d.files| ==> Inside(d, d.files[n])
    ensures LosesNothing(d) <==>
      forall i, j :: 0 <= i < j < |d.files| && SameName(d.files[i], d.files[j]) ==>
        Original(d, d.files[i]) == Original(d, d.files[j])
  {
    LosesNothingIff(d);
    PlanKeepsAllIffNames(d);
    forall n | 0 <= n < |d.files| ensures KeptOrLeft(d, n) <==> KeptIn(Copies(d), Listed(d)[n]) {
      ListedIsDeleted(d, n);
    }
  }

  lemma FileInFolder(d: Delivery, base: string, folder: string, name: string)
    requires Plain(d.bucket) && BasePath(d) == base && Plain(base) && Plain(folder) && Plain(name)
    ensures Inside(d, folder + "/" + name)
    ensures Original(d, folder + "/" + name) == d.bucket + "/" + (base + "/" + folder + "/" + name)
  {
    var p := folder + "/" + name;
    SplitWhole(base, '/');
    SplitAppend(folder, name);
    SplitWhole(folder, '/');
    SplitWhole(name, '/');
    ReduceHead(base, Split(p, '/'));
    assert [base] + [] == [base];
    ReduceBehind([base], [], Split(p, '/'));
    InsideWhenRelative(d, p);
    JoinTwo(base, p);
    JoinThree(base, folder, name);
    JoinBehindTwo(base, folder, name);
  }

  /** Two files of one name in two folders of a delivery: with "d/meta.json", "a/x.mp4" and "b/x.mp4", one
      of the two is lost. */
  lemma EqualBaseNamesLose(d: Delivery, base: string, meta: string, a: string, b: string, name: string)
    requires Plain(d.bucket) && Plain(d.storagePrefix)
    requires d.jsonMetaPath == base + "/" + meta && Plain(base) && Plain(meta)
    requires Plain(a) && Plain(b) && a != b && Plain(name)
    requires d.files == [a + "/" + name, b + "/" + name]
    ensures !LosesNothing(d)
  {
    DirOfFile(base, meta);
    FileInFolder(d, base, a, name);
    FileInFolder(d, base, b, name);
    BaseInFolder(a, name);
    BaseInFolder(b, name);
    LosesNothingIffNames(d);
    assert SameName(d.files[0], d.files[1]);
    DifferentFolders(d.bucket, base, a, b, name);
    assert Original(d, d.files[0]) != Original(d, d.files[1]);
  }

  lemma DifferentFolders(bucket: string, base: string, a: string, b: string, name: string)
    requires a != b
    ensures bucket + "/" + (base + "/" + a + "/" + name) != bucket + "/" + (base + "/" + b + "/" + name)
  {
    var x, y := bucket + "/" + (base + "/" + a + "/" + name), bucket + "/" + (base + "/" + b + "/" + name);
    var from, rest := |bucket| + |base| + 2, |name| + 1;
    assert x[from..|x| - rest] == a && y[from..|y| - rest] == b;
  }

  // ---- Failures ----

  /** A failed copy reports itself, alone under the mutex, and stores nothing. */
  lemma FailedCopyReports(s: State, i: nat) returns (s1: State, s2: State, s3: State, s4: State, s5: State)
    requires At(s, i, Copying) && s.mu.None?
    ensures Step(s, CopyFail(i)) == Some(s1) && Step(s1, LockMu(i)) == Some(s2)
    ensures Step(s2, ReadErrors(i)) == Some(s3) && Step(s3, WriteErrors(i)) == Some(s4)
    ensures Step(s4, UnlockMu(i)) == Some(s5)
    ensures s5 == s.(gos := s.gos[i := Finished(false)], errors := s.errors + [i])
  {
    s1 := Step(s, CopyFail(i)).value;
    s2 := Step(s1, LockMu(i)).value;
    s3 := Step(s2, ReadErrors(i)).value;
    s4 := Step(s3, WriteErrors(i)).value;
    s5 := Step(s4, UnlockMu(i)).value;
    assert s5.gos == s.gos[i := Finished(false)];
  }

  /** A copy puts the content of its source under its target. */
  lemma CopyStores(s: State, i: nat)
    requires At(s, i, Copying) && i < |s.plan| && s.plan[i].source in s.ingest
    ensures Step(s, CopyOk(i)) == Some(s.(gos := s.gos[i := Finished(true)],
      storage := s.storage[s.plan[i].target := s.ingest[s.plan[i].source]]))
  {
  }

  /** After a failed copy the main goroutine ends without streams and without deleting. */
  lemma FailureEnds(s: State)
    requires AllFinished(s) && s.main == Waiting && s.errors != []
    ensures Step(s, Wait) == Some(s.(main := Ended(CopiesFailed)))
    ensures forall ok, gone :: Step(s.(main := Ended(CopiesFailed)), DeleteFiles(ok, gone)).None?
    ensures forall ok :: Step(s.(main := Ended(CopiesFailed)), CreateStreams(ok)).None?
  {
  }

  /** It does not go on before all copies are done, nor to the delete step before the streams are. */
  lemma OrderOfMain(s: State)
    ensures !AllFinished(s) ==> Step(s, Wait).None?
    ensures s.main != Deleting ==> Step(s, SkipDelete).None? && forall ok, gone :: Step(s, DeleteFiles(ok, gone)).None?
    ensures s.main == Streaming ==> Step(s, CreateStreams(false)) == Some(s.(main := Ended(StreamsFailed)))
    ensures s.main == Deleting ==> Step(s, SkipDelete) == Some(s.(main := Ended(DeletingDisabled)))
    ensures s.main == Deleting ==> Step(s, DeleteFiles(false, {})) == Some(s.(main := Ended(DeleteFailed)))
  {
    assert s.ingest - {} == s.ingest;
  }
}
