/** What becomes of processed variants over whole runs of blob operations (variant.go). */
module VariantRuns {
  import opened Common
  import opened Disk
  import opened Lifecycle

  /**
   * The reference: what the transformer last made of the blob's bytes for this digest. Purging a blob keeps its
   * variants.
   */
  function LastVariant(steps: seq<BlobStep>, id: int, digest: Bytes): Option<Bytes> {
    if steps == [] then None
    else
      var before := steps[..|steps| - 1];
      match steps[|steps| - 1]
      case Process(i, d, transform) =>
        var made := Made(Expected(before, id), transform);
        if i == id && d == digest && made.Ok? then Some(made.value) else LastVariant(before, id, digest)
      case _ => LastVariant(before, id, digest)
  }

  function Made(source: Result<Bytes>, transform: Bytes -> Result<Bytes>): Result<Bytes> {
    if source.Err? then source else transform(source.value)
  }

  function ReadVariant(disks: map<Bytes, Disk>, b: Birth, digest: Bytes): Result<Bytes> {
    DownloadBlob(disks, VariantObject(b.key, digest).Text(), b.service)
  }

  function ExpectedVariant(steps: seq<BlobStep>, id: int, digest: Bytes): Result<Bytes> {
    var v := LastVariant(steps, id, digest);
    if v.None? then Err(NoSuchFile) else Ok(v.value)
  }

  /** `disks'` reads every variant as `disks` does, but for one that reads `now`. */
  ghost predicate VariantChanges(disks: map<Bytes, Disk>, disks': map<Bytes, Disk>, changed: Birth, digest: Bytes,
                                 now: Result<Bytes>)
  {
    forall b: Birth, d :: BlobObject(b.key).Good() && b.service in disks && IsHexText(d) ==>
      ReadVariant(disks', b, d) == if b == changed && d == digest then now else ReadVariant(disks, b, d)
  }

  ghost predicate SameVariants(disks: map<Bytes, Disk>, disks': map<Bytes, Disk>) {
    forall b: Birth, d :: BlobObject(b.key).Good() && b.service in disks && IsHexText(d) ==>
      ReadVariant(disks', b, d) == ReadVariant(disks, b, d)
  }

  lemma UploadLeavesVariants(md5: Bytes -> Bytes, w: World, key: Bytes, service: Bytes, data: Bytes)
    requires AllTidy(w.disks) && service in w.disks && BlobObject(key).Good()
    ensures SameVariants(w.disks, UploadBytes(md5, w, key, service, data, Checksum(md5, data)).0.disks)
  {
    hide Upload, Read, Checksum, Tidy;
    assert BlobObject(key).Text() == key;
    UploadObject(md5, w.disks[service], BlobObject(key), data, Checksum(md5, data));
    var w' := UploadBytes(md5, w, key, service, data, Checksum(md5, data)).0;
    forall b: Birth, d | BlobObject(b.key).Good() && b.service in w.disks && IsHexText(d)
      ensures ReadVariant(w'.disks, b, d) == ReadVariant(w.disks, b, d)
    {
      var o := VariantObject(b.key, d);
      assert o.Good();
      assert ReadObject(w'.disks[b.service], o) == Read(w'.disks[b.service], o.Text());
      assert ReadObject(w.disks[b.service], o) == Read(w.disks[b.service], o.Text());
    }
  }

  lemma PurgeLeavesVariants(w: World, id: int, key: Bytes, service: Bytes)
    requires AllTidy(w.disks) && service in w.disks && BlobObject(key).Good()
    ensures SameVariants(w.disks, PurgeBlob(w, id, key, service).0.disks)
  {
    hide Remove, Read, Tidy;
    assert BlobObject(key).Text() == key;
    RemoveObject(w.disks[service], BlobObject(key));
    var w' := PurgeBlob(w, id, key, service).0;
    forall b: Birth, d | BlobObject(b.key).Good() && b.service in w.disks && IsHexText(d)
      ensures ReadVariant(w'.disks, b, d) == ReadVariant(w.disks, b, d)
    {
      var o := VariantObject(b.key, d);
      assert o.Good();
      assert ReadObject(w'.disks[b.service], o) == Read(w'.disks[b.service], o.Text());
      assert ReadObject(w.disks[b.service], o) == Read(w.disks[b.service], o.Text());
    }
  }

  lemma ProcessChangesVariant(md5: Bytes -> Bytes, w: World, b0: Birth, digest: Bytes,
                              transform: Bytes -> Result<Bytes>)
    requires AllTidy(w.disks) && b0.service in w.disks && VariantObject(b0.key, digest).Good()
    ensures
      var w' := ProcessVariant(md5, w, b0.key, b0.service, VariantObject(b0.key, digest).Text(), transform).0;
      var made := Made(DownloadBlob(w.disks, b0.key, b0.service), transform);
      VariantChanges(w.disks, w'.disks, b0, digest, if made.Ok? then made else ReadVariant(w.disks, b0, digest))
  {
    hide Upload, Read, Tidy;
    var v := VariantObject(b0.key, digest);
    var w' := ProcessVariant(md5, w, b0.key, b0.service, v.Text(), transform).0;
    var made := Made(DownloadBlob(w.disks, b0.key, b0.service), transform);
    if made.Ok? {
      UploadObject(md5, w.disks[b0.service], v, made.value, []);
      forall b: Birth, d | BlobObject(b.key).Good() && b.service in w.disks && IsHexText(d)
        ensures ReadVariant(w'.disks, b, d) == if b == b0 && d == digest then made else ReadVariant(w.disks, b, d)
      {
        var o := VariantObject(b.key, d);
        assert o.Good();
        assert ReadObject(w'.disks[b.service], o) == Read(w'.disks[b.service], o.Text());
        assert ReadObject(w.disks[b.service], o) == Read(w.disks[b.service], o.Text());
      }
    } else {
      assert w' == w;
    }
  }

  ghost predicate VariantsOf(s: State, steps: seq<BlobStep>) {
    && (forall i, d :: 0 <= i < |s.born| && IsHexText(d) ==>
         ReadVariant(s.world.disks, s.born[i], d) == ExpectedVariant(steps, i + 1, d))
    && (forall b: Birth, d :: b !in s.born && BlobObject(b.key).Good() && b.service in s.world.disks && IsHexText(d) ==>
         ReadVariant(s.world.disks, b, d) == Err(NoSuchFile))
    && (forall id, d :: id > |s.born| ==> LastVariant(steps, id, d) == None)
  }

  lemma LastVariantStep(steps: seq<BlobStep>, step: BlobStep, id: int, digest: Bytes)
    ensures LastVariant(steps + [step], id, digest) ==
      match step
      case Process(i, d, transform) =>
        var made := Made(Expected(steps, id), transform);
        if i == id && d == digest && made.Ok? then Some(made.value) else LastVariant(steps, id, digest)
      case _ => LastVariant(steps, id, digest)
  {
    var all := steps + [step];
    assert all[..|all| - 1] == steps && all[|all| - 1] == step;
  }

  /** Of all operations only processing changes what a variant reads, and only the one it processes. */
  lemma StepVariants(md5: Bytes -> Bytes, s: State, step: BlobStep)
    requires BornWell(s) && AllTidy(s.world.disks) && Admissible(s, step)
    ensures
      var disks' := Apply(md5, s, step).0.world.disks;
      if step.Process? then
        var b := s.born[step.id - 1];
        var made := Made(Held(s, b), step.transform);
        VariantChanges(s.world.disks, disks', b, step.digest,
                       if made.Ok? then made else ReadVariant(s.world.disks, b, step.digest))
      else SameVariants(s.world.disks, disks')
  {
    hide UploadBytes, DownloadBlob, PurgeBlob, ProcessVariant, Checksum, Tidy, ReadVariant;
    var w := s.world;
    match step
    case Create(key, service, data) =>
      UploadLeavesVariants(md5, w.InsertBlob(BlobRow(key, service, |data|, Checksum(md5, data))), key, service, data);
    case CreateDirect(key, service, size, checksum) =>
    case UploadAgain(id, data) =>
      var b := s.born[id - 1];
      UploadLeavesVariants(md5, Updated(md5, w, id, b.key, b.service, data), b.key, b.service, data);
    case Purge(id) =>
      PurgeLeavesVariants(w, id, s.born[id - 1].key, s.born[id - 1].service);
    case Process(id, digest, transform) =>
      assert VariantObject(s.born[id - 1].key, digest).Good();
      ProcessChangesVariant(md5, w, s.born[id - 1], digest, transform);
  }

  lemma StepKeepsVariants(md5: Bytes -> Bytes, s: State, steps: seq<BlobStep>, step: BlobStep)
    requires Inv(md5, s, steps) && VariantsOf(s, steps) && Admissible(s, step)
    ensures VariantsOf(Apply(md5, s, step).0, steps + [step])
  {
    hide Apply, AllTidy, Checksum, ReadVariant, LastVariant, LastUpload, DownloadBlob;
    StepDisks(md5, s, step);
    StepVariants(md5, s, step);
    var s' := Apply(md5, s, step).0;
    forall i, d | 0 <= i < |s'.born| && IsHexText(d)
      ensures ReadVariant(s'.world.disks, s'.born[i], d) == ExpectedVariant(steps + [step], i + 1, d)
    {
      LastVariantStep(steps, step, i + 1, d);
    }
    forall id, d | id > |s'.born| ensures LastVariant(steps + [step], id, d) == None {
      LastVariantStep(steps, step, id, d);
    }
  }

  lemma {:induction false} RunKeepsVariants(md5: Bytes -> Bytes, roots: map<Bytes, Path>, steps: seq<BlobStep>)
    requires CanRun(md5, Start(roots), steps)
    ensures VariantsOf(RunSteps(md5, Start(roots), steps), steps)
  {
    hide Apply, Inv, VariantsOf;
    if steps == [] {
      StartVariants(roots);
    } else {
      var before, last := steps[..|steps| - 1], steps[|steps| - 1];
      RunKeepsVariants(md5, roots, before);
      RunKeeps(md5, roots, before);
      assert steps == before + [last];
      StepKeepsVariants(md5, RunSteps(md5, Start(roots), before), before, last);
    }
  }

  lemma StartVariants(roots: map<Bytes, Path>)
    ensures VariantsOf(Start(roots), [])
  {
    hide PathFor;
    var s := Start(roots);
    forall b: Birth, d | BlobObject(b.key).Good() && b.service in s.world.disks && IsHexText(d)
      ensures ReadVariant(s.world.disks, b, d) == Err(NoSuchFile)
    {
      TextLength(VariantObject(b.key, d));
    }
  }

  /**
   * After any run a variant reads what processing last made of its blob's bytes, even when the blob has changed or
   * gone since.
   */
  lemma VariantsStay(md5: Bytes -> Bytes, roots: map<Bytes, Path>, steps: seq<BlobStep>, id: int, digest: Bytes)
    requires CanRun(md5, Start(roots), steps) && 1 <= id <= Created(steps) && IsHexText(digest)
    ensures
      var s := RunSteps(md5, Start(roots), steps);
      && |s.born| == Created(steps)
      && ReadVariant(s.world.disks, s.born[id - 1], digest) == ExpectedVariant(steps, id, digest)
  {
    hide CanRun, RunSteps, ReadVariant, LastVariant;
    RunKeeps(md5, roots, steps);
    RunKeepsVariants(md5, roots, steps);
    var s := RunSteps(md5, Start(roots), steps);
    assert ReadVariant(s.world.disks, s.born[id - 1], digest) == ExpectedVariant(steps, id - 1 + 1, digest);
  }
}
