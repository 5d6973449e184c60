/** The snapshot store and artifact writer of fs.go, over the abstract file
    store. */
module SnapshotFiles {
  import opened Raster
  import opened Images
  import opened ImageLaws
  import opened Wrappers
  import opened Store
  import opened Errors

  /** Where the snapshot called `name` lives (fs.go:24). */
  function SnapshotPath(root: Path, name: string): Path {
    Join(root, name + ".png")
  }

  /** Different names without a path separator are stored in different
      files. (A name with one, such as "x/../y", can reach another name's
      file once the join cleans the path.) */
  lemma SnapshotPathInjective(root: Path, a: string, b: string)
    requires Separator !in a && Separator !in b
    requires SnapshotPath(root, a) == SnapshotPath(root, b)
    ensures a == b
  {
    var x, y := a + ".png", b + ".png";
    if root != "" {
      assert x == SnapshotPath(root, a)[|root| + 1..];
      assert y == SnapshotPath(root, b)[|root| + 1..];
    }
    assert a == x[..|x| - 4] && b == y[..|y| - 4];
  }

  /** The snapshot file is never the storage root itself. */
  lemma SnapshotPathNotRoot(root: Path, name: string)
    ensures SnapshotPath(root, name) != root
  {
    assert |SnapshotPath(root, name)| > |root|;
  }

  /** The pattern of the composite's temporary file (fs.go:57). */
  function CompositeTemplate(name: string): string { name + "-diff-*.png" }

  /** The pattern of the actual image's temporary file (fs.go:65). */
  function ActualTemplate(name: string): string { name + "-actual-*.png" }

  /** For a name without a separator, `os.CreateTemp` splits each pattern
      into the name and its role before the random part, and ".png" after it. */
  lemma TemplatesSplit(name: string)
    requires Separator !in name
    ensures PrefixAndSuffix(CompositeTemplate(name)) == Ok((name + "-diff-", ".png"))
    ensures PrefixAndSuffix(ActualTemplate(name)) == Ok((name + "-actual-", ".png"))
  {
    assert CompositeTemplate(name) == name + "-diff-" + "*" + ".png";
    SplitAtStar(name + "-diff-", ".png");
    assert ActualTemplate(name) == name + "-actual-" + "*" + ".png";
    SplitAtStar(name + "-actual-", ".png");
  }

  /** ensureRootExists (fs.go:13-19): creates `root` when nothing is there,
      ignoring a failure to, and says whether it was missing. */
  method EnsureRootExists(fs: FileStore, root: Path) returns (created: bool)
    modifies fs
    ensures created == !old(fs.Exists(root))
    ensures fs.dirs == if created && root !in fs.env.denyWrite then old(fs.dirs) + {root} else old(fs.dirs)
    ensures fs.files == old(fs.files) && fs.nonce == old(fs.nonce)
  {
    if !fs.Exists(root) {
      var _ := fs.MkdirAll(root);
      return true;
    }
    return false;
  }

  /** A successful load: the stored snapshot, or the news that none existed
      and one was written. */
  datatype Loaded = Found(snapshot: Image) | Created

  /** What loadOrCreateSnapshot returns when opening the snapshot file at
      `path` gives `probe`, the path may or may not be created, and its
      writes do or do not fail. */
  function LoadOutcome(probe: Result<Blob, Fault>, path: Path, actual: Image, writable: bool, failing: bool)
    : Result<Loaded, Error>
  {
    match probe
    case Ok(blob) =>
      (match Decode(blob)
       case Ok(snapshot) => Ok(Found(snapshot))
       case Err(f) => Err(SnapshotOpenFailed(path, f)))
    case Err(NotExist) =>
      if !writable then Err(SnapshotCreateFailed(path, Permission))
      else (match EncodeFault(actual, failing)
            case Some(f) => Err(SnapshotCreateFailed(path, f))
            case None => Ok(Created))
    case Err(f) => Err(SnapshotOpenFailed(path, f))
  }

  /** The file loadOrCreateSnapshot leaves at the snapshot path, if it writes one. */
  function LoadWrite(probe: Result<Blob, Fault>, actual: Image, writable: bool, failing: bool): Option<Blob> {
    if probe == Err(NotExist) && writable
    then Some(if EncodeFault(actual, failing).None? then Png(actual) else Unreadable)
    else None
  }

  function Put(files: map<Path, Blob>, path: Path, write: Option<Blob>): map<Path, Blob> {
    if write.Some? then files[path := write.value] else files
  }

  /** Writing a file adds its name to the names in use. */
  lemma PutTaken(files: map<Path, Blob>, dirs: set<Path>, p: Path, b: Blob)
    ensures Put(files, p, Some(b)).Keys + dirs == files.Keys + dirs + {p}
  {
  }

  /** A load either finds the stored image, creates the snapshot from
      `actual`, or fails, and it writes only when nothing was stored. */
  lemma LoadOutcomeCases(probe: Result<Blob, Fault>, path: Path, actual: Image, writable: bool, failing: bool)
    ensures var r, w := LoadOutcome(probe, path, actual, writable, failing), LoadWrite(probe, actual, writable, failing);
            && (r == Ok(Created) <==> probe == Err(NotExist) && w == Some(Png(actual)))
            && (forall img :: r == Ok(Found(img)) <==> probe == Ok(Png(img)) && Decodable(img))
            && (w.Some? ==> probe == Err(NotExist))
            && (r.Err? ==> r.error.path == path && (r.error.SnapshotCreateFailed? <==> probe == Err(NotExist)))
  {
  }

  /** A snapshot just created is found, holding `actual`, by the next load,
      unless a side is too long for the decoder's signed 32-bit header
      (2^31 up to 2^32 - 1, which the encoder still accepts). */
  lemma CreateThenLoad(path: Path, actual: Image, other: Image, writable: bool, failing: bool, w': bool, f': bool)
    requires LoadOutcome(Err(NotExist), path, actual, writable, failing) == Ok(Created)
    ensures var stored := LoadWrite(Err(NotExist), actual, writable, failing);
            && stored.Some?
            && LoadOutcome(Ok(stored.value), path, other, w', f')
               == if Decodable(actual) then Ok(Found(actual)) else Err(SnapshotOpenFailed(path, NonPositiveDimension))
  {
  }

  /** A loaded snapshot always has area, so a change of bounds against it
      always gives a nonzero count. */
  lemma FoundHasArea(probe: Result<Blob, Fault>, path: Path, actual: Image, writable: bool, failing: bool)
    requires LoadOutcome(probe, path, actual, writable, failing).Ok?
    requires LoadOutcome(probe, path, actual, writable, failing).value.Found?
    ensures var snapshot := LoadOutcome(probe, path, actual, writable, failing).value.snapshot;
            && snapshot.width > 0 && snapshot.height > 0
            && (Bounds(snapshot) != Bounds(actual) ==> DiffCount(snapshot, actual) > 0)
  {
    var snapshot := LoadOutcome(probe, path, actual, writable, failing).value.snapshot;
    if Bounds(snapshot) != Bounds(actual) {
      BoundsChangeCounts(snapshot, actual);
    }
  }

  /** loadOrCreateSnapshot (fs.go:23-50). */
  method LoadOrCreateSnapshot(fs: FileStore, root: Path, name: string, actual: Image) returns (r: Result<Loaded, Error>)
    modifies fs
    ensures var path := SnapshotPath(root, name);
            var probe := old(fs.Open(path));
            var writable, failing := path !in fs.env.denyWrite, path in fs.env.failingWrites;
            r == LoadOutcome(probe, path, actual, writable, failing)
            && fs.files == Put(old(fs.files), path, LoadWrite(probe, actual, writable, failing))
    ensures fs.dirs == old(fs.dirs) && fs.nonce == old(fs.nonce)
  {
    var path := SnapshotPath(root, name);
    var probe := fs.Open(path);
    if probe.Err? {
      if probe.error == NotExist {
        var err := fs.Create(path);
        if err.Some? {
          return Err(SnapshotCreateFailed(path, err.value));
        }
        err := fs.Encode(path, actual);
        if err.Some? {
          return Err(SnapshotCreateFailed(path, err.value));
        }
        return Ok(Created);
      }
      return Err(SnapshotOpenFailed(path, probe.error));
    }
    var decoded := Decode(probe.value);
    if decoded.Err? {
      return Err(SnapshotOpenFailed(path, decoded.error));
    }
    return Ok(Found(decoded.value));
  }

  /** What writeTempFile reports and leaves: the path ("" when no file was
      created), the error's cause, the file written, and the random source
      afterwards. */
  datatype TempWrite = TempWrite(path: Path, fault: Option<Fault>, blob: Option<Blob>, nonce: nat)

  /** The outcome of writeTempFile(dir, template, img) when the names in
      `taken` exist and the random source is at `n`. */
  function WriteTempOutcome(taken: set<Path>, env: Env, n: nat, dir: Path, template: string, img: Image)
    : (w: TempWrite)
    ensures (w.path == "") <==> w.blob.None?
    ensures w.path == "" ==> w.fault.Some?
    ensures w.path != "" ==> w.path !in taken && FromTemplate(w.path, env, dir, template)
    ensures w.fault.None? <==> w.blob == Some(Png(img))
    ensures w.blob.Some? ==> w.blob.value in {Png(img), Unreadable}
  {
    var (made, next) := CreateTempOutcome(taken, env, dir, template, n);
    if made.Err? then TempWrite("", Some(made.error), None, next)
    else
      var f := EncodeFault(img, made.value in env.failingWrites);
      TempWrite(made.value, f, Some(if f.None? then Png(img) else Unreadable), next)
  }

  /** The store and results after a call of writeTempFile whose outcome is `w`. */
  ghost predicate Wrote(w: TempWrite, files0: map<Path, Blob>, fs: FileStore, path: Path, err: Option<Error>)
    reads fs
  {
    && path == w.path
    && err == (if w.fault.Some? then Some(TempFileFailed(w.fault.value)) else None)
    && fs.files == Put(files0, path, w.blob)
    && fs.nonce == w.nonce
  }

  /** writeTempFile (fs.go:70-81). */
  method WriteTempFile(fs: FileStore, tmpDir: Path, template: string, img: Image) returns (path: Path, err: Option<Error>)
    modifies fs
    ensures Wrote(WriteTempOutcome(old(fs.files.Keys + fs.dirs), fs.env, old(fs.nonce), tmpDir, template, img),
                  old(fs.files), fs, path, err)
    ensures fs.dirs == old(fs.dirs)
  {
    var made := fs.CreateTemp(tmpDir, template);
    if made.Err? {
      return "", Some(TempFileFailed(made.error));
    }
    path := made.value;
    var fault := fs.Encode(path, img);
    if fault.Some? {
      return path, Some(TempFileFailed(fault.value));
    }
    return path, None;
  }

  /** writeComposite (fs.go:54-60): the three-panel image, under
      name + "-diff-*.png". */
  method WriteComposite(fs: FileStore, tmpDir: Path, name: string, diff: Image, left: Image, right: Image)
    returns (path: Path, err: Option<Error>)
    modifies fs
    ensures Wrote(WriteTempOutcome(old(fs.files.Keys + fs.dirs), fs.env, old(fs.nonce), tmpDir, CompositeTemplate(name),
                                   CompositeImage(diff, left, right)),
                  old(fs.files), fs, path, err)
    ensures fs.dirs == old(fs.dirs)
  {
    var composite := GenerateComposite(diff, left, right);
    path, err := WriteTempFile(fs, tmpDir, CompositeTemplate(name), composite);
  }

  /** writeActual (fs.go:64-66): the compared image, under name + "-actual-*.png". */
  method WriteActual(fs: FileStore, tmpDir: Path, name: string, actual: Image) returns (path: Path, err: Option<Error>)
    modifies fs
    ensures Wrote(WriteTempOutcome(old(fs.files.Keys + fs.dirs), fs.env, old(fs.nonce), tmpDir, ActualTemplate(name), actual),
                  old(fs.files), fs, path, err)
    ensures fs.dirs == old(fs.dirs)
  {
    path, err := WriteTempFile(fs, tmpDir, ActualTemplate(name), actual);
  }
}
