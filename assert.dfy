/** The comparison orchestrator of assert.go: a `Snapshots` instance holds
    its configuration and the list of temporary artifacts it has written;
    `TestWithName` loads or creates the snapshot, diffs, writes artifacts
    and returns a typed result; `Cleanup` removes the artifacts. */
module Snapshot {
  import opened Raster
  import opened Images
  import opened ImageLaws
  import opened Wrappers
  import opened Store
  import opened Errors
  import opened SnapshotFiles

  // ---------------------------------------------------------------------
  // Configuration (assert.go:24-57)

  /** The functional options `New` accepts. */
  datatype ConfigOption = WithStorageRoot(root: Path) | WithTempDir(tmp: Path) | WithDiffColor(color: Color)

  datatype Config = Config(root: Path, tmp: Path, diffColor: Color)

  const Defaults := Config(".snapshots", "", RGBA(0, 255, 0, 255))

  function Apply(c: Config, opt: ConfigOption): Config {
    match opt
    case WithStorageRoot(root) => c.(root := root)
    case WithTempDir(tmp) => c.(tmp := tmp)
    case WithDiffColor(color) => c.(diffColor := color)
  }

  /** `c` after the options, applied first to last. */
  function Configure(c: Config, opts: seq<ConfigOption>): Config {
    if |opts| == 0 then c else Apply(Configure(c, opts[..|opts| - 1]), opts[|opts| - 1])
  }

  predicate SameKind(a: ConfigOption, b: ConfigOption) {
    (a.WithStorageRoot? && b.WithStorageRoot?) || (a.WithTempDir? && b.WithTempDir?) || (a.WithDiffColor? && b.WithDiffColor?)
  }

  /** The last option of a kind decides that setting. */
  lemma {:induction false} LastOptionWins(c: Config, opts: seq<ConfigOption>, i: nat)
    requires i < |opts|
    requires forall j :: i < j < |opts| ==> !SameKind(opts[j], opts[i])
    ensures match opts[i]
            case WithStorageRoot(root) => Configure(c, opts).root == root
            case WithTempDir(tmp) => Configure(c, opts).tmp == tmp
            case WithDiffColor(color) => Configure(c, opts).diffColor == color
  {
    if i < |opts| - 1 {
      LastOptionWins(c, opts[..|opts| - 1], i);
    }
  }

  /** A setting no option names keeps its starting value. */
  lemma {:induction false} UnsetKeepsDefault(c: Config, opts: seq<ConfigOption>)
    ensures (forall j :: 0 <= j < |opts| ==> !opts[j].WithStorageRoot?) ==> Configure(c, opts).root == c.root
    ensures (forall j :: 0 <= j < |opts| ==> !opts[j].WithTempDir?) ==> Configure(c, opts).tmp == c.tmp
    ensures (forall j :: 0 <= j < |opts| ==> !opts[j].WithDiffColor?) ==> Configure(c, opts).diffColor == c.diffColor
  {
    if |opts| > 0 {
      UnsetKeepsDefault(c, opts[..|opts| - 1]);
    }
  }

  // ---------------------------------------------------------------------
  // Verdict (assert.go:116-131)

  /** The result of a comparison that loaded `snapshot`: differing bounds
      come first, then a nonzero count. */
  function Verdict(snapshot: Image, actual: Image, files: DiffFiles, count: int): Option<Error> {
    if Bounds(snapshot) != Bounds(actual) then Some(BoundsMismatch(files, Bounds(snapshot), Bounds(actual)))
    else if count != 0 then Some(PixelsDiffer(files, count))
    else None
  }

  /** With the count generateDiff computes, a comparison passes exactly when
      the two images are identical; differing bounds always report
      BoundsMismatch, and otherwise the differing pixels are reported. */
  lemma VerdictMeaning(snapshot: Image, actual: Image, files: DiffFiles)
    ensures var v := Verdict(snapshot, actual, files, DiffCount(snapshot, actual));
            && (v.None? <==> snapshot == actual)
            && (Bounds(snapshot) != Bounds(actual) ==> v == Some(BoundsMismatch(files, Bounds(snapshot), Bounds(actual))))
            && (Bounds(snapshot) == Bounds(actual) && snapshot != actual ==>
                  v == Some(PixelsDiffer(files, DiffCount(snapshot, actual))) && DiffCount(snapshot, actual) > 0)
  {
    ZeroCountIff(snapshot, actual);
    if Bounds(snapshot) == Bounds(actual) && DiffCount(snapshot, actual) == 0 {
      Extensionality(snapshot, actual);
    }
  }

  // ---------------------------------------------------------------------
  // Artifacts (assert.go:91-114)

  /** What the artifact step of a failing comparison does: the composite's
      write and, only when that one succeeded, the actual image's. */
  datatype Artifacts = Artifacts(composite: TempWrite, actual: Option<TempWrite>)

  /** The artifact step when the names in `taken` exist and the random source
      is at `n`. */
  function ArtifactsOutcome(taken: set<Path>, env: Env, n: nat, tmp: Path, name: string, composite: Image, actual: Image)
    : Artifacts
  {
    var w1 := WriteTempOutcome(taken, env, n, tmp, CompositeTemplate(name), composite);
    if w1.fault.Some? then Artifacts(w1, None)
    else Artifacts(w1, Some(WriteTempOutcome(taken + {w1.path}, env, w1.nonce, tmp, ActualTemplate(name), actual)))
  }

  /** The two shapes of the artifact step: stopped by the composite's fault,
      or both writes made. */
  lemma ArtifactsShape(taken: set<Path>, env: Env, n: nat, tmp: Path, name: string, composite: Image, actual: Image)
    ensures var a := ArtifactsOutcome(taken, env, n, tmp, name, composite, actual);
            var w1 := WriteTempOutcome(taken, env, n, tmp, CompositeTemplate(name), composite);
            && a.composite == w1
            && (w1.fault.Some? ==> a.actual == None)
            && (w1.fault.None? ==>
                  a.actual == Some(WriteTempOutcome(taken + {w1.path}, env, w1.nonce, tmp, ActualTemplate(name), actual)))
  {
  }

  /** Appending the two registrations one after the other appends both. */
  lemma AppendRegistered(before: seq<Path>, first: seq<Path>, second: seq<Path>)
    ensures before + first + second == before + (first + second)
  {
  }

  function Registered(w: TempWrite): seq<Path> {
    if w.path != "" then [w.path] else []
  }

  /** The paths appended to `tempFiles`, in order. */
  function Added(a: Artifacts): seq<Path> {
    Registered(a.composite) + (if a.actual.Some? then Registered(a.actual.value) else [])
  }

  /** The files after the artifact step. */
  function Stored(files: map<Path, Blob>, a: Artifacts): map<Path, Blob> {
    var f := Put(files, a.composite.path, a.composite.blob);
    if a.actual.Some? then Put(f, a.actual.value.path, a.actual.value.blob) else f
  }

  /** The error the artifact step returns, if any. */
  function Failure(a: Artifacts): Option<Error> {
    if a.composite.fault.Some? then Some(TempFileFailed(a.composite.fault.value))
    else if a.actual.Some? && a.actual.value.fault.Some? then Some(TempFileFailed(a.actual.value.fault.value))
    else None
  }

  /** The random source after the artifact step. */
  function NonceAfter(a: Artifacts): nat {
    if a.actual.Some? then a.actual.value.nonce else a.composite.nonce
  }

  /** The `DiffFiles` a fully written pair is reported with. */
  function Reported(a: Artifacts): DiffFiles {
    if a.actual.Some? then DiffFiles(a.composite.path, a.actual.value.path) else NoFiles
  }

  /** The artifact step registers at most two fresh, distinct, non-empty
      names made from the two templates, the composite's first ... */
  lemma ArtifactsRegistered(taken: set<Path>, env: Env, n: nat, tmp: Path, name: string, composite: Image, actual: Image)
    ensures var added := Added(ArtifactsOutcome(taken, env, n, tmp, name, composite, actual));
            && |added| <= 2
            && (forall i :: 0 <= i < |added| ==> added[i] != "" && added[i] !in taken)
            && (|added| == 2 ==> added[0] != added[1])
            && (|added| >= 1 ==> FromTemplate(added[0], env, tmp, CompositeTemplate(name)))
            && (|added| == 2 ==> FromTemplate(added[1], env, tmp, ActualTemplate(name)))
  {
    var a := ArtifactsOutcome(taken, env, n, tmp, name, composite, actual);
    if a.actual.Some? {
      var w1, w2 := a.composite, a.actual.value;
      assert w2.path != "" ==> w2.path !in taken + {w1.path};
    }
  }

  /** ... and exactly the registered names are added to the files. */
  lemma ArtifactsStored(taken: set<Path>, env: Env, n: nat, tmp: Path, name: string, composite: Image, actual: Image,
                        files: map<Path, Blob>)
    ensures var a := ArtifactsOutcome(taken, env, n, tmp, name, composite, actual);
            var added := Added(a);
            forall p :: p in Stored(files, a) <==> p in files || p in added
  {
  }

  /** The artifact step succeeds exactly when both files were written with
      the two images, and then reports the two names. */
  lemma ArtifactsSucceed(taken: set<Path>, env: Env, n: nat, tmp: Path, name: string, composite: Image, actual: Image,
                         files: map<Path, Blob>)
    ensures var a := ArtifactsOutcome(taken, env, n, tmp, name, composite, actual);
            var added, stored := Added(a), Stored(files, a);
            && (Failure(a).None? <==> |added| == 2 && added[0] in stored && added[1] in stored && stored[added[0]] == Png(composite) && stored[added[1]] == Png(actual))
            && (Failure(a).None? ==> Reported(a) == DiffFiles(added[0], added[1]))
            && (Failure(a).Some? ==> Failure(a).value.TempFileFailed?)
  {
  }

  /** The diff, composite and count of comparing `snapshot` with `actual`. */
  function CompositeOf(snapshot: Image, actual: Image, diffColor: Color): Image {
    CompositeImage(DiffImage(snapshot, actual, diffColor), snapshot, actual)
  }

  class Snapshots {
    const root: Path
    const tmp: Path
    const diffColor: Color
    /** Every artifact path this instance has written, in order. */
    var tempFiles: seq<Path>

    /** New (assert.go:44-57): the defaults, then each option in turn. */
    constructor New(opts: seq<ConfigOption>)
      ensures Config(root, tmp, diffColor) == Configure(Defaults, opts)
      ensures tempFiles == []
    {
      var c := Defaults;
      var i := 0;
      while i < |opts|
        invariant 0 <= i <= |opts|
        invariant c == Configure(Defaults, opts[..i])
      {
        assert opts[..i + 1][..i] == opts[..i];
        match opts[i] {
          case WithStorageRoot(r) => c := c.(root := r);
          case WithTempDir(t) => c := c.(tmp := t);
          case WithDiffColor(k) => c := c.(diffColor := k);
        }
        i := i + 1;
      }
      assert opts[..i] == opts;
      root, tmp, diffColor := c.root, c.tmp, c.diffColor;
      tempFiles := [];
    }

    /** Remembers an artifact for Cleanup; "" (no file was made) is skipped. */
    method Register(path: Path)
      modifies this
      ensures tempFiles == old(tempFiles) + if path != "" then [path] else []
    {
      if path != "" {
        tempFiles := tempFiles + [path];
      }
    }

    /** assert.go:92-95: the composite is written and, if a file was made,
        remembered. */
    method SaveComposite(fs: FileStore, name: string, diff: Image, snapshot: Image, actual: Image, ghost w: TempWrite)
      returns (path: Path, err: Option<Error>)
      requires w == WriteTempOutcome(fs.files.Keys + fs.dirs, fs.env, fs.nonce, tmp, CompositeTemplate(name),
                                     CompositeImage(diff, snapshot, actual))
      modifies this, fs
      ensures fs.dirs == old(fs.dirs)
      ensures Wrote(w, old(fs.files), fs, path, err) && tempFiles == old(tempFiles) + Registered(w)
    {
      path, err := WriteComposite(fs, tmp, name, diff, snapshot, actual);
      Register(path);
    }

    /** assert.go:100-103: the actual image is written and, if a file was
        made, remembered. */
    method SaveActual(fs: FileStore, name: string, actual: Image, ghost w: TempWrite) returns (path: Path, err: Option<Error>)
      requires w == WriteTempOutcome(fs.files.Keys + fs.dirs, fs.env, fs.nonce, tmp, ActualTemplate(name), actual)
      modifies this, fs
      ensures fs.dirs == old(fs.dirs)
      ensures Wrote(w, old(fs.files), fs, path, err) && tempFiles == old(tempFiles) + Registered(w)
    {
      path, err := WriteActual(fs, tmp, name, actual);
      Register(path);
    }

    /** The artifact writes of TestWithName (assert.go:91-114). */
    method WriteArtifacts(fs: FileStore, name: string, diff: Image, snapshot: Image, actual: Image)
      returns (files: DiffFiles, err: Option<Error>)
      modifies this, fs
      ensures var a := ArtifactsOutcome(old(fs.files.Keys + fs.dirs), fs.env, old(fs.nonce), tmp, name,
                                        CompositeImage(diff, snapshot, actual), actual);
              && tempFiles == old(tempFiles) + Added(a)
              && fs.files == Stored(old(fs.files), a) && fs.nonce == NonceAfter(a)
              && err == Failure(a) && (err.None? ==> files == Reported(a))
      ensures fs.dirs == old(fs.dirs)
    {
      ghost var taken, n := fs.files.Keys + fs.dirs, fs.nonce;
      ArtifactsShape(taken, fs.env, n, tmp, name, CompositeImage(diff, snapshot, actual), actual);
      ghost var w1 := WriteTempOutcome(taken, fs.env, n, tmp, CompositeTemplate(name), CompositeImage(diff, snapshot, actual));
      var compositePath, e := SaveComposite(fs, name, diff, snapshot, actual, w1);
      if e.Some? {
        assert Registered(w1) + [] == Registered(w1);
        files, err := NoFiles, e;
      } else {
        PutTaken(old(fs.files), fs.dirs, w1.path, w1.blob.value);
        ghost var w2 := WriteTempOutcome(taken + {w1.path}, fs.env, w1.nonce, tmp, ActualTemplate(name), actual);
        var actualPath;
        actualPath, err := SaveActual(fs, name, actual, w2);
        AppendRegistered(old(tempFiles), Registered(w1), Registered(w2));
        files := if err.Some? then NoFiles else DiffFiles(compositePath, actualPath);
      }
    }

    /** TestWithName (assert.go:71-132), with the test handle reduced to the
        snapshot's name. */
    method TestWithName(fs: FileStore, name: string, actual: Image) returns (err: Option<Error>)
      modifies this, fs
      ensures fs.dirs == if !old(fs.Exists(root)) && root !in fs.env.denyWrite then old(fs.dirs) + {root} else old(fs.dirs)
      ensures var path := SnapshotPath(root, name);
              var probe := old(fs.Open(path));
              var writable, failing := path !in fs.env.denyWrite, path in fs.env.failingWrites;
              match LoadOutcome(probe, path, actual, writable, failing)
              case Err(e) =>
                err == Some(e) && tempFiles == old(tempFiles) && fs.nonce == old(fs.nonce)
                && fs.files == Put(old(fs.files), path, LoadWrite(probe, actual, writable, failing))
              case Ok(Created) =>
                err == None && tempFiles == old(tempFiles) && fs.nonce == old(fs.nonce)
                && fs.files == Put(old(fs.files), path, LoadWrite(probe, actual, writable, failing))
              case Ok(Found(snapshot)) =>
                var count := DiffCount(snapshot, actual);
                if count == 0 then
                  err == Verdict(snapshot, actual, NoFiles, 0) && tempFiles == old(tempFiles)
                  && fs.files == old(fs.files) && fs.nonce == old(fs.nonce)
                else
                  var a := ArtifactsOutcome(old(fs.files.Keys) + fs.dirs, fs.env, old(fs.nonce), tmp, name,
                                            CompositeOf(snapshot, actual, diffColor), actual);
                  && tempFiles == old(tempFiles) + Added(a)
                  && fs.files == Stored(old(fs.files), a) && fs.nonce == NonceAfter(a)
                  && err == if Failure(a).Some? then Failure(a) else Verdict(snapshot, actual, Reported(a), count)
    {
      var _ := EnsureRootExists(fs, root);
      SnapshotPathNotRoot(root, name);
      assert fs.Open(SnapshotPath(root, name)) == old(fs.Open(SnapshotPath(root, name)));
      var loaded := LoadOrCreateSnapshot(fs, root, name, actual);
      if loaded.Err? {
        err := Some(loaded.error);
      } else if loaded.value.Created? {
        err := None;
      } else {
        assert fs.files == old(fs.files) && fs.files.Keys + fs.dirs == old(fs.files.Keys) + fs.dirs;
        err := Compare(fs, name, loaded.value.snapshot, actual);
      }
    }

    /** The comparison step of TestWithName (assert.go:87-131), once a
        snapshot was loaded. */
    method Compare(fs: FileStore, name: string, snapshot: Image, actual: Image) returns (err: Option<Error>)
      modifies this, fs
      ensures fs.dirs == old(fs.dirs)
      ensures var count := DiffCount(snapshot, actual);
              if count == 0 then
                err == Verdict(snapshot, actual, NoFiles, 0) && tempFiles == old(tempFiles)
                && fs.files == old(fs.files) && fs.nonce == old(fs.nonce)
              else
                var a := ArtifactsOutcome(old(fs.files.Keys + fs.dirs), fs.env, old(fs.nonce), tmp, name,
                                          CompositeOf(snapshot, actual, diffColor), actual);
                && tempFiles == old(tempFiles) + Added(a)
                && fs.files == Stored(old(fs.files), a) && fs.nonce == NonceAfter(a)
                && err == if Failure(a).Some? then Failure(a) else Verdict(snapshot, actual, Reported(a), count)
    {
      var diff, diffPixels := GenerateDiff(snapshot, actual, diffColor);
      var diffFiles, e := NoFiles, None;
      if diffPixels > 0 {
        diffFiles, e := WriteArtifacts(fs, name, diff, snapshot, actual);
      }
      if e.Some? {
        err := e;
      } else if Bounds(snapshot) != Bounds(actual) {
        err := Some(BoundsMismatch(diffFiles, Bounds(snapshot), Bounds(actual)));
      } else if diffPixels != 0 {
        err := Some(PixelsDiffer(diffFiles, diffPixels));
      } else {
        err := None;
      }
    }

    /** FailWithName (assert.go:156-162) as written: it runs Test, which
        compares under the running test's own name `testName`, so `name`
        plays no part. The result is the error t.Fatal is called with. */
    method FailWithNameAsWritten(fs: FileStore, testName: string, name: string, actual: Image)
      returns (fatal: Option<Error>)
      modifies this, fs
      ensures var path := SnapshotPath(root, testName);
              old(fs.Open(path)) == Err(NotExist) && path !in fs.env.denyWrite
              && EncodeFault(actual, path in fs.env.failingWrites).None?
              ==> fatal == None && fs.files == old(fs.files)[path := Png(actual)]
      ensures var path := SnapshotPath(root, testName);
              old(fs.Open(path)) == Ok(Png(actual)) ==>
                fs.files == old(fs.files)
                && fatal == if Decodable(actual) then None else Some(SnapshotOpenFailed(path, NonPositiveDimension))
    {
      DiffIdentity(actual, diffColor);
      fatal := TestWithName(fs, testName, actual);
    }

    /** FailWithName as its documentation describes it: the named snapshot
        is the one recorded, or compared with. */
    method FailWithName(fs: FileStore, name: string, actual: Image) returns (fatal: Option<Error>)
      modifies this, fs
      ensures var path := SnapshotPath(root, name);
              old(fs.Open(path)) == Err(NotExist) && path !in fs.env.denyWrite
              && EncodeFault(actual, path in fs.env.failingWrites).None?
              ==> fatal == None && fs.files == old(fs.files)[path := Png(actual)]
      ensures var path := SnapshotPath(root, name);
              old(fs.Open(path)) == Ok(Png(actual)) ==>
                fs.files == old(fs.files)
                && fatal == if Decodable(actual) then None else Some(SnapshotOpenFailed(path, NonPositiveDimension))
    {
      DiffIdentity(actual, diffColor);
      fatal := TestWithName(fs, name, actual);
    }

    /** Cleanup (assert.go:18-22): tries to remove every registered artifact,
        ignoring failures; the list itself is kept. */
    method Cleanup(fs: FileStore)
      modifies fs
      ensures fs.files == old(fs.files) - (set p | p in tempFiles && p !in fs.env.denyRemove)
      ensures fs.dirs == old(fs.dirs) && fs.nonce == old(fs.nonce)
    {
      var i := 0;
      while i < |tempFiles|
        invariant 0 <= i <= |tempFiles|
        invariant fs.files == old(fs.files) - (set p | p in tempFiles[..i] && p !in fs.env.denyRemove)
        invariant fs.dirs == old(fs.dirs) && fs.nonce == old(fs.nonce)
      {
        var _ := fs.Remove(tempFiles[i]);
        assert tempFiles[..i + 1] == tempFiles[..i] + [tempFiles[i]];
        i := i + 1;
      }
      assert tempFiles[..i] == tempFiles;
    }
  }
}
