/** Whole comparisons on a fresh store, as the package's tests drive them:
    the first run of a test records its snapshot and the next run with the
    same image passes; a differently coloured image of the same size fails
    with the pixel count and leaves two artifacts, which Cleanup removes; an
    image of another size fails with both bounds. */
module Scenarios {
  import opened Raster
  import opened Images
  import opened ImageLaws
  import opened Wrappers
  import opened Decimal
  import opened Store
  import opened Errors
  import opened SnapshotFiles
  import opened Snapshot

  const Blue := RGBA(0, 0, 255, 255)
  const Red := RGBA(255, 0, 0, 255)

  /** No refusals; temporary files go under "/tmp". */
  const Permissive := Env("/tmp", {}, {}, {}, {})

  /** The first run creates `.snapshots/TestBlue.png` and passes; the second
      run compares against it and passes too. */
  method CreateThenPass() returns (first: Option<Error>, second: Option<Error>)
    ensures first == None && second == None
  {
    var fs := new FileStore(map[], {}, 0, Permissive);
    var s := new Snapshots.New([]);
    var img := Solid(10, 10, Blue);
    var path := SnapshotPath(".snapshots", "TestBlue");
    assert s.root == ".snapshots" && fs.Open(path) == Err(NotExist);
    assert EncodeFault(img, false) == None;
    assert LoadOutcome(Err(NotExist), path, img, true, false) == Ok(Created);
    assert LoadWrite(Err(NotExist), img, true, false) == Some(Png(img));
    first := s.TestWithName(fs, "TestBlue", img);
    assert fs.files == map[path := Png(img)];
    assert fs.Open(path) == Ok(Png(img));
    assert Decodable(img);
    assert LoadOutcome(Ok(Png(img)), path, img, true, false) == Ok(Found(img));
    DiffIdentity(img, s.diffColor);
    assert Verdict(img, img, NoFiles, 0) == None;
    second := s.TestWithName(fs, "TestBlue", img);
  }

  /** The snapshot files of "TestFail" and "Custom" under ".snapshots". */
  lemma FailPaths()
    ensures SnapshotPath(".snapshots", "TestFail") == ".snapshots/TestFail.png"
    ensures SnapshotPath(".snapshots", "Custom") == ".snapshots/Custom.png"
    ensures ".snapshots/Custom.png" != ".snapshots/TestFail.png"
  {
    assert ".snapshots/Custom.png"[11] != ".snapshots/TestFail.png"[11];
  }

  /** FailWithName(t, "Custom", img) run from test "TestFail" on a fresh
      store, as written: the snapshot is recorded under the test's name and
      the name asked for is never looked at. */
  method FailIgnoresName() returns (fatal: Option<Error>, files: map<Path, Blob>)
    ensures fatal == None
    ensures files == map[".snapshots/TestFail.png" := Png(Solid(10, 10, Blue))]
    ensures ".snapshots/Custom.png" !in files
  {
    var fs := new FileStore(map[], {}, 0, Permissive);
    var s := new Snapshots.New([]);
    var img := Solid(10, 10, Blue);
    FailPaths();
    assert s.root == ".snapshots" && fs.Open(".snapshots/TestFail.png") == Err(NotExist);
    assert EncodeFault(img, false) == None;
    fatal := s.FailWithNameAsWritten(fs, "TestFail", "Custom", img);
    files := fs.files;
  }

  /** The same call with the name honoured records ".snapshots/Custom.png". */
  method FailUsesName() returns (fatal: Option<Error>, files: map<Path, Blob>)
    ensures fatal == None
    ensures files == map[".snapshots/Custom.png" := Png(Solid(10, 10, Blue))]
  {
    var fs := new FileStore(map[], {}, 0, Permissive);
    var s := new Snapshots.New([]);
    var img := Solid(10, 10, Blue);
    FailPaths();
    assert s.root == ".snapshots" && fs.Open(".snapshots/Custom.png") == Err(NotExist);
    assert EncodeFault(img, false) == None;
    fatal := s.FailWithName(fs, "Custom", img);
    files := fs.files;
  }

  /** The names os.CreateTemp picks first for the two artifacts of
      "TestRed" in "/tmp", with the random source at 0. */
  const DiffName: Path := "/tmp/TestRed-diff-0.png"
  const ActualName: Path := "/tmp/TestRed-actual-1.png"

  /** With nothing refused, os.CreateTemp("", a + "*" + b) takes the first
      name it tries unless that one exists. */
  lemma CreateTempFirst(taken: set<Path>, env: Env, a: string, b: string, n: nat)
    requires env.denyWrite == {} && env.tempDir != "" && env.tempDir[|env.tempDir| - 1] != Separator
    requires '*' !in b && Separator !in a + "*" + b
    requires TempName(env.tempDir + [Separator] + a, b, n) !in taken
    ensures CreateTempOutcome(taken, env, "", a + "*" + b, n) == (Ok(TempName(env.tempDir + [Separator] + a, b, n)), n + 1)
  {
    SplitAtStar(a, b);
  }

  lemma DiffTemplate()
    ensures CompositeTemplate("TestRed") == "TestRed-diff-" + "*" + ".png"
    ensures Separator !in CompositeTemplate("TestRed") && '*' !in ".png"
  {
  }

  lemma DiffNameSpelled()
    ensures TempName("/tmp" + [Separator] + "TestRed-diff-", ".png", 0) == DiffName
  {
    assert NatToString(0) == "0";
  }

  lemma DiffNameFirst(taken: set<Path>)
    requires DiffName !in taken
    ensures CreateTempOutcome(taken, Permissive, "", CompositeTemplate("TestRed"), 0) == (Ok(DiffName), 1)
  {
    DiffTemplate();
    DiffNameSpelled();
    CreateTempFirst(taken, Permissive, "TestRed-diff-", ".png", 0);
  }

  lemma ActualTemplateParts()
    ensures ActualTemplate("TestRed") == "TestRed-actual-" + "*" + ".png"
    ensures Separator !in ActualTemplate("TestRed") && '*' !in ".png"
  {
  }

  lemma ActualNameSpelled()
    ensures TempName("/tmp" + [Separator] + "TestRed-actual-", ".png", 1) == ActualName
  {
    assert 1 % 0x1_0000_0000 == 1 && NatToString(1) == "1";
  }

  lemma ActualNameFirst(taken: set<Path>)
    requires ActualName !in taken
    ensures CreateTempOutcome(taken, Permissive, "", ActualTemplate("TestRed"), 1) == (Ok(ActualName), 2)
  {
    ActualTemplateParts();
    ActualNameSpelled();
    CreateTempFirst(taken, Permissive, "TestRed-actual-", ".png", 1);
  }

  /** The snapshot, its directory and the two artifacts have four different names. */
  lemma NamesDistinct()
    ensures DiffName != ActualName && DiffName != "" && ActualName != ""
    ensures DiffName !in {SnapshotFile, ".snapshots"} && ActualName !in {SnapshotFile, ".snapshots"}
  {
    assert DiffName[13] != ActualName[13];
    assert DiffName[0] != ".snapshots"[0] && ActualName[0] != ".snapshots"[0];
    assert DiffName[0] != SnapshotFile[0] && ActualName[0] != SnapshotFile[0];
  }

  /** Both artifacts of the failing comparison are written under those names. */
  lemma RedArtifacts(taken: set<Path>, composite: Image, actual: Image)
    requires DiffName !in taken && ActualName !in taken
    requires Encodable(composite) && Encodable(actual)
    ensures ArtifactsOutcome(taken, Permissive, 0, "", "TestRed", composite, actual)
            == Artifacts(TempWrite(DiffName, None, Some(Png(composite)), 1),
                         Some(TempWrite(ActualName, None, Some(Png(actual)), 2)))
  {
    NamesDistinct();
    DiffWritten(taken, composite);
    ActualWritten(taken + {DiffName}, actual);
  }

  /** Two successful writes register both names, report both and store both blobs. */
  lemma RedArtifactsMeaning(composite: Image, actual: Image, files: map<Path, Blob>)
    ensures var a := Artifacts(TempWrite(DiffName, None, Some(Png(composite)), 1),
                               Some(TempWrite(ActualName, None, Some(Png(actual)), 2)));
            && Added(a) == [DiffName, ActualName] && Failure(a) == None
            && Reported(a) == DiffFiles(DiffName, ActualName) && NonceAfter(a) == 2
            && Stored(files, a) == files[DiffName := Png(composite)][ActualName := Png(actual)]
  {
    NamesDistinct();
  }

  lemma DiffWritten(taken: set<Path>, composite: Image)
    requires DiffName !in taken && Encodable(composite)
    ensures WriteTempOutcome(taken, Permissive, 0, "", CompositeTemplate("TestRed"), composite)
            == TempWrite(DiffName, None, Some(Png(composite)), 1)
  {
    DiffNameFirst(taken);
  }

  lemma ActualWritten(taken: set<Path>, actual: Image)
    requires ActualName !in taken && Encodable(actual)
    ensures WriteTempOutcome(taken, Permissive, 1, "", ActualTemplate("TestRed"), actual)
            == TempWrite(ActualName, None, Some(Png(actual)), 2)
  {
    ActualNameFirst(taken);
  }

  const SnapshotFile: Path := ".snapshots/TestRed.png"

  /** 10x10 blue recorded, 10x10 red compared: all 100 pixels differ, the
      composite (30x10) and the red image are written to "/tmp", and Cleanup
      removes both, leaving the snapshot. */
  method DifferentColours() returns (err: Option<Error>, temp: seq<Path>, written: map<Path, Blob>, left: map<Path, Blob>)
    ensures err == Some(PixelsDiffer(DiffFiles(DiffName, ActualName), 100))
    ensures temp == [DiffName, ActualName]
    ensures written == map[SnapshotFile := Png(Solid(10, 10, Blue)),
                           DiffName := Png(CompositeOf(Solid(10, 10, Blue), Solid(10, 10, Red), Defaults.diffColor)),
                           ActualName := Png(Solid(10, 10, Red))]
    ensures left == map[SnapshotFile := Png(Solid(10, 10, Blue))]
  {
    var blue, red := Solid(10, 10, Blue), Solid(10, 10, Red);
    ExampleSolidColors();
    var fs := new FileStore(map[SnapshotFile := Png(blue)], {".snapshots"}, 0, Permissive);
    var s := new Snapshots.New([]);
    err := Compared(s, fs, blue, red);
    assert s.diffColor == Defaults.diffColor;
    temp, written := s.tempFiles, fs.files;
    CleanedUp(s, fs, Png(blue), Png(CompositeOf(blue, red, s.diffColor)), Png(red));
    left := fs.files;
  }

  /** The same test run with a 20x20 blue image against the 10x10 blue
      snapshot: the 300 pixels outside the snapshot differ, both artifacts are
      written, and the verdict is the bounds mismatch with both rectangles. */
  method BoundsChange() returns (err: Option<Error>, temp: seq<Path>, left: map<Path, Blob>)
    ensures err == Some(BoundsMismatch(DiffFiles(DiffName, ActualName),
                                       Rectangle(Point(0, 0), Point(10, 10)), Rectangle(Point(0, 0), Point(20, 20))))
    ensures temp == [DiffName, ActualName]
    ensures left == map[SnapshotFile := Png(Solid(10, 10, Blue))]
  {
    var small, large := Solid(10, 10, Blue), Solid(20, 20, Blue);
    GrownCount();
    var fs := new FileStore(map[SnapshotFile := Png(small)], {".snapshots"}, 0, Permissive);
    var s := new Snapshots.New([]);
    err := Compared(s, fs, small, large);
    temp := s.tempFiles;
    CleanedUp(s, fs, Png(small), Png(CompositeOf(small, large, s.diffColor)), Png(large));
    left := fs.files;
  }

  /** A 10x10 image against a 20x20 one of the same colour: only the pixels
      outside the smaller image count. */
  lemma GrownCount()
    ensures DiffCount(Solid(10, 10, Blue), Solid(20, 20, Blue)) == 300
  {
    var e, a := Solid(10, 10, Blue), Solid(20, 20, Blue);
    assert MinWidth(e, a) == 10 && MinHeight(e, a) == 10;
    assert UnionWidth(e, a) == 20 && UnionHeight(e, a) == 20;
    SolidMismatches(10, 10, Blue, 20, 20, Blue, 10);
    assert IntersectionMismatches(e, a) == 0;
  }

  /** Cleanup after a failing comparison of TestRed. */
  method CleanedUp(s: Snapshots, fs: FileStore, b1: Blob, b2: Blob, b3: Blob)
    requires s.tempFiles == [DiffName, ActualName] && fs.env == Permissive
    requires fs.files == map[SnapshotFile := b1, DiffName := b2, ActualName := b3]
    modifies fs
    ensures fs.files == map[SnapshotFile := b1]
  {
    s.Cleanup(fs);
    ArtifactsRemoved(b1, b2, b3);
  }

  /** Removing the two artifacts leaves only the snapshot. */
  lemma ArtifactsRemoved(b1: Blob, b2: Blob, b3: Blob)
    ensures map[SnapshotFile := b1, DiffName := b2, ActualName := b3]
              - (set p | p in [DiffName, ActualName] && p !in Permissive.denyRemove)
            == map[SnapshotFile := b1]
  {
    NamesDistinct();
    var removed := set p | p in [DiffName, ActualName] && p !in Permissive.denyRemove;
    assert removed == {DiffName, ActualName};
    var m := map[SnapshotFile := b1, DiffName := b2, ActualName := b3];
    assert (m - removed).Keys == {SnapshotFile};
  }

  /** A failing comparison of TestRed on a fresh store holding only its 10x10
      snapshot: the image compared is at most 20x20 and differs somewhere. */
  method Compared(s: Snapshots, fs: FileStore, snapshot: Image, actual: Image) returns (err: Option<Error>)
    requires snapshot.width == 10 && snapshot.height == 10
    requires 0 < actual.width <= 20 && 0 < actual.height <= 20
    requires DiffCount(snapshot, actual) > 0
    requires s.root == ".snapshots" && s.tmp == "" && s.tempFiles == []
    requires fs.files == map[SnapshotFile := Png(snapshot)] && fs.dirs == {".snapshots"}
    requires fs.nonce == 0 && fs.env == Permissive
    modifies s, fs
    ensures err == Verdict(snapshot, actual, DiffFiles(DiffName, ActualName), DiffCount(snapshot, actual))
    ensures s.tempFiles == [DiffName, ActualName]
    ensures fs.files == map[SnapshotFile := Png(snapshot), DiffName := Png(CompositeOf(snapshot, actual, s.diffColor)),
                            ActualName := Png(actual)]
  {
    assert SnapshotPath(".snapshots", "TestRed") == SnapshotFile;
    assert fs.Exists(".snapshots") && fs.Open(SnapshotFile) == Ok(Png(snapshot));
    assert fs.files.Keys + fs.dirs == {SnapshotFile, ".snapshots"};
    RedPlan(snapshot, actual, s.diffColor);
    err := s.TestWithName(fs, "TestRed", actual);
  }

  /** What TestWithName meets in Compared: the snapshot is found and both
      artifacts are written under their first names. */
  lemma RedPlan(snapshot: Image, actual: Image, diffColor: Color)
    requires snapshot.width == 10 && snapshot.height == 10
    requires 0 < actual.width <= 20 && 0 < actual.height <= 20
    ensures LoadOutcome(Ok(Png(snapshot)), SnapshotFile, actual, true, false) == Ok(Found(snapshot))
    ensures var a := ArtifactsOutcome({SnapshotFile, ".snapshots"}, Permissive, 0, "", "TestRed",
                                      CompositeOf(snapshot, actual, diffColor), actual);
            && Added(a) == [DiffName, ActualName] && Failure(a) == None
            && Reported(a) == DiffFiles(DiffName, ActualName) && NonceAfter(a) == 2
            && Stored(map[SnapshotFile := Png(snapshot)], a)
               == map[SnapshotFile := Png(snapshot), DiffName := Png(CompositeOf(snapshot, actual, diffColor)),
                      ActualName := Png(actual)]
  {
    var composite := CompositeOf(snapshot, actual, diffColor);
    assert composite.width <= 50 && composite.height <= 20;
    NamesDistinct();
    RedArtifacts({SnapshotFile, ".snapshots"}, composite, actual);
    RedArtifactsMeaning(composite, actual, map[SnapshotFile := Png(snapshot)]);
  }
}
