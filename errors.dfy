/** The error values a comparison returns (errors.go), and the fs.go
    failures wrapped with `fmt.Errorf`. */
module Errors {
  import opened Raster
  import opened Decimal
  import opened Store

  /** Where the two artifacts of a failed comparison were written; both are
      empty when no artifact was written. */
  datatype DiffFiles = DiffFiles(compositePath: Path, actualPath: Path)
  {
    function CompositePath(): Path { compositePath }
    function ActualPath(): Path { actualPath }
  }

  const NoFiles := DiffFiles("", "")

  datatype Error =
    | BoundsMismatch(files: DiffFiles, expected: Rectangle, actual: Rectangle)
    | PixelsDiffer(files: DiffFiles, count: int)
    /** loadOrCreateSnapshot could not create or write the new snapshot file. */
    | SnapshotCreateFailed(path: Path, cause: Fault)
    /** loadOrCreateSnapshot could not open or decode the snapshot file. */
    | SnapshotOpenFailed(path: Path, cause: Fault)
    /** writeTempFile could not create or write an artifact. */
    | TempFileFailed(cause: Fault)
  {
    /** One of the two comparison verdicts, which carry the artifact paths. */
    predicate IsMismatch() { BoundsMismatch? || PixelsDiffer? }
  }

  /** `image.Point.String()`. */
  function PointString(p: Point): string {
    "(" + Itoa(p.x) + "," + Itoa(p.y) + ")"
  }

  /** `image.Rectangle.String()`, which `%v` prints. */
  function RectString(r: Rectangle): string {
    PointString(r.min) + "-" + PointString(r.max)
  }

  /** `%q` of a string of printable characters: quotes and backslashes are
      escaped. */
  function Quote(s: string): (q: string)
    ensures |q| >= |s| + 2 && q[0] == '"' && q[|q| - 1] == '"'
  {
    "\"" + Escape(s) + "\""
  }

  function Escape(s: string): (e: string)
    ensures |e| >= |s|
  {
    if |s| == 0 then ""
    else (if s[0] == '"' || s[0] == '\\' then ['\\', s[0]] else [s[0]]) + Escape(s[1..])
  }

  /** A representative text for each fault: the text Go prints for the
      error the fault most often stands for. */
  function FaultText(f: Fault): string {
    match f
    case NotExist => "file does not exist"
    case Exist => "file already exists"
    case Permission => "permission denied"
    case IsDirectory => "is a directory"
    case PatternHasSeparator => "pattern contains path separator"
    case InvalidImageSize(w, h) => "png: invalid format: invalid image size: " + Itoa(w) + "x" + Itoa(h)
    case ShortWrite => "short write"
    case UnexpectedEof => "unexpected EOF"
    case NonPositiveDimension => "png: invalid format: non-positive dimension"
  }

  /** The fixed parts of the two verdict messages. */
  const BoundsPrefix := "snapshot and image bounds differ: "
  const PixelsPrefix := "snapshot and image differ by "
  const PixelsSuffix := " pixels"

  function BoundsMessage(expected: Rectangle, actual: Rectangle): string {
    BoundsPrefix + RectString(expected) + " != " + RectString(actual)
  }

  function PixelsMessage(count: int): string {
    PixelsPrefix + Itoa(count) + PixelsSuffix
  }

  /** `Error()` of each error. */
  function Message(e: Error): string {
    match e
    case BoundsMismatch(_, expected, actual) => BoundsMessage(expected, actual)
    case PixelsDiffer(_, count) => PixelsMessage(count)
    case SnapshotCreateFailed(path, cause) => "unable to create snapshot file " + Quote(path) + ": " + FaultText(cause)
    case SnapshotOpenFailed(path, cause) => "unable to open snapshot file " + Quote(path) + ": " + FaultText(cause)
    case TempFileFailed(cause) => "unable to create file: " + FaultText(cause)
  }

  /** Reads the count back out of a pixel-difference message. */
  function CountInMessage(msg: string): (n: Wrappers.Option<int>)
  {
    if |msg| < |PixelsPrefix| + |PixelsSuffix| + 1
       || msg[..|PixelsPrefix|] != PixelsPrefix
       || msg[|msg| - |PixelsSuffix|..] != PixelsSuffix
    then Wrappers.None
    else
      var digits := msg[|PixelsPrefix|..|msg| - |PixelsSuffix|];
      if (digits[0] == '-' ==> AllDigits(digits[1..])) && (digits[0] != '-' ==> AllDigits(digits))
      then Wrappers.Some(ParseInt(digits))
      else Wrappers.None
  }

  /** The pixel-difference message states the count exactly. */
  lemma PixelsMessageRoundTrip(files: DiffFiles, count: int)
    ensures CountInMessage(Message(PixelsDiffer(files, count))) == Wrappers.Some(count)
  {
    var msg := Message(PixelsDiffer(files, count));
    var digits := Itoa(count);
    ItoaRoundTrip(count);
    assert msg[..|PixelsPrefix|] == PixelsPrefix;
    assert msg[|msg| - |PixelsSuffix|..] == PixelsSuffix;
    assert msg[|PixelsPrefix|..|msg| - |PixelsSuffix|] == digits;
  }

  /** So two pixel-difference messages differ whenever their counts do. */
  lemma PixelsMessageInjective(f: DiffFiles, g: DiffFiles, a: int, b: int)
    requires Message(PixelsDiffer(f, a)) == Message(PixelsDiffer(g, b))
    ensures a == b
  {
    PixelsMessageRoundTrip(f, a);
    PixelsMessageRoundTrip(g, b);
  }

  /** The two verdicts can be told apart by their text. */
  lemma VerdictMessagesDistinct(f: DiffFiles, g: DiffFiles, expected: Rectangle, actual: Rectangle, count: int)
    ensures Message(BoundsMismatch(f, expected, actual)) != Message(PixelsDiffer(g, count))
  {
    VerdictTextsDistinct(RectString(expected), RectString(actual), Itoa(count));
  }

  /** The prefixes already differ at their twentieth character. */
  lemma VerdictTextsDistinct(r1: string, r2: string, digits: string)
    ensures BoundsPrefix + r1 + " != " + r2 != PixelsPrefix + digits + PixelsSuffix
  {
    assert (BoundsPrefix + r1 + " != " + r2)[19] == 'b';
    assert (PixelsPrefix + digits + PixelsSuffix)[19] == 'd';
  }

  /** Neither verdict's text names the artifact files: they are reachable
      only through the error's `files`. */
  lemma MessagesOmitArtifacts(f: DiffFiles, g: DiffFiles, e: Error)
    requires e.IsMismatch()
    ensures Message(e.(files := f)) == Message(e.(files := g))
    ensures e.(files := f).files.CompositePath() == f.compositePath
    ensures e.(files := f).files.ActualPath() == f.actualPath
  {
  }

  lemma RectTen()
    ensures RectString(Rectangle(Point(0, 0), Point(10, 10))) == "(0,0)-(10,10)"
  {
    assert NatToString(10) == NatToString(1) + [DigitChar(0)];
  }

  lemma RectTwenty()
    ensures RectString(Rectangle(Point(0, 0), Point(20, 20))) == "(0,0)-(20,20)"
  {
    assert NatToString(20) == NatToString(2) + [DigitChar(0)];
  }

  /** The message for a 10x10 snapshot against a 20x20 image. */
  lemma BoundsMessageExample(f: DiffFiles)
    ensures Message(BoundsMismatch(f, Rectangle(Point(0, 0), Point(10, 10)), Rectangle(Point(0, 0), Point(20, 20))))
            == BoundsPrefix + "(0,0)-(10,10)" + " != " + "(0,0)-(20,20)"
  {
    RectTen();
    RectTwenty();
  }

  /** The message for a comparison that found 100 differing pixels. */
  lemma PixelsMessageExample(f: DiffFiles)
    ensures Message(PixelsDiffer(f, 100)) == PixelsPrefix + "100" + PixelsSuffix
  {
    assert Itoa(100) == "100";
  }
}
