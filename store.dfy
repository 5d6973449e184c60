/** The operating-system services the library calls, as an abstract file
    store: `os.Stat`, `os.Open` plus `png.Decode`, `os.Create` plus
    `png.Encode`, `os.MkdirAll`, `os.CreateTemp` and `os.Remove`. A file's
    contents are either the PNG encoding of an image or bytes that do not
    decode. Which operations the operating system refuses is fixed by the
    store's fault sets, so every outcome is a function of the store. */
module Store {
  import opened Raster
  import opened Decimal
  import opened Wrappers

  type Path = string

  /** What a file holds. */
  datatype Blob = Png(image: Image) | Unreadable

  /** The errors the services report, named after Go's sentinel errors. */
  datatype Fault =
    | NotExist
    | Exist
    | Permission
    | IsDirectory
    | PatternHasSeparator
    | InvalidImageSize(width: nat, height: nat)
    | ShortWrite
    | UnexpectedEof
    /** `png.Decode` found a header whose width or height, read as a signed
        32-bit number, is not positive. */
    | NonPositiveDimension

  const Separator: char := '/'

  /** `os.CreateTemp` gives up after this many names that are taken. */
  const MaxTempTries: nat := 10000

  /** `filepath.Join` for a non-empty name, without the lexical clean-up. */
  function Join(dir: Path, name: Path): Path {
    if dir == "" then name else dir + [Separator] + name
  }

  /** `png.Encode` refuses an image with an empty side or a side of 2^32 or more. */
  predicate Encodable(img: Image) {
    0 < img.width < 0x1_0000_0000 && 0 < img.height < 0x1_0000_0000
  }

  /** `png.Decode` reads each side as a signed 32-bit number and refuses one
      that is not positive: an empty side, or a side of 2^31 or more. */
  predicate Decodable(img: Image) {
    0 < img.width < 0x8000_0000 && 0 < img.height < 0x8000_0000
  }

  function Decode(b: Blob): (r: Result<Image, Fault>)
    ensures r.Ok? <==> b.Png? && Decodable(b.image)
    ensures r.Ok? ==> r.value == b.image
    ensures r.Err? && b.Png? ==> r.error == NonPositiveDimension
  {
    match b
    case Png(img) => if Decodable(img) then Ok(img) else Err(NonPositiveDimension)
    case Unreadable => Err(UnexpectedEof)
  }

  /** Index of the last `c` in `s`, or -1. */
  function LastIndexOf(s: string, c: char): (i: int)
    ensures -1 <= i < |s|
    ensures i >= 0 ==> s[i] == c && forall j :: i < j < |s| ==> s[j] != c
    ensures i == -1 <==> c !in s
  {
    if |s| == 0 then -1
    else if s[|s| - 1] == c then |s| - 1
    else LastIndexOf(s[..|s| - 1], c)
  }

  /** `prefixAndSuffix` of `os.CreateTemp`: a pattern may not contain a path
      separator; its last '*' marks where the random part goes. */
  function PrefixAndSuffix(pattern: string): (r: Result<(string, string), Fault>)
    ensures r.Err? <==> Separator in pattern
    ensures r.Err? ==> r.error == PatternHasSeparator
    ensures r.Ok? && '*' in pattern ==> r.value.0 + "*" + r.value.1 == pattern && '*' !in r.value.1
    ensures r.Ok? && '*' !in pattern ==> r.value == (pattern, "")
  {
    if Separator in pattern then Err(PatternHasSeparator)
    else
      var pos := LastIndexOf(pattern, '*');
      if pos == -1 then Ok((pattern, ""))
      else
        assert pattern == pattern[..pos] + "*" + pattern[pos + 1..];
        Ok((pattern[..pos], pattern[pos + 1..]))
  }

  /** A pattern with one '*' whose suffix has none is split at that '*'. */
  lemma SplitAtStar(a: string, b: string)
    requires '*' !in b && Separator !in a + "*" + b
    ensures PrefixAndSuffix(a + "*" + b) == Ok((a, b))
  {
    var pattern := a + "*" + b;
    var i := LastIndexOf(pattern, '*');
    assert pattern[|a|] == '*';
    assert forall j :: |a| < j < |pattern| ==> pattern[j] == b[j - |a| - 1];
    assert i == |a|;
    assert pattern[..i] == a && pattern[i + 1..] == b;
  }

  /** `joinPath` of `os.CreateTemp`. */
  function JoinPath(dir: Path, name: string): (p: Path)
    ensures |p| >= |dir| + |name| && p[..|dir|] == dir && p[|p| - |name|..] == name
  {
    if |dir| > 0 && dir[|dir| - 1] == Separator then dir + name else dir + [Separator] + name
  }

  /** The name `os.CreateTemp` tries with random number `n`: a 32-bit value in decimal. */
  function TempName(prefix: Path, suffix: string, n: nat): (p: Path)
    ensures |p| > |prefix| + |suffix|
  {
    prefix + NatToString(n % 0x1_0000_0000) + suffix
  }

  /** A name of the form prefix + decimal digits + suffix. */
  ghost predicate NamedAfter(p: Path, prefix: Path, suffix: string) {
    exists n: nat :: p == TempName(prefix, suffix, n)
  }

  /** The outcome of `os.CreateTemp`'s retry loop from its `tries`-th try on,
      with random numbers n, n + 1, ...: a name that is `taken` makes it try
      again, up to `MaxTempTries` tries; any other refusal ends it. Also
      returns the next random number. */
  function TempSearch(taken: set<Path>, denied: set<Path>, prefix: Path, suffix: string, n: nat, tries: nat)
    : (r: (Result<Path, Fault>, nat))
    requires tries < MaxTempTries
    ensures r.1 > n
    ensures r.0.Ok? ==> r.0.value !in taken && r.0.value !in denied && r.0.value != ""
                        && NamedAfter(r.0.value, prefix, suffix)
    ensures r.0.Err? ==> r.0.error == Exist || r.0.error == Permission
    decreases MaxTempTries - tries
  {
    var name := TempName(prefix, suffix, n);
    if name in taken then
      if tries + 1 < MaxTempTries then TempSearch(taken, denied, prefix, suffix, n + 1, tries + 1)
      else (Err(Exist), n + 1)
    else if name in denied then (Err(Permission), n + 1)
    else (Ok(name), n + 1)
  }

  /** One try of the search: the name drawn decides whether it goes on. */
  lemma TempSearchStep(taken: set<Path>, denied: set<Path>, prefix: Path, suffix: string, n: nat, tries: nat)
    requires tries < MaxTempTries
    ensures var name := TempName(prefix, suffix, n);
            TempSearch(taken, denied, prefix, suffix, n, tries)
            == if name !in taken then (if name in denied then (Err(Permission), n + 1) else (Ok(name), n + 1))
               else if tries + 1 < MaxTempTries then TempSearch(taken, denied, prefix, suffix, n + 1, tries + 1)
               else (Err(Exist), n + 1)
  {
  }

  /** What the operating system refuses, fixed for the life of a store:
      `os.TempDir()`, the paths the process may not read, create or write, or
      remove, and the paths whose writes fail part-way (a full disk, say). */
  datatype Env = Env(tempDir: Path, denyRead: set<Path>, denyWrite: set<Path>,
                     failingWrites: set<Path>, denyRemove: set<Path>)

  /** What `png.Encode` reports for `img` written to a file whose writes do
      or do not fail: the size check comes first. */
  function EncodeFault(img: Image, failing: bool): (f: Option<Fault>)
    ensures f.None? <==> Encodable(img) && !failing
  {
    if !Encodable(img) then Some(InvalidImageSize(img.width, img.height))
    else if failing then Some(ShortWrite)
    else None
  }

  /** The directory `os.CreateTemp` uses for `dir`. */
  function TempDirFor(env: Env, dir: Path): Path {
    if dir == "" then env.tempDir else dir
  }

  /** A name `os.CreateTemp(dir, pattern)` can produce. */
  ghost predicate FromTemplate(p: Path, env: Env, dir: Path, pattern: string) {
    PrefixAndSuffix(pattern).Ok?
    && NamedAfter(p, JoinPath(TempDirFor(env, dir), PrefixAndSuffix(pattern).value.0), PrefixAndSuffix(pattern).value.1)
  }

  /** The outcome of `os.CreateTemp(dir, pattern)` when the names in `taken`
      exist and the random source is at `n`: the file's name or the error,
      and the random source afterwards. */
  function CreateTempOutcome(taken: set<Path>, env: Env, dir: Path, pattern: string, n: nat)
    : (r: (Result<Path, Fault>, nat))
    ensures r.0.Ok? ==> r.0.value !in taken && r.0.value !in env.denyWrite && r.0.value != ""
                        && FromTemplate(r.0.value, env, dir, pattern)
    ensures r.0.Err? ==> r.0.error in {PatternHasSeparator, Exist, Permission}
  {
    match PrefixAndSuffix(pattern)
    case Err(f) => (Err(f), n)
    case Ok((prefix, suffix)) => TempSearch(taken, env.denyWrite, JoinPath(TempDirFor(env, dir), prefix), suffix, n, 0)
  }

  class FileStore {
    var files: map<Path, Blob>
    var dirs: set<Path>
    /** The state of the random-number source `os.CreateTemp` draws from. */
    var nonce: nat
    const env: Env

    constructor (files0: map<Path, Blob>, dirs0: set<Path>, nonce0: nat, env: Env)
      ensures files == files0 && dirs == dirs0 && nonce == nonce0 && this.env == env
    {
      files, dirs, nonce := files0, dirs0, nonce0;
      this.env := env;
    }

    /** `os.Stat` finds something at `p`. */
    predicate Exists(p: Path)
      reads this
    {
      p in files || p in dirs
    }

    /** `os.Open` followed by reading the whole file: a directory opens but
        holds no PNG. */
    function Open(p: Path): (r: Result<Blob, Fault>)
      reads this
      ensures r.Err? <==> !Exists(p) || p in env.denyRead
      ensures r.Ok? && p in files ==> r.value == files[p]
      ensures r.Err? ==> r.error == (if Exists(p) then Permission else NotExist)
    {
      if !Exists(p) then Err(NotExist)
      else if p in env.denyRead then Err(Permission)
      else if p in files then Ok(files[p])
      else Ok(Unreadable)
    }

    /** `os.MkdirAll(p, 0755)` for a path that does not exist. */
    method MkdirAll(p: Path) returns (err: Option<Fault>)
      modifies this
      ensures err == if p in env.denyWrite then Some(Permission) else None
      ensures dirs == if err.None? then old(dirs) + {p} else old(dirs)
      ensures files == old(files) && nonce == old(nonce)
    {
      if p in env.denyWrite {
        err := Some(Permission);
      } else {
        dirs := dirs + {p};
        err := None;
      }
    }

    /** `os.Create`: an empty file at `p`, truncating any file already there. */
    method Create(p: Path) returns (err: Option<Fault>)
      modifies this
      ensures err == if p in dirs then Some(IsDirectory) else if p in env.denyWrite then Some(Permission) else None
      ensures files == if err.None? then old(files)[p := Unreadable] else old(files)
      ensures dirs == old(dirs) && nonce == old(nonce)
    {
      if p in dirs {
        err := Some(IsDirectory);
      } else if p in env.denyWrite {
        err := Some(Permission);
      } else {
        files := files[p := Unreadable];
        err := None;
      }
    }

    /** `png.Encode` of `img` into the file just created at `p`. */
    method Encode(p: Path, img: Image) returns (err: Option<Fault>)
      modifies this
      ensures err == EncodeFault(img, p in env.failingWrites)
      ensures files == if err.None? then old(files)[p := Png(img)] else old(files)
      ensures dirs == old(dirs) && nonce == old(nonce)
    {
      if !Encodable(img) {
        err := Some(InvalidImageSize(img.width, img.height));
      } else if p in env.failingWrites {
        err := Some(ShortWrite);
      } else {
        files := files[p := Png(img)];
        err := None;
      }
    }

    /** `os.CreateTemp(dir, pattern)`: an empty file with a name no file or
        directory has yet, opened exclusively. */
    method CreateTemp(dir: Path, pattern: string) returns (r: Result<Path, Fault>)
      modifies this
      ensures var outcome := CreateTempOutcome(old(files.Keys + dirs), env, dir, pattern, old(nonce));
              r == outcome.0 && nonce == outcome.1
              && files == if r.Ok? then old(files)[r.value := Unreadable] else old(files)
      ensures dirs == old(dirs)
    {
      var ps := PrefixAndSuffix(pattern);
      if ps.Err? {
        return Err(ps.error);
      }
      r := TryNames(JoinPath(TempDirFor(env, dir), ps.value.0), ps.value.1);
    }

    /** The retry loop of `os.CreateTemp`. */
    method TryNames(prefix: Path, suffix: string) returns (r: Result<Path, Fault>)
      modifies this
      ensures var search := TempSearch(old(files.Keys + dirs), env.denyWrite, prefix, suffix, old(nonce), 0);
              r == search.0 && nonce == search.1
              && files == if r.Ok? then old(files)[r.value := Unreadable] else old(files)
      ensures dirs == old(dirs)
    {
      ghost var taken := files.Keys + dirs;
      ghost var search := TempSearch(taken, env.denyWrite, prefix, suffix, nonce, 0);
      var tries := 0;
      r := Err(Exist);
      while true
        invariant tries < MaxTempTries
        invariant files == old(files) && dirs == old(dirs)
        invariant TempSearch(taken, env.denyWrite, prefix, suffix, nonce, tries) == search
        decreases MaxTempTries - tries
      {
        var name := TempName(prefix, suffix, nonce);
        TempSearchStep(taken, env.denyWrite, prefix, suffix, nonce, tries);
        assert name in taken <==> Exists(name);
        nonce := nonce + 1;
        if Exists(name) {
          tries := tries + 1;
          if tries >= MaxTempTries {
            break;
          }
        } else if name in env.denyWrite {
          r := Err(Permission);
          break;
        } else {
          files := files[name := Unreadable];
          r := Ok(name);
          break;
        }
      }
      assert r == search.0 && nonce == search.1;
    }

    /** `os.Remove` of a file. */
    method Remove(p: Path) returns (err: Option<Fault>)
      modifies this
      ensures err == if p !in old(files) then Some(NotExist) else if p in env.denyRemove then Some(Permission) else None
      ensures files == if err.None? then old(files) - {p} else old(files)
      ensures dirs == old(dirs) && nonce == old(nonce)
    {
      if p !in files {
        err := Some(NotExist);
      } else if p in env.denyRemove {
        err := Some(Permission);
      } else {
        files := files - {p};
        err := None;
      }
    }
  }
}
