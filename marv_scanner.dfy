/** Fileset discovery in `marv.scanner`: the directory walk filtered for
    each registered scanner, the per-file checks of `make_file`, the
    assembly of a fileset in `make_fileset`, and `scan`, which skips broken
    filesets. The filesystem is an oracle and MD5 an uninterpreted digest. */
module MarvScanner {
  import opened Wrappers
  import opened Strings
  import opened Utils
  import MultiplexProofs
  import opened Model

  /** What the scanner asks of the filesystem: readability (`os.access`),
      the first line of a sidecar (`None` when it cannot be opened), the
      size (`os.stat`) and existence of a path (`os.path.exists`). */
  datatype Fs = Fs(readable: string -> bool, firstLine: string -> Option<string>,
                   size: string -> nat, present: string -> bool)

  datatype FileInfo = FileInfo(dirpath: string, name: string)

  /** `kind` is the `type` field. */
  datatype FilesetInfo = FilesetInfo(kind: string, dirpath: string, name: string,
                                     indexedFiles: seq<(int, FileInfo)>)

  /** The `BrokenFileset` hierarchy. */
  datatype Broken =
    | MissingFile(dirpath: string, name: string, count: int)
    | MissingMD5(dirpath: string, name: string)
    | EmptyFile(dirpath: string, name: string)
    | UnreadableFile(dirpath: string, name: string)
    | MalformattedMD5(dirpath: string, name: string)

  /** What `make_fileset` raises: a broken fileset, or the `UnboundLocalError`
      of an empty `indexed_files`, which is no `BrokenFileset`. */
  datatype MakeError = IsBroken(broken: Broken) | Unbound

  datatype Arg = Text(text: string) | Number(number: int)

  function ClassName(e: Broken): string
  {
    match e
    case MissingFile(_, _, _) => "MissingFile"
    case MissingMD5(_, _) => "MissingMD5"
    case EmptyFile(_, _) => "EmptyFile"
    case UnreadableFile(_, _) => "UnreadableFile"
    case MalformattedMD5(_, _) => "MalformattedMD5"
  }

  /** The exception's `args`: `BrokenFileset.__init__` puts the class name
      in front of the arguments it was raised with. */
  function Args(e: Broken): (r: seq<Arg>)
    ensures |r| >= 3 && r[0] == Text(ClassName(e))
    ensures r[1] == Text(e.dirpath) && r[2] == Text(e.name)
    ensures |r| == 4 <==> e.MissingFile?
  {
    [Text(ClassName(e)), Text(e.dirpath), Text(e.name)] +
    (if e.MissingFile? then [Number(e.count)] else [])
  }

  /** `fnmatch` for patterns built from literal characters, `*` and `?`
      (bracket sets are not modelled). */
  predicate Match(pattern: string, s: string)
    decreases |pattern|, |s|
  {
    if |pattern| == 0 then |s| == 0
    else if pattern[0] == '*' then Match(pattern[1..], s) || (|s| > 0 && Match(pattern, s[1..]))
    else |s| > 0 && (pattern[0] == '?' || pattern[0] == s[0]) && Match(pattern[1..], s[1..])
  }

  predicate Literal(p: string)
  {
    '*' !in p && '?' !in p
  }

  lemma {:induction false} MatchLiteral(p: string, s: string)
    requires Literal(p)
    ensures Match(p, s) <==> s == p
  {
    if |p| > 0 && |s| > 0 {
      assert p[0] in p;
      assert '*' !in p[1..] && '?' !in p[1..];
      MatchLiteral(p[1..], s[1..]);
      assert p == [p[0]] + p[1..] && s == [s[0]] + s[1..];
    } else if |p| > 0 {
      assert p[0] in p;
    }
  }

  /** A pattern `*<suffix>` such as the scanners' `*.bag` matches exactly
      the paths ending in the suffix. */
  lemma {:induction false} MatchSuffix(suffix: string, s: string)
    requires Literal(suffix)
    ensures Match("*" + suffix, s) <==> EndsWith(s, suffix)
    decreases |s|
  {
    var p := "*" + suffix;
    assert p[1..] == suffix;
    MatchLiteral(suffix, s);
    if |s| > 0 {
      MatchSuffix(suffix, s[1..]);
      assert EndsWith(s[1..], suffix) ==> EndsWith(s, suffix) by {
        if |suffix| <= |s| - 1 { assert s[1..][|s| - 1 - |suffix|..] == s[|s| - |suffix|..]; }
      }
      assert EndsWith(s, suffix) && s != suffix ==> EndsWith(s[1..], suffix) by {
        if EndsWith(s, suffix) && |suffix| < |s| {
          assert s[1..][|s| - 1 - |suffix|..] == s[|s| - |suffix|..];
        }
      }
    }
  }

  /** The names `detect_filesets` offers to scanners: not hidden and not an
      md5 sidecar. */
  predicate Visible(name: string)
  {
    |name| > 0 && name[0] != '.' && !EndsWith(name, ".md5")
  }

  function VisibleInfos(dirpath: string, names: seq<string>): (r: seq<FileInfo>)
    ensures forall x :: x in r <==> x.dirpath == dirpath && x.name in names && Visible(x.name)
  {
    if |names| == 0 then []
    else (if Visible(names[0]) then [FileInfo(dirpath, names[0])] else []) + VisibleInfos(dirpath, names[1..])
  }

  /** A registered scanner: its glob and its callback, which turns the file
      infos it is given into a generator of fileset infos. */
  datatype Scanner = Scanner(pattern: string, callback: seq<FileInfo> -> Processor<FilesetInfo>)

  /** `Scanner.__call__`'s filter: the infos whose joined path matches the
      pattern, in order. */
  function Matching(infos: seq<FileInfo>, pattern: string): (r: seq<FileInfo>)
    ensures forall x :: x in r <==> x in infos && Match(pattern, PathJoin(x.dirpath, x.name))
    ensures |r| <= |infos|
  {
    if |infos| == 0 then []
    else
      var x := infos[0];
      (if Match(pattern, PathJoin(x.dirpath, x.name)) then [x] else []) + Matching(infos[1..], pattern)
  }

  /** What a scanner is given for one directory of the walk. */
  function ScannerInput(dirpath: string, names: seq<string>, sc: Scanner): seq<FileInfo>
  {
    Matching(VisibleInfos(dirpath, names), sc.pattern)
  }

  /** Hidden files and md5 sidecars never reach a scanner, and a scanner
      sees only files of the walked directory whose path matches its glob. */
  lemma ScannerSees(dirpath: string, names: seq<string>, sc: Scanner, x: FileInfo)
    requires x in ScannerInput(dirpath, names, sc)
    ensures x.dirpath == dirpath && x.name in names
    ensures x.name[0] != '.' && !EndsWith(x.name, ".md5")
    ensures Match(sc.pattern, PathJoin(dirpath, x.name))
  {
  }

  /** The processors `multiplex` runs for one directory: each scanner called
      with its own filtered copy of the file infos. */
  function Processors(dirpath: string, names: seq<string>, scanners: seq<Scanner>): (r: seq<Processor<FilesetInfo>>)
    ensures |r| == |scanners|
    ensures forall k :: 0 <= k < |r| ==> r[k] == scanners[k].callback(ScannerInput(dirpath, names, scanners[k]))
  {
    seq(|scanners|, k requires 0 <= k < |scanners| => scanners[k].callback(ScannerInput(dirpath, names, scanners[k])))
  }

  /** `detect_filesets` over the directories the walk produced, in walk
      order. A scanner that raises aborts the walk: the directory it was
      listing (materialised by `list`) yields nothing. */
  function DetectSpec(walk: seq<(string, seq<string>)>, scanners: seq<Scanner>): (r: (seq<FilesetInfo>, bool))
  {
    if |walk| == 0 then ([], false)
    else
      var (prev, raised) := DetectSpec(walk[..|walk| - 1], scanners);
      var (dirpath, names) := walk[|walk| - 1];
      var o := MultiplexSpec(Processors(dirpath, names, scanners), true);
      if raised then (prev, true)
      else if o.raised then (prev, true)
      else (prev + Untag(o.out), false)
  }

  /** `detect_filesets`: before the walk it asserts that the base is a
      directory and that there is a scanner; a failed assertion raises
      before anything is yielded. `baseIsDir` stands for
      `os.path.isdir(basedir)`. */
  function Detected(baseIsDir: bool, walk: seq<(string, seq<string>)>, scanners: seq<Scanner>): (r: (seq<FilesetInfo>, bool))
  {
    if !baseIsDir || |scanners| == 0 then ([], true) else DetectSpec(walk, scanners)
  }

  method DetectFilesets(baseIsDir: bool, walk: seq<(string, seq<string>)>, scanners: seq<Scanner>)
    returns (infos: seq<FilesetInfo>, raised: bool)
    ensures (infos, raised) == Detected(baseIsDir, walk, scanners)
  {
    if !baseIsDir || |scanners| == 0 {
      return [], true;
    }
    infos := [];
    raised := false;
    for d := 0 to |walk|
      invariant (infos, raised) == DetectSpec(walk[..d], scanners)
      invariant !raised
    {
      assert walk[..d + 1][..d] == walk[..d];
      var (dirpath, names) := walk[d];
      var out, r := Multiplex(Processors(dirpath, names, scanners), true);
      if r {
        DetectPrefixRaised(walk, scanners, d + 1);
        return infos, true;
      }
      infos := infos + out;
    }
    assert walk[..|walk|] == walk;
  }

  /** Once a directory has raised, later directories change nothing. */
  lemma {:induction false} DetectPrefixRaised(walk: seq<(string, seq<string>)>, scanners: seq<Scanner>, n: nat)
    requires n <= |walk| && DetectSpec(walk[..n], scanners).1
    ensures DetectSpec(walk, scanners) == DetectSpec(walk[..n], scanners)
    decreases |walk| - n
  {
    if n < |walk| {
      assert walk[..n + 1][..n] == walk[..n];
      DetectPrefixRaised(walk, scanners, n + 1);
    } else {
      assert walk[..n] == walk;
    }
  }

  /** Without a raising scanner, `detect_filesets` raises exactly when one
      of its two assertions fails: the base is not a directory or there is
      no scanner. */
  lemma DetectCollects(baseIsDir: bool, walk: seq<(string, seq<string>)>, scanners: seq<Scanner>)
    requires forall d, k :: 0 <= d < |walk| && 0 <= k < |scanners| ==>
      var p := Processors(walk[d].0, walk[d].1, scanners)[k]; p.Generator? && !p.raises
    ensures Detected(baseIsDir, walk, scanners).1 <==> !baseIsDir || |scanners| == 0
  {
    WalkCollects(walk, scanners);
  }

  /** Without a raising scanner, no directory of the walk raises. */
  lemma {:induction false} WalkCollects(walk: seq<(string, seq<string>)>, scanners: seq<Scanner>)
    requires forall d, k :: 0 <= d < |walk| && 0 <= k < |scanners| ==>
      var p := Processors(walk[d].0, walk[d].1, scanners)[k]; p.Generator? && !p.raises
    ensures !DetectSpec(walk, scanners).1
  {
    if |walk| > 0 {
      WalkCollects(walk[..|walk| - 1], scanners);
      var (dirpath, names) := walk[|walk| - 1];
      var procs := Processors(dirpath, names, scanners);
      MultiplexProofs.MultiplexDontCatch(procs);
    }
  }

  /** `make_file`: readability first, then the sidecar, then its format,
      then a non-zero size. */
  function MakeFile(fs: Fs, info: FileInfo): (r: Result<File, Broken>)
    ensures r.Ok? ==> r.value.name == info.name && r.value.size > 0 && !r.value.missing && |r.value.md5| <= 32
    ensures r.Err? ==> !r.error.MissingFile? && r.error.dirpath == info.dirpath && r.error.name == info.name
  {
    var path := PathJoin(info.dirpath, info.name);
    if !fs.readable(path) then Err(UnreadableFile(info.dirpath, info.name))
    else match fs.firstLine(path + ".md5")
      case None => Err(MissingMD5(info.dirpath, info.name))
      case Some(line) =>
        if Strip(Drop(line, 32)) != info.name then Err(MalformattedMD5(info.dirpath, info.name))
        else if fs.size(path) == 0 then Err(EmptyFile(info.dirpath, info.name))
        else Ok(File(Take(line, 32), info.name, fs.size(path), false))
  }

  /** An unreadable file is reported before its sidecar or size are looked
      at: the outcome does not depend on them. */
  lemma UnreadableFirst(fs: Fs, info: FileInfo, firstLine: string -> Option<string>, size: string -> nat)
    requires !fs.readable(PathJoin(info.dirpath, info.name))
    ensures MakeFile(fs, info) == Err(UnreadableFile(info.dirpath, info.name))
    ensures MakeFile(fs.(firstLine := firstLine, size := size), info) == MakeFile(fs, info)
  {
  }

  /** Any 32 characters (hex or not) followed by any whitespace, the name
      and any whitespace form an accepted sidecar line, and the 32
      characters become the file's md5. */
  lemma SidecarAccepted(fs: Fs, info: FileInfo, hash: string, w1: string, w2: string)
    requires |hash| == 32 && AllSpace(w1) && AllSpace(w2)
    requires |info.name| > 0 ==> !IsSpace(info.name[0]) && !IsSpace(info.name[|info.name| - 1])
    requires var path := PathJoin(info.dirpath, info.name);
      fs.readable(path) && fs.size(path) > 0 && fs.firstLine(path + ".md5") == Some(hash + w1 + info.name + w2)
    ensures MakeFile(fs, info).Ok? && MakeFile(fs, info).value.md5 == hash
  {
    SidecarLine(hash, w1, info.name, w2);
  }

  /** The first 32 characters of such a line are the hash, and the rest,
      stripped, is the name. */
  lemma SidecarLine(hash: string, w1: string, name: string, w2: string)
    requires |hash| == 32 && AllSpace(w1) && AllSpace(w2)
    requires |name| > 0 ==> !IsSpace(name[0]) && !IsSpace(name[|name| - 1])
    ensures Take(hash + w1 + name + w2, 32) == hash
    ensures Strip(Drop(hash + w1 + name + w2, 32)) == name
  {
    var line := hash + w1 + name + w2;
    var rest := w1 + name + w2;
    assert line == hash + rest;
    assert line[32..] == rest && line[..32] == hash;
    StripSurrounded(w1, name, w2);
  }

  /** An empty sidecar is malformatted, not missing. */
  lemma EmptySidecar(fs: Fs, info: FileInfo)
    requires |info.name| > 0
    requires var path := PathJoin(info.dirpath, info.name);
      fs.readable(path) && fs.firstLine(path + ".md5") == Some("")
    ensures MakeFile(fs, info) == Err(MalformattedMD5(info.dirpath, info.name))
  {
  }

  /** `make_file` as a function of the file info alone. */
  function FileMaker(fs: Fs): FileInfo -> Result<File, Broken>
  {
    info => MakeFile(fs, info)
  }

  /** The files made of all entries, in order, or the first failure. */
  function MakeAll(items: seq<(int, FileInfo)>, mk: FileInfo -> Result<File, Broken>): (r: Result<seq<File>, Broken>)
    ensures r.Ok? ==> |r.value| == |items|
    ensures r.Ok? ==> forall i :: 0 <= i < |items| ==> mk(items[i].1) == Ok(r.value[i])
    ensures r.Err? ==> exists i :: 0 <= i < |items| && mk(items[i].1) == Err(r.error)
  {
    if |items| == 0 then Ok([])
    else
      var init := items[..|items| - 1];
      var prev := MakeAll(init, mk);
      var last := mk(items[|items| - 1].1);
      assert forall i :: 0 <= i < |init| ==> init[i] == items[i];
      if prev.Err? then Err(prev.error)
      else if last.Err? then Err(last.error)
      else
        var files := prev.value + [last.value];
        assert forall i :: 0 <= i < |init| ==> files[i] == prev.value[i];
        Ok(files)
  }

  function ConcatMd5(files: seq<File>): string
  {
    if |files| == 0 then "" else ConcatMd5(files[..|files| - 1]) + files[|files| - 1].md5
  }

  function NewFileset(info: FilesetInfo, md5: string, files: seq<File>, now: int): Fileset
  {
    Fileset(0, md5, info.name, info.dirpath, info.kind, files, false, None,
            now, now, None, None, None)
  }

  /** What `make_fileset` returns or raises. */
  function MadeFileset(fs: Fs, info: FilesetInfo, digest: string -> string, now: int): Result<Fileset, MakeError>
  {
    var items := info.indexedFiles;
    match MakeAll(items, FileMaker(fs))
    case Err(e) => Err(IsBroken(e))
    case Ok(files) =>
      if |items| == 0 then Err(Unbound)
      else
        var missing := 1 + items[|items| - 1].0 - |files|;
        if missing != 0 then Err(IsBroken(MissingFile(items[0].1.dirpath, info.name, missing)))
        else Ok(NewFileset(info, digest(ConcatMd5(files)), files, now))
  }

  /** The loop of `make_fileset`: makes each file in order, feeding its md5
      to the hasher, and stops at the first failure. */
  method MakeFiles(fs: Fs, items: seq<(int, FileInfo)>) returns (r: Result<seq<File>, Broken>, hashed: string)
    ensures r == MakeAll(items, FileMaker(fs))
    ensures r.Ok? ==> hashed == ConcatMd5(r.value)
  {
    var files: seq<File> := [];
    hashed := "";
    for i := 0 to |items|
      invariant MakeAll(items[..i], FileMaker(fs)) == Ok(files)
      invariant hashed == ConcatMd5(files)
    {
      var file := MakeFile(fs, items[i].1);
      assert file == FileMaker(fs)(items[i].1);
      MakeAllStep(items, FileMaker(fs), i, files);
      if file.Err? {
        MakeAllPrefixErr(items, FileMaker(fs), i + 1);
        return Err(file.error), hashed;
      }
      ConcatMd5Snoc(files, file.value);
      files := files + [file.value];
      hashed := hashed + file.value.md5;
    }
    assert items[..|items|] == items;
    r := Ok(files);
  }

  /** `make_fileset`: the files and their hashed md5s, then the count
      checked against the last index. */
  method MakeFileset(fs: Fs, info: FilesetInfo, digest: string -> string, now: int)
    returns (r: Result<Fileset, MakeError>)
    ensures r == MadeFileset(fs, info, digest, now)
  {
    var items := info.indexedFiles;
    var files, hashed := MakeFiles(fs, items);
    if files.Err? {
      return Err(IsBroken(files.error));
    }
    if |items| == 0 {
      return Err(Unbound);
    }
    var idx := items[|items| - 1].0;
    var missing := 1 + idx - |files.value|;
    if missing != 0 {
      return Err(IsBroken(MissingFile(items[0].1.dirpath, info.name, missing)));
    }
    r := Ok(NewFileset(info, digest(hashed), files.value, now));
  }

  /** One more item: the first `i` made, the next one fails or is added. */
  lemma MakeAllStep(items: seq<(int, FileInfo)>, mk: FileInfo -> Result<File, Broken>, i: nat, files: seq<File>)
    requires i < |items| && MakeAll(items[..i], mk) == Ok(files)
    ensures MakeAll(items[..i + 1], mk) == if mk(items[i].1).Err? then Err(mk(items[i].1).error) else Ok(files + [mk(items[i].1).value])
  {
    assert items[..i + 1][..i] == items[..i] && items[..i + 1][i] == items[i];
  }

  lemma ConcatMd5Snoc(files: seq<File>, f: File)
    ensures ConcatMd5(files + [f]) == ConcatMd5(files) + f.md5
  {
    assert (files + [f])[..|files|] == files;
  }

  /** A failure among the first `n` items is the overall failure. */
  lemma {:induction false} MakeAllPrefixErr(items: seq<(int, FileInfo)>, mk: FileInfo -> Result<File, Broken>, n: nat)
    requires n <= |items| && MakeAll(items[..n], mk).Err?
    ensures MakeAll(items, mk) == MakeAll(items[..n], mk)
    decreases |items| - n
  {
    if n < |items| {
      assert items[..n + 1][..n] == items[..n];
      MakeAllPrefixErr(items, mk, n + 1);
    } else {
      assert items[..n] == items;
    }
  }

  /** A made fileset: files in indexed order, md5 the digest of their md5s
      concatenated in that order, added and updated at the same instant,
      and one file for each index 0..last. */
  lemma MadeFilesetShape(fs: Fs, info: FilesetInfo, digest: string -> string, now: int)
    requires MadeFileset(fs, info, digest, now).Ok?
    ensures var f := MadeFileset(fs, info, digest, now).value;
      var items := info.indexedFiles;
      |items| > 0 && |f.files| == |items| && 1 + items[|items| - 1].0 == |items| &&
      (forall i :: 0 <= i < |items| ==> f.files[i].name == items[i].1.name) &&
      f.md5 == digest(ConcatMd5(f.files)) &&
      f.timeAdded == f.timeUpdated == now && f.timeRead.None? && !f.deleted &&
      f.name == info.name && f.dirpath == info.dirpath && f.kind == info.kind
  {
  }

  /** `MissingFile` is raised, carrying `1 + last index - count`, exactly
      when every file is fine but that number is not zero. */
  lemma MissingFileCount(fs: Fs, info: FilesetInfo, digest: string -> string, now: int)
    ensures var items := info.indexedFiles;
      var r := MadeFileset(fs, info, digest, now);
      (r.Err? && r.error.IsBroken? && r.error.broken.MissingFile?) <==>
      (|items| > 0 && MakeAll(items, FileMaker(fs)).Ok? && 1 + items[|items| - 1].0 - |items| != 0)
    ensures var items := info.indexedFiles;
      var r := MadeFileset(fs, info, digest, now);
      r.Err? && r.error.IsBroken? && r.error.broken.MissingFile? ==>
        r.error.broken.count == 1 + items[|items| - 1].0 - |items|
  {
    var items := info.indexedFiles;
    var made := MakeAll(items, FileMaker(fs));
    if made.Err? {
      var i :| 0 <= i < |items| && FileMaker(fs)(items[i].1) == Err(made.error);
      assert MakeFile(fs, items[i].1) == Err(made.error);
      assert MadeFileset(fs, info, digest, now) == Err(IsBroken(made.error));
    }
  }

  /** The set of indices 0..k-1 passes the count check whatever the full
      set's size was: a set missing only its trailing members is accepted. */
  lemma LeadingIndicesPass(fs: Fs, info: FilesetInfo, digest: string -> string, now: int)
    requires |info.indexedFiles| > 0
    requires forall i :: 0 <= i < |info.indexedFiles| ==> info.indexedFiles[i].0 == i
    requires MakeAll(info.indexedFiles, FileMaker(fs)).Ok?
    ensures MadeFileset(fs, info, digest, now).Ok?
  {
  }

  /** Only an empty `indexed_files` raises something other than a broken
      fileset. */
  lemma UnboundIffEmpty(fs: Fs, info: FilesetInfo, digest: string -> string, now: int)
    ensures MadeFileset(fs, info, digest, now) == Err(Unbound) <==> |info.indexedFiles| == 0
  {
  }

  /** `make_fileset` as a function of the candidate alone. */
  function Maker(fs: Fs, digest: string -> string, now: int): FilesetInfo -> Result<Fileset, MakeError>
  {
    info => MadeFileset(fs, info, digest, now)
  }

  /** `scan` over the detected fileset infos, with `make` in the place of
      `make_fileset`: broken filesets are skipped; any other error ends the
      scan. The flag tells whether it ended so. */
  function ScanSpec(infos: seq<FilesetInfo>, make: FilesetInfo -> Result<Fileset, MakeError>): (seq<Fileset>, bool)
  {
    if |infos| == 0 then ([], false)
    else
      var (prev, aborted) := ScanSpec(infos[..|infos| - 1], make);
      if aborted then (prev, true)
      else match make(infos[|infos| - 1])
        case Ok(f) => (prev + [f], false)
        case Err(IsBroken(_)) => (prev, false)
        case Err(Unbound) => (prev, true)
  }

  method Scan(fs: Fs, infos: seq<FilesetInfo>, digest: string -> string, now: int)
    returns (found: seq<Fileset>, aborted: bool)
    ensures (found, aborted) == ScanSpec(infos, Maker(fs, digest, now))
  {
    found := [];
    aborted := false;
    ghost var make := Maker(fs, digest, now);
    for i := 0 to |infos|
      invariant (found, aborted) == ScanSpec(infos[..i], make)
      invariant !aborted
    {
      assert infos[..i + 1][..i] == infos[..i];
      var r := MakeFileset(fs, infos[i], digest, now);
      assert r == make(infos[i]);
      if r.Ok? {
        found := found + [r.value];
      } else if r.error.Unbound? {
        ScanPrefixAborted(infos, make, i + 1);
        return found, true;
      }
    }
    assert infos[..|infos|] == infos;
  }

  lemma {:induction false} ScanPrefixAborted(infos: seq<FilesetInfo>, make: FilesetInfo -> Result<Fileset, MakeError>, n: nat)
    requires n <= |infos| && ScanSpec(infos[..n], make).1
    ensures ScanSpec(infos, make) == ScanSpec(infos[..n], make)
    decreases |infos| - n
  {
    if n < |infos| {
      assert infos[..n + 1][..n] == infos[..n];
      ScanPrefixAborted(infos, make, n + 1);
    } else {
      assert infos[..n] == infos;
    }
  }

  /** A broken fileset never ends the scan: it ends exactly when some
      candidate has no files at all. */
  lemma ScanAbortsOnlyOnEmpty(fs: Fs, infos: seq<FilesetInfo>, digest: string -> string, now: int)
    ensures ScanSpec(infos, Maker(fs, digest, now)).1 <==> exists i :: 0 <= i < |infos| && |infos[i].indexedFiles| == 0
  {
    var make := Maker(fs, digest, now);
    forall info ensures make(info) == Err(Unbound) <==> |info.indexedFiles| == 0 {
      UnboundIffEmpty(fs, info, digest, now);
    }
    ScanAborts(infos, make);
  }

  lemma {:induction false} ScanAborts(infos: seq<FilesetInfo>, make: FilesetInfo -> Result<Fileset, MakeError>)
    ensures ScanSpec(infos, make).1 <==> exists i :: 0 <= i < |infos| && make(infos[i]) == Err(Unbound)
  {
    if |infos| > 0 {
      var init := infos[..|infos| - 1];
      ScanAborts(init, make);
      assert forall i :: 0 <= i < |init| ==> init[i] == infos[i];
    }
  }

  /** Each scanned fileset is what `make_fileset` made of some candidate. */
  lemma {:induction false} ScanFromCandidates(infos: seq<FilesetInfo>, make: FilesetInfo -> Result<Fileset, MakeError>)
    ensures forall f :: f in ScanSpec(infos, make).0 ==>
      exists i :: 0 <= i < |infos| && make(infos[i]) == Ok(f)
  {
    if |infos| > 0 {
      var init := infos[..|infos| - 1];
      ScanFromCandidates(init, make);
      assert forall i :: 0 <= i < |init| ==> init[i] == infos[i];
    }
  }

  /** When no candidate is broken or empty, every candidate is kept, in
      order. */
  lemma {:induction false} ScanKeepsAll(infos: seq<FilesetInfo>, make: FilesetInfo -> Result<Fileset, MakeError>)
    requires forall i :: 0 <= i < |infos| ==> make(infos[i]).Ok?
    ensures !ScanSpec(infos, make).1
    ensures |ScanSpec(infos, make).0| == |infos|
    ensures forall i :: 0 <= i < |infos| ==> ScanSpec(infos, make).0[i] == make(infos[i]).value
  {
    if |infos| > 0 {
      var init := infos[..|infos| - 1];
      assert forall i :: 0 <= i < |init| ==> init[i] == infos[i];
      ScanKeepsAll(init, make);
    }
  }
}
