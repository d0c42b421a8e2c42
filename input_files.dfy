/**
 * Which input files are read, and how: Node's `path.extname` on POSIX paths,
 * the extension dispatch of `processFile`, the file-name label of
 * `getLabelFromFileName`, and the directory walk of `iterateInputFolder`.
 */
module InputFiles {
  import opened Wrappers
  import opened Seqs

  // ----- path.extname -----

  /** The path without its trailing '/' characters. */
  function StripTrailingSlashes(p: string): (r: string)
    ensures |r| <= |p| && r == p[..|r|] && (r == [] || r[|r| - 1] != '/')
  {
    if p != [] && p[|p| - 1] == '/' then StripTrailingSlashes(p[..|p| - 1]) else p
  }

  /** What follows the last '/' of `p`. */
  function LastComponent(p: string): (r: string)
    ensures '/' !in r && |r| <= |p| && r == p[|p| - |r|..]
  {
    if p == [] || p[|p| - 1] == '/' then []
    else LastComponent(p[..|p| - 1]) + [p[|p| - 1]]
  }

  /** The position of the last '.' in `s`, or -1. */
  function LastDot(s: string): (k: int)
    ensures -1 <= k < |s|
    ensures k >= 0 ==> s[k] == '.' && '.' !in s[k + 1..]
    ensures k == -1 ==> '.' !in s
  {
    if s == [] then -1
    else if s[|s| - 1] == '.' then |s| - 1
    else
      var init := s[..|s| - 1];
      var k := LastDot(init);
      assert s == init + [s[|s| - 1]];
      assert k >= 0 ==> s[k] == init[k] && s[k + 1..] == init[k + 1..] + [s[|s| - 1]];
      k
  }

  /** The extension of a single name: from its last '.', unless that dot starts the name or the name is "..". */
  function ExtOfName(name: string): string {
    var k := LastDot(name);
    if k <= 0 || name == ".." then "" else name[k..]
  }

  /** `path.extname` (POSIX): the extension of the last component, trailing slashes ignored. */
  function Extname(p: string): string {
    ExtOfName(LastComponent(StripTrailingSlashes(p)))
  }

  /** An extension is empty or a '.' followed by dot-free text, and ends the name it came from. */
  lemma ExtOfNameShape(name: string)
    ensures var e := ExtOfName(name);
            && (e == [] || (e[0] == '.' && '.' !in e[1..] && |e| < |name|))
            && name == name[..|name| - |e|] + e
  {
    var k := LastDot(name);
    if k > 0 && name != ".." {
      assert name[k..][1..] == name[k + 1..];
    }
  }

  /** Joining a folder and a plain name gives the name's extension. */
  lemma ExtnameOfJoin(folder: string, name: string)
    requires name != [] && '/' !in name
    ensures Extname(folder + "/" + name) == ExtOfName(name)
  {
    var p := folder + "/" + name;
    assert p[|p| - 1] == name[|name| - 1];
    assert StripTrailingSlashes(p) == p;
    LastComponentOfJoin(folder + "/", name);
  }

  lemma {:induction false} LastComponentOfJoin(prefix: string, name: string)
    requires prefix != [] && prefix[|prefix| - 1] == '/' && '/' !in name
    ensures LastComponent(prefix + name) == name
  {
    if name == [] {
      assert prefix + name == prefix;
    } else {
      var init := name[..|name| - 1];
      assert (prefix + name)[..|prefix + name| - 1] == prefix + init;
      LastComponentOfJoin(prefix, init);
      assert init + [name[|name| - 1]] == name;
    }
  }

  /** `Extname` on a plain name. */
  lemma ExtnameOfName(name: string)
    requires name != [] && '/' !in name
    ensures Extname(name) == ExtOfName(name)
  {
    assert StripTrailingSlashes(name) == name;
    LastComponentOfPlain(name);
  }

  lemma {:induction false} LastComponentOfPlain(name: string)
    requires '/' !in name
    ensures LastComponent(name) == name
  {
    if name != [] {
      var init, c := name[..|name| - 1], name[|name| - 1];
      assert name == init + [c];
      assert '/' !in init && c != '/';
      LastComponentOfPlain(init);
      assert LastComponent(name) == LastComponent(init) + [c];
    }
  }

  /** The last dot is the one with no dot after it. */
  lemma LastDotAt(s: string, k: nat)
    requires k < |s| && s[k] == '.' && '.' !in s[k + 1..]
    ensures LastDot(s) == k
  {
    var r := LastDot(s);
    assert s[k] in s;
    InSuffix(s, r, k);
    InSuffix(s, k, r);
  }

  /** A name with a dot after its first character has the extension from its last dot. */
  lemma ExtOfDottedName(base: string, ext: string)
    requires base != [] && '.' !in ext && base + "." + ext != ".."
    ensures ExtOfName(base + "." + ext) == "." + ext
  {
    var name := base + "." + ext;
    assert name[|base| + 1..] == ext;
    LastDotAt(name, |base|);
    assert name[|base|..] == "." + ext;
  }

  /** A name without a dot, or whose only dot starts it, has no extension. */
  lemma ExtOfUndottedName(ext: string)
    requires '.' !in ext
    ensures ExtOfName(ext) == "" && ExtOfName("." + ext) == ""
  {
    var name := "." + ext;
    assert name[1..] == ext;
    LastDotAt(name, 0);
  }

  // ----- processFile -----

  /** The reader `processFile` picks for an extension. */
  datatype Format = Lu | Qna | Json | Tsv | Blu

  /** The extension dispatch; None for an extension `processFile` rejects. */
  function FormatOf(ext: string): Option<Format> {
    if ext == ".lu" then Some(Lu)
    else if ext == ".qna" then Some(Qna)
    else if ext == ".json" then Some(Json)
    else if ext == ".tsv" || ext == ".txt" then Some(Tsv)
    else if ext == ".blu" then Some(Blu)
    else None
  }

  /** Exactly six extensions are accepted. */
  lemma FormatOfAccepts(ext: string)
    ensures FormatOf(ext).Some? <==> ext in [".lu", ".qna", ".json", ".tsv", ".txt", ".blu"]
  {
  }

  /** The format `FormatOf` picks for each accepted extension, in the order `processFile` tests them. */
  lemma FormatOfExtension(ext: string)
    ensures ext == ".lu" ==> FormatOf(ext) == Some(Lu)
    ensures ext == ".qna" ==> FormatOf(ext) == Some(Qna)
    ensures ext == ".json" ==> FormatOf(ext) == Some(Json)
    ensures ext == ".tsv" || ext == ".txt" ==> FormatOf(ext) == Some(Tsv)
    ensures ext == ".blu" ==> FormatOf(ext) == Some(Blu)
    ensures ext != ".lu" && ext != ".qna" && ext != ".json" && ext != ".tsv" && ext != ".txt" && ext != ".blu" ==> FormatOf(ext) == None
  {
  }

  /** The error `processFile` raises for any other extension. */
  function InvalidExtensionMessage(filePath: string): string {
    filePath + " has invalid extension - lu, qna, json and tsv files are supported."
  }

  /** The error raised when the QnA Maker parser returns nothing. */
  function QnaFailureMessage(filePath: string): string {
    "Failed parsing qna file " + filePath
  }

  /** `substr(0, n)`: the first `n` characters, none when `n` is not positive. */
  function Prefix(s: string, n: int): (r: string)
    ensures |r| <= |s| && r == s[..|r|]
  {
    if n <= 0 then "" else if n >= |s| then s else s[..n]
  }

  /** `getLabelFromFileName`: the file name without its extension when labels are hierarchical, else "". */
  function GetLabelFromFileName(fileName: string, ext: string, hierarchical: bool): string {
    if hierarchical then Prefix(fileName, |fileName| - |ext|) else ""
  }

  /** A name ending in its extension gives the name without it as its label. */
  lemma LabelFromFileName(base: string, ext: string)
    ensures GetLabelFromFileName(base + ext, ext, true) == base
    ensures GetLabelFromFileName(base + ext, ext, false) == ""
  {
    assert (base + ext)[..|base|] == base;
  }

  /** The label a walked file gets: its name with its extension cut off. */
  lemma LabelOfWalkedName(name: string)
    ensures GetLabelFromFileName(name, ExtOfName(name), true) + ExtOfName(name) == name
  {
    ExtOfNameShape(name);
    var e := ExtOfName(name);
    LabelFromFileName(name[..|name| - |e|], e);
  }

  // ----- iterateInputFolder -----

  /** A directory tree as `readdirSync`/`lstatSync` see it. */
  datatype FsEntry = File(name: string) | Directory(name: string, entries: seq<FsEntry>)

  /** The extensions read inside a directory; ".blu" is not among them. */
  const SupportedFileFormats: seq<string> := [".lu", ".json", ".qna", ".tsv", ".txt"]

  /** A file to hand to `processFile`: its joined path and its own name. */
  datatype Job = Job(path: string, name: string)

  /** The files the walk hands to `processFile`, in traversal order. */
  function Walk(folder: string, entries: seq<FsEntry>, processed: set<string>): seq<Job>
    decreases entries
  {
    if entries == [] then []
    else Visit(folder, entries[0], processed) + Walk(folder, entries[1..], processed)
  }

  function Visit(folder: string, entry: FsEntry, processed: set<string>): seq<Job>
    decreases entry
  {
    match entry
    case Directory(name, entries) => Walk(folder + "/" + name, entries, processed)
    case File(name) =>
      var path := folder + "/" + name;
      if path in processed then []
      else if ExtOfName(name) in SupportedFileFormats then [Job(path, name)]
      else []
  }

  /** Walking two runs of entries one after the other lists the first run's files, then the second's. */
  lemma {:induction false} WalkAppend(folder: string, a: seq<FsEntry>, b: seq<FsEntry>, processed: set<string>)
    ensures Walk(folder, a + b, processed) == Walk(folder, a, processed) + Walk(folder, b, processed)
  {
    if a == [] {
      assert a + b == b;
    } else {
      assert (a + b)[0] == a[0] && (a + b)[1..] == a[1..] + b;
      WalkAppend(folder, a[1..], b, processed);
    }
  }

  /** The entries up to and including `i` list those before `i`, then the files of entry `i`. */
  lemma WalkSnoc(folder: string, entries: seq<FsEntry>, i: nat, processed: set<string>)
    requires i < |entries|
    ensures Walk(folder, entries[..i + 1], processed) == Walk(folder, entries[..i], processed) + Visit(folder, entries[i], processed)
  {
    assert entries[..i + 1] == entries[..i] + [entries[i]];
    WalkAppend(folder, entries[..i], [entries[i]], processed);
    assert [entries[i]][1..] == [];
  }

  /** The walk of all entries is the walk of the first `i`, then of the rest. */
  lemma WalkRest(folder: string, entries: seq<FsEntry>, i: nat, processed: set<string>)
    requires i <= |entries|
    ensures Walk(folder, entries, processed) == Walk(folder, entries[..i], processed) + Walk(folder, entries[i..], processed)
  {
    assert entries == entries[..i] + entries[i..];
    WalkAppend(folder, entries[..i], entries[i..], processed);
  }

  /** Every walked file has a supported extension (so never ".blu"), is not yet processed, and ends its path. */
  ghost predicate Walkable(j: Job, processed: set<string>) {
    && j.path !in processed
    && ExtOfName(j.name) in SupportedFileFormats
    && exists folder :: j.path == folder + "/" + j.name
  }

  /** Names as `readdirSync` returns them: non-empty and without '/', all the way down. */
  ghost predicate WellNamed(e: FsEntry)
    decreases e
  {
    && e.name != [] && '/' !in e.name
    && (e.Directory? ==> forall c :: c in e.entries ==> WellNamed(c))
  }

  /**
   * Every walked file is `Walkable`; and when the tree's names are well formed,
   * every walked file's name is non-empty and has no '/'.
   */
  lemma {:induction false} WalkJobs(folder: string, entries: seq<FsEntry>, processed: set<string>)
    ensures forall j :: j in Walk(folder, entries, processed) ==> Walkable(j, processed)
    ensures (forall e :: e in entries ==> WellNamed(e)) ==>
              forall j :: j in Walk(folder, entries, processed) ==> j.name != [] && '/' !in j.name
    decreases entries
  {
    if entries != [] {
      VisitJobs(folder, entries[0], processed);
      WalkJobs(folder, entries[1..], processed);
    }
  }

  lemma {:induction false} VisitJobs(folder: string, entry: FsEntry, processed: set<string>)
    ensures forall j :: j in Visit(folder, entry, processed) ==> Walkable(j, processed)
    ensures WellNamed(entry) ==> forall j :: j in Visit(folder, entry, processed) ==> j.name != [] && '/' !in j.name
    decreases entry
  {
    match entry
    case Directory(name, entries) => WalkJobs(folder + "/" + name, entries, processed);
    case File(name) =>
  }

  /** The directory extensions are a subset of the dispatch's, without ".blu". */
  lemma SupportedFormats(ext: string)
    requires ext in SupportedFileFormats
    ensures FormatOf(ext).Some? && FormatOf(ext) != Some(Blu)
  {
  }

  /** A file the walk hands on is always accepted by the dispatch, and never as a `.blu` snapshot. */
  lemma WalkedFileAccepted(j: Job, processed: set<string>)
    requires Walkable(j, processed) && j.name != [] && '/' !in j.name
    ensures FormatOf(Extname(j.path)).Some? && FormatOf(Extname(j.path)) != Some(Blu)
  {
    var folder :| j.path == folder + "/" + j.name;
    ExtnameOfJoin(folder, j.name);
    SupportedFormats(ExtOfName(j.name));
  }

  /** Over a tree with well-formed names, every file the walk hands on is dispatched, and never as `.blu`. */
  lemma WalkAccepted(folder: string, entries: seq<FsEntry>, processed: set<string>)
    ensures (forall e :: e in entries ==> WellNamed(e)) ==>
              forall j :: j in Walk(folder, entries, processed) ==>
                FormatOf(Extname(j.path)).Some? && FormatOf(Extname(j.path)) != Some(Blu)
  {
    if forall e :: e in entries ==> WellNamed(e) {
      WalkJobs(folder, entries, processed);
      forall j | j in Walk(folder, entries, processed)
        ensures FormatOf(Extname(j.path)).Some? && FormatOf(Extname(j.path)) != Some(Blu)
      {
        WalkedFileAccepted(j, processed);
      }
    }
  }
}
