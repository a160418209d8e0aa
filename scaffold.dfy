/** The command line and the existence-guarded creation of the component
    directory and its six files (index.js:5-9, 169-185), over a model of the
    file system as a map from paths to entries. */
module Scaffold {
  import opened Render
  import opened Templates

  datatype Option<T> = None | Some(value: T)

  /** What the command line asks for: the component name and its properties. */
  datatype Request = Request(componentName: string, props: seq<string>)

  /** `process.argv.slice(2)` split into the name and the properties. A missing
      name is interpolated by JavaScript as the text `undefined`. */
  function ParseArgs(args: seq<string>): (r: Request)
    ensures args != [] ==> [r.componentName] + r.props == args
    ensures args == [] ==> r == Request("undefined", [])
  {
    if args == [] then Request("undefined", []) else Request(args[0], args[1..])
  }

  /** Reading back the command line of a request gives the request. */
  lemma ParseArgsOfRequest(r: Request)
    ensures ParseArgs([r.componentName] + r.props) == r
  {
    assert ([r.componentName] + r.props)[1..] == r.props;
  }

  // ---------------------------------------------------------------------------
  // The plan

  /** The directory of the component, relative to the working directory. */
  function Dir(name: string): (d: string)
    ensures |d| == |name| + 2
    ensures d[..2] == "./" && d[2..] == name
  {
    "./" + name
  }

  /** The path of a file inside a directory. */
  function Path(dir: string, fileName: string): (p: string)
    ensures |p| == |dir| + 1 + |fileName|
    ensures p[..|dir|] == dir && p[|dir|] == '/' && p[|dir| + 1..] == fileName
  {
    dir + "/" + fileName
  }

  /** The name of the file that holds each document: `index.tsx`, or the
      component name followed by a suffix that starts with a dot. */
  function FileName(kind: Kind, name: string): (f: string)
    ensures kind == Index ==> f == "index.tsx"
    ensures kind != Index ==> |f| > |name| + 1 && f[..|name|] == name && f[|name|] == '.'
  {
    match kind
    case Index => "index.tsx"
    case Component => name + ".tsx"
    case Types => name + ".types.ts"
    case Styles => name + ".styles.ts"
    case Stories => name + ".stories.tsx"
    case Test => name + ".test.tsx"
  }

  /** The order in which the files are created. */
  const Order: seq<Kind> := [Index, Component, Types, Styles, Stories, Test]

  /** Where a kind stands in the creation order. */
  function Position(k: Kind): (i: nat)
    ensures i < |Order| && Order[i] == k
  {
    match k
    case Index => 0
    case Component => 1
    case Types => 2
    case Styles => 3
    case Stories => 4
    case Test => 5
  }

  /** The file names for the given kinds, in order. */
  function NamesFor(kinds: seq<Kind>, name: string): (r: seq<string>)
    ensures |r| == |kinds|
    ensures forall i :: 0 <= i < |kinds| ==> r[i] == FileName(kinds[i], name)
    decreases |kinds|
  {
    if kinds == [] then [] else [FileName(kinds[0], name)] + NamesFor(kinds[1..], name)
  }

  /** One call of `createFileWithBoilerplate`. */
  datatype NewFile = NewFile(fileName: string, content: string)

  /** The files for the given kinds, each with its boilerplate, in order. */
  function FilesFor(kinds: seq<Kind>, name: string, boilerplate: Kind -> string): (r: seq<NewFile>)
    ensures |r| == |kinds|
    ensures forall i :: 0 <= i < |kinds| ==> r[i] == NewFile(FileName(kinds[i], name), boilerplate(kinds[i]))
    decreases |kinds|
  {
    if kinds == [] then []
    else [NewFile(FileName(kinds[0], name), boilerplate(kinds[0]))] + FilesFor(kinds[1..], name, boilerplate)
  }

  /** The names of a list of files. */
  function NamesOf(files: seq<NewFile>): (r: seq<string>)
    ensures |r| == |files|
    ensures forall i :: 0 <= i < |files| ==> r[i] == files[i].fileName
    decreases |files|
  {
    if files == [] then [] else [files[0].fileName] + NamesOf(files[1..])
  }

  /** What the script does when the directory is missing: make it, then write
      the six files into it. */
  datatype Creation = Creation(dir: string, files: seq<NewFile>)

  /** The guarded plan: nothing when `./N` exists, otherwise the directory and
      the six files with their boilerplate. */
  function Plan(existing: set<string>, name: string, boilerplate: Kind -> string): (r: Option<Creation>)
    ensures r.None? <==> Dir(name) in existing
    ensures r.Some? ==> r.value.dir == Dir(name)
    ensures r.Some? ==> r.value.files == FilesFor(Order, name, boilerplate)
  {
    if Dir(name) in existing then None
    else Some(Creation(Dir(name), FilesFor(Order, name, boilerplate)))
  }

  /** The script for a request: nothing when `./N` exists, otherwise `./N` and
      the six files of the creation order, each holding the document of its kind
      rendered from the request. */
  function Script(existing: set<string>, req: Request): (r: Option<Creation>)
    ensures Dir(req.componentName) in existing ==> r.None?
    ensures Dir(req.componentName) !in existing ==>
      && r.Some?
      && r.value.dir == Dir(req.componentName)
      && |r.value.files| == |Order|
      && forall k :: r.value.files[Position(k)] == NewFile(FileName(k, req.componentName), Document(k, req.componentName, req.props))
  {
    PlanAtKinds(existing, req.componentName, Boilerplate(req));
    Plan(existing, req.componentName, Boilerplate(req))
  }

  /** In a created directory, the file at a kind's place in the creation order
      is that kind's file. */
  lemma PlanAtKinds(existing: set<string>, name: string, boilerplate: Kind -> string)
    ensures Dir(name) !in existing ==>
      forall k :: Plan(existing, name, boilerplate).value.files[Position(k)] == NewFile(FileName(k, name), boilerplate(k))
  {}

  /** The six documents of a request, by kind, as the script renders them before
      it looks at the file system. */
  function Boilerplate(req: Request): Kind -> string {
    k => Document(k, req.componentName, req.props)
  }

  /** The six files are, in order, `index.tsx`, `N.tsx`, `N.types.ts`,
      `N.styles.ts`, `N.stories.tsx` and `N.test.tsx`. */
  lemma PlannedNames(name: string)
    ensures NamesFor(Order, name) ==
      ["index.tsx", name + ".tsx", name + ".types.ts", name + ".styles.ts", name + ".stories.tsx", name + ".test.tsx"]
  {}

  /** A created directory receives exactly the six files, in order. */
  lemma PlanFileOrder(existing: set<string>, name: string, boilerplate: Kind -> string)
    requires Dir(name) !in existing
    ensures NamesOf(Plan(existing, name, boilerplate).value.files) == NamesFor(Order, name)
  {
    var names := NamesOf(Plan(existing, name, boilerplate).value.files);
    assert forall i :: 0 <= i < |Order| ==> names[i] == FileName(Order[i], name);
  }

  /** Every file the script writes has content. */
  lemma ScriptContentsNonEmpty(existing: set<string>, req: Request)
    requires Dir(req.componentName) !in existing
    ensures forall i :: 0 <= i < |Script(existing, req).value.files| ==> Script(existing, req).value.files[i].content != []
  {
    var files := Script(existing, req).value.files;
    forall i | 0 <= i < |files|
      ensures files[i].content != []
    {
      assert files[Position(Order[i])].content == Document(Order[i], req.componentName, req.props);
    }
  }

  /** A script that runs creates the directory of the requested component. */
  lemma ScriptCreates(existing: set<string>, req: Request)
    requires Dir(req.componentName) !in existing
    ensures var s := Script(existing, req);
      && s.Some?
      && s.value.dir == Dir(req.componentName)
      && NamesOf(s.value.files) == NamesFor(Order, req.componentName)
  {
    PlanFileOrder(existing, req.componentName, Boilerplate(req));
  }

  // ---------------------------------------------------------------------------
  // Distinct names

  predicate Distinct(s: seq<string>) {
    forall i, j :: 0 <= i < j < |s| ==> s[i] != s[j]
  }

  lemma SuffixesDiffer(n: string, a: string, b: string, k: nat)
    requires k < |a| && k < |b| && a[k] != b[k]
    ensures n + a != n + b
  {
    assert (n + a)[|n| + k] == a[k];
    assert (n + b)[|n| + k] == b[k];
  }

  lemma LengthsDiffer(a: string, b: string)
    requires |a| != |b|
    ensures a != b
  {}

  /** `index.tsx` is another file's name only when the component is called `index`. */
  lemma IndexNameClash(name: string)
    ensures name + ".tsx" == "index.tsx" <==> name == "index"
    ensures name + ".types.ts" != "index.tsx"
    ensures name + ".test.tsx" != "index.tsx"
    ensures name + ".styles.ts" != "index.tsx"
    ensures name + ".stories.tsx" != "index.tsx"
  {
    if name + ".tsx" == "index.tsx" {
      assert |name| == 5;
      assert (name + ".tsx")[..5] == name;
      assert "index.tsx"[..5] == "index";
    }
    if |name| == 0 {
      assert name + ".types.ts" == ".types.ts";
      assert name + ".test.tsx" == ".test.tsx";
    } else {
      LengthsDiffer(name + ".types.ts", "index.tsx");
      LengthsDiffer(name + ".test.tsx", "index.tsx");
    }
    LengthsDiffer(name + ".styles.ts", "index.tsx");
    LengthsDiffer(name + ".stories.tsx", "index.tsx");
  }

  /** The five file names that carry the component's name. */
  function OwnNames(name: string): (r: seq<string>)
    ensures |r| == 5
    ensures forall i :: 0 <= i < 5 ==> |r[i]| > |name|
  {
    [name + ".tsx", name + ".types.ts", name + ".styles.ts", name + ".stories.tsx", name + ".test.tsx"]
  }

  /** The component's own five names never clash. */
  lemma OwnNamesDiffer(name: string)
    ensures Distinct(OwnNames(name))
  {
    LengthsDiffer(name + ".tsx", name + ".types.ts");
    LengthsDiffer(name + ".tsx", name + ".styles.ts");
    LengthsDiffer(name + ".tsx", name + ".stories.tsx");
    LengthsDiffer(name + ".tsx", name + ".test.tsx");
    LengthsDiffer(name + ".types.ts", name + ".styles.ts");
    LengthsDiffer(name + ".types.ts", name + ".stories.tsx");
    SuffixesDiffer(name, ".types.ts", ".test.tsx", 2);
    LengthsDiffer(name + ".styles.ts", name + ".stories.tsx");
    LengthsDiffer(name + ".styles.ts", name + ".test.tsx");
    LengthsDiffer(name + ".stories.tsx", name + ".test.tsx");
  }

  lemma DistinctCons(x: string, s: seq<string>)
    ensures Distinct([x] + s) <==> x !in s && Distinct(s)
  {
    var t := [x] + s;
    assert forall i :: 0 <= i < |s| ==> t[i + 1] == s[i];
    if x in s {
      var j :| 0 <= j < |s| && s[j] == x;
      assert t[0] == t[j + 1];
    }
  }

  /** The six file names are pairwise distinct exactly when the component is
      not called `index`. */
  lemma NamesDistinctUnlessIndex(name: string)
    ensures Distinct(NamesFor(Order, name)) <==> name != "index"
  {
    PlannedNamesSplit(name);
    OwnNamesDiffer(name);
    IndexAmongOwnNames(name);
    DistinctCons("index.tsx", OwnNames(name));
  }

  lemma PlannedNamesSplit(name: string)
    ensures NamesFor(Order, name) == ["index.tsx"] + OwnNames(name)
  {
    PlannedNames(name);
  }

  /** Only the component file can be called `index.tsx`, and only when the
      component is called `index`. */
  lemma IndexAmongOwnNames(name: string)
    ensures "index.tsx" in OwnNames(name) <==> name == "index"
    ensures "index.tsx" !in OwnNames(name)[1..]
  {
    IndexNameClash(name);
    var own := OwnNames(name);
    assert own[1..] == [name + ".types.ts", name + ".styles.ts", name + ".stories.tsx", name + ".test.tsx"];
  }

  /** Paths in one directory are distinct when the file names are. */
  lemma PathsDiffer(dir: string, a: string, b: string)
    requires a != b
    ensures Path(dir, a) != Path(dir, b)
  {
    assert (dir + "/" + a)[|dir| + 1..] == a;
    assert (dir + "/" + b)[|dir| + 1..] == b;
  }

  // ---------------------------------------------------------------------------
  // Carrying out a plan

  /** A file-system entry. */
  datatype Entry = Directory | File(content: string)

  /** The file system: the entry at each existing path. */
  type Disk = map<string, Entry>

  /** `fs.appendFile`: the text goes at the end of the file, which is created if
      missing. Appending to a directory fails and leaves it as it is. */
  function AppendFile(disk: Disk, path: string, text: string): (r: Disk)
    ensures path in r && r.Keys == disk.Keys + {path}
    ensures path !in disk ==> r[path] == File(text)
    ensures path in disk && disk[path].File? ==> r[path] == File(disk[path].content + text)
    ensures forall p :: p in disk && p != path ==> r[p] == disk[p]
  {
    if path in disk && disk[path].Directory? then disk
    else if path in disk then disk[path := File(disk[path].content + text)]
    else disk[path := File(text)]
  }

  /** The paths of a list of files in a directory. */
  function PathsOf(dir: string, files: seq<NewFile>): (r: set<string>)
    ensures forall i :: 0 <= i < |files| ==> Path(dir, files[i].fileName) in r
    ensures forall p :: p in r ==> exists i :: 0 <= i < |files| && p == Path(dir, files[i].fileName)
    decreases |files|
  {
    if files == [] then {}
    else
      var rest := PathsOf(dir, files[1..]);
      assert forall i :: 1 <= i < |files| ==> files[1..][i - 1] == files[i];
      {Path(dir, files[0].fileName)} + rest
  }

  /** The `createFileWithBoilerplate` calls, taken in the order they are made. */
  function AppendAll(disk: Disk, dir: string, files: seq<NewFile>): (r: Disk)
    ensures r.Keys == disk.Keys + PathsOf(dir, files)
    decreases |files|
  {
    if files == [] then disk
    else AppendAll(AppendFile(disk, Path(dir, files[0].fileName), files[0].content), dir, files[1..])
  }

  /** `fs.mkdirSync` followed by the six appends. */
  function Apply(disk: Disk, c: Creation): (r: Disk)
    ensures c.dir in r
    ensures r.Keys == disk.Keys + {c.dir} + PathsOf(c.dir, c.files)
  {
    AppendAll(disk[c.dir := Directory], c.dir, c.files)
  }

  /** Running a plan and then planning again does nothing: the directory now exists. */
  lemma PlanAgainAfterApply(disk: Disk, name: string, boilerplate: Kind -> string)
    requires Dir(name) !in disk
    ensures Plan(Apply(disk, Plan(disk.Keys, name, boilerplate).value).Keys, name, boilerplate) == None
  {}

  /** With distinct names in a directory where none of them exists, every file
      ends up holding exactly its own text and nothing else changes. */
  lemma {:induction false} AppendAllWrites(disk: Disk, dir: string, files: seq<NewFile>)
    requires Distinct(NamesOf(files))
    requires forall f :: f in files ==> Path(dir, f.fileName) !in disk
    ensures forall i :: 0 <= i < |files| ==> AppendAll(disk, dir, files)[Path(dir, files[i].fileName)] == File(files[i].content)
    ensures forall p :: p in disk ==> AppendAll(disk, dir, files)[p] == disk[p]
    decreases |files|
  {
    if files != [] {
      var next := AppendFile(disk, Path(dir, files[0].fileName), files[0].content);
      var rest := files[1..];
      RestStaysFresh(disk, dir, files);
      AppendAllWrites(next, dir, rest);
      forall i | 0 <= i < |files|
        ensures AppendAll(disk, dir, files)[Path(dir, files[i].fileName)] == File(files[i].content)
      {
        if i > 0 {
          assert rest[i - 1] == files[i];
        }
      }
    }
  }

  /** After the first append, the remaining files still have distinct fresh names. */
  lemma RestStaysFresh(disk: Disk, dir: string, files: seq<NewFile>)
    requires files != []
    requires Distinct(NamesOf(files))
    requires forall f :: f in files ==> Path(dir, f.fileName) !in disk
    ensures Distinct(NamesOf(files[1..]))
    ensures forall f :: f in files[1..] ==> Path(dir, f.fileName) !in AppendFile(disk, Path(dir, files[0].fileName), files[0].content)
  {
    NamesOfDrop(files, 1);
    DistinctDrop(NamesOf(files), 1);
    RestFresh(disk, dir, files);
  }

  lemma DistinctDrop(s: seq<string>, n: nat)
    requires n <= |s| && Distinct(s)
    ensures Distinct(s[n..])
  {
    var t := s[n..];
    forall i, j | 0 <= i < j < |t|
      ensures t[i] != t[j]
    {
      assert t[i] == s[n + i] && t[j] == s[n + j];
    }
  }

  lemma RestFresh(disk: Disk, dir: string, files: seq<NewFile>)
    requires files != []
    requires Distinct(NamesOf(files))
    requires forall f :: f in files ==> Path(dir, f.fileName) !in disk
    ensures forall f :: f in files[1..] ==> Path(dir, f.fileName) !in AppendFile(disk, Path(dir, files[0].fileName), files[0].content)
  {
    var next := AppendFile(disk, Path(dir, files[0].fileName), files[0].content);
    forall f | f in files[1..]
      ensures Path(dir, f.fileName) !in next
    {
      var j :| 1 <= j < |files| && files[j] == f;
      assert NamesOf(files)[0] != NamesOf(files)[j];
      PathsDiffer(dir, files[0].fileName, f.fileName);
    }
  }

  /** Making a fresh directory and writing files with distinct fresh names into it. */
  lemma ApplyWrites(disk: Disk, c: Creation)
    requires c.dir !in disk
    requires Distinct(NamesOf(c.files))
    requires forall f :: f in c.files ==> Path(c.dir, f.fileName) !in disk
    ensures Apply(disk, c)[c.dir] == Directory
    ensures forall i :: 0 <= i < |c.files| ==> Apply(disk, c)[Path(c.dir, c.files[i].fileName)] == File(c.files[i].content)
    ensures forall p :: p in disk ==> Apply(disk, c)[p] == disk[p]
  {
    var made := disk[c.dir := Directory];
    forall f | f in c.files
      ensures Path(c.dir, f.fileName) !in made
    {
      assert |Path(c.dir, f.fileName)| > |c.dir|;
    }
    AppendAllWrites(made, c.dir, c.files);
  }

  /** What a plan leaves on disk when `./N` is missing and `N` is not `index`:
      the new directory, each of the six files holding its boilerplate, and
      every other entry as it was. */
  lemma ApplyWritesFiles(disk: Disk, name: string, boilerplate: Kind -> string)
    requires Dir(name) !in disk
    requires name != "index"
    requires forall k :: Path(Dir(name), FileName(k, name)) !in disk
    ensures var after := Apply(disk, Plan(disk.Keys, name, boilerplate).value);
      && after[Dir(name)] == Directory
      && (forall k :: Path(Dir(name), FileName(k, name)) in after && after[Path(Dir(name), FileName(k, name))] == File(boilerplate(k)))
      && (forall p :: p in disk ==> after[p] == disk[p])
  {
    var c := Plan(disk.Keys, name, boilerplate).value;
    PlanFilesFresh(disk, name, boilerplate);
    ApplyWrites(disk, c);
    forall k
      ensures Path(Dir(name), FileName(k, name)) in Apply(disk, c)
      ensures Apply(disk, c)[Path(Dir(name), FileName(k, name))] == File(boilerplate(k))
    {
      ApplyWritesKind(disk, name, boilerplate, k);
    }
  }

  lemma ApplyWritesKind(disk: Disk, name: string, boilerplate: Kind -> string, k: Kind)
    requires Dir(name) !in disk
    requires name != "index"
    requires forall k :: Path(Dir(name), FileName(k, name)) !in disk
    ensures Path(Dir(name), FileName(k, name)) in Apply(disk, Plan(disk.Keys, name, boilerplate).value)
    ensures Apply(disk, Plan(disk.Keys, name, boilerplate).value)[Path(Dir(name), FileName(k, name))] == File(boilerplate(k))
  {
    var c := Plan(disk.Keys, name, boilerplate).value;
    PlanFilesFresh(disk, name, boilerplate);
    ApplyWrites(disk, c);
    assert c.files[Position(k)] == NewFile(FileName(k, name), boilerplate(k));
  }

  /** The planned files have distinct names and none of their paths exists yet. */
  lemma PlanFilesFresh(disk: Disk, name: string, boilerplate: Kind -> string)
    requires Dir(name) !in disk
    requires name != "index"
    requires forall k :: Path(Dir(name), FileName(k, name)) !in disk
    ensures var c := Plan(disk.Keys, name, boilerplate).value;
      && Distinct(NamesOf(c.files))
      && forall f :: f in c.files ==> Path(c.dir, f.fileName) !in disk
  {
    PlanFileOrder(disk.Keys, name, boilerplate);
    NamesDistinctUnlessIndex(name);
    PlanFilesAbsent(disk, name, boilerplate);
  }

  /** None of the planned paths exists yet, and none is the new directory. */
  lemma PlanFilesAbsent(disk: Disk, name: string, boilerplate: Kind -> string)
    requires Dir(name) !in disk
    requires forall k :: Path(Dir(name), FileName(k, name)) !in disk
    ensures var c := Plan(disk.Keys, name, boilerplate).value;
      forall f :: f in c.files ==> Path(c.dir, f.fileName) !in disk[c.dir := Directory]
  {
    var c := Plan(disk.Keys, name, boilerplate).value;
    forall f | f in c.files
      ensures Path(c.dir, f.fileName) !in disk[c.dir := Directory]
    {
      var i :| 0 <= i < |c.files| && c.files[i] == f;
      assert f.fileName == FileName(Order[i], name);
      assert |Path(c.dir, f.fileName)| > |c.dir|;
    }
  }

  /** A component called `index` gets both the index and the component
      boilerplate appended to one file, `./index/index.tsx`. */
  lemma IndexComponentShareAFile(disk: Disk, boilerplate: Kind -> string)
    requires Dir("index") !in disk
    requires forall k :: Path(Dir("index"), FileName(k, "index")) !in disk
    ensures var after := Apply(disk, Plan(disk.Keys, "index", boilerplate).value);
      after[Path(Dir("index"), "index.tsx")] == File(boilerplate(Index) + boilerplate(Component))
  {
    IndexNameClash("index");
    SharedFile(disk, "index", boilerplate);
  }

  /** When the component file is also called `index.tsx`, the first two appends
      land in one file, which ends up holding both texts. */
  lemma SharedFile(disk: Disk, name: string, boilerplate: Kind -> string)
    requires name + ".tsx" == "index.tsx"
    requires Dir(name) !in disk
    requires forall k :: Path(Dir(name), FileName(k, name)) !in disk
    ensures var after := Apply(disk, Plan(disk.Keys, name, boilerplate).value);
      after[Path(Dir(name), "index.tsx")] == File(boilerplate(Index) + boilerplate(Component))
  {
    var c := Plan(disk.Keys, name, boilerplate).value;
    PlanFilesAbsent(disk, name, boilerplate);
    SharedFileNames(name, boilerplate);
    AppendTwiceThenOthers(disk[c.dir := Directory], c.dir, c.files);
  }

  /** The first two planned files are both `index.tsx`; the other four have
      distinct names, none of them `index.tsx`. */
  lemma SharedFileNames(name: string, boilerplate: Kind -> string)
    requires name + ".tsx" == "index.tsx"
    ensures var files := FilesFor(Order, name, boilerplate);
      && files[0] == NewFile("index.tsx", boilerplate(Index))
      && files[1] == NewFile("index.tsx", boilerplate(Component))
      && Distinct(NamesOf(files[2..]))
      && forall f :: f in files[2..] ==> f.fileName != "index.tsx"
  {
    var others := FilesFor(Order, name, boilerplate)[2..];
    OtherNames(name, boilerplate);
    OwnNamesDiffer(name);
    DistinctDrop(OwnNames(name), 1);
    IndexAmongOwnNames(name);
    forall f | f in others
      ensures f.fileName != "index.tsx"
    {
      var j :| 0 <= j < |others| && others[j] == f;
      assert f.fileName == NamesOf(others)[j];
    }
  }

  /** The names of the files after the first two. */
  lemma OtherNames(name: string, boilerplate: Kind -> string)
    ensures NamesOf(FilesFor(Order, name, boilerplate)[2..]) == OwnNames(name)[1..]
  {
    var files := FilesFor(Order, name, boilerplate);
    NamesOfFiles(Order, name, boilerplate);
    NamesOfDrop(files, 2);
    PlannedNames(name);
  }

  lemma {:induction false} NamesOfFiles(kinds: seq<Kind>, name: string, boilerplate: Kind -> string)
    ensures NamesOf(FilesFor(kinds, name, boilerplate)) == NamesFor(kinds, name)
  {
    var files := FilesFor(kinds, name, boilerplate);
    var a, b := NamesOf(files), NamesFor(kinds, name);
    forall i | 0 <= i < |kinds|
      ensures a[i] == b[i]
    {
      assert a[i] == files[i].fileName;
    }
  }

  lemma {:induction false} NamesOfDrop(files: seq<NewFile>, n: nat)
    requires n <= |files|
    ensures NamesOf(files[n..]) == NamesOf(files)[n..]
  {
    var a, b := NamesOf(files[n..]), NamesOf(files)[n..];
    forall i | 0 <= i < |a|
      ensures a[i] == b[i]
    {
      assert files[n..][i] == files[n + i];
    }
  }

  /** Two appends to one fresh path, followed by files with other distinct fresh
      names: the path holds both texts, in order. */
  lemma AppendTwiceThenOthers(made: Disk, dir: string, files: seq<NewFile>)
    requires |files| >= 2 && files[0].fileName == files[1].fileName
    requires forall f :: f in files ==> Path(dir, f.fileName) !in made
    requires Distinct(NamesOf(files[2..]))
    requires forall f :: f in files[2..] ==> f.fileName != files[0].fileName
    ensures AppendAll(made, dir, files)[Path(dir, files[0].fileName)] == File(files[0].content + files[1].content)
  {
    var path := Path(dir, files[0].fileName);
    var two := AppendFile(AppendFile(made, path, files[0].content), path, files[1].content);
    AppendAllTwoSteps(made, dir, files);
    OthersFresh(made, dir, files);
    AppendAllWrites(two, dir, files[2..]);
  }

  lemma AppendAllTwoSteps(made: Disk, dir: string, files: seq<NewFile>)
    requires |files| >= 2
    ensures AppendAll(made, dir, files) ==
      AppendAll(AppendFile(AppendFile(made, Path(dir, files[0].fileName), files[0].content), Path(dir, files[1].fileName), files[1].content), dir, files[2..])
  {
    assert files[1..][0] == files[1];
    assert files[1..][1..] == files[2..];
  }

  lemma OthersFresh(made: Disk, dir: string, files: seq<NewFile>)
    requires |files| >= 2 && files[0].fileName == files[1].fileName
    requires forall f :: f in files ==> Path(dir, f.fileName) !in made
    requires forall f :: f in files[2..] ==> f.fileName != files[0].fileName
    ensures var path := Path(dir, files[0].fileName);
      forall f :: f in files[2..] ==> Path(dir, f.fileName) !in AppendFile(AppendFile(made, path, files[0].content), path, files[1].content)
  {
    var path := Path(dir, files[0].fileName);
    forall f | f in files[2..]
      ensures Path(dir, f.fileName) !in AppendFile(AppendFile(made, path, files[0].content), path, files[1].content)
    {
      assert f in files;
      PathsDiffer(dir, files[0].fileName, f.fileName);
    }
  }
}
