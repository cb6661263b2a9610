/** The write phase of generate.py (lines 36-45) as a pure plan: the ordered
    list of files the script opens for writing, each paired with a descriptor
    of what is rendered into it.  Template rendering stays abstract: a line
    page is described by the line it shows, the index page by the whole
    registry it lists. */
module Plan {
  import opened Slug
  import opened Registry

  datatype Option<T> = None | Some(value: T)

  /** What a written file holds: `line_template.render(line=line)` or
      `index_template.render(lines=lines_dict)`. */
  datatype Payload = LinePage(line: string) | IndexPage(entries: OrderedMap<string, string>)

  /** One `open(path, 'w')` followed by writing the rendered payload. */
  datatype Write = Write(path: string, payload: Payload)

  const OutputDir: string := "output/"
  const Suffix: string := ".html"

  /** The path of the index page, written literally in the source. */
  const IndexPath: string := "output/index.html"

  /** `'output/{}.html'.format(stem)`: the stem between the directory
      prefix and the suffix. */
  function PagePath(stem: string): (p: string)
    ensures |p| == |OutputDir| + |stem| + |Suffix|
    ensures p[..|OutputDir|] == OutputDir
    ensures p[|OutputDir|..|p| - |Suffix|] == stem
    ensures p[|p| - |Suffix|..] == Suffix
  {
    OutputDir + stem + Suffix
  }

  /** Recovers the stem of a page path, if the path has the page shape. */
  function StemOf(path: string): Option<string>
  {
    if |OutputDir| + |Suffix| <= |path|
       && path[..|OutputDir|] == OutputDir
       && path[|path| - |Suffix|..] == Suffix
    then Some(path[|OutputDir|..|path| - |Suffix|])
    else None
  }

  /** Page paths and stems determine each other: `StemOf` undoes `PagePath`,
      and every path with a stem is the page path of that stem. */
  lemma StemOfPagePath(stem: string, path: string)
    ensures StemOf(PagePath(stem)) == Some(stem)
    ensures StemOf(path) == Some(stem) ==> path == PagePath(stem)
  {
    if StemOf(path) == Some(stem) {
      assert path == path[..|OutputDir|] + path[|OutputDir|..|path| - |Suffix|] + path[|path| - |Suffix|..];
    }
  }

  /** Distinct stems give distinct files. */
  lemma PagePathInjective(a: string, b: string)
    ensures PagePath(a) == PagePath(b) <==> a == b
  {
    StemOfPagePath(a, PagePath(a));
    StemOfPagePath(b, PagePath(b));
  }

  /** The index page sits where a line page with slug `index` would. */
  lemma IndexIsPagePath()
    ensures IndexPath == PagePath("index")
  {
  }

  /** One line page per key, in key order (generate.py lines 38-40). */
  function LineWrites(keys: seq<string>, values: map<string, string>): (w: seq<Write>)
    requires forall k :: k in keys ==> k in values
    ensures |w| == |keys|
    ensures forall i :: 0 <= i < |keys| ==>
      w[i].path == PagePath(keys[i]) && w[i].payload == LinePage(values[keys[i]])
    decreases |keys|
  {
    if |keys| == 0 then []
    else
      var n := |keys| - 1;
      LineWrites(keys[..n], values) + [Write(PagePath(keys[n]), LinePage(values[keys[n]]))]
  }

  /** Everything the script writes, in order: the line pages in registry
      order, then the index page. */
  function WritePlan(d: OrderedMap<string, string>): (plan: seq<Write>)
    requires Valid(d)
    ensures |plan| == |d.keys| + 1
    ensures forall i :: 0 <= i < |d.keys| ==>
      StemOf(plan[i].path) == Some(d.keys[i]) && plan[i].payload == LinePage(d.values[d.keys[i]])
    ensures plan[|d.keys|] == Write(IndexPath, IndexPage(d))
  {
    var lines := LineWrites(d.keys, d.values);
    assert forall i :: 0 <= i < |d.keys| ==> StemOf(lines[i].path) == Some(d.keys[i]) by {
      forall i | 0 <= i < |d.keys|
        ensures StemOf(lines[i].path) == Some(d.keys[i])
      {
        StemOfPagePath(d.keys[i], lines[i].path);
      }
    }
    lines + [Write(IndexPath, IndexPage(d))]
  }

  /** A path that names a file directly inside `output/`. */
  predicate InOutputDir(path: string)
  {
    |OutputDir| < |path| && path[..|OutputDir|] == OutputDir
    && '/' !in path[|OutputDir|..] && '\\' !in path[|OutputDir|..]
  }

  /** A stem without a path separator names a page directly in `output/`. */
  lemma PagePathInOutputDir(stem: string)
    requires '/' !in stem && '\\' !in stem
    ensures InOutputDir(PagePath(stem))
  {
    var p := PagePath(stem);
    assert p[..|OutputDir|] == OutputDir;
    assert p[|OutputDir|..] == stem + Suffix;
  }

  /** A slug never holds a path separator: both `/` and `\` are in the
      deleted class. */
  lemma SlugHasNoSeparator(line: string)
    ensures '/' !in Slugify(line) && '\\' !in Slugify(line)
  {
    assert Removed('/') && Removed('\\');
  }

  /** The whole script on a list of lines: build the registry, then plan the
      writes.  There is at most one more file than there are lines, and the
      index page comes last. */
  function Generate(lines: seq<string>): (plan: seq<Write>)
    ensures 1 <= |plan| <= |lines| + 1
    ensures plan[|plan| - 1].path == IndexPath
  {
    AssignValid(Slugs(lines), lines);
    WritePlan(Build(lines))
  }

  lemma StemInOutputDir(path: string, stem: string)
    requires StemOf(path) == Some(stem)
    requires '/' !in stem && '\\' !in stem
    ensures InOutputDir(path)
  {
    StemOfPagePath(stem, path);
    PagePathInOutputDir(stem);
  }

  lemma IndexInOutputDir()
    ensures InOutputDir(IndexPath)
  {
    IndexIsPagePath();
    PagePathInOutputDir("index");
  }

  /** No key of a registry built from lines holds a path separator. */
  lemma BuildKeysHaveNoSeparator(lines: seq<string>)
    ensures forall k :: k in Build(lines).keys ==> '/' !in k && '\\' !in k
  {
    AssignValid(Slugs(lines), lines);
    forall k | k in Build(lines).keys
      ensures '/' !in k && '\\' !in k
    {
      var j :| 0 <= j < |lines| && Slugs(lines)[j] == k;
      SlugHasNoSeparator(lines[j]);
    }
  }

  /** When no key holds a path separator, every file of the plan lies
      directly inside `output/`. */
  lemma WritePlanInOutputDir(d: OrderedMap<string, string>)
    requires Valid(d)
    requires forall k :: k in d.keys ==> '/' !in k && '\\' !in k
    ensures forall i :: 0 <= i < |WritePlan(d)| ==> InOutputDir(WritePlan(d)[i].path)
  {
    var plan := WritePlan(d);
    forall i | 0 <= i < |plan|
      ensures InOutputDir(plan[i].path)
    {
      if i < |d.keys| {
        StemInOutputDir(plan[i].path, d.keys[i]);
      } else {
        IndexInOutputDir();
      }
    }
  }

  /** Whatever the lines say, every file the script writes lies directly
      inside `output/`. */
  lemma GenerateInOutputDir(lines: seq<string>)
    ensures forall i :: 0 <= i < |Generate(lines)| ==> InOutputDir(Generate(lines)[i].path)
  {
    AssignValid(Slugs(lines), lines);
    BuildKeysHaveNoSeparator(lines);
    WritePlanInOutputDir(Build(lines));
  }

  /** The files the writes leave when they run in order on an empty
      directory: `open(path, 'w')` truncates, so a later write to a path
      replaces an earlier one.  Exactly the written paths are present. */
  function Execute(plan: seq<Write>): (files: map<string, Payload>)
    ensures forall i :: 0 <= i < |plan| ==> plan[i].path in files
    ensures forall p :: p in files ==> exists i :: 0 <= i < |plan| && plan[i].path == p
    decreases |plan|
  {
    if |plan| == 0 then map[]
    else
      var n := |plan| - 1;
      var files := Execute(plan[..n])[plan[n].path := plan[n].payload];
      assert forall i :: 0 <= i < n ==> plan[..n][i] == plan[i];
      files
  }

  /** The directory after the writes run in order on a directory that
      already holds `before`: the script deletes nothing, so a file it does
      not write keeps its old content. */
  function ExecuteFrom(before: map<string, Payload>, plan: seq<Write>): map<string, Payload>
    decreases |plan|
  {
    if |plan| == 0 then before
    else
      var n := |plan| - 1;
      ExecuteFrom(before, plan[..n])[plan[n].path := plan[n].payload]
  }

  /** Running on an existing directory overlays the run's own files on the
      old ones. */
  lemma {:induction false} ExecuteFromOverlay(before: map<string, Payload>, plan: seq<Write>)
    ensures ExecuteFrom(before, plan) == before + Execute(plan)
    decreases |plan|
  {
    if |plan| > 0 {
      var n := |plan| - 1;
      ExecuteFromOverlay(before, plan[..n]);
      OverlayUpdate(before, Execute(plan[..n]), plan[n].path, plan[n].payload);
    }
  }

  /** Writing a file after the overlay is writing it into the overlay. */
  lemma OverlayUpdate<K, V>(a: map<K, V>, b: map<K, V>, k: K, v: V)
    ensures (a + b)[k := v] == a + b[k := v]
  {
  }

  /** A file the run does not write keeps its old content, and the run adds
      only the files it writes. */
  lemma StaleFilesSurvive(before: map<string, Payload>, plan: seq<Write>)
    ensures forall p :: p in before && p !in Execute(plan) ==>
      p in ExecuteFrom(before, plan) && ExecuteFrom(before, plan)[p] == before[p]
    ensures forall p :: p in ExecuteFrom(before, plan) <==> p in before || p in Execute(plan)
  {
    ExecuteFromOverlay(before, plan);
  }

  /** Running the same writes a second time leaves the directory as one run
      left it. */
  lemma RerunIdempotent(before: map<string, Payload>, plan: seq<Write>)
    ensures ExecuteFrom(ExecuteFrom(before, plan), plan) == ExecuteFrom(before, plan)
  {
    ExecuteFromOverlay(before, plan);
    ExecuteFromOverlay(before + Execute(plan), plan);
    assert before + Execute(plan) + Execute(plan) == before + Execute(plan);
  }

  /** Running the script twice on the same lines leaves `output/` as one
      run does, whatever it held before. */
  lemma GenerateIdempotent(before: map<string, Payload>, lines: seq<string>)
    ensures ExecuteFrom(ExecuteFrom(before, Generate(lines)), Generate(lines))
         == ExecuteFrom(before, Generate(lines))
  {
    RerunIdempotent(before, Generate(lines));
  }

  /** The path of every write, in plan order. */
  function Paths(plan: seq<Write>): (p: seq<string>)
    ensures |p| == |plan|
    ensures forall i :: 0 <= i < |plan| ==> p[i] == plan[i].path
  {
    seq(|plan|, i requires 0 <= i < |plan| => plan[i].path)
  }

  /** The payload of every write, in plan order. */
  function Payloads(plan: seq<Write>): (p: seq<Payload>)
    ensures |p| == |plan|
    ensures forall i :: 0 <= i < |plan| ==> p[i] == plan[i].payload
  {
    seq(|plan|, i requires 0 <= i < |plan| => plan[i].payload)
  }

  /** The output directory behaves like the registry itself: writing files in
      order is assigning payloads to paths. */
  lemma {:induction false} ExecuteIsAssign(plan: seq<Write>)
    ensures Execute(plan) == Assign(Paths(plan), Payloads(plan)).values
    decreases |plan|
  {
    if |plan| > 0 {
      var n := |plan| - 1;
      assert Paths(plan)[..n] == Paths(plan[..n]);
      assert Payloads(plan)[..n] == Payloads(plan[..n]);
      ExecuteIsAssign(plan[..n]);
    }
  }

  /** Of the files the run writes, a path is present exactly when some write
      names it, and it holds the payload of the last write that does. */
  lemma ExecuteLastWins(plan: seq<Write>)
    ensures forall p :: p in Execute(plan) <==> p in Paths(plan)
    ensures forall p :: p in Execute(plan) ==> Execute(plan)[p] == plan[LastIndex(Paths(plan), p)].payload
  {
    ExecuteIsAssign(plan);
    AssignLastWins(Paths(plan), Payloads(plan));
  }

  /** The line pages of a valid registry go to pairwise different paths. */
  lemma LinePathsDistinct(d: OrderedMap<string, string>)
    requires Valid(d)
    ensures Distinct(Paths(WritePlan(d))[..|d.keys|])
  {
    var plan := WritePlan(d);
    var s := Paths(plan)[..|d.keys|];
    forall i, j | 0 <= i < j < |s|
      ensures s[i] != s[j]
    {
      StemOfPagePath(d.keys[i], s[i]);
      StemOfPagePath(d.keys[j], s[j]);
    }
  }

  /** The plan writes no path twice exactly when no line has the slug
      `index`: such a line's page is overwritten by the index page. */
  lemma PlanPathsDistinct(d: OrderedMap<string, string>)
    requires Valid(d)
    ensures Distinct(Paths(WritePlan(d))) <==> "index" !in d.values
  {
    var plan := WritePlan(d);
    var n := |d.keys|;
    var s := Paths(plan);
    LinePathsDistinct(d);
    assert s == s[..n] + [IndexPath];
    DistinctSnoc(s[..n], IndexPath);
    IndexIsPagePath();
    if "index" in d.values {
      var i :| 0 <= i < n && d.keys[i] == "index";
      StemOfPagePath("index", s[i]);
    } else {
      forall i | 0 <= i < n
        ensures s[i] != IndexPath
      {
        StemOfPagePath(d.keys[i], s[i]);
        PagePathInjective(d.keys[i], "index");
      }
    }
  }

  /** The index page is written last, so the run leaves it in place. */
  lemma IndexWritten(d: OrderedMap<string, string>)
    requires Valid(d)
    ensures IndexPath in Execute(WritePlan(d))
    ensures Execute(WritePlan(d))[IndexPath] == IndexPage(d)
  {
    var plan := WritePlan(d);
    ExecuteLastWins(plan);
    assert Paths(plan)[|d.keys|] == IndexPath;
  }

  /** Every key other than `index` keeps its own page, holding its value. */
  lemma LinePagesWritten(d: OrderedMap<string, string>, k: string)
    requires Valid(d)
    requires k in d.values && k != "index"
    ensures PagePath(k) in Execute(WritePlan(d))
    ensures Execute(WritePlan(d))[PagePath(k)] == LinePage(d.values[k])
  {
    var plan := WritePlan(d);
    var s := Paths(plan);
    ExecuteLastWins(plan);
    var i :| 0 <= i < |d.keys| && d.keys[i] == k;
    StemOfPagePath(k, s[i]);
    IndexIsPagePath();
    PagePathInjective(k, "index");
    var j := LastIndex(s, PagePath(k));
    assert j < |d.keys|;
    StemOfPagePath(d.keys[j], s[j]);
    PagePathInjective(k, d.keys[j]);
  }

  /** Each write of the plan goes to the index or to the page of a key. */
  lemma PlannedPath(d: OrderedMap<string, string>, j: nat)
    requires Valid(d) && j < |WritePlan(d)|
    ensures WritePlan(d)[j].path == IndexPath
         || (StemOf(WritePlan(d)[j].path).Some? && StemOf(WritePlan(d)[j].path).value in d.values)
  {
    if j < |d.keys| {
      assert d.keys[j] in d.keys;
    }
  }

  /** The run writes nothing but the index and the pages of the keys. */
  lemma OnlyPlannedFiles(d: OrderedMap<string, string>)
    requires Valid(d)
    ensures forall p :: p in Execute(WritePlan(d)) ==>
      p == IndexPath || (StemOf(p).Some? && StemOf(p).value in d.values)
  {
    var plan := WritePlan(d);
    forall p | p in Execute(plan)
      ensures p == IndexPath || (StemOf(p).Some? && StemOf(p).value in d.values)
    {
      var j :| 0 <= j < |plan| && plan[j].path == p;
      PlannedPath(d, j);
    }
  }

  /** The files one run writes: the index page is always the registry
      listing; every slug other than `index` has its page, holding the line
      last registered under it; nothing else is written; and there is one
      file per slug plus the index, unless a slug is `index`. */
  lemma FilesWritten(d: OrderedMap<string, string>)
    requires Valid(d)
    ensures var files := Execute(WritePlan(d));
      && IndexPath in files && files[IndexPath] == IndexPage(d)
      && (forall k :: k in d.values && k != "index" ==>
            PagePath(k) in files && files[PagePath(k)] == LinePage(d.values[k]))
      && (forall p :: p in files ==> p == IndexPath || (StemOf(p).Some? && StemOf(p).value in d.values))
      && |files| == |d.keys| + (if "index" in d.values then 0 else 1)
  {
    IndexWritten(d);
    forall k | k in d.values && k != "index"
      ensures PagePath(k) in Execute(WritePlan(d))
      ensures Execute(WritePlan(d))[PagePath(k)] == LinePage(d.values[k])
    {
      LinePagesWritten(d, k);
    }
    OnlyPlannedFiles(d);
    FilesSize(d);
  }

  /** `output/` after a run over whatever it held before: the index page
      and the page of every slug other than `index` hold what this run
      wrote; besides them only the old files remain, unchanged. */
  lemma RunOverDirectory(before: map<string, Payload>, d: OrderedMap<string, string>)
    requires Valid(d)
    ensures var after := ExecuteFrom(before, WritePlan(d));
      && IndexPath in after && after[IndexPath] == IndexPage(d)
      && (forall k :: k in d.values && k != "index" ==>
            PagePath(k) in after && after[PagePath(k)] == LinePage(d.values[k]))
      && (forall p :: p in after ==>
            p in before || p == IndexPath || (StemOf(p).Some? && StemOf(p).value in d.values))
      && (forall p :: p in before && p != IndexPath && !(StemOf(p).Some? && StemOf(p).value in d.values) ==>
            p in after && after[p] == before[p])
  {
    var plan := WritePlan(d);
    ExecuteFromOverlay(before, plan);
    IndexWritten(d);
    forall k | k in d.values && k != "index"
      ensures PagePath(k) in Execute(plan) && Execute(plan)[PagePath(k)] == LinePage(d.values[k])
    {
      LinePagesWritten(d, k);
    }
    OnlyPlannedFiles(d);
  }

  /** The run writes one file per key, plus the index unless a key is
      `index`. */
  lemma FilesSize(d: OrderedMap<string, string>)
    requires Valid(d)
    ensures |Execute(WritePlan(d))| == |d.keys| + (if "index" in d.values then 0 else 1)
  {
    var plan := WritePlan(d);
    var s := Paths(plan);
    var v := Payloads(plan);
    var n := |d.keys|;
    ExecuteIsAssign(plan);
    AssignValid(s, v);
    ValidSize(Assign(s, v));
    PlanPathsDistinct(d);
    AssignDistinct(s, v);
    if "index" in d.values {
      LinePathsDistinct(d);
      AssignDistinct(s[..n], v[..n]);
      var i :| 0 <= i < n && d.keys[i] == "index";
      IndexIsPagePath();
      StemOfPagePath("index", s[i]);
      assert s[n] in s[..n];
    }
  }
}
