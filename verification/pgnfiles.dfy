/**
 * Choosing the input files: `is_pgn_file` and the filter-and-sort part of
 * `collect_pgn_files`.
 *
 * Paths are Unix paths held as text. A path's extension is taken the way
 * Rust's `Path::extension` takes it: from the last component, when that is
 * a plain name, after its last dot, unless that dot is the name's first
 * character. Paths are sorted the way Rust orders `PathBuf`s: component by
 * component, names by their characters.
 */
module PgnFiles {
  import opened Wrappers
  import opened Text

  // ---------------------------------------------------------------------
  // Components, file name and extension
  // ---------------------------------------------------------------------

  /** A path component, in the order Rust's `Component` derives. */
  datatype Component = RootDir | CurDir | ParentDir | Normal(name: string)

  /** The components the pieces between separators give: empty pieces and
      `.` are dropped, `..` is the parent. */
  function PieceComponents(ps: seq<string>): (cs: seq<Component>)
    ensures |cs| <= |ps|
    ensures forall c :: c in cs ==> c.Normal? || c == ParentDir
    ensures forall c :: c in cs && c.Normal? ==> c.name != "" && c.name != "." && c.name != ".."
  {
    if ps == [] then [] else PieceComponent(ps[0]) + PieceComponents(ps[1..])
  }

  /** The component one piece gives, if any. */
  function PieceComponent(p: string): (cs: seq<Component>)
    ensures |cs| <= 1
    ensures forall c :: c in cs ==> c.Normal? || c == ParentDir
    ensures forall c :: c in cs && c.Normal? ==> c.name != "" && c.name != "." && c.name != ".."
  {
    if p == "" || p == "." then [] else if p == ".." then [ParentDir] else [Normal(p)]
  }

  /** A leading separator is the root; otherwise a leading `.` piece is kept
      as the current directory. */
  function Lead(path: string): seq<Component> {
    if |path| > 0 && path[0] == '/' then [RootDir]
    else if Pieces(path, IsSlash)[0] == "." then [CurDir]
    else []
  }

  /** Rust's `Path::components` on a Unix path: the root or current
      directory can only come first, the root exactly for an absolute path,
      and every name is a real name. */
  function Components(path: string): (cs: seq<Component>)
    ensures forall k :: 0 <= k < |cs| && (cs[k] == RootDir || cs[k] == CurDir) ==> k == 0
    ensures (|cs| > 0 && cs[0] == RootDir) <==> (|path| > 0 && path[0] == '/')
    ensures forall k :: 0 <= k < |cs| && cs[k].Normal? ==>
              cs[k].name != "" && cs[k].name != "." && cs[k].name != ".."
  {
    var lead := Lead(path);
    var rest := PieceComponents(Pieces(path, IsSlash));
    AfterLead(lead, rest);
    lead + rest
  }

  lemma AfterLead(lead: seq<Component>, rest: seq<Component>)
    ensures forall k :: |lead| <= k < |lead + rest| ==> (lead + rest)[k] in rest
  {
    forall k | |lead| <= k < |lead + rest|
      ensures (lead + rest)[k] in rest
    {
      assert (lead + rest)[k] == rest[k - |lead|];
    }
  }

  /** Rust's `Path::file_name`: the last component, when it is a name. */
  function FileName(path: string): (r: Option<string>)
    ensures r.Some? ==> r.value != "" && r.value != "." && r.value != ".."
  {
    var cs := Components(path);
    if cs != [] && cs[|cs| - 1].Normal? then
      assert cs[|cs| - 1] in PieceComponents(Pieces(path, IsSlash));
      Some(cs[|cs| - 1].name)
    else None
  }

  /** The position of the last dot in `name`, if there is one. */
  function LastDot(name: string): (r: Option<nat>)
    ensures r.Some? ==> r.value < |name| && name[r.value] == '.'
    ensures r.Some? ==> forall j :: r.value < j < |name| ==> name[j] != '.'
    ensures r.None? ==> forall j :: 0 <= j < |name| ==> name[j] != '.'
  {
    if name == [] then None
    else if name[|name| - 1] == '.' then Some(|name| - 1)
    else LastDot(name[..|name| - 1])
  }

  /** The extension of a file name: what follows its last dot, except when
      that dot is the first character (a hidden file has no extension). */
  function NameExtension(name: string): (r: Option<string>)
    ensures r.Some? ==> |r.value| + 1 < |name| && EndsWith(name, "." + r.value)
    ensures r.Some? ==> forall j :: 0 <= j < |r.value| ==> r.value[j] != '.'
    ensures r.None? <==> forall j :: 0 < j < |name| ==> name[j] != '.'
  {
    match LastDot(name)
    case None => None
    case Some(k) =>
      if k == 0 then None
      else
        assert name[|name| - |name[k + 1..]| - 1..] == "." + name[k + 1..];
        Some(name[k + 1..])
  }

  /** Rust's `Path::extension`: the text after the last dot of the file
      name, when that dot is not the name's first character. */
  function Extension(path: string): (r: Option<string>)
    ensures r.Some? ==> FileName(path).Some? && |r.value| + 1 < |FileName(path).value|
                        && EndsWith(FileName(path).value, "." + r.value)
    ensures r.Some? ==> forall j :: 0 <= j < |r.value| ==> r.value[j] != '.'
    ensures r.None? <==> FileName(path).None? || forall j :: 0 < j < |FileName(path).value| ==> FileName(path).value[j] != '.'
  {
    match FileName(path)
    case None => None
    case Some(name) => NameExtension(name)
  }

  /**
   * `is_pgn_file`: the extension, lower-cased, is `pgn`; or there is some
   * extension and the whole path ends with `.pgn.gz`, in exactly that case.
   * A path without an extension is never taken.
   */
  predicate IsPgnFile(path: string)
    ensures IsPgnFile(path) ==> FileName(path).Some? && Extension(path).Some?
    ensures IsPgnFile(path) && !EndsWith(path, ".pgn.gz") ==> EndsWith(ToAsciiLower(FileName(path).value), ".pgn")
  {
    match Extension(path)
    case None => false
    case Some(ext) =>
      if ToAsciiLower(ext) == "pgn" then
        LowerNameEndsWith(FileName(path).value, ext);
        true
      else EndsWith(path, ".pgn.gz")
  }

  /** A name ending in a dot and an extension that lower-cases to `pgn`
      lower-cases to a name ending in `.pgn`. */
  lemma LowerNameEndsWith(name: string, ext: string)
    requires EndsWith(name, "." + ext) && ToAsciiLower(ext) == "pgn"
    ensures EndsWith(ToAsciiLower(name), ".pgn")
  {
    var l := ToAsciiLower(name);
    var n := |name|;
    assert |ext| == 3;
    assert name[n - 4..] == "." + ext;
    assert name[n - 4] == '.';
    forall k | 0 <= k < 3
      ensures l[n - 3 + k] == "pgn"[k]
    {
      assert name[n - 3 + k] == ext[k];
    }
    assert l[n - 4..] == ".pgn";
  }

  // ---------------------------------------------------------------------
  // Properties of the extension
  // ---------------------------------------------------------------------

  lemma {:induction false} PieceComponentsAppend(a: seq<string>, b: seq<string>)
    ensures PieceComponents(a + b) == PieceComponents(a) + PieceComponents(b)
  {
    if a != [] {
      assert (a + b)[0] == a[0];
      assert (a + b)[1..] == a[1..] + b;
      PieceComponentsAppend(a[1..], b);
      assert PieceComponents(a + b) == PieceComponent(a[0]) + PieceComponents(a[1..] + b);
    } else {
      assert a + b == b;
    }
  }

  /** The file name of a path that ends in a separator and a plain name is
      that name. */
  lemma FileNameOfJoin(dir: string, name: string)
    requires NoneOf(name, IsSlash) && name != "" && name != "." && name != ".."
    ensures FileName(dir + "/" + name) == Some(name)
  {
    var path := dir + "/" + name;
    assert path == dir + ['/'] + name;
    PiecesAtSeparator(dir, '/', name, IsSlash);
    PiecesOfPlain(name, IsSlash);
    PieceComponentsAppend(Pieces(dir, IsSlash), [name]);
    assert PieceComponents([name]) == [Normal(name)];
    var cs := Components(path);
    assert cs == Lead(path) + PieceComponents(Pieces(dir, IsSlash)) + [Normal(name)];
  }

  /** A name with a non-empty stem, a dot and a dot-free tail has that tail
      as its extension. */
  lemma StemExtension(stem: string, ext: string)
    requires stem != [] && forall j :: 0 <= j < |ext| ==> ext[j] != '.'
    ensures NameExtension(stem + "." + ext) == Some(ext)
  {
    var name := stem + "." + ext;
    var k := |stem|;
    assert name[k] == '.';
    assert forall j :: k < j < |name| ==> name[j] == ext[j - k - 1];
    var d := LastDot(name);
    assert d.Some? && d.value == k;
    assert name[k + 1..] == ext;
  }

  /** The extension of `dir/stem.ext` is `ext`. */
  lemma ExtensionOfName(dir: string, stem: string, ext: string)
    requires stem != [] && ext != [] && NoneOf(stem, IsSlash) && NoneOf(ext, IsSlash)
    requires forall j :: 0 <= j < |ext| ==> ext[j] != '.'
    ensures Extension(dir + "/" + stem + "." + ext) == Some(ext)
  {
    var name := stem + "." + ext;
    NoneOfConcat(stem, ".", IsSlash);
    NoneOfConcat(stem + ".", ext, IsSlash);
    assert |name| >= 3;
    FileNameOfJoin(dir, name);
    assert dir + "/" + stem + "." + ext == dir + "/" + name;
    StemExtension(stem, ext);
  }

  /**
   * A file `stem.ext` in directory `dir` is taken exactly when `ext`
   * lower-cases to `pgn` or the path ends with `.pgn.gz`.
   */
  lemma PgnFileOfName(dir: string, stem: string, ext: string)
    requires stem != [] && ext != [] && NoneOf(stem, IsSlash) && NoneOf(ext, IsSlash)
    requires forall j :: 0 <= j < |ext| ==> ext[j] != '.'
    ensures IsPgnFile(dir + "/" + stem + "." + ext)
            <==> ToAsciiLower(ext) == "pgn" || EndsWith(dir + "/" + stem + "." + ext, ".pgn.gz")
  {
    ExtensionOfName(dir, stem, ext);
  }

  /** `dir/base.PGN` is taken: the extension is compared lower-cased. */
  lemma UpperCasePgnIsTaken(dir: string, base: string)
    requires base != [] && NoneOf(base, IsSlash)
    ensures IsPgnFile(dir + "/" + base + ".PGN")
  {
    PgnFileOfName(dir, base, "PGN");
    assert dir + "/" + base + "." + "PGN" == dir + "/" + base + ".PGN";
    assert ToAsciiLower("PGN") == "pgn";
  }

  /** `dir/base.pgn.gz` is taken through the suffix test. */
  lemma GzippedPgnIsTaken(dir: string, base: string)
    requires base != [] && NoneOf(base, IsSlash)
    ensures IsPgnFile(dir + "/" + base + ".pgn.gz")
  {
    var path := dir + "/" + base + ".pgn.gz";
    NoneOfConcat(base, ".pgn", IsSlash);
    PgnFileOfName(dir, base + ".pgn", "gz");
    assert dir + "/" + (base + ".pgn") + "." + "gz" == path;
    assert path[|path| - 7..] == ".pgn.gz";
  }

  /** `dir/base.PGN.GZ` is not: the suffix test is case-sensitive. */
  lemma UpperCaseGzippedPgnIsNotTaken(dir: string, base: string)
    requires base != [] && NoneOf(base, IsSlash)
    ensures !IsPgnFile(dir + "/" + base + ".PGN.GZ")
  {
    var path := dir + "/" + base + ".PGN.GZ";
    NoneOfConcat(base, ".PGN", IsSlash);
    PgnFileOfName(dir, base + ".PGN", "GZ");
    assert dir + "/" + (base + ".PGN") + "." + "GZ" == path;
    assert path[|path| - 7..] == ".PGN.GZ";
    assert ToAsciiLower("GZ")[0] == 'g';
  }

  /** `dir/base.gz` is not, unless `base` itself ends with `.pgn`. */
  lemma OtherGzipIsNotTaken(dir: string, base: string)
    requires base != [] && NoneOf(base, IsSlash) && !EndsWith(base, ".pgn")
    ensures !IsPgnFile(dir + "/" + base + ".gz")
  {
    var path := dir + "/" + base + ".gz";
    PgnFileOfName(dir, base, "gz");
    assert dir + "/" + base + "." + "gz" == path;
    if EndsWith(path, ".pgn.gz") {
      PgnBeforeGz(dir, base);
    }
  }

  /** A path `dir/base.gz` ends with `.pgn.gz` only when `base` ends with
      `.pgn`. */
  lemma PgnBeforeGz(dir: string, base: string)
    requires NoneOf(base, IsSlash) && EndsWith(dir + "/" + base + ".gz", ".pgn.gz")
    ensures EndsWith(base, ".pgn")
  {
    var path := dir + "/" + base + ".gz";
    var n := |path|;
    assert path[n - 7..n - 3] == ".pgn";
    assert forall k :: n - 7 <= k < n - 3 ==> path[k] != '/';
    assert path[|dir|] == '/';
    assert |dir| < n - 7;
    assert base[|base| - 4..] == path[n - 7..n - 3];
  }

  /** `dir/.pgn` is not: a name whose only dot leads has no extension. */
  lemma HiddenPgnIsNotTaken(dir: string)
    ensures !IsPgnFile(dir + "/.pgn")
  {
    FileNameOfJoin(dir, ".pgn");
    assert dir + "/" + ".pgn" == dir + "/.pgn";
    var d := LastDot(".pgn");
    assert ".pgn"[0] == '.';
    assert d.Some?;
    assert ".pgn"[1] != '.' && ".pgn"[2] != '.' && ".pgn"[3] != '.';
    assert d.value == 0;
  }

  /** A name without a dot has no extension and is not taken. */
  lemma DotlessIsNotTaken(dir: string, name: string)
    requires name != [] && name != ".." && NoneOf(name, IsSlash)
    requires forall j :: 0 <= j < |name| ==> name[j] != '.'
    ensures !IsPgnFile(dir + "/" + name)
  {
    assert name[0] != '.';
    FileNameOfJoin(dir, name);
  }

  // ---------------------------------------------------------------------
  // Path order
  // ---------------------------------------------------------------------

  /** Characters compared one by one, a proper prefix first: -1, 0 or 1. */
  function CompareNames(a: string, b: string): (r: int)
    ensures -1 <= r <= 1
    ensures r == 0 <==> a == b
  {
    if a == [] && b == [] then 0
    else if a == [] then -1
    else if b == [] then 1
    else if a[0] < b[0] then -1
    else if a[0] > b[0] then 1
    else
      var r := CompareNames(a[1..], b[1..]);
      assert r == 0 ==> a == [a[0]] + a[1..] == [b[0]] + b[1..] == b;
      r
  }

  function Rank(c: Component): int {
    match c
    case RootDir => 0
    case CurDir => 1
    case ParentDir => 2
    case Normal(_) => 3
  }

  function CompareComponent(x: Component, y: Component): (r: int)
    ensures -1 <= r <= 1
    ensures r == 0 <==> x == y
  {
    if Rank(x) < Rank(y) then -1
    else if Rank(x) > Rank(y) then 1
    else if x.Normal? then CompareNames(x.name, y.name)
    else 0
  }

  /** Components compared one by one, a proper prefix first. */
  function CompareComponents(a: seq<Component>, b: seq<Component>): (r: int)
    ensures -1 <= r <= 1
    ensures r == 0 <==> a == b
  {
    if a == [] && b == [] then 0
    else if a == [] then -1
    else if b == [] then 1
    else
      var c := CompareComponent(a[0], b[0]);
      if c != 0 then c
      else
        var r := CompareComponents(a[1..], b[1..]);
        assert r == 0 ==> a == [a[0]] + a[1..] == [b[0]] + b[1..] == b;
        r
  }

  /** Rust's order on paths. */
  function ComparePaths(a: string, b: string): int {
    CompareComponents(Components(a), Components(b))
  }

  predicate PathLe(a: string, b: string) {
    ComparePaths(a, b) <= 0
  }

  lemma {:induction false} CompareNamesFlips(a: string, b: string)
    ensures CompareNames(a, b) == -CompareNames(b, a)
  {
    if a != [] && b != [] && a[0] == b[0] {
      CompareNamesFlips(a[1..], b[1..]);
    }
  }

  lemma {:induction false} CompareNamesChains(a: string, b: string, c: string)
    requires CompareNames(a, b) <= 0 && CompareNames(b, c) <= 0
    ensures CompareNames(a, c) <= 0
  {
    if a != [] && b != [] && c != [] && a[0] == b[0] == c[0] {
      CompareNamesChains(a[1..], b[1..], c[1..]);
    }
  }

  lemma CompareComponentFlips(x: Component, y: Component)
    ensures CompareComponent(x, y) == -CompareComponent(y, x)
  {
    if x.Normal? && y.Normal? {
      CompareNamesFlips(x.name, y.name);
    }
  }

  lemma CompareComponentChains(x: Component, y: Component, z: Component)
    requires CompareComponent(x, y) <= 0 && CompareComponent(y, z) <= 0
    ensures CompareComponent(x, z) <= 0
  {
    if x.Normal? && y.Normal? && z.Normal? {
      CompareNamesChains(x.name, y.name, z.name);
    }
  }

  lemma {:induction false} CompareComponentsFlips(a: seq<Component>, b: seq<Component>)
    ensures CompareComponents(a, b) == -CompareComponents(b, a)
  {
    if a != [] && b != [] {
      CompareComponentFlips(a[0], b[0]);
      CompareComponentsFlips(a[1..], b[1..]);
    }
  }

  lemma {:induction false} CompareComponentsChains(a: seq<Component>, b: seq<Component>, c: seq<Component>)
    requires CompareComponents(a, b) <= 0 && CompareComponents(b, c) <= 0
    ensures CompareComponents(a, c) <= 0
  {
    if a != [] && b != [] && c != [] {
      CompareComponentChains(a[0], b[0], c[0]);
      if CompareComponent(a[0], b[0]) == 0 && CompareComponent(b[0], c[0]) == 0 {
        CompareComponentsChains(a[1..], b[1..], c[1..]);
      } else if CompareComponent(a[0], c[0]) == 0 {
        assert a[0] == c[0];
        CompareComponentFlips(a[0], b[0]);
      }
    }
  }

  /** The path order is total ... */
  lemma PathLeTotal(a: string, b: string)
    ensures PathLe(a, b) || PathLe(b, a)
  {
    CompareComponentsFlips(Components(a), Components(b));
  }

  /** ... and transitive. */
  lemma PathLeChains(a: string, b: string, c: string)
    requires PathLe(a, b) && PathLe(b, c)
    ensures PathLe(a, c)
  {
    CompareComponentsChains(Components(a), Components(b), Components(c));
  }

  // ---------------------------------------------------------------------
  // Collecting the files
  // ---------------------------------------------------------------------

  /** An entry of the directory walk: a path and whether it is a regular
      file. A walk error is `None`. */
  datatype WalkEntry = WalkEntry(path: string, isFile: bool)

  /** Each path is not after the next. */
  predicate Sorted(s: seq<string>) {
    forall i :: 0 < i < |s| ==> PathLe(s[i - 1], s[i])
  }

  /** In a sorted sequence no path is after a later one. */
  lemma {:induction false} SortedPairwise(s: seq<string>, i: nat, j: nat)
    requires Sorted(s) && i <= j < |s|
    ensures PathLe(s[i], s[j])
    decreases j - i
  {
    if i == j {
      PathLeTotal(s[i], s[i]);
    } else {
      SortedPairwise(s, i + 1, j);
      PathLeChains(s[i], s[i + 1], s[j]);
    }
  }

  /** The paths of the regular PGN files the walk found, in walk order. */
  function Selected(walk: seq<Option<WalkEntry>>): (r: seq<string>)
    ensures forall p :: p in r ==> IsPgnFile(p)
  {
    if walk == [] then []
    else
      (if walk[0].Some? && walk[0].value.isFile && IsPgnFile(walk[0].value.path) then [walk[0].value.path] else [])
      + Selected(walk[1..])
  }

  /** `x` placed after every element that is not after it. */
  function Insert(x: string, s: seq<string>): (r: seq<string>)
    requires Sorted(s)
    ensures Sorted(r)
    ensures multiset(r) == multiset(s) + multiset{x}
    ensures |r| == |s| + 1 && (r[0] == x || (s != [] && r[0] == s[0]))
  {
    if s == [] then [x]
    else if ComparePaths(x, s[0]) < 0 then
      SortedCons(x, s);
      [x] + s
    else
      PathLeTotal(x, s[0]);
      SortedTail(s);
      var t := Insert(x, s[1..]);
      assert s == [s[0]] + s[1..];
      SortedCons(s[0], t);
      [s[0]] + t
  }

  lemma SortedCons(x: string, t: seq<string>)
    requires Sorted(t) && (t == [] || PathLe(x, t[0]))
    ensures Sorted([x] + t)
  {
    forall i | 0 < i < |[x] + t|
      ensures PathLe(([x] + t)[i - 1], ([x] + t)[i])
    {
      if i > 1 {
        assert ([x] + t)[i - 1] == t[i - 2] && ([x] + t)[i] == t[i - 1];
      }
    }
  }

  lemma SortedTail(s: seq<string>)
    requires Sorted(s) && s != []
    ensures Sorted(s[1..])
  {
    forall i | 0 < i < |s[1..]|
      ensures PathLe(s[1..][i - 1], s[1..][i])
    {
      assert s[1..][i - 1] == s[i] && s[1..][i] == s[i + 1];
    }
  }

  /** Rust's stable `sort` on paths. */
  function Sort(s: seq<string>): (r: seq<string>)
    ensures Sorted(r)
    ensures multiset(r) == multiset(s)
  {
    if s == [] then []
    else
      assert s == s[..|s| - 1] + [s[|s| - 1]];
      Insert(s[|s| - 1], Sort(s[..|s| - 1]))
  }

  /**
   * `collect_pgn_files`: the regular files of the walk that pass
   * `IsPgnFile`, each as often as the walk gave it, sorted by path.
   */
  function CollectPgnFiles(walk: seq<Option<WalkEntry>>): (files: seq<string>)
    ensures Sorted(files)
    ensures multiset(files) == multiset(Selected(walk))
  {
    Sort(Selected(walk))
  }

  /** A path is collected exactly when the walk gave it as a regular file
      and it is a PGN file. */
  lemma {:induction false} CollectedAreWalkedPgnFiles(walk: seq<Option<WalkEntry>>, p: string)
    ensures p in CollectPgnFiles(walk) <==> IsPgnFile(p) && Some(WalkEntry(p, true)) in walk
  {
    assert p in CollectPgnFiles(walk) <==> p in multiset(Selected(walk));
    SelectedAreWalkedPgnFiles(walk, p);
  }

  lemma {:induction false} SelectedAreWalkedPgnFiles(walk: seq<Option<WalkEntry>>, p: string)
    ensures p in Selected(walk) <==> IsPgnFile(p) && Some(WalkEntry(p, true)) in walk
  {
    if walk != [] {
      SelectedAreWalkedPgnFiles(walk[1..], p);
      assert walk == [walk[0]] + walk[1..];
    }
  }
}
