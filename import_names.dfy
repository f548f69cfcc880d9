/**
 * The pure string logic of the filesystem importer
 * (lib/sass/importers/filesystem.rb): stripping the importer's root,
 * escaping glob metacharacters, splitting a name into directory, basename
 * and known extension, the ordered list of candidate files, the first
 * candidate that exists, and the cache key of a name.
 *
 * Paths use '/' as the only separator and contain no newline.
 */
module ImportNames {
  import opened Wrappers

  /** The two syntaxes a source file can be written in (`:sass` and `:scss`). */
  datatype Syntax = Sass | Scss

  /** A file that resolution found, with the syntax of its extension. */
  datatype Resolved = Resolved(path: string, syntax: Syntax)

  /** A candidate file name with the syntax that file would be parsed in. */
  datatype Candidate = Candidate(file: string, syntax: Syntax)

  /** A name cut into directory, basename and recognised extension (`nil` when none). */
  datatype SplitName = SplitName(dir: string, base: string, ext: Option<string>)

  /** `EXTENSIONS`: the file extensions recognised, with their syntaxes. */
  const Extensions: map<string, Syntax> := map["sass" := Sass, "scss" := Scss]

  /** `exts.sort`: the pairs of `Extensions` in ascending order of extension. */
  const SortedExtensions: seq<(string, Syntax)> := [("sass", Sass), ("scss", Scss)]

  /** `self.class.name`, the first part of every cache key. */
  const ImporterClassName: string := "Sass::Importers::Filesystem"

  predicate EndsWith(s: string, suffix: string)
  {
    |suffix| <= |s| && s[|s| - |suffix|..] == suffix
  }

  /** Lexicographic order on strings, the order of Ruby's `sort`. */
  predicate LexLess(a: string, b: string)
  {
    b != [] && (a == [] || a[0] < b[0] || (a[0] == b[0] && LexLess(a[1..], b[1..])))
  }

  lemma SortedExtensionsEnumerateExtensions()
    ensures forall k :: 0 <= k < |SortedExtensions| ==>
      SortedExtensions[k].0 in Extensions && Extensions[SortedExtensions[k].0] == SortedExtensions[k].1
    ensures forall e :: e in Extensions ==> exists k :: 0 <= k < |SortedExtensions| && SortedExtensions[k].0 == e
    ensures |SortedExtensions| == |Extensions|
    ensures LexLess(SortedExtensions[0].0, SortedExtensions[1].0)
  {
    assert SortedExtensions[0].0 == "sass";
    assert SortedExtensions[1].0 == "scss";
    assert "sass"[1..] == "ass" && "scss"[1..] == "css";
    assert Extensions.Keys == {"sass", "scss"};
  }

  // ---------------------------------------------------------------------
  // remove_root

  /** Strips `root + "/"` from the front of `name`; any other name is kept as it is. */
  function RemoveRoot(root: string, name: string): (r: string)
    ensures root + "/" <= name ==> root + "/" + r == name
    ensures !(root + "/" <= name) ==> r == name
  {
    if root + "/" <= name then name[|root| + 1..] else name
  }

  /** Importing by `root/s` and by `s` name the same file once the root is removed. */
  lemma RemoveRootOfJoined(root: string, s: string)
    ensures RemoveRoot(root, root + "/" + s) == s
  {
    var p := root + "/";
    assert p <= p + s;
    assert (p + s)[|p|..] == s;
  }

  // ---------------------------------------------------------------------
  // escape_glob_characters

  /** The characters `* [ ] { } ?` that a glob would expand. */
  predicate IsGlob(c: char)
  {
    c == '*' || c == '[' || c == ']' || c == '{' || c == '}' || c == '?'
  }

  /** The number of glob characters in `s`. */
  function GlobCount(s: string): nat
  {
    if s == [] then 0 else (if IsGlob(s[0]) then 1 else 0) + GlobCount(s[1..])
  }

  /** Puts a backslash in front of every glob character of `s`. */
  function EscapeGlobCharacters(s: string): (r: string)
    ensures |r| == |s| + GlobCount(s)
    ensures r == [] <==> s == []
    ensures s != [] && !IsGlob(s[0]) ==> r[0] == s[0]
    ensures s != [] && IsGlob(s[0]) ==> r[0] == '\\'
  {
    if s == [] then []
    else if IsGlob(s[0]) then ['\\', s[0]] + EscapeGlobCharacters(s[1..])
    else [s[0]] + EscapeGlobCharacters(s[1..])
  }

  /** Every glob character of `r` stands right after a backslash. */
  predicate GlobsEscaped(r: string)
  {
    forall i :: 0 <= i < |r| && IsGlob(r[i]) ==> 0 < i && r[i - 1] == '\\'
  }

  /** An escaped name holds no bare glob character. */
  lemma {:induction false} EscapedGlobsArePreceded(s: string)
    ensures GlobsEscaped(EscapeGlobCharacters(s))
  {
    if s != [] {
      EscapedGlobsArePreceded(s[1..]);
      var rest := EscapeGlobCharacters(s[1..]);
      var r := EscapeGlobCharacters(s);
      var h := if IsGlob(s[0]) then ['\\', s[0]] else [s[0]];
      assert r == h + rest;
      assert rest != [] ==> !IsGlob(rest[0]);
      forall i | 0 <= i < |r| && IsGlob(r[i])
        ensures 0 < i && r[i - 1] == '\\'
      {
        if i < |h| {
          assert r[i] == h[i] && IsGlob(h[i]);
          assert i == 1 && r[0] == h[0];
        } else {
          var j := i - |h|;
          assert r[i] == rest[j] && IsGlob(rest[j]);
          assert 0 < j && rest[j - 1] == '\\';
          assert r[i - 1] == rest[j - 1];
        }
      }
    }
  }

  /** The inverse of the escaping: drops a backslash that stands in front of a glob character. */
  function UnescapeGlobCharacters(s: string): string
  {
    if s == [] then []
    else if |s| >= 2 && s[0] == '\\' && IsGlob(s[1]) then [s[1]] + UnescapeGlobCharacters(s[2..])
    else [s[0]] + UnescapeGlobCharacters(s[1..])
  }

  /** Escaping loses nothing: every character of the name is kept, in order. */
  lemma {:induction false} EscapeRoundTrip(s: string)
    ensures UnescapeGlobCharacters(EscapeGlobCharacters(s)) == s
  {
    if s != [] {
      var rest := EscapeGlobCharacters(s[1..]);
      EscapeRoundTrip(s[1..]);
      if IsGlob(s[0]) {
        assert EscapeGlobCharacters(s) == ['\\', s[0]] + rest;
        assert (['\\', s[0]] + rest)[2..] == rest;
      } else {
        assert EscapeGlobCharacters(s) == [s[0]] + rest;
        assert ([s[0]] + rest)[1..] == rest;
        if s[0] == '\\' && rest != [] {
          // the escaped rest never starts with a bare glob character
          assert !IsGlob(rest[0]);
        }
      }
    }
  }

  /** A name without glob characters is left as it is. */
  lemma {:induction false} EscapeWithoutGlobs(s: string)
    requires forall i :: 0 <= i < |s| ==> !IsGlob(s[i])
    ensures EscapeGlobCharacters(s) == s
  {
    if s != [] {
      EscapeWithoutGlobs(s[1..]);
    }
  }

  // ---------------------------------------------------------------------
  // split (File.dirname, File.basename and the extension pattern)

  /** The index of the last '/' of `s`, if any. */
  function LastSlash(s: string): (r: Option<nat>)
    ensures r.Some? ==> r.value < |s| && s[r.value] == '/'
    ensures r.Some? ==> forall j :: r.value < j < |s| ==> s[j] != '/'
    ensures r.None? ==> forall j :: 0 <= j < |s| ==> s[j] != '/'
  {
    if s == [] then None
    else if s[|s| - 1] == '/' then Some(|s| - 1)
    else LastSlash(s[..|s| - 1])
  }

  /** `File.dirname`: everything before the last '/', "/" for a top-level name, "." without a '/'. */
  function DirName(s: string): string
  {
    match LastSlash(s)
    case None => "."
    case Some(i) => if i == 0 then "/" else s[..i]
  }

  /** `File.basename`: everything after the last '/'. */
  function BaseName(s: string): string
  {
    match LastSlash(s)
    case None => s
    case Some(i) => s[i + 1..]
  }

  /** Directory and basename put back together give the name again. */
  lemma DirNameBaseName(s: string)
    ensures LastSlash(s).None? ==> DirName(s) == "." && BaseName(s) == s
    ensures LastSlash(s).Some? && LastSlash(s).value > 0 ==> DirName(s) + "/" + BaseName(s) == s
    ensures forall j :: 0 <= j < |BaseName(s)| ==> BaseName(s)[j] != '/'
  {
    match LastSlash(s)
    case None =>
    case Some(i) =>
      if i > 0 {
        assert s == s[..i] + "/" + s[i + 1..];
      }
  }

  /** A name whose only `/` leads it lies in the directory `/`, and `/` and its basename give it back. */
  lemma RootedDirNameBaseName(s: string)
    requires LastSlash(s) == Some(0)
    ensures DirName(s) == "/" && "/" + BaseName(s) == s
  {
  }

  /**
   * `split`: the directory and basename of `name`, and the extension when the
   * basename matches `^(.*)\.(sass|scss)$`; the extension is then cut off the basename.
   */
  function Split(name: string): (r: SplitName)
    ensures r.dir == DirName(name)
    ensures r.ext.Some? ==> r.ext.value in Extensions && r.base + "." + r.ext.value == BaseName(name)
    ensures r.ext.None? ==> r.base == BaseName(name)
    ensures r.ext.None? ==> !EndsWith(BaseName(name), ".sass") && !EndsWith(BaseName(name), ".scss")
  {
    var base := BaseName(name);
    if EndsWith(base, ".sass") then
      assert base == base[..|base| - 5] + "." + "sass";
      SplitName(DirName(name), base[..|base| - 5], Some("sass"))
    else if EndsWith(base, ".scss") then
      assert base == base[..|base| - 5] + "." + "scss";
      SplitName(DirName(name), base[..|base| - 5], Some("scss"))
    else
      SplitName(DirName(name), base, None)
  }

  // ---------------------------------------------------------------------
  // each_possible_file

  /** The plain and the `_`-partial file for one basename and extension, in that order. */
  function PlainAndPartial(dir: string, base: string, ext: string, syntax: Syntax): seq<Candidate>
  {
    [Candidate(dir + "/" + base + "." + ext, syntax), Candidate(dir + "/_" + base + "." + ext, syntax)]
  }

  /** The candidates of every extension in `exts`, in the order of `exts`. */
  function CandidatesFor(dir: string, base: string, exts: seq<(string, Syntax)>): seq<Candidate>
  {
    if exts == [] then []
    else PlainAndPartial(dir, base, exts[0].0, exts[0].1) + CandidatesFor(dir, base, exts[1..])
  }

  /**
   * `each_possible_file`: the files an imported name may stand for, in the order
   * they are tried, after escaping glob characters in the name.
   */
  function PossibleFiles(name: string): seq<Candidate>
  {
    var s := Split(EscapeGlobCharacters(name));
    match s.ext
    case Some(e) => PlainAndPartial(s.dir, s.base, e, Extensions[e])
    case None => CandidatesFor(s.dir, s.base, SortedExtensions)
  }

  /** With a recognised extension there are exactly two candidates, plain then partial, in that syntax. */
  lemma KnownExtensionCandidates(name: string)
    requires Split(EscapeGlobCharacters(name)).ext.Some?
    ensures var s := Split(EscapeGlobCharacters(name));
            var e := s.ext.value;
            PossibleFiles(name) == [
              Candidate(s.dir + "/" + s.base + "." + e, Extensions[e]),
              Candidate(s.dir + "/_" + s.base + "." + e, Extensions[e])]
  {
  }

  /** Both supported extensions, `.sass` first, each plain before partial. */
  lemma SortedCandidates(dir: string, base: string)
    ensures CandidatesFor(dir, base, SortedExtensions) ==
            PlainAndPartial(dir, base, "sass", Sass) + PlainAndPartial(dir, base, "scss", Scss)
  {
    var rest := SortedExtensions[1..];
    assert rest == [("scss", Scss)] && rest[1..] == [];
    assert CandidatesFor(dir, base, rest) == PlainAndPartial(dir, base, "scss", Scss) + [];
  }

  /** Appending the dot and an extension in two steps or in one gives the same name. */
  lemma DotExtension(p: string)
    ensures p + "." + "sass" == p + ".sass" && p + "." + "scss" == p + ".scss"
  {
    assert "." + "sass" == ".sass" && "." + "scss" == ".scss";
  }

  /** The four candidates of one directory and basename, spelled out. */
  lemma SortedCandidatesSpelled(dir: string, base: string)
    ensures CandidatesFor(dir, base, SortedExtensions) == [
              Candidate(dir + "/" + base + ".sass", Sass),
              Candidate(dir + "/_" + base + ".sass", Sass),
              Candidate(dir + "/" + base + ".scss", Scss),
              Candidate(dir + "/_" + base + ".scss", Scss)]
  {
    SortedCandidates(dir, base);
    DotExtension(dir + "/" + base);
    DotExtension(dir + "/_" + base);
  }

  /**
   * Without a recognised extension there are exactly four candidates: `.sass`
   * before `.scss`, and for each the plain file before the partial.
   */
  lemma UnknownExtensionCandidates(name: string)
    requires Split(EscapeGlobCharacters(name)).ext.None?
    ensures var s := Split(EscapeGlobCharacters(name));
            PossibleFiles(name) == [
              Candidate(s.dir + "/" + s.base + ".sass", Sass),
              Candidate(s.dir + "/_" + s.base + ".sass", Sass),
              Candidate(s.dir + "/" + s.base + ".scss", Scss),
              Candidate(s.dir + "/_" + s.base + ".scss", Scss)]
  {
    var s := Split(EscapeGlobCharacters(name));
    SortedCandidatesSpelled(s.dir, s.base);
  }


  /** A candidate whose file ends in the extension of its own syntax. */
  predicate CarriesOwnSyntax(c: Candidate)
  {
    (c.syntax == Sass && EndsWith(c.file, ".sass")) || (c.syntax == Scss && EndsWith(c.file, ".scss"))
  }

  lemma PlainAndPartialCarryOwnSyntax(dir: string, base: string, e: string)
    requires e in Extensions
    ensures forall c :: c in PlainAndPartial(dir, base, e, Extensions[e]) ==> CarriesOwnSyntax(c)
  {
    var p1 := dir + "/" + base;
    var p2 := dir + "/_" + base;
    assert (p1 + "." + e)[|p1 + "." + e| - 5..] == "." + e;
    assert (p2 + "." + e)[|p2 + "." + e| - 5..] == "." + e;
  }

  /** Every candidate carries the syntax of its own extension. */
  lemma CandidateSyntaxMatchesExtension(name: string)
    ensures forall c :: c in PossibleFiles(name) ==> CarriesOwnSyntax(c)
  {
    var s := Split(EscapeGlobCharacters(name));
    if s.ext.Some? {
      PlainAndPartialCarryOwnSyntax(s.dir, s.base, s.ext.value);
    } else {
      SortedCandidates(s.dir, s.base);
      PlainAndPartialCarryOwnSyntax(s.dir, s.base, "sass");
      PlainAndPartialCarryOwnSyntax(s.dir, s.base, "scss");
    }
  }

  /** Importing by the absolute name `root/s` and by the relative name `s` tries the same files. */
  lemma AbsoluteAndRelativeNamesShareCandidates(root: string, s: string)
    requires !(root + "/" <= s)
    ensures PossibleFiles(RemoveRoot(root, root + "/" + s)) == PossibleFiles(RemoveRoot(root, s))
  {
    RemoveRootOfJoined(root, s);
  }

  // ---------------------------------------------------------------------
  // _find_real_file, as functions of the set of existing files

  /** The path probed for candidate file `f` under `dir`: `f` itself when `dir` is ".". */
  function ProbePath(dir: string, f: string): string
  {
    if dir == "." then f else dir + "/" + f
  }

  /** The index of the first candidate whose path exists, or `|cands|` when none does. */
  function FirstHit(dir: string, cands: seq<Candidate>, files: set<string>): (k: nat)
    ensures k <= |cands|
    ensures forall j :: 0 <= j < k ==> ProbePath(dir, cands[j].file) !in files
    ensures k < |cands| ==> ProbePath(dir, cands[k].file) in files
  {
    if cands == [] then 0
    else if ProbePath(dir, cands[0].file) in files then 0
    else 1 + FirstHit(dir, cands[1..], files)
  }

  /** `path.gsub!("/./", "/")`: one left-to-right pass replacing each `/./` with `/`. */
  function CollapseRedundant(s: string): (r: string)
    ensures |r| <= |s|
  {
    if |s| >= 3 && s[..3] == "/./" then "/" + CollapseRedundant(s[3..])
    else if s == [] then []
    else [s[0]] + CollapseRedundant(s[1..])
  }

  /** `s` holds the segment `/./` at position `i`. */
  predicate RedundantAt(s: string, i: int)
  {
    0 <= i && i + 3 <= |s| && s[i..i + 3] == "/./"
  }

  /** A path without `/./` is returned unchanged. */
  lemma {:induction false} CollapseWithoutRedundantDirectory(s: string)
    requires forall i :: !RedundantAt(s, i)
    ensures CollapseRedundant(s) == s
  {
    if s != [] {
      if |s| >= 3 {
        assert !RedundantAt(s, 0);
        assert s[0..3] == s[..3];
      }
      forall i
        ensures !RedundantAt(s[1..], i)
      {
        if 0 <= i && i + 3 <= |s[1..]| {
          assert !RedundantAt(s, i + 1);
          assert s[1..][i..i + 3] == s[i + 1..i + 4];
        }
      }
      CollapseWithoutRedundantDirectory(s[1..]);
    }
  }

  /**
   * One step of the scan: a `/./` at the front becomes `/` and the scan goes on
   * after it; otherwise the first character is kept and the scan goes on from
   * the next one.
   */
  lemma CollapseScanStep(s: string)
    ensures RedundantAt(s, 0) ==> CollapseRedundant(s) == "/" + CollapseRedundant(s[3..])
    ensures !RedundantAt(s, 0) && s != [] ==> CollapseRedundant(s) == [s[0]] + CollapseRedundant(s[1..])
  {
    if |s| >= 3 {
      assert s[0..3] == s[..3];
    }
  }

  /** The replacement is a single pass: in `a/././b` the second `/./` overlaps the first and is kept. */
  lemma CollapseIsOnePass()
    ensures CollapseRedundant("a/././b") == "a/./b"
  {
    assert "a/././b"[1..][..3] == "/./";
    assert "a/././b"[1..][3..] == "./b";
    assert "./b"[1..] == "/b";
    assert "/b"[1..] == "b";
  }

  /** The file a candidate list resolves to: the first existing one, with `/./` collapsed. */
  function FirstExisting(dir: string, cands: seq<Candidate>, files: set<string>): Option<Resolved>
  {
    var k := FirstHit(dir, cands, files);
    if k < |cands| then Some(Resolved(CollapseRedundant(ProbePath(dir, cands[k].file)), cands[k].syntax))
    else None
  }

  /** The probed paths of the candidates in `cands`, in order. */
  function ProbePaths(dir: string, cands: seq<Candidate>): (r: seq<string>)
    ensures |r| == |cands|
    ensures forall j :: 0 <= j < |cands| ==> r[j] == ProbePath(dir, cands[j].file)
  {
    if cands == [] then [] else [ProbePath(dir, cands[0].file)] + ProbePaths(dir, cands[1..])
  }

  /** The paths probed for existence: every candidate up to and including the first hit. */
  function ProbesMade(dir: string, cands: seq<Candidate>, files: set<string>): seq<string>
  {
    var k := FirstHit(dir, cands, files);
    ProbePaths(dir, cands[..if k < |cands| then k + 1 else k])
  }

  /** `_find_real_file(dir, name)` of an importer with root `root`, given the existing files. */
  function Resolve(root: string, dir: string, name: string, files: set<string>): Option<Resolved>
  {
    FirstExisting(dir, PossibleFiles(RemoveRoot(root, name)), files)
  }

  /** The files probed by `_find_real_file(dir, name)`, in order. */
  function Probes(root: string, dir: string, name: string, files: set<string>): seq<string>
  {
    ProbesMade(dir, PossibleFiles(RemoveRoot(root, name)), files)
  }

  /** The first candidate, in candidate order, that exists is the one returned. */
  lemma FirstExistingIsFirst(dir: string, cands: seq<Candidate>, files: set<string>, k: nat)
    requires k < |cands| && ProbePath(dir, cands[k].file) in files
    requires forall j :: 0 <= j < k ==> ProbePath(dir, cands[j].file) !in files
    ensures FirstExisting(dir, cands, files) ==
            Some(Resolved(CollapseRedundant(ProbePath(dir, cands[k].file)), cands[k].syntax))
  {
  }

  /** Resolution fails exactly when no candidate exists. */
  lemma FirstExistingNoneIff(dir: string, cands: seq<Candidate>, files: set<string>)
    ensures FirstExisting(dir, cands, files).None? <==>
            forall j :: 0 <= j < |cands| ==> ProbePath(dir, cands[j].file) !in files
  {
  }

  /** The probes stop at the first existing file: only the last probe can hit. */
  lemma ProbesStopAtFirstHit(dir: string, cands: seq<Candidate>, files: set<string>)
    ensures var p := ProbesMade(dir, cands, files);
            |p| <= |cands| &&
            (forall j :: 0 <= j < |p| - 1 ==> p[j] !in files) &&
            (FirstExisting(dir, cands, files).Some? <==> p != [] && p[|p| - 1] in files)
  {
    var k := FirstHit(dir, cands, files);
    var p := ProbesMade(dir, cands, files);
    if k < |cands| {
      assert p[k] == ProbePath(dir, cands[k].file);
    } else if p != [] {
      assert p[|p| - 1] == ProbePath(dir, cands[|p| - 1].file);
    }
  }

  /** A name holding a glob character escapes to a name holding a backslash. */
  lemma {:induction false} EscapedGlobLeavesBackslash(s: string, i: nat)
    requires i < |s| && IsGlob(s[i])
    ensures '\\' in EscapeGlobCharacters(s)
  {
    if !IsGlob(s[0]) {
      EscapedGlobLeavesBackslash(s[1..], i - 1);
      assert EscapeGlobCharacters(s) == [s[0]] + EscapeGlobCharacters(s[1..]);
    }
  }

  /** A backslash of a name is in its directory or its basename. */
  lemma BackslashInDirOrBase(e: string)
    requires '\\' in e
    ensures '\\' in DirName(e) || '\\' in BaseName(e)
  {
    DirNameBaseName(e);
    match LastSlash(e)
    case None =>
    case Some(i) =>
      if i == 0 {
        assert e == [e[0]] + BaseName(e);
      }
  }

  /** A backslash in the directory or basename shows up in both candidate files. */
  lemma BackslashInPlainAndPartial(dir: string, base: string, ext: string, syntax: Syntax)
    requires '\\' in dir || '\\' in base
    ensures forall c :: c in PlainAndPartial(dir, base, ext, syntax) ==> '\\' in c.file
  {
  }

  /** A backslash of a basename with a known extension lies in the stem, not in the extension. */
  lemma BackslashInStem(stem: string, ext: string, base: string)
    requires ext in Extensions && base == stem + "." + ext && '\\' in base
    ensures '\\' in stem
  {
    assert base == stem + ("." + ext);
    assert Extensions.Keys == {"sass", "scss"};
    assert '\\' !in ".sass" && '\\' !in ".scss";
  }

  /** When the escaped name holds a backslash, so does every candidate file. */
  lemma BackslashInEveryCandidate(name: string)
    requires '\\' in EscapeGlobCharacters(name)
    ensures forall c :: c in PossibleFiles(name) ==> '\\' in c.file
  {
    var e := EscapeGlobCharacters(name);
    var s := Split(e);
    BackslashInDirOrBase(e);
    if s.ext.Some? {
      if '\\' in BaseName(e) {
        BackslashInStem(s.base, s.ext.value, BaseName(e));
      }
      BackslashInPlainAndPartial(s.dir, s.base, s.ext.value, Extensions[s.ext.value]);
    } else {
      SortedCandidates(s.dir, s.base);
      BackslashInPlainAndPartial(s.dir, s.base, "sass", Sass);
      BackslashInPlainAndPartial(s.dir, s.base, "scss", Scss);
    }
  }

  /**
   * Glob characters are escaped but the probe is a plain existence test: a
   * name holding `*`, `?`, `[`, `]`, `{` or `}` resolves to nothing when no
   * existing path holds a backslash, so a file whose name really holds a glob
   * character is not found under that name. Every candidate is probed.
   */
  lemma GlobNamesAreNotMatchedLiterally(root: string, dir: string, name: string, files: set<string>, i: nat)
    requires i < |RemoveRoot(root, name)| && IsGlob(RemoveRoot(root, name)[i])
    requires forall f :: f in files ==> '\\' !in f
    ensures Resolve(root, dir, name, files) == None
    ensures Probes(root, dir, name, files) == ProbePaths(dir, PossibleFiles(RemoveRoot(root, name)))
  {
    var n := RemoveRoot(root, name);
    var cands := PossibleFiles(n);
    EscapedGlobLeavesBackslash(n, i);
    BackslashInEveryCandidate(n);
    forall j | 0 <= j < |cands|
      ensures ProbePath(dir, cands[j].file) !in files
    {
      assert cands[j] in cands;
      assert '\\' in ProbePath(dir, cands[j].file);
    }
    FirstExistingNoneIff(dir, cands, files);
    assert cands[..|cands|] == cands;
  }

  // ---------------------------------------------------------------------
  // key

  /** `key(name)`: the importer class and the expanded directory of the name, and its basename. */
  function Key(name: string, expand: string -> string): (string, string)
  {
    (ImporterClassName + ":" + DirName(expand(name)), BaseName(name))
  }

  /** Two names share a cache key exactly when their expanded directories and basenames agree. */
  lemma KeyScopesByDirectory(a: string, b: string, expand: string -> string)
    ensures Key(a, expand) == Key(b, expand) <==>
            DirName(expand(a)) == DirName(expand(b)) && BaseName(a) == BaseName(b)
  {
    var p := ImporterClassName + ":";
    if Key(a, expand) == Key(b, expand) {
      assert (p + DirName(expand(a)))[|p|..] == DirName(expand(a));
      assert (p + DirName(expand(b)))[|p|..] == DirName(expand(b));
    }
  }
}
