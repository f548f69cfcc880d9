/**
 * The stateful part of the filesystem importer
 * (lib/sass/importers/filesystem.rb): probing candidate files one by one,
 * memoising the outcome in the compile cache's `ImporterCache`, and writing
 * the outcome into the options hash.
 *
 * The filesystem is a `Disk`: the set of paths that are regular files, and a
 * log of every existence test (`File.file?`) made against it. Path expansion
 * (`File.expand_path`) is the function parameter `expand`.
 */
module Importers {
  import opened Wrappers
  import opened ImportNames
  import opened ImporterCaches

  /**
   * A filesystem importer. Its `hash` and `eql?` are those of its root, so two
   * importers with equal roots are the same key of an `ImporterCache`; a
   * datatype value has exactly that equality.
   */
  datatype Filesystem = Filesystem(root: string)

  /** A value of the uri cache: `false` (known not to resolve) or the resolved pair. */
  datatype UriEntry = Missing | Found(resolved: Resolved)

  type Entries = map<Filesystem, map<string, UriEntry>>

  type UriCache = ImporterCache?<Filesystem, string, UriEntry>

  /** The regular files that exist, and the existence tests made so far. */
  class Disk {
    const files: set<string>
    var probes: seq<string>

    constructor (files: set<string>)
      ensures this.files == files && probes == []
    {
      this.files := files;
      probes := [];
    }

    /** `File.file?(path)`. */
    method IsFile(path: string) returns (b: bool)
      modifies this
      ensures b == (path in files)
      ensures probes == old(probes) + [path]
    {
      b := path in files;
      probes := probes + [path];
    }
  }

  /** The entries of the options hash that import resolution reads and writes. */
  class Options {
    /** `options[:syntax]` */
    var syntax: Option<Syntax>
    /** `options[:filename]` */
    var filename: Option<string>
    /** `options[:importer]` */
    var importer: Option<Filesystem>
    /** `options[:compile_cache].uri`, or `null` without a compile cache */
    var compileCache: UriCache

    constructor (compileCache: UriCache)
      ensures syntax == None && filename == None && importer == None
      ensures this.compileCache == compileCache
    {
      syntax, filename, importer := None, None, None;
      this.compileCache := compileCache;
    }
  }

  /** `_find_real_file || false`: the value memoised for a lookup. */
  function ToEntry(r: Option<Resolved>): (e: UriEntry)
    ensures e.Missing? <==> r.None?
    ensures r.Some? ==> e == Found(r.value)
  {
    match r
    case None => Missing
    case Some(p) => Found(p)
  }

  /** The uri under which a lookup is memoised: `File.expand_path(File.join(dir, name))`. */
  function UriOf(dir: string, name: string, expand: string -> string): string
  {
    expand(dir + "/" + name)
  }

  /** What a memoised lookup answers, the cache it leaves, and the files it probes. */
  datatype Outcome = Outcome(result: Option<Resolved>, entries: Entries, probes: seq<string>)

  /** `find_real_file(dir, name, cache)` with a compile cache whose uri cache holds `entries`. */
  function CachedFind(importer: Filesystem, dir: string, name: string, files: set<string>,
                      expand: string -> string, entries: Entries): Outcome
  {
    var uri := UriOf(dir, name, expand);
    var cached: Option<UriEntry> := Lookup(entries, importer, uri);
    match cached
    case Some(Found(p)) => Outcome(Some(p), Touched(entries, importer), [])
    case Some(Missing) => Outcome(None, Touched(entries, importer), [])
    case None =>
      var r := Resolve(importer.root, dir, name, files);
      Outcome(r, Written(entries, importer, uri, ToEntry(r)), Probes(importer.root, dir, name, files))
  }

  /** A cached lookup, positive or negative, is answered from the cache without probing. */
  lemma CachedLookupDoesNotProbe(importer: Filesystem, dir: string, name: string, files: set<string>,
                                 expand: string -> string, entries: Entries, cached: UriEntry)
    requires Lookup(entries, importer, UriOf(dir, name, expand)) == Some(cached)
    ensures var o := CachedFind(importer, dir, name, files, expand, entries);
            o.probes == [] && o.entries == Touched(entries, importer) &&
            (cached.Missing? ==> o.result == None) &&
            (cached.Found? ==> o.result == Some(cached.resolved))
  {
  }

  /** A lookup not yet cached probes once and memoises its outcome, `false` for a miss. */
  lemma UncachedLookupIsMemoised(importer: Filesystem, dir: string, name: string, files: set<string>,
                                 expand: string -> string, entries: Entries)
    requires Lookup(entries, importer, UriOf(dir, name, expand)).None?
    ensures var o := CachedFind(importer, dir, name, files, expand, entries);
            o.result == Resolve(importer.root, dir, name, files) &&
            o.probes == Probes(importer.root, dir, name, files) &&
            Lookup(o.entries, importer, UriOf(dir, name, expand)) == Some(ToEntry(o.result))
  {
  }

  /**
   * Repeating a lookup answers what the first one answered, without probing,
   * whatever the files are by then, and leaves the cache as it was.
   */
  lemma RepeatedLookupIsAnsweredFromCache(importer: Filesystem, dir: string, name: string,
                                          files: set<string>, later: set<string>,
                                          expand: string -> string, entries: Entries)
    ensures var first := CachedFind(importer, dir, name, files, expand, entries);
            var second := CachedFind(importer, dir, name, later, expand, first.entries);
            second.result == first.result && second.probes == [] && second.entries == first.entries
  {
  }

  /** A lookup changes the cached value of no other importer and uri. */
  lemma LookupLeavesOtherPairs(importer: Filesystem, dir: string, name: string, files: set<string>,
                               expand: string -> string, entries: Entries, j: Filesystem, v: string)
    requires j != importer || v != UriOf(dir, name, expand)
    ensures Lookup(CachedFind(importer, dir, name, files, expand, entries).entries, j, v) == Lookup(entries, j, v)
  {
  }

  /** Importers with equal roots share their memoised lookups. */
  lemma EqualRootsShareCache(a: Filesystem, b: Filesystem, dir: string, name: string,
                             files: set<string>, later: set<string>,
                             expand: string -> string, entries: Entries)
    requires a.root == b.root
    ensures var first := CachedFind(a, dir, name, files, expand, entries);
            CachedFind(b, dir, name, later, expand, first.entries).result == first.result
  {
  }

  /**
   * The loop of `_find_real_file`: tests the candidates in order, under `dir`,
   * and answers the first that exists, with `/./` collapsed.
   */
  method ProbeCandidates(dir: string, cands: seq<Candidate>, disk: Disk) returns (r: Option<Resolved>)
    modifies disk
    ensures r == FirstExisting(dir, cands, disk.files)
    ensures disk.probes == old(disk.probes) + ProbesMade(dir, cands, disk.files)
  {
    ghost var hit := FirstHit(dir, cands, disk.files);
    var i := 0;
    while i < |cands|
      invariant i <= hit
      invariant disk.probes == old(disk.probes) + ProbePaths(dir, cands[..i])
    {
      var path := ProbePath(dir, cands[i].file);
      var isFile := disk.IsFile(path);
      assert cands[..i + 1] == cands[..i] + [cands[i]];
      ProbePathsAppend(dir, cands[..i], cands[i]);
      if isFile {
        return Some(Resolved(CollapseRedundant(path), cands[i].syntax));
      }
      i := i + 1;
    }
    assert cands[..i] == cands;
    return None;
  }

  /** `_find_real_file(dir, name)`: the candidates of the name, with the root removed, probed in order. */
  method FindRealFileUncached(importer: Filesystem, dir: string, name: string, disk: Disk)
    returns (r: Option<Resolved>)
    modifies disk
    ensures r == Resolve(importer.root, dir, name, disk.files)
    ensures disk.probes == old(disk.probes) + Probes(importer.root, dir, name, disk.files)
  {
    r := ProbeCandidates(dir, PossibleFiles(RemoveRoot(importer.root, name)), disk);
  }

  /** Probing one more candidate adds its path at the end. */
  lemma ProbePathsAppend(dir: string, cands: seq<Candidate>, c: Candidate)
    ensures ProbePaths(dir, cands + [c]) == ProbePaths(dir, cands) + [ProbePath(dir, c.file)]
  {
  }

  /** `find_real_file(dir, name, cache)`: the lookup, memoised in `cache` when there is one. */
  method FindRealFile(importer: Filesystem, dir: string, name: string, cache: UriCache, disk: Disk,
                      expand: string -> string)
    returns (r: Option<Resolved>)
    modifies cache, disk
    ensures cache == null ==> r == Resolve(importer.root, dir, name, disk.files)
    ensures cache == null ==> disk.probes == old(disk.probes) + Probes(importer.root, dir, name, disk.files)
    ensures cache != null ==>
      var o := CachedFind(importer, dir, name, disk.files, expand, old(cache.entries));
      r == o.result && cache.entries == o.entries && disk.probes == old(disk.probes) + o.probes
  {
    if cache != null {
      var path := UriOf(dir, name, expand);
      var v := cache.Get(importer, path);
      if v.Some? && v.value.Found? {
        r := Some(v.value.resolved);
      } else if v.Some? {
        r := None;
      } else {
        r := FindRealFileUncached(importer, dir, name, disk);
        cache.Set(importer, path, ToEntry(r));
      }
    } else {
      r := FindRealFileUncached(importer, dir, name, disk);
    }
  }

  /**
   * `_find(dir, name, options)`: looks the name up, memoised in the options'
   * compile cache, and on success records the syntax, the file and the
   * importer in the options.
   */
  method FindIn(importer: Filesystem, dir: string, name: string, options: Options, disk: Disk,
                expand: string -> string)
    returns (r: Option<Resolved>)
    modifies options, options.compileCache, disk
    ensures options.compileCache == old(options.compileCache)
    ensures old(options.compileCache) == null ==>
      r == Resolve(importer.root, dir, name, disk.files) &&
      disk.probes == old(disk.probes) + Probes(importer.root, dir, name, disk.files)
    ensures old(options.compileCache) != null ==>
      var o := CachedFind(importer, dir, name, disk.files, expand, old(options.compileCache.entries));
      r == o.result && options.compileCache.entries == o.entries && disk.probes == old(disk.probes) + o.probes
    ensures r.None? ==>
      options.syntax == old(options.syntax) && options.filename == old(options.filename) &&
      options.importer == old(options.importer)
    ensures r.Some? ==>
      options.syntax == Some(r.value.syntax) && options.filename == Some(r.value.path) &&
      options.importer == Some(importer)
  {
    var cache := options.compileCache;
    r := FindRealFile(importer, dir, name, cache, disk, expand);
    if r.None? {
      return;
    }
    options.syntax := Some(r.value.syntax);
    options.filename := Some(r.value.path);
    options.importer := Some(importer);
  }

  /** `find(name, options)`: resolution relative to the importer's root. */
  method Find(importer: Filesystem, name: string, options: Options, disk: Disk, expand: string -> string)
    returns (r: Option<Resolved>)
    modifies options, options.compileCache, disk
    ensures options.compileCache == old(options.compileCache)
    ensures old(options.compileCache) == null ==>
      r == Resolve(importer.root, importer.root, name, disk.files) &&
      disk.probes == old(disk.probes) + Probes(importer.root, importer.root, name, disk.files)
    ensures old(options.compileCache) != null ==>
      var o := CachedFind(importer, importer.root, name, disk.files, expand, old(options.compileCache.entries));
      r == o.result && options.compileCache.entries == o.entries && disk.probes == old(disk.probes) + o.probes
    ensures r.None? ==>
      options.syntax == old(options.syntax) && options.filename == old(options.filename) &&
      options.importer == old(options.importer)
    ensures r.Some? ==>
      options.syntax == Some(r.value.syntax) && options.filename == Some(r.value.path) &&
      options.importer == Some(importer)
  {
    r := FindIn(importer, importer.root, name, options, disk, expand);
  }

  /** `find_relative(name, base, options)`: resolution relative to the directory of `base`. */
  method FindRelative(importer: Filesystem, name: string, base: string, options: Options, disk: Disk,
                      expand: string -> string)
    returns (r: Option<Resolved>)
    modifies options, options.compileCache, disk
    ensures options.compileCache == old(options.compileCache)
    ensures old(options.compileCache) == null ==>
      r == Resolve(importer.root, DirName(base), name, disk.files) &&
      disk.probes == old(disk.probes) + Probes(importer.root, DirName(base), name, disk.files)
    ensures old(options.compileCache) != null ==>
      var o := CachedFind(importer, DirName(base), name, disk.files, expand, old(options.compileCache.entries));
      r == o.result && options.compileCache.entries == o.entries && disk.probes == old(disk.probes) + o.probes
    ensures r.None? ==>
      options.syntax == old(options.syntax) && options.filename == old(options.filename) &&
      options.importer == old(options.importer)
    ensures r.Some? ==>
      options.syntax == Some(r.value.syntax) && options.filename == Some(r.value.path) &&
      options.importer == Some(importer)
  {
    r := FindIn(importer, DirName(base), name, options, disk, expand);
  }
}
