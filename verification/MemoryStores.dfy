/** The memory directory: files, a cache of what they hold, and an index of the cache. */
module MemoryStores {
  import opened Options
  import opened MarkdownSections
  import opened MemoryFiles
  import opened Text

  datatype Kind = Standalone | Aggregate

  datatype Frontmatter = Frontmatter(name: string, description: string, memoryType: string, kind: Kind)

  /** The printer and the parser of headers. */
  datatype Yaml = Yaml(dump: Frontmatter -> string, parse: string -> Option<Frontmatter>)

  /** `<type>/<filename>`. */
  datatype Path = Path(memoryType: string, file: string)

  datatype Entry = Entry(frontmatter: Frontmatter, body: string)

  datatype Operation = WriteOp | UpdateOp | AppendOp | DeleteOp

  datatype LogLine = LogLine(operation: Operation, path: Path, text: string)

  const SUFFIX := ".md"

  /** `validate_filename`. */
  predicate IsFilename(name: string) {
    && |name| > 0 && '/' !in name && '\\' !in name && name[0] != '.' && Find(name, "..") == -1
    && |name| >= |SUFFIX| && name[|name| - |SUFFIX|..] == SUFFIX
  }

  /** No path: no slash, no dot in front or twice in a row; and the suffix. */
  lemma FilenameIff(name: string)
    ensures IsFilename(name) <==>
            && |name| > 3 && name[|name| - 3] == '.' && name[|name| - 2] == 'm' && name[|name| - 1] == 'd'
            && name[0] != '.'
            && (forall k :: 0 <= k < |name| ==> name[k] != '/' && name[k] != '\\')
            && (forall k :: 0 < k < |name| ==> name[k - 1] != '.' || name[k] != '.')
  {
    if |name| >= 3 {
      EndsInSuffix(name);
    }
    NoDoubleDot(name, "..");
  }

  lemma EndsInSuffix(name: string)
    requires |name| >= 3
    ensures name[|name| - |SUFFIX|..] == SUFFIX <==>
            name[|name| - 3] == '.' && name[|name| - 2] == 'm' && name[|name| - 1] == 'd'
  {
    var end := name[|name| - 3..];
    assert end[0] == name[|name| - 3] && end[1] == name[|name| - 2] && end[2] == name[|name| - 1];
  }

  lemma NoDoubleDot(name: string, dots: string)
    requires |dots| == 2 && dots[0] == '.' && dots[1] == '.'
    ensures Find(name, dots) == -1 <==> forall k :: 0 < k < |name| ==> name[k - 1] != '.' || name[k] != '.'
  {
    FindIsFirstOccurrence(name, dots);
    if k :| 0 < k < |name| && name[k - 1] == '.' && name[k] == '.' {
      assert name[k - 1..k + 1] == dots;
      assert OccursAt(name, dots, k - 1);
    }
    if Find(name, dots) != -1 {
      var k := Find(name, dots);
      assert name[k..k + 2][0] == name[k] && name[k..k + 2][1] == name[k + 1];
    }
  }

  function Cut(s: string, n: nat): (r: string)
    ensures r <= s && |r| <= n && (|r| < n ==> r == s)
  {
    if |s| <= n then s else s[..n]
  }

  /** `parse_memory_file`: what a file's text holds, if it has a header that parses. */
  function ReadBack(yaml: Yaml, text: string): Option<Entry> {
    match SplitFrontmatter(UniversalNewlines(text))
    case NoHeader => None
    case Header(front, body) =>
      var fm := yaml.parse(front);
      if fm.None? then None else Some(Entry(fm.value, body))
  }

  function TextOf(yaml: Yaml, e: Entry): string {
    Serialize(yaml.dump(e.frontmatter), e.body)
  }

  /** The printed header parses back, and no line of it starts like a delimiter. */
  ghost predicate PrintsWell(yaml: Yaml, fm: Frontmatter) {
    IsGoodHeader(yaml.dump(fm)) && yaml.parse(Strip(yaml.dump(fm))) == Some(fm)
  }

  /** A file holds an entry when it was read from it, or the entry written to it. */
  ghost predicate Holds(yaml: Yaml, text: string, e: Entry) {
    ReadBack(yaml, text) == Some(e) || text == TextOf(yaml, e)
  }

  ghost predicate SameUpToSpace(a: Entry, b: Entry) {
    a.frontmatter == b.frontmatter && Strip(a.body) == Strip(b.body)
  }

  /** What a written file gives when it is read: the same header, and the body with a blank line in front. */
  lemma WrittenIsReadBack(yaml: Yaml, e: Entry)
    requires PrintsWell(yaml, e.frontmatter)
    ensures ReadBack(yaml, TextOf(yaml, e)) == Some(Entry(e.frontmatter, UniversalNewlines(Body(e.body))))
    ensures SameUpToSpace(ReadBack(yaml, TextOf(yaml, e)).value, e) <==> '\r' !in Strip(e.body)
  {
    ReadWritten(yaml.dump(e.frontmatter), e.body);
    BodyIsReadBackIff(e.body);
  }

  predicate IsScanned(allowedTypes: set<string>, p: Path) {
    p.memoryType in allowedTypes && |p.file| >= |SUFFIX| && p.file[|p.file| - |SUFFIX|..] == SUFFIX
  }

  /** A dictionary keeps its keys in the order in which they came. */
  ghost predicate IsOrderOf(order: seq<Path>, cache: map<Path, Entry>) {
    && (forall p :: p in order <==> p in cache)
    && (forall i, j :: 0 <= i < j < |order| ==> order[i] != order[j])
  }

  function Items(order: seq<Path>, cache: map<Path, Entry>): seq<(Path, Entry)>
    requires forall p :: p in order ==> p in cache
  {
    seq(|order|, i requires 0 <= i < |order| && order[i] in cache => (order[i], cache[order[i]]))
  }

  lemma Without(order: seq<Path>, k: nat)
    requires k < |order| && forall i, j :: 0 <= i < j < |order| ==> order[i] != order[j]
    ensures var rest := order[..k] + order[k + 1..];
            && (forall q :: q in rest <==> q in order && q != order[k])
            && (forall i, j :: 0 <= i < j < |rest| ==> rest[i] != rest[j])
  {
    var rest := order[..k] + order[k + 1..];
    forall q | q in order && q != order[k] ensures q in rest {
      var i :| 0 <= i < |order| && order[i] == q;
      assert rest[if i < k then i else i - 1] == q;
    }
    forall i, j | 0 <= i < j < |rest| ensures rest[i] != rest[j] {
      assert rest[i] == order[if i < k then i else i + 1] && rest[j] == order[if j < k then j else j + 1];
    }
  }

  /** Each cached entry is held by its file; files that the cache does not know hold no entry. */
  ghost predicate FilesHold(yaml: Yaml, allowedTypes: set<string>, files: map<Path, string>, cache: map<Path, Entry>) {
    && (forall p :: p in cache ==> p in files && IsScanned(allowedTypes, p) && Holds(yaml, files[p], cache[p]))
    && (forall p :: p in files && IsScanned(allowedTypes, p) && p !in cache ==> ReadBack(yaml, files[p]).None?)
  }

  /** The cache after some of the files were read. */
  ghost predicate AreRead(yaml: Yaml, files: map<Path, string>, listing: seq<Path>, cache: map<Path, Entry>) {
    && (forall p :: p in listing ==> p in files)
    && (forall p :: p in cache <==> p in listing && ReadBack(yaml, files[p]).Some?)
    && (forall p :: p in cache ==> Some(cache[p]) == ReadBack(yaml, files[p]))
  }

  lemma ListedAreLoaded(yaml: Yaml, allowedTypes: set<string>, files: map<Path, string>, listing: seq<Path>,
                        cache: map<Path, Entry>)
    requires forall p :: p in listing <==> p in files && IsScanned(allowedTypes, p)
    requires AreRead(yaml, files, listing, cache)
    ensures IsLoaded(yaml, allowedTypes, files, cache) && FilesHold(yaml, allowedTypes, files, cache)
  {
  }

  // ----- The store as an object

  datatype Result =
    | Done | NotDone | IllegalFilename | TypeNotAllowed
    | NoSuchFile | NotAggregate | EmptySection | EmptyBullet

  class MemoryStore {
    const yaml: Yaml
    const allowedTypes: set<string>
    const render: seq<(Path, Entry)> -> string    // `render_index` on the records in cache order
    var files: map<Path, string>                  // the `.md` files below the type directories
    var index: string
    var log: seq<LogLine>
    var cache: map<Path, Entry>
    var order: seq<Path>                          // the keys of the cache, as a dictionary keeps them

    /** Cache, files and index agree. */
    ghost predicate Valid()
      reads this
    {
      IsOrderOf(order, cache) && index == render(Items(order, cache)) && FilesHold(yaml, allowedTypes, files, cache)
    }

    constructor (yaml: Yaml, allowedTypes: set<string>, render: seq<(Path, Entry)> -> string, files: map<Path, string>)
      ensures this.yaml == yaml && this.allowedTypes == allowedTypes && this.render == render && this.files == files
      ensures cache == map[] && order == [] && log == []
    {
      this.yaml, this.allowedTypes, this.render, this.files := yaml, allowedTypes, render, files;
      cache, order, index, log := map[], [], [], [];
    }

    method WriteIndex()
      requires IsOrderOf(order, cache)
      modifies this`index
      ensures index == render(Items(order, cache))
    {
      index := render(Items(order, cache));
    }

    /** `load`; `listing` is the order in which the directories are gone through. */
    method Load(listing: seq<Path>)
      requires forall p :: p in listing <==> p in files && IsScanned(allowedTypes, p)
      requires forall i, j :: 0 <= i < j < |listing| ==> listing[i] != listing[j]
      modifies this`cache, this`order, this`index
      ensures Valid() && IsLoaded(yaml, allowedTypes, files, cache)
    {
      cache, order := map[], [];
      for i := 0 to |listing|
        invariant IsOrderOf(order, cache) && AreRead(yaml, files, listing[..i], cache)
      {
        var p := listing[i];
        assert listing[..i + 1] == listing[..i] + [p] && p in listing;
        var read := ReadBack(yaml, files[p]);
        if read.Some? {
          Put(p, read.value);
        }
      }
      assert listing[..|listing|] == listing;
      ListedAreLoaded(yaml, allowedTypes, files, listing, cache);
      WriteIndex();
    }

    /** Setting a key of the cache: a new one goes to the end. */
    method Put(p: Path, e: Entry)
      requires IsOrderOf(order, cache)
      modifies this`cache, this`order
      ensures IsOrderOf(order, cache) && cache == old(cache)[p := e]
      ensures order == if p in old(cache) then old(order) else old(order) + [p]
    {
      if p !in cache {
        order := order + [p];
      }
      cache := cache[p := e];
    }

    method Drop(p: Path)
      requires IsOrderOf(order, cache) && p in cache
      modifies this`cache, this`order
      ensures IsOrderOf(order, cache) && cache == old(cache) - {p}
    {
      var k := 0;
      while order[k] != p
        invariant k < |order| && p in order[k..]
        decreases |order| - k
      {
        k := k + 1;
      }
      Without(order, k);
      order := order[..k] + order[k + 1..];
      cache := cache - {p};
    }

    /** The file, the cache and the index after an entry was stored. */
    method Store(p: Path, e: Entry)
      requires Valid() && IsScanned(allowedTypes, p)
      modifies this`files, this`cache, this`order, this`index
      ensures Valid() && files == old(files)[p := TextOf(yaml, e)] && cache == old(cache)[p := e]
    {
      files := files[p := TextOf(yaml, e)];
      Put(p, e);
      WriteIndex();
    }

    method Remove(p: Path)
      requires Valid() && p in cache
      modifies this`files, this`cache, this`order, this`index
      ensures Valid() && files == old(files) - {p} && cache == old(cache) - {p}
    {
      files := files - {p};
      Drop(p);
      WriteIndex();
    }

    /** `write`. */
    method Write(memoryType: string, filename: string, frontmatter: Frontmatter, body: string) returns (r: Result)
      requires Valid()
      modifies this
      ensures Valid()
      ensures r == (if !IsFilename(filename) then IllegalFilename else if memoryType !in allowedTypes
              then TypeNotAllowed else Done)
      ensures r != Done ==> files == old(files) && cache == old(cache) && log == old(log)
      ensures r == Done ==>
                var p, e := Path(memoryType, filename), Entry(frontmatter.(memoryType := memoryType), body);
                && files == old(files)[p := TextOf(yaml, e)] && cache == old(cache)[p := e]
                && log == old(log) + [LogLine(if p in old(cache) then UpdateOp else WriteOp, p,
                                                 Cut(frontmatter.description, 80))]
    {
      if !IsFilename(filename) {
        return IllegalFilename;
      }
      if memoryType !in allowedTypes {
        return TypeNotAllowed;
      }
      var p, fm := Path(memoryType, filename), frontmatter.(memoryType := memoryType);
      var isUpdate := p in cache;
      Store(p, Entry(fm, body));
      log := log + [LogLine(if isUpdate then UpdateOp else WriteOp, p, Cut(fm.description, 80))];
      return Done;
    }

    /** `append`. */
    method Append(memoryType: string, filename: string, section: string, bullet: string) returns (r: Result)
      requires Valid()
      modifies this
      ensures Valid()
      ensures var p := Path(memoryType, filename);
              r == (if !IsFilename(filename) then IllegalFilename else if p !in old(cache) then NoSuchFile
                    else if old(cache)[p].frontmatter.kind != Aggregate then NotAggregate
                    else if Strip(section) == [] then EmptySection else if Strip(bullet) == [] then EmptyBullet
                            else Done)
      ensures r != Done ==> files == old(files) && cache == old(cache) && log == old(log)
      ensures r == Done ==>
                var p := Path(memoryType, filename);
                var e := Entry(old(cache)[p].frontmatter, Appended(old(cache)[p].body, Strip(section), Strip(bullet)));
                && files == old(files)[p := TextOf(yaml, e)] && cache == old(cache)[p := e]
                && log == old(log) + [LogLine(AppendOp, p, Cut("[" + section + "] " + bullet, 80))]
    {
      if !IsFilename(filename) {
        return IllegalFilename;
      }
      var p := Path(memoryType, filename);
      if p !in cache {
        return NoSuchFile;
      }
      var e := cache[p];
      if e.frontmatter.kind != Aggregate {
        return NotAggregate;
      }
      if Strip(section) == [] {
        return EmptySection;
      }
      if Strip(bullet) == [] {
        return EmptyBullet;
      }
      var newBody := AppendToSection(e.body, Strip(section), Strip(bullet));
      Store(p, Entry(e.frontmatter, newBody));
      log := log + [LogLine(AppendOp, p, Cut("[" + section + "] " + bullet, 80))];
      return Done;
    }

    /** `delete`. */
    method Delete(memoryType: string, filename: string) returns (r: Result)
      requires Valid()
      modifies this
      ensures Valid()
      ensures var p := Path(memoryType, filename);
              r == (if !IsFilename(filename) then IllegalFilename else if p in old(cache) then Done else NotDone)
      ensures r != Done ==> files == old(files) && cache == old(cache) && log == old(log)
      ensures r == Done ==>
                var p := Path(memoryType, filename);
                && files == old(files) - {p} && cache == old(cache) - {p}
                && log == old(log) + [LogLine(DeleteOp, p, [])]
    {
      if !IsFilename(filename) {
        return IllegalFilename;
      }
      var p := Path(memoryType, filename);
      if p !in cache {
        return NotDone;
      }
      Remove(p);
      log := log + [LogLine(DeleteOp, p, [])];
      return Done;
    }
  }

  /** What `load` leaves in the cache. */
  ghost predicate IsLoaded(yaml: Yaml, allowedTypes: set<string>, files: map<Path, string>, cache: map<Path, Entry>) {
    && (forall p :: p in cache <==> p in files && IsScanned(allowedTypes, p) && ReadBack(yaml, files[p]).Some?)
    && (forall p :: p in cache ==> Some(cache[p]) == ReadBack(yaml, files[p]))
  }

  /** Text mode leaves no carriage return, so that a body that was read has none. */
  lemma ReadBodyHasNoReturn(yaml: Yaml, text: string)
    requires ReadBack(yaml, text).Some?
    ensures '\r' !in Strip(ReadBack(yaml, text).value.body)
  {
    var read, body := UniversalNewlines(text), ReadBack(yaml, text).value.body;
    NoReturnsAreLeft(text);
    BodyIsPartOf(read);
    var lead, core, trail := StripParts(body);
    StripIsCore(lead, core, trail);
    assert forall c :: c in core ==> c in body;
  }

  lemma EntryIsReadBack(yaml: Yaml, text: string, e: Entry)
    requires Holds(yaml, text, e) && PrintsWell(yaml, e.frontmatter)
    ensures ReadBack(yaml, text).Some? && ReadBack(yaml, text).value.frontmatter == e.frontmatter
    ensures SameUpToSpace(ReadBack(yaml, text).value, e) <==> '\r' !in Strip(e.body)
  {
    if ReadBack(yaml, text) == Some(e) {
      ReadBodyHasNoReturn(yaml, text);
    } else {
      WrittenIsReadBack(yaml, e);
    }
  }

  /** No body has a carriage return inside. */
  ghost predicate HaveNoReturns(cache: map<Path, Entry>) {
    forall p :: p in cache ==> '\r' !in Strip(cache[p].body)
  }

  ghost predicate SameEntries(loaded: map<Path, Entry>, cache: map<Path, Entry>) {
    forall p :: p in cache ==> p in loaded && SameUpToSpace(loaded[p], cache[p])
  }

  lemma FreshLoadFinds(yaml: Yaml, allowedTypes: set<string>, files: map<Path, string>, cache: map<Path, Entry>,
                       loaded: map<Path, Entry>, p: Path)
    requires FilesHold(yaml, allowedTypes, files, cache) && IsLoaded(yaml, allowedTypes, files, loaded)
    requires p in cache && PrintsWell(yaml, cache[p].frontmatter)
    ensures p in loaded && p in files && loaded[p].frontmatter == cache[p].frontmatter
    ensures SameUpToSpace(loaded[p], cache[p]) <==> '\r' !in Strip(cache[p].body)
  {
    EntryIsReadBack(yaml, files[p], cache[p]);
  }

  /** A fresh load finds the same entries with the same headers, whatever was written, appended and deleted. */
  lemma FreshLoadFindsAll(yaml: Yaml, allowedTypes: set<string>, files: map<Path, string>, cache: map<Path, Entry>,
                          loaded: map<Path, Entry>)
    requires FilesHold(yaml, allowedTypes, files, cache) && IsLoaded(yaml, allowedTypes, files, loaded)
    requires forall p :: p in cache ==> PrintsWell(yaml, cache[p].frontmatter)
    ensures loaded.Keys == cache.Keys
    ensures forall p :: p in cache ==> p in loaded && loaded[p].frontmatter == cache[p].frontmatter
  {
    forall p | p in cache ensures p in loaded && loaded[p].frontmatter == cache[p].frontmatter {
      FreshLoadFinds(yaml, allowedTypes, files, cache, loaded, p);
    }
    assert forall p :: p in loaded ==> p in cache;
  }

  /**
   * The bodies it finds are the same up to the white space around them exactly when none has a carriage return
   * inside.
   */
  lemma FreshLoadAgreesIff(yaml: Yaml, allowedTypes: set<string>, files: map<Path, string>, cache: map<Path, Entry>,
                           loaded: map<Path, Entry>)
    requires FilesHold(yaml, allowedTypes, files, cache) && IsLoaded(yaml, allowedTypes, files, loaded)
    requires forall p :: p in cache ==> PrintsWell(yaml, cache[p].frontmatter)
    ensures SameEntries(loaded, cache) <==> HaveNoReturns(cache)
  {
    if SameEntries(loaded, cache) {
      forall p | p in cache ensures '\r' !in Strip(cache[p].body) {
        FreshLoadFinds(yaml, allowedTypes, files, cache, loaded, p);
      }
    } else {
      var p :| p in cache && !(p in loaded && SameUpToSpace(loaded[p], cache[p]));
      FreshLoadFinds(yaml, allowedTypes, files, cache, loaded, p);
    }
  }
}
