/**
 * `CachedFiles`: files and parsed trees under the documentation root, read
 * at most once each, and the last path named, which `-` stands for.
 *
 * The pure functions say what each operation returns and what the cache
 * holds afterwards; the class carries that state and its methods are proved
 * to follow them.
 */
module Cache {
  import opened Failures
  import opened Tree
  import opened Markup
  import opened Environment

  /** The cache's contents: file texts and trees by normalised path, and the previous path. */
  datatype CacheState = CacheState(files: map<string, string>, trees: map<string, Node>, lastPath: Option<string>)

  const Empty := CacheState(map[], map[], None)

  /**
   * `resolve_path`: `-` means the previous path, which must exist; any other
   * path is normalised and becomes the previous path.
   */
  function Resolve(h: Host, st: CacheState, path: string): (r: (Result<string>, CacheState))
    ensures r.0.Err? <==> path == "-" && st.lastPath.None?
    ensures r.0.Err? ==> r.0.error == PreviousPathUnset
    ensures r.0.Ok? ==> r.1.lastPath == Some(r.0.value)
    ensures path == "-" ==> r.1 == st
    ensures path != "-" ==> r.0 == Ok(h.normpath(path))
    ensures r.1.files == st.files && r.1.trees == st.trees
  {
    if path != "-" then
      var p := h.normpath(path);
      (Ok(p), st.(lastPath := Some(p)))
    else if st.lastPath.None? then (Err(PreviousPathUnset), st)
    else (Ok(st.lastPath.value), st)
  }

  /**
   * `get_file`: the cached text, or else the file's text read from disk and
   * cached; a missing file raises, naming the resolved path.
   */
  function FetchFile(h: Host, root: string, st: CacheState, path: string): (r: (Result<string>, CacheState))
    ensures r.1.trees == st.trees
    ensures forall p :: p in st.files ==> p in r.1.files && r.1.files[p] == st.files[p]
    ensures r.0.Ok? ==> r.1.lastPath.Some? && r.1.lastPath.value in r.1.files && r.1.files[r.1.lastPath.value] == r.0.value
  {
    var (rp, st1) := Resolve(h, st, path);
    match rp
    case Err(e) => (Err(e), st1)
    case Ok(p) =>
      if p in st1.files then (Ok(st1.files[p]), st1)
      else
        var full := h.join(root, p);
        if full in h.disk then (Ok(h.disk[full]), st1.(files := st1.files[p := h.disk[full]]))
        else (Err(CannotOpen(p)), st1)
  }

  /**
   * `get_tree`: the cached tree, or else the file parsed and cached; a
   * missing file raises, and so does one that does not parse.
   */
  function FetchTree(h: Host, root: string, st: CacheState, path: string): (r: (Result<Node>, CacheState))
    ensures r.1.files == st.files
    ensures forall p :: p in st.trees ==> p in r.1.trees && r.1.trees[p] == st.trees[p]
    ensures r.0.Ok? ==> r.1.lastPath.Some? && r.1.lastPath.value in r.1.trees && r.1.trees[r.1.lastPath.value] == r.0.value
  {
    var (rp, st1) := Resolve(h, st, path);
    match rp
    case Err(e) => (Err(e), st1)
    case Ok(p) =>
      if p in st1.trees then (Ok(st1.trees[p]), st1)
      else
        var full := h.join(root, p);
        if full !in h.disk then (Err(CannotOpen(p)), st1)
        else match ParseHtml(h, h.disk[full])
          case Err(_) => (Err(CannotParse(p)), st1)
          case Ok(t) => (Ok(t), st1.(trees := st1.trees[p := t]))
  }

  /** The resolved path of a request, without touching the cache. */
  function ResolvedPath(h: Host, lastPath: Option<string>, path: string): Result<string> {
    if path != "-" then Ok(h.normpath(path))
    else if lastPath.None? then Err(PreviousPathUnset)
    else Ok(lastPath.value)
  }

  /** What reading a file straight from disk gives, as if there were no cache. */
  function ReadFile(h: Host, root: string, lastPath: Option<string>, path: string): Result<string> {
    match ResolvedPath(h, lastPath, path)
    case Err(e) => Err(e)
    case Ok(p) => if h.join(root, p) in h.disk then Ok(h.disk[h.join(root, p)]) else Err(CannotOpen(p))
  }

  /** What parsing a file straight from disk gives, as if there were no cache. */
  function ReadTree(h: Host, root: string, lastPath: Option<string>, path: string): Result<Node> {
    match ResolvedPath(h, lastPath, path)
    case Err(e) => Err(e)
    case Ok(p) =>
      if h.join(root, p) !in h.disk then Err(CannotOpen(p))
      else match ParseHtml(h, h.disk[h.join(root, p)])
        case Err(_) => Err(CannotParse(p))
        case Ok(t) => Ok(t)
  }

  /** Everything cached agrees with the files under the root. */
  predicate Coherent(h: Host, root: string, st: CacheState) {
    && (forall p :: p in st.files ==> h.join(root, p) in h.disk && st.files[p] == h.disk[h.join(root, p)])
    && (forall p :: p in st.trees ==> h.join(root, p) in h.disk && ParseHtml(h, h.disk[h.join(root, p)]) == Ok(st.trees[p]))
  }

  lemma EmptyCoherent(h: Host, root: string)
    ensures Coherent(h, root, Empty)
  {
  }

  /**
   * The file cache is invisible: while it agrees with the disk, fetching
   * gives what reading the disk gives, and it keeps agreeing.
   */
  lemma FetchFileTransparent(h: Host, root: string, st: CacheState, path: string)
    requires Coherent(h, root, st)
    ensures FetchFile(h, root, st, path).0 == ReadFile(h, root, st.lastPath, path)
    ensures Coherent(h, root, FetchFile(h, root, st, path).1)
  {
  }

  /** The tree cache is invisible in the same way. */
  lemma FetchTreeTransparent(h: Host, root: string, st: CacheState, path: string)
    requires Coherent(h, root, st)
    ensures FetchTree(h, root, st, path).0 == ReadTree(h, root, st.lastPath, path)
    ensures Coherent(h, root, FetchTree(h, root, st, path).1)
  {
    var st1 := Resolve(h, st, path).1;
    assert Coherent(h, root, st1);
    match ResolvedPath(h, st.lastPath, path)
    case Err(_) =>
    case Ok(p) =>
      if p !in st1.trees && h.join(root, p) in h.disk {
        var t := ParseHtml(h, h.disk[h.join(root, p)]);
        if t.Ok? {
          CoherentAddTree(h, root, st1, p, t.value);
        }
      }
  }

  /** Caching a tree that parsing the file gives keeps the cache in agreement with the disk. */
  lemma CoherentAddTree(h: Host, root: string, st: CacheState, p: string, t: Node)
    requires Coherent(h, root, st)
    requires h.join(root, p) in h.disk && ParseHtml(h, h.disk[h.join(root, p)]) == Ok(t)
    ensures Coherent(h, root, st.(trees := st.trees[p := t]))
  {
  }

  /** Every fetch, whatever its outcome, leaves the previous path where resolving put it. */
  lemma FetchSetsPreviousPath(h: Host, root: string, st: CacheState, path: string)
    ensures FetchFile(h, root, st, path).1.lastPath == Resolve(h, st, path).1.lastPath
    ensures FetchTree(h, root, st, path).1.lastPath == Resolve(h, st, path).1.lastPath
    ensures path != "-" ==> FetchFile(h, root, st, path).1.lastPath == Some(h.normpath(path))
  {
  }

  /** A file once read is read from the cache afterwards: the same text, and no change. */
  lemma FetchFileAgain(h: Host, root: string, st: CacheState, path: string)
    requires FetchFile(h, root, st, path).0.Ok?
    ensures FetchFile(h, root, FetchFile(h, root, st, path).1, path) == FetchFile(h, root, st, path)
  {
    var st1 := FetchFile(h, root, st, path).1;
    assert st1.lastPath.Some?;
  }

  /** A tree once parsed is taken from the cache afterwards: the same tree, and no change. */
  lemma FetchTreeAgain(h: Host, root: string, st: CacheState, path: string)
    requires FetchTree(h, root, st, path).0.Ok?
    ensures FetchTree(h, root, FetchTree(h, root, st, path).1, path) == FetchTree(h, root, st, path)
  {
    var st1 := FetchTree(h, root, st, path).1;
    assert st1.lastPath.Some?;
  }

  /** A cached file is served without looking at the disk. */
  lemma CachedFileIgnoresDisk(h: Host, root: string, st: CacheState, path: string, disk: map<string, string>)
    requires ResolvedPath(h, st.lastPath, path).Ok? && ResolvedPath(h, st.lastPath, path).value in st.files
    ensures FetchFile(h.(disk := disk), root, st, path) == FetchFile(h, root, st, path)
  {
  }

  /** The cache object: the root it reads under, and its contents. */
  class CachedFiles {
    const root: string
    var files: map<string, string>
    var trees: map<string, Node>
    var lastPath: Option<string>

    function State(): CacheState
      reads this
    {
      CacheState(files, trees, lastPath)
    }

    constructor(root: string)
      ensures this.root == root && State() == Empty
    {
      this.root := root;
      files := map[];
      trees := map[];
      lastPath := None;
    }

    /** `resolve_path`. */
    method ResolvePath(h: Host, path: string) returns (r: Result<string>)
      modifies this
      ensures (r, State()) == Resolve(h, old(State()), path)
    {
      if path != "-" {
        var p := h.normpath(path);
        lastPath := Some(p);
        return Ok(p);
      } else if lastPath.None? {
        return Err(PreviousPathUnset);
      } else {
        return Ok(lastPath.value);
      }
    }

    /** `get_file`. */
    method GetFile(h: Host, path: string) returns (r: Result<string>)
      modifies this
      ensures (r, State()) == FetchFile(h, root, old(State()), path)
    {
      var rp := ResolvePath(h, path);
      if rp.Err? {
        return Err(rp.error);
      }
      var p := rp.value;
      if p in files {
        return Ok(files[p]);
      }
      var full := h.join(root, p);
      if full !in h.disk {
        return Err(CannotOpen(p));
      }
      var data := h.disk[full];
      files := files[p := data];
      return Ok(data);
    }

    /** `get_tree`: the file is parsed by a fresh `CustomHTMLParser`. */
    method GetTree(h: Host, path: string) returns (r: Result<Node>)
      modifies this
      ensures (r, State()) == FetchTree(h, root, old(State()), path)
    {
      var rp := ResolvePath(h, path);
      if rp.Err? {
        return Err(rp.error);
      }
      var p := rp.value;
      if p in trees {
        return Ok(trees[p]);
      }
      var full := h.join(root, p);
      if full !in h.disk {
        return Err(CannotOpen(p));
      }
      var tree := ParseDocument(Entities(h.entitydefs), h.tokenize(h.disk[full]));
      if tree.Err? {
        return Err(CannotParse(p));
      }
      trees := trees[p := tree.value];
      return Ok(tree.value);
    }
  }
}
