/** Include expansion of configuration files (pkg/config/load.go). */
module Includes {
  import opened Prelude

  type Path = string

  /** A document: its "include" pattern, empty for a plain one, and its content. */
  datatype Doc = Doc(include_: Bytes, body: Bytes)

  datatype LoadError =
    | NoAbsolute(path: Path)
    | Circular(chain: seq<Path>)
    | Unreadable(path: Path)
    | Malformed(path: Path)
    | BadPattern(pattern: Bytes)

  /** The file system: decoded files by absolute path (None does not decode), filepath.Abs and filepath.Glob. */
  datatype World = World(files: map<Path, Option<seq<Doc>>>, abs: Path -> Option<Path>, glob: Bytes -> Option<seq<Path>>)

  type Loaded = Outcome<seq<Doc>, LoadError>

  /** The files that are not on the current include chain. */
  ghost function Remaining(w: World, chain: seq<Path>): set<Path> {
    w.files.Keys - set a | a in chain
  }

  lemma RemainingShrinks(w: World, chain: seq<Path>, a: Path)
    requires a in w.files && a !in chain
    ensures Remaining(w, chain + [a]) < Remaining(w, chain)
  {
    assert a in Remaining(w, chain) && a !in Remaining(w, chain + [a]);
  }

  // ----- Expansion as functions -----

  /** loadTreeMapsPath */
  function Load(w: World, path: Path, chain: seq<Path>): Loaded
    decreases Remaining(w, chain), 0, 0
  {
    match w.abs(path)
    case None => Err(NoAbsolute(path))
    case Some(a) =>
      if a in chain then Err(Circular(chain))
      else if a !in w.files then Err(Unreadable(a))
      else
        match w.files[a]
        case None => Err(Malformed(a))
        case Some(docs) =>
          RemainingShrinks(w, chain, a);
          Expand(w, docs, chain + [a])
  }

  function Then(first: Loaded, second: Loaded): Loaded {
    if first.Err? then first
    else if second.Err? then second
    else Ok(first.value + second.value)
  }

  /** The loop over the paths a pattern matches. */
  function LoadAll(w: World, paths: seq<Path>, chain: seq<Path>): Loaded
    decreases Remaining(w, chain), 1, |paths|
  {
    if paths == [] then Ok([]) else Then(Load(w, paths[0], chain), LoadAll(w, paths[1..], chain))
  }

  /** One document of expandIncludes. */
  function ExpandOne(w: World, doc: Doc, chain: seq<Path>): Loaded
    decreases Remaining(w, chain), 2, 0
  {
    if doc.include_ == "" then Ok([doc])
    else
      match w.glob(doc.include_)
      case None => Err(BadPattern(doc.include_))
      case Some(paths) => LoadAll(w, paths, chain)
  }

  /** expandIncludes */
  function Expand(w: World, docs: seq<Doc>, chain: seq<Path>): Loaded
    decreases Remaining(w, chain), 3, |docs|
  {
    if docs == [] then Ok([]) else Then(ExpandOne(w, docs[0], chain), Expand(w, docs[1..], chain))
  }

  // ----- The recursive methods with their loops -----

  method LoadTreeMapsPath(w: World, path: Path, chain: seq<Path>) returns (r: Loaded)
    ensures r == Load(w, path, chain)
    decreases Remaining(w, chain), 0
  {
    var abs := w.abs(path);
    if abs.None? {
      return Err(NoAbsolute(path));
    }
    var a := abs.value;
    if a in chain {
      return Err(Circular(chain));
    }
    if a !in w.files {
      return Err(Unreadable(a));
    }
    var data := w.files[a];
    if data.None? {
      return Err(Malformed(a));
    }
    RemainingShrinks(w, chain, a);
    r := ExpandIncludes(w, data.value, chain + [a]);
  }

  method ExpandIncludes(w: World, docs: seq<Doc>, chain: seq<Path>) returns (r: Loaded)
    ensures r == Expand(w, docs, chain)
    decreases Remaining(w, chain), 1
  {
    var out: seq<Doc> := [];
    assert docs[0..] == docs;
    ThenNothing(Expand(w, docs, chain));
    for i := 0 to |docs|
      invariant Expand(w, docs, chain) == Then(Ok(out), Expand(w, docs[i..], chain))
    {
      assert docs[i..][1..] == docs[i + 1..];
      ThenAssociates(Ok(out), ExpandOne(w, docs[i], chain), Expand(w, docs[i + 1..], chain));
      if docs[i].include_ == "" {
        out := out + [docs[i]];
        continue;
      }
      var paths := w.glob(docs[i].include_);
      if paths.None? {
        return Err(BadPattern(docs[i].include_));
      }
      ghost var before := out;
      assert paths.value[0..] == paths.value;
      for j := 0 to |paths.value|
        invariant Then(Ok(before), LoadAll(w, paths.value, chain)) == Then(Ok(out), LoadAll(w, paths.value[j..], chain))
      {
        assert paths.value[j..][1..] == paths.value[j + 1..];
        var sub := LoadTreeMapsPath(w, paths.value[j], chain);
        ThenAssociates(Ok(out), sub, LoadAll(w, paths.value[j + 1..], chain));
        if sub.Err? {
          return Err(sub.error);
        }
        out := out + sub.value;
      }
      assert paths.value[|paths.value|..] == [];
      ThenNothing(Ok(out));
    }
    assert docs[|docs|..] == [];
    ThenNothing(Ok(out));
    r := Ok(out);
  }

  lemma ThenAssociates(a: Loaded, b: Loaded, c: Loaded)
    ensures Then(a, Then(b, c)) == Then(Then(a, b), c)
  {
    if a.Ok? && b.Ok? && c.Ok? {
      assert a.value + (b.value + c.value) == a.value + b.value + c.value;
    }
  }

  lemma ThenNothing(a: Loaded)
    ensures Then(Ok([]), a) == a == Then(a, Ok([]))
  {
    if a.Ok? {
      assert [] + a.value == a.value == a.value + [];
    }
  }

  // ----- Circularity -----

  /** A file of the store includes another: one of its documents has a pattern that matches it. */
  ghost predicate Includes(w: World, a: Path, b: Path) {
    a in w.files && w.files[a].Some? && exists i, j :: IncludesAt(w, w.files[a].value, i, j, b)
  }

  ghost predicate IncludesAt(w: World, docs: seq<Doc>, i: int, j: int, b: Path) {
    && 0 <= i < |docs| && docs[i].include_ != "" && w.glob(docs[i].include_).Some?
    && 0 <= j < |w.glob(docs[i].include_).value|
    && w.abs(w.glob(docs[i].include_).value[j]) == Some(b)
  }

  /** c is an include chain. */
  ghost predicate Chain(w: World, c: seq<Path>) {
    |c| > 0 && forall i :: 0 <= i < |c| - 1 ==> Includes(w, c[i], c[i + 1])
  }

  /** Everything loads: patterns match existing files, and files decode. */
  ghost predicate PathLoads(w: World, p: Path) {
    w.abs(p).Some? && w.abs(p).value in w.files
  }

  ghost predicate DocLoads(w: World, doc: Doc) {
    doc.include_ != "" ==> w.glob(doc.include_).Some? && forall p :: p in w.glob(doc.include_).value ==> PathLoads(w, p)
  }

  ghost predicate AllLoad(w: World) {
    forall a :: a in w.files ==> w.files[a].Some? && forall d :: d in w.files[a].value ==> DocLoads(w, d)
  }

  /** The pattern of an including document can be globbed, and what it matches has absolute paths. */
  ghost predicate DocGlobs(w: World, doc: Doc) {
    doc.include_ != "" ==> w.glob(doc.include_).Some? && forall p :: p in w.glob(doc.include_).value ==> w.abs(p).Some?
  }

  /** The file exists and decodes, and its documents' patterns lead somewhere. */
  ghost predicate Sound(w: World, a: Path) {
    a in w.files && w.files[a].Some? && forall d :: d in w.files[a].value ==> DocGlobs(w, d)
  }

  /** Behind the files of `chain` the include chain c revisits a file or ends in an unsound one. */
  ghost predicate Faulty(w: World, chain: seq<Path>, c: seq<Path>) {
    Chain(w, c) && (!NoDup(chain + c) || !Sound(w, c[|c| - 1]))
  }

  /** A failed load exhibits an include chain that revisits a file or ends in an unsound one. */
  lemma {:induction false} FailureHasChain(w: World, path: Path, chain: seq<Path>) returns (c: seq<Path>)
    requires Load(w, path, chain).Err?
    ensures w.abs(path).Some? ==> Faulty(w, chain, c) && Some(c[0]) == w.abs(path)
    ensures AllLoad(w) && PathLoads(w, path) ==> Load(w, path, chain).error.Circular?
    decreases Remaining(w, chain), 0, 0
  {
    c := [];
    if w.abs(path).Some? {
      var a := w.abs(path).value;
      c := [a];
      if a in chain {
        var i :| 0 <= i < |chain| && chain[i] == a;
        assert (chain + c)[i] == (chain + c)[|chain|];
      } else if a in w.files && w.files[a].Some? {
        RemainingShrinks(w, chain, a);
        var i, j, c1 := ExpandFailure(w, w.files[a].value, chain + [a], 0);
        if c1 != [] {
          c := [a] + c1;
          assert chain + c == chain + [a] + c1;
          ChainMore(w, a, c1, i, j);
        }
      }
    }
  }

  lemma ChainMore(w: World, a: Path, c: seq<Path>, i: nat, j: nat)
    requires a in w.files && w.files[a].Some? && Chain(w, c) && IncludesAt(w, w.files[a].value, i, j, c[0])
    ensures Chain(w, [a] + c)
  {
    assert Includes(w, a, c[0]);
    forall k | 0 <= k < |c|
      ensures Includes(w, ([a] + c)[k], ([a] + c)[k + 1])
    {
      if k > 0 {
        assert Includes(w, c[k - 1], c[k]);
      }
    }
  }

  lemma {:induction false} ExpandFailure(w: World, docs: seq<Doc>, chain: seq<Path>, i0: nat) returns (i: nat, j: nat, c: seq<Path>)
    requires i0 <= |docs| && Expand(w, docs[i0..], chain).Err?
    ensures c == [] ==> exists d :: d in docs && !DocGlobs(w, d)
    ensures c != [] ==> Faulty(w, chain, c) && IncludesAt(w, docs, i, j, c[0])
    ensures AllLoad(w) && (forall d :: d in docs ==> DocLoads(w, d)) ==> Expand(w, docs[i0..], chain).error.Circular?
    decreases Remaining(w, chain), 3, |docs| - i0
  {
    assert docs[i0..][1..] == docs[i0 + 1..];
    var doc := docs[i0];
    if ExpandOne(w, doc, chain).Err? {
      i, j, c := i0, 0, [];
      assert doc in docs;
      if w.glob(doc.include_).Some? {
        var paths := w.glob(doc.include_).value;
        assert paths[0..] == paths;
        j, c := LoadAllFailure(w, paths, chain, 0);
      }
      assert c == [] ==> !DocGlobs(w, doc);
      assert DocLoads(w, doc) ==> w.glob(doc.include_).Some?;
    } else {
      i, j, c := ExpandFailure(w, docs, chain, i0 + 1);
    }
  }

  lemma {:induction false} LoadAllFailure(w: World, paths: seq<Path>, chain: seq<Path>, j0: nat) returns (j: nat, c: seq<Path>)
    requires j0 <= |paths| && LoadAll(w, paths[j0..], chain).Err?
    ensures c == [] ==> exists p :: p in paths && w.abs(p).None?
    ensures c != [] ==> Faulty(w, chain, c) && j < |paths| && w.abs(paths[j]) == Some(c[0])
    ensures AllLoad(w) && (forall p :: p in paths ==> PathLoads(w, p)) ==> LoadAll(w, paths[j0..], chain).error.Circular?
    decreases Remaining(w, chain), 1, |paths| - j0
  {
    assert paths[j0..][1..] == paths[j0 + 1..];
    if Load(w, paths[j0], chain).Err? {
      j := j0;
      c := FailureHasChain(w, paths[j0], chain);
      if w.abs(paths[j0]).None? {
        c := [];
      }
    } else {
      j, c := LoadAllFailure(w, paths, chain, j0 + 1);
    }
  }

  /** An include chain that revisits a file or ends in an unsound one makes the load fail. */
  lemma {:induction false} ChainFails(w: World, path: Path, chain: seq<Path>, c: seq<Path>)
    requires NoDup(chain) && Faulty(w, chain, c) && w.abs(path) == Some(c[0])
    ensures Load(w, path, chain).Err?
    decreases |c|
  {
    var a := c[0];
    if a !in chain && a in w.files && w.files[a].Some? {
      assert NoDup(chain + [a]);
      assert |c| == 1 ==> c == [a];
      var docs := w.files[a].value;
      if |c| > 1 {
        assert Includes(w, c[0], c[1]);
        var i, j :| IncludesAt(w, docs, i, j, c[1]);
        var paths := w.glob(docs[i].include_).value;
        assert chain + c == chain + [a] + c[1..];
        ChainRest(w, c);
        ChainFails(w, paths[j], chain + [a], c[1..]);
        LoadAllFails(w, paths, chain + [a], j);
        ExpandFails(w, docs, chain + [a], i);
      } else {
        var d :| d in docs && !DocGlobs(w, d);
        var i :| 0 <= i < |docs| && docs[i] == d;
        if w.glob(d.include_).Some? {
          var paths := w.glob(d.include_).value;
          var p :| p in paths && w.abs(p).None?;
          var j :| 0 <= j < |paths| && paths[j] == p;
          LoadAllFails(w, paths, chain + [a], j);
        }
        ExpandFails(w, docs, chain + [a], i);
      }
    }
  }

  lemma ChainRest(w: World, c: seq<Path>)
    requires Chain(w, c) && |c| > 1
    ensures Chain(w, c[1..])
  {
    forall k | 0 <= k < |c[1..]| - 1
      ensures Includes(w, c[1..][k], c[1..][k + 1])
    {
      assert Includes(w, c[k + 1], c[k + 2]);
    }
  }

  lemma {:induction false} LoadAllFails(w: World, paths: seq<Path>, chain: seq<Path>, j: nat)
    requires j < |paths| && Load(w, paths[j], chain).Err?
    ensures LoadAll(w, paths, chain).Err?
    decreases j
  {
    if j > 0 {
      LoadAllFails(w, paths[1..], chain, j - 1);
    }
  }

  lemma {:induction false} ExpandFails(w: World, docs: seq<Doc>, chain: seq<Path>, i: nat)
    requires i < |docs| && ExpandOne(w, docs[i], chain).Err?
    ensures Expand(w, docs, chain).Err?
    decreases i
  {
    if i > 0 {
      ExpandFails(w, docs[1..], chain, i - 1);
    }
  }

  /** An include chain from the root revisits a file. */
  ghost predicate Revisits(w: World, root: Path) {
    exists c :: Chain(w, c) && w.abs(root) == Some(c[0]) && !NoDup(c)
  }

  /**
   * A load succeeds exactly when its path has an absolute form and no include chain from there revisits a file or ends in
   * one that is missing, does not decode, or has a pattern that cannot be globbed or matches a path without absolute form.
   * A file reached twice along different chains is no fault.
   */
  lemma LoadsExactly(w: World, root: Path)
    ensures Load(w, root, []).Ok? <==>
            w.abs(root).Some? && forall c :: Chain(w, c) && c[0] == w.abs(root).value ==> NoDup(c) && Sound(w, c[|c| - 1])
  {
    if Load(w, root, []).Err? {
      var c := FailureHasChain(w, root, []);
      assert [] + c == c;
    } else if c :| Chain(w, c) && Some(c[0]) == w.abs(root) && !(NoDup(c) && Sound(w, c[|c| - 1])) {
      assert [] + c == c;
      ChainFails(w, root, [], c);
    }
  }

  lemma {:induction false} ChainLoads(w: World, c: seq<Path>)
    requires AllLoad(w) && Chain(w, c) && c[0] in w.files
    ensures Sound(w, c[|c| - 1])
    decreases |c|
  {
    if |c| > 1 {
      assert Includes(w, c[0], c[1]);
      var i, j :| IncludesAt(w, w.files[c[0]].value, i, j, c[1]);
      assert DocLoads(w, w.files[c[0]].value[i]);
      assert PathLoads(w, w.glob(w.files[c[0]].value[i].include_).value[j]);
      ChainRest(w, c);
      ChainLoads(w, c[1..]);
    } else {
      forall d | d in w.files[c[0]].value
        ensures DocGlobs(w, d)
      {
        assert DocLoads(w, d);
      }
    }
  }

  /**
   * When every file loads, expansion fails exactly when some include chain from the root revisits an absolute path, and
   * then as circular.
   */
  lemma CircularExactly(w: World, root: Path)
    requires AllLoad(w) && PathLoads(w, root)
    ensures Load(w, root, []).Err? <==> Revisits(w, root)
    ensures Load(w, root, []).Err? ==> Load(w, root, []).error.Circular?
  {
    LoadsExactly(w, root);
    if Load(w, root, []).Err? {
      var c := FailureHasChain(w, root, []);
      assert [] + c == c;
      ChainLoads(w, c);
    }
  }

  // ----- Which error is reported -----

  /** A place in the tree of includes: which document's pattern to follow, and to which of its matches, again and again. */
  type Place = seq<(nat, nat)>

  /** Left to right and depth first: a file comes before everything below it. */
  predicate Before(p: Place, q: Place) {
    if q == [] then false
    else if p == [] then true
    else p[0].0 < q[0].0 || (p[0].0 == q[0].0 && (p[0].1 < q[0].1 || (p[0].1 == q[0].1 && Before(p[1..], q[1..]))))
  }

  /** What is wrong with a file that is reached by this path behind the files of the chain. */
  function Wrong(w: World, path: Path, chain: seq<Path>): Option<LoadError> {
    if w.abs(path).None? then Some(NoAbsolute(path))
    else if w.abs(path).value in chain then Some(Circular(chain))
    else if w.abs(path).value !in w.files then Some(Unreadable(w.abs(path).value))
    else if w.files[w.abs(path).value].None? then Some(Malformed(w.abs(path).value))
    else None
  }

  /** What is wrong at a place, if it exists; a pattern that cannot be globbed counts as its first match. */
  function FaultAt(w: World, path: Path, chain: seq<Path>, p: Place): Option<LoadError>
    decreases |p|, 1
  {
    if p == [] then Wrong(w, path, chain)
    else if Wrong(w, path, chain).Some? then None
    else FaultBelow(w, w.files[w.abs(path).value].value, chain + [w.abs(path).value], p)
  }

  function FaultBelow(w: World, docs: seq<Doc>, chain: seq<Path>, p: Place): Option<LoadError>
    requires p != []
    decreases |p|, 0
  {
    var (i, j) := p[0];
    if i >= |docs| || docs[i].include_ == "" then None
    else if w.glob(docs[i].include_).None? then (if j == 0 && |p| == 1 then Some(BadPattern(docs[i].include_)) else None)
    else if j >= |w.glob(docs[i].include_).value| then None
    else FaultAt(w, w.glob(docs[i].include_).value[j], chain, p[1..])
  }

  /** Nothing is wrong anywhere, or the error is what is wrong at the first place where something is. */
  ghost predicate Reports(w: World, path: Path, chain: seq<Path>, r: Loaded, p: Place) {
    if r.Ok? then forall q :: FaultAt(w, path, chain, q).None?
    else FaultAt(w, path, chain, p) == Some(r.error) && forall q :: Before(q, p) ==> FaultAt(w, path, chain, q).None?
  }

  /** The same for the documents from i0 on. */
  ghost predicate ReportsFrom(w: World, docs: seq<Doc>, chain: seq<Path>, i0: nat, r: Loaded, p: Place) {
    if r.Ok? then forall q: Place :: q != [] && q[0].0 >= i0 ==> FaultBelow(w, docs, chain, q).None?
    else
      && p != [] && p[0].0 >= i0 && FaultBelow(w, docs, chain, p) == Some(r.error)
      && forall q: Place :: q != [] && q[0].0 >= i0 && Before(q, p) ==> FaultBelow(w, docs, chain, q).None?
  }

  /** The same for the matches of document i from j0 on. */
  ghost predicate ReportsMatches(w: World, paths: seq<Path>, chain: seq<Path>, j0: nat, r: Loaded, j: nat, p: Place) {
    if r.Ok? then forall k, q :: j0 <= k < |paths| ==> FaultAt(w, paths[k], chain, q).None?
    else
      && j0 <= j < |paths| && FaultAt(w, paths[j], chain, p) == Some(r.error)
      && (forall k, q :: j0 <= k < j ==> FaultAt(w, paths[k], chain, q).None?)
      && (forall q :: Before(q, p) ==> FaultAt(w, paths[j], chain, q).None?)
  }

  /** A load reports the first fault in left-to-right depth-first order, and succeeds exactly when there is none. */
  lemma {:induction false} FirstFaultReported(w: World, path: Path, chain: seq<Path>) returns (p: Place)
    ensures Reports(w, path, chain, Load(w, path, chain), p)
    decreases Remaining(w, chain), 0, 0
  {
    p := [];
    if Wrong(w, path, chain).None? {
      var a := w.abs(path).value;
      RemainingShrinks(w, chain, a);
      p := FirstBelow(w, w.files[a].value, chain + [a], 0);
      assert w.files[a].value[0..] == w.files[a].value;
    }
  }

  lemma {:induction false} FirstBelow(w: World, docs: seq<Doc>, chain: seq<Path>, i0: nat) returns (p: Place)
    requires i0 <= |docs|
    ensures ReportsFrom(w, docs, chain, i0, Expand(w, docs[i0..], chain), p)
    decreases Remaining(w, chain), 3, |docs| - i0
  {
    p := [];
    if i0 < |docs| {
      assert docs[i0..][1..] == docs[i0 + 1..];
      var doc := docs[i0];
      var j, rest := 0, [];
      if doc.include_ != "" && w.glob(doc.include_).Some? {
        var paths := w.glob(doc.include_).value;
        j, rest := FirstMatch(w, paths, chain, 0);
        assert paths[0..] == paths;
      }
      var later := FirstBelow(w, docs, chain, i0 + 1);
      p := if ExpandOne(w, doc, chain).Err? then [(i0, j)] + rest else later;
    }
  }

  lemma {:induction false} FirstMatch(w: World, paths: seq<Path>, chain: seq<Path>, j0: nat) returns (j: nat, p: Place)
    requires j0 <= |paths|
    ensures ReportsMatches(w, paths, chain, j0, LoadAll(w, paths[j0..], chain), j, p)
    decreases Remaining(w, chain), 1, |paths| - j0
  {
    j, p := j0, [];
    if j0 < |paths| {
      assert paths[j0..][1..] == paths[j0 + 1..];
      p := FirstFaultReported(w, paths[j0], chain);
      if Load(w, paths[j0], chain).Ok? {
        j, p := FirstMatch(w, paths, chain, j0 + 1);
      }
    }
  }

  // ----- What a successful load returns -----

  /** The plain documents below file a, left to right and depth first, down to the given depth; no chain is kept. */
  function Flatten(w: World, a: Path, depth: nat): seq<Doc>
    decreases depth, 0, 0
  {
    if depth == 0 || a !in w.files || w.files[a].None? then [] else FlattenDocs(w, w.files[a].value, depth - 1)
  }

  function FlattenDocs(w: World, docs: seq<Doc>, depth: nat): seq<Doc>
    decreases depth, 2, |docs|
  {
    if docs == [] then []
    else
      (if docs[0].include_ == "" then [docs[0]]
       else if w.glob(docs[0].include_).None? then []
       else FlattenPaths(w, w.glob(docs[0].include_).value, depth))
      + FlattenDocs(w, docs[1..], depth)
  }

  function FlattenPaths(w: World, paths: seq<Path>, depth: nat): seq<Doc>
    decreases depth, 1, |paths|
  {
    if paths == [] then []
    else
      (if w.abs(paths[0]).None? then [] else Flatten(w, w.abs(paths[0]).value, depth))
      + FlattenPaths(w, paths[1..], depth)
  }

  /** A successful load is the plain depth-first flattening; the number of files bounds the depth that matters. */
  lemma {:induction false} LoadFlattens(w: World, path: Path, chain: seq<Path>, depth: nat)
    requires Load(w, path, chain).Ok? && depth >= |Remaining(w, chain)|
    ensures w.abs(path).Some? && Load(w, path, chain).value == Flatten(w, w.abs(path).value, depth)
    decreases Remaining(w, chain), 0, 0
  {
    var a := w.abs(path).value;
    RemainingShrinks(w, chain, a);
    SmallerSet(Remaining(w, chain + [a]), Remaining(w, chain));
    ExpandFlattens(w, w.files[a].value, chain + [a], depth - 1);
  }

  lemma SmallerSet<T>(a: set<T>, b: set<T>)
    requires a < b
    ensures |a| < |b|
  {
    assert b == a + (b - a);
  }

  lemma {:induction false} ExpandFlattens(w: World, docs: seq<Doc>, chain: seq<Path>, depth: nat)
    requires Expand(w, docs, chain).Ok? && depth >= |Remaining(w, chain)|
    ensures Expand(w, docs, chain).value == FlattenDocs(w, docs, depth)
    decreases Remaining(w, chain), 3, |docs|
  {
    if docs != [] {
      if docs[0].include_ != "" {
        LoadAllFlattens(w, w.glob(docs[0].include_).value, chain, depth);
      }
      ExpandFlattens(w, docs[1..], chain, depth);
    }
  }

  lemma {:induction false} LoadAllFlattens(w: World, paths: seq<Path>, chain: seq<Path>, depth: nat)
    requires LoadAll(w, paths, chain).Ok? && depth >= |Remaining(w, chain)|
    ensures LoadAll(w, paths, chain).value == FlattenPaths(w, paths, depth)
    decreases Remaining(w, chain), 1, |paths|
  {
    if paths != [] {
      LoadFlattens(w, paths[0], chain, depth);
      LoadAllFlattens(w, paths[1..], chain, depth);
    }
  }

  /** LoadTreeMaps: on success, the plain documents in left-to-right depth-first order. */
  lemma LoadedInOrder(w: World, root: Path, depth: nat)
    requires Load(w, root, []).Ok? && depth >= |w.files|
    ensures Load(w, root, []).value == Flatten(w, w.abs(root).value, depth)
    ensures forall i :: 0 <= i < |Load(w, root, []).value| ==> Load(w, root, []).value[i].include_ == ""
  {
    assert Remaining(w, []) == w.files.Keys;
    LoadFlattens(w, root, [], depth);
    FlattenPlain(w, w.abs(root).value, depth);
  }

  lemma {:induction false} FlattenPlain(w: World, a: Path, depth: nat)
    ensures forall i :: 0 <= i < |Flatten(w, a, depth)| ==> Flatten(w, a, depth)[i].include_ == ""
    decreases depth, 0, 0
  {
    if depth > 0 && a in w.files && w.files[a].Some? {
      FlattenDocsPlain(w, w.files[a].value, depth - 1);
    }
  }

  lemma {:induction false} FlattenDocsPlain(w: World, docs: seq<Doc>, depth: nat)
    ensures forall i :: 0 <= i < |FlattenDocs(w, docs, depth)| ==> FlattenDocs(w, docs, depth)[i].include_ == ""
    decreases depth, 2, |docs|
  {
    if docs != [] {
      if docs[0].include_ != "" && w.glob(docs[0].include_).Some? {
        FlattenPathsPlain(w, w.glob(docs[0].include_).value, depth);
      }
      FlattenDocsPlain(w, docs[1..], depth);
    }
  }

  lemma {:induction false} FlattenPathsPlain(w: World, paths: seq<Path>, depth: nat)
    ensures forall i :: 0 <= i < |FlattenPaths(w, paths, depth)| ==> FlattenPaths(w, paths, depth)[i].include_ == ""
    decreases depth, 1, |paths|
  {
    if paths != [] {
      if w.abs(paths[0]).Some? {
        FlattenPlain(w, w.abs(paths[0]).value, depth);
      }
      FlattenPathsPlain(w, paths[1..], depth);
    }
  }
}
