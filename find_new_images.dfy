/**
 * find_new_images.php: which images of a new dump have no perceptual
 * near-duplicate among the images already present.
 *
 * The perceptual difference of two images (puzzle-diff, compared against the
 * threshold 0.066) is the parameter isNear: isNear(n, o) holds exactly when
 * the difference of the new image n and the old image o is below the
 * threshold. A directory listing is a given tree of entries.
 *
 * An image set is a PHP array from path to true, iterated in insertion
 * order; as every value is true, it is modelled by its keys, in order.
 */
module FindNewImages {
  import opened Strings

  // ---- The comparison loop ----

  /** One call of get_img_diff: the pair compared and the progress counter
      the percentage is computed from, read just before the call. */
  datatype Comparison = Comparison(newPath: string, oldPath: string, progress: nat)

  /** The position of the first old image near x, or |olds| when there is
      none. */
  function FirstNear(x: string, olds: seq<string>, isNear: (string, string) -> bool): (k: nat)
    ensures k <= |olds|
    ensures forall j :: 0 <= j < k ==> !isNear(x, olds[j])
    ensures k < |olds| ==> isNear(x, olds[k])
  {
    if |olds| == 0 then 0
    else if isNear(x, olds[0]) then 0
    else 1 + FirstNear(x, olds[1..], isNear)
  }

  /** How many old images x is compared with: up to and including the
      first near one, or all of them. */
  function Compared(x: string, olds: seq<string>, isNear: (string, string) -> bool): (c: nat)
    ensures c <= |olds|
  {
    var k := FirstNear(x, olds, isNear);
    if k < |olds| then k + 1 else |olds|
  }

  /** The first n comparisons of the new image x: with olds[0], ...,
      olds[n - 1], the first made at counter reading start. */
  function Comparisons(x: string, olds: seq<string>, start: nat, n: nat): (t: seq<Comparison>)
    requires n <= |olds|
    ensures |t| == n
  {
    seq(n, j requires 0 <= j < n => Comparison(x, olds[j], start + j))
  }

  /** One more comparison extends the comparisons recorded so far. */
  lemma ComparisonsSnoc(x: string, olds: seq<string>, start: nat, n: nat)
    requires n < |olds|
    ensures Comparisons(x, olds, start, n + 1) == Comparisons(x, olds, start, n) + [Comparison(x, olds[n], start + n)]
  {
  }

  /** The comparisons made for the new image x at outer position i. */
  function ImageTrace(x: string, i: nat, olds: seq<string>, isNear: (string, string) -> bool): (t: seq<Comparison>)
    ensures |t| == Compared(x, olds, isNear)
  {
    Comparisons(x, olds, i * |olds|, Compared(x, olds, isNear))
  }

  /** All comparisons of a run, in order. */
  function Trace(news: seq<string>, olds: seq<string>, isNear: (string, string) -> bool): seq<Comparison> {
    if |news| == 0 then []
    else Trace(news[..|news| - 1], olds, isNear) + ImageTrace(news[|news| - 1], |news| - 1, olds, isNear)
  }

  /** The unique new images: those with no near old image, in the order of
      news. */
  function Unique(news: seq<string>, olds: seq<string>, isNear: (string, string) -> bool): seq<string> {
    if |news| == 0 then []
    else
      var x := news[|news| - 1];
      Unique(news[..|news| - 1], olds, isNear) + (if FirstNear(x, olds, isNear) == |olds| then [x] else [])
  }

  /**
   * The inner foreach of the comparison loop: the new image x is compared
   * with the old images in turn, the progress counter going up by one per
   * comparison from start, until one old image is near. Returns whether one
   * was, the comparisons made and the counter after them.
   */
  method CompareWithOlds(x: string, olds: seq<string>, isNear: (string, string) -> bool, start: nat)
    returns (near: bool, comparisons: seq<Comparison>, counter: nat)
    ensures near <==> FirstNear(x, olds, isNear) < |olds|
    ensures near <==> exists o :: o in olds && isNear(x, o)
    ensures comparisons == Comparisons(x, olds, start, Compared(x, olds, isNear))
    ensures counter == start + |comparisons|
  {
    comparisons := [];
    counter := start;
    for j := 0 to |olds|
      invariant counter == start + j
      invariant forall q :: 0 <= q < j ==> !isNear(x, olds[q])
      invariant comparisons == Comparisons(x, olds, start, j)
    {
      ComparisonsSnoc(x, olds, start, j);
      comparisons := comparisons + [Comparison(x, olds[j], counter)];
      counter := counter + 1;
      if isNear(x, olds[j]) {
        assert FirstNear(x, olds, isNear) == j;
        return true, comparisons, counter;
      }
    }
    assert FirstNear(x, olds, isNear) == |olds|;
    near := false;
    forall o | o in olds
      ensures !isNear(x, o)
    {
      var q :| 0 <= q < |olds| && olds[q] == o;
    }
  }

  /**
   * The comparison loop of find_new_images.php: every new image is compared
   * with the old images until one is near; then the loop goes on with the
   * next new image (continue(2)) and the counter jumps to the start of that
   * image's comparisons. An image that meets no near old image is recorded
   * as unique. Returns the unique images, the comparisons made and the final
   * counters.
   */
  method FindUnique(olds: seq<string>, news: seq<string>, isNear: (string, string) -> bool)
    returns (unique: seq<string>, trace: seq<Comparison>, counter: nat, counterNew: nat)
    ensures unique == Unique(news, olds, isNear)
    ensures trace == Trace(news, olds, isNear)
    ensures counterNew == |news| && counter == |news| * |olds|
  {
    unique := [];
    trace := [];
    counter := 0;
    counterNew := 0;
    for i := 0 to |news|
      invariant counterNew == i && counter == counterNew * |olds|
      invariant unique == Unique(news[..i], olds, isNear)
      invariant trace == Trace(news[..i], olds, isNear)
    {
      var x := news[i];
      PrefixStep(news, i, olds, isNear);
      var near, comparisons;
      near, comparisons, counter := CompareWithOlds(x, olds, isNear, counter);
      trace := trace + comparisons;
      assert (i + 1) * |olds| == i * |olds| + |olds|;
      if near {
        // Found a duplicate: go on with the next new image.
        counterNew := counterNew + 1;
        counter := counterNew * |olds|;
        continue;
      }
      counterNew := counterNew + 1;
      unique := unique + [x];
    }
    assert news[..|news|] == news;
  }

  /** One more new image: its comparisons follow those before it, and it is
      added to the unique images exactly when no old image is near it. */
  lemma PrefixStep(news: seq<string>, i: nat, olds: seq<string>, isNear: (string, string) -> bool)
    requires i < |news|
    ensures Trace(news[..i + 1], olds, isNear) == Trace(news[..i], olds, isNear) + ImageTrace(news[i], i, olds, isNear)
    ensures Unique(news[..i + 1], olds, isNear)
      == Unique(news[..i], olds, isNear) + (if FirstNear(news[i], olds, isNear) == |olds| then [news[i]] else [])
  {
    assert news[..i + 1][..i] == news[..i];
  }

  /** A new image is unique exactly when no old image is near it. */
  lemma {:induction false} UniqueMembership(news: seq<string>, olds: seq<string>, isNear: (string, string) -> bool, x: string)
    ensures x in Unique(news, olds, isNear) <==> x in news && forall o :: o in olds ==> !isNear(x, o)
  {
    if |news| > 0 {
      var init := news[..|news| - 1];
      var last := news[|news| - 1];
      UniqueMembership(init, olds, isNear, x);
      assert news == init + [last];
      if x == last && FirstNear(x, olds, isNear) < |olds| {
        var k := FirstNear(x, olds, isNear);
        assert olds[k] in olds;
      }
    }
  }

  /** The unique images keep the order of news: the unique images of a
      concatenation are those of each part, one after the other. */
  lemma {:induction false} UniqueAppend(a: seq<string>, b: seq<string>, olds: seq<string>, isNear: (string, string) -> bool)
    ensures Unique(a + b, olds, isNear) == Unique(a, olds, isNear) + Unique(b, olds, isNear)
  {
    if |b| > 0 {
      var init := b[..|b| - 1];
      UniqueAppend(a, init, olds, isNear);
      assert (a + b)[..|a + b| - 1] == a + init;
      assert (a + b)[|a + b| - 1] == b[|b| - 1];
    } else {
      assert a + b == a;
    }
  }

  /** The unique images are a subsequence of news: each is drawn from news
      and there are no more of them. */
  lemma {:induction false} UniqueBounded(news: seq<string>, olds: seq<string>, isNear: (string, string) -> bool)
    ensures |Unique(news, olds, isNear)| <= |news|
    ensures forall x :: x in Unique(news, olds, isNear) ==> x in news
  {
    if |news| > 0 {
      UniqueBounded(news[..|news| - 1], olds, isNear);
      assert news == news[..|news| - 1] + [news[|news| - 1]];
    }
  }

  /** The comparisons made for one new image stop at the first near old
      image: they go through the old images in order, none but the last is
      near, and the last is near unless all old images were compared. The
      image is recorded as unique exactly when all were compared and none is
      near. */
  lemma ShortCircuit(x: string, i: nat, olds: seq<string>, isNear: (string, string) -> bool)
    ensures var t := ImageTrace(x, i, olds, isNear);
      && (forall j :: 0 <= j < |t| ==> t[j].newPath == x && t[j].oldPath == olds[j])
      && (forall j :: 0 <= j < |t| - 1 ==> !isNear(x, t[j].oldPath))
      && (|t| < |olds| ==> |t| > 0 && isNear(x, t[|t| - 1].oldPath))
      && (Unique([x], olds, isNear) == [x] <==> |t| == |olds| && forall o :: o in olds ==> !isNear(x, o))
  {
    UniqueMembership([x], olds, isNear, x);
    assert Unique([x], olds, isNear) == Unique([], olds, isNear) + (if FirstNear(x, olds, isNear) == |olds| then [x] else []);
  }

  /** With no old images, every new image is unique and no comparison is
      made. */
  lemma {:induction false} NoOldImages(news: seq<string>, isNear: (string, string) -> bool)
    ensures Unique(news, [], isNear) == news
    ensures Trace(news, [], isNear) == []
  {
    if |news| > 0 {
      NoOldImages(news[..|news| - 1], isNear);
      assert news == news[..|news| - 1] + [news[|news| - 1]];
    }
  }

  /** The comparisons of a run: their number, at most |news| * |olds|, and
      their progress readings, which strictly increase and stay below that
      total, so the percentage shown never reaches 100% before the end. */
  lemma {:induction false} TraceProgress(news: seq<string>, olds: seq<string>, isNear: (string, string) -> bool)
    ensures var t := Trace(news, olds, isNear);
      && |t| <= |news| * |olds|
      && (forall a :: 0 <= a < |t| ==> t[a].progress < |news| * |olds|)
      && (forall a, b :: 0 <= a < b < |t| ==> t[a].progress < t[b].progress)
  {
    if |news| > 0 {
      var n := |news| - 1;
      var init := news[..n];
      TraceProgress(init, olds, isNear);
      var p := Trace(init, olds, isNear);
      var q := ImageTrace(news[n], n, olds, isNear);
      var t := p + q;
      assert forall a :: 0 <= a < |p| ==> t[a] == p[a] && p[a].progress < n * |olds|;
      assert forall b :: 0 <= b < |q| ==> t[|p| + b] == q[b] && q[b].progress == n * |olds| + b;
      forall a, b | 0 <= a < b < |t|
        ensures t[a].progress < t[b].progress
      {
        if b >= |p| && a < |p| {
          assert t[b] == q[b - |p|];
        }
      }
      assert (n + 1) * |olds| == n * |olds| + |olds|;
    }
  }

  /** A run with old images a.png and b.png and a new image c.png near
      a.png only: c.png is a duplicate, no image is unique,
      and b.png is never compared. */
  lemma DuplicateExample()
    ensures var isNear := (n: string, o: string) => n == "c.png" && o == "a.png";
      && Unique(["c.png"], ["a.png", "b.png"], isNear) == []
      && Trace(["c.png"], ["a.png", "b.png"], isNear) == [Comparison("c.png", "a.png", 0)]
  {
    var isNear := (n: string, o: string) => n == "c.png" && o == "a.png";
    var olds := ["a.png", "b.png"];
    assert FirstNear("c.png", olds, isNear) == 0;
    assert ["c.png"][..0] == [];
  }

  // ---- The directory walk ----

  /** An entry of a directory listing: "." or "..", a file, or a
      subdirectory with its own listing. */
  datatype Entry = Dot | File(name: string) | Dir(name: string, entries: seq<Entry>)

  /** The image extensions the walk keeps ($GLOBALS['file_exts']). */
  const FileExts: seq<string> := ["jpg", "png", "jpeg", "gif"]

  /** The extension of a file name: the text after its last '.', trimmed
      and in lower case; the whole name when it has no '.'. */
  function Extension(fileName: string): string {
    ToLower(Trim(AfterLastDot(fileName)))
  }

  predicate IsImageName(fileName: string) {
    Extension(fileName) in FileExts
  }

  /** $stack[$path] = true: a new key is appended; a present key keeps its
      place. */
  function Insert(keys: seq<string>, k: string): (r: seq<string>)
    ensures forall x :: x in r <==> x in keys || x == k
    ensures Distinct(keys) ==> Distinct(r)
  {
    if k in keys then keys else keys + [k]
  }

  /** array_merge(a, b) on string keys: the keys of a in order, then those
      of b that a lacks. */
  function Merge(a: seq<string>, b: seq<string>): (r: seq<string>)
    ensures forall x :: x in r <==> x in a || x in b
    ensures Distinct(a) && Distinct(b) ==> Distinct(r)
    decreases |b|
  {
    if |b| == 0 then a
    else Merge(Insert(a, b[0]), b[1..])
  }

  predicate Distinct(s: seq<string>) {
    forall i, j :: 0 <= i < j < |s| ==> s[i] != s[j]
  }

  /** The keys iterate_dir returns for the directory dir with the given
      listing. */
  function DirImages(dir: string, entries: seq<Entry>): seq<string>
    decreases entries
  {
    if |entries| == 0 then []
    else
      var stack := DirImages(dir, entries[..|entries| - 1]);
      match entries[|entries| - 1]
      case Dot => stack
      case Dir(name, children) => Merge(DirImages(dir + "/" + name, children), stack)
      case File(name) => if IsImageName(name) then Insert(stack, dir + "/" + name) else stack
  }

  /** The image paths below dir, as a set: a reference definition of the
      walk that ignores the order. */
  function ImagePaths(dir: string, entries: seq<Entry>): set<string>
    decreases entries
  {
    if |entries| == 0 then {}
    else
      var rest := ImagePaths(dir, entries[..|entries| - 1]);
      match entries[|entries| - 1]
      case Dot => rest
      case Dir(name, children) => rest + ImagePaths(dir + "/" + name, children)
      case File(name) => if IsImageName(name) then rest + {dir + "/" + name} else rest
  }

  /** iterate_dir: the image files below dir, subdirectories first in the
      order array_merge gives them. */
  method IterateDir(dir: string, entries: seq<Entry>) returns (stack: seq<string>)
    ensures stack == DirImages(dir, entries)
    decreases entries
  {
    stack := [];
    for i := 0 to |entries|
      invariant stack == DirImages(dir, entries[..i])
    {
      assert entries[..i + 1][..i] == entries[..i];
      var e := entries[i];
      assert e in entries;
      match e
      case Dot =>
        continue;
      case Dir(name, children) =>
        var dirStack := IterateDir(dir + "/" + name, children);
        stack := Merge(dirStack, stack);
        continue;
      case File(fn) =>
        var filePath := dir + "/" + fn;
        if !(Extension(fn) in FileExts) {
          continue;
        }
        stack := Insert(stack, filePath);
    }
    assert entries[..|entries|] == entries;
  }

  /** The walk finds exactly the image paths below dir, each once. */
  lemma {:induction false} DirImagesSpec(dir: string, entries: seq<Entry>)
    ensures forall p :: p in DirImages(dir, entries) <==> p in ImagePaths(dir, entries)
    ensures Distinct(DirImages(dir, entries))
    decreases entries
  {
    if |entries| > 0 {
      var init := entries[..|entries| - 1];
      var e := entries[|entries| - 1];
      assert e in entries;
      DirImagesSpec(dir, init);
      var stack := DirImages(dir, init);
      var rest := ImagePaths(dir, init);
      match e
      case Dot =>
        assert DirImages(dir, entries) == stack;
        assert ImagePaths(dir, entries) == rest;
      case Dir(name, children) =>
        var sub := dir + "/" + name;
        DirImagesSpec(sub, children);
        assert DirImages(dir, entries) == Merge(DirImages(sub, children), stack);
        assert ImagePaths(dir, entries) == rest + ImagePaths(sub, children);
      case File(name) =>
        var path := dir + "/" + name;
        if IsImageName(name) {
          assert DirImages(dir, entries) == Insert(stack, path);
          assert ImagePaths(dir, entries) == rest + {path};
        } else {
          assert DirImages(dir, entries) == stack;
          assert ImagePaths(dir, entries) == rest;
        }
    }
  }

  /** Only the text after the last '.' decides, trimmed and in lower case. */
  lemma ExtensionOf(base: string, ext: string)
    requires '.' !in ext
    ensures Extension(base + "." + ext) == ToLower(Trim(ext))
    ensures IsImageName(base + "." + ext) <==> ToLower(Trim(ext)) in FileExts
  {
    AfterLastDotOf(base, ext);
  }

  /** A name without a '.' is its own extension. */
  lemma ExtensionWithoutDot(fileName: string)
    requires '.' !in fileName
    ensures Extension(fileName) == ToLower(Trim(fileName))
  {
    AfterLastDotNoDot(fileName);
  }

  /** The case of the extension does not matter: any spelling of a listed
      extension is accepted. */
  lemma AnyCaseAccepted(base: string, ext: string)
    requires '.' !in ext && ToLower(ext) in FileExts
    ensures IsImageName(base + "." + ext)
  {
    var lower := ToLower(ext);
    assert |lower| >= 3 && lower[0] != ' ' && lower[|lower| - 1] != ' ';
    assert !IsTrimChar(lower[0]) && !IsTrimChar(lower[|lower| - 1]);
    TrimUnchanged(ext);
    ExtensionOf(base, ext);
  }

  /** A blank after the extension does not matter. */
  lemma TrailingBlankIgnored(base: string, ext: string)
    requires '.' !in ext && |ext| > 0 && !IsTrimChar(ext[0]) && !IsTrimChar(ext[|ext| - 1])
    ensures IsImageName(base + "." + ext + " ") <==> IsImageName(base + "." + ext)
  {
    assert base + "." + ext + " " == base + "." + (ext + " ");
    ExtensionOf(base, ext + " ");
    ExtensionOf(base, ext);
    TrimTrailingSpace(ext);
    TrimUnchanged(ext);
  }
}
