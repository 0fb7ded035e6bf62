/** Removal of the boundary-connected dark background of an icon.

    The source walks a worklist of row-major pixel indices. Here the worklist is
    proved against reachability: a pixel is selected exactly when a four-connected
    path of dark pixels joins it to the border of the image. */
module BrandIcon {
  import opened Sequences

  const DARK_THRESHOLD := 24

  type Channel = c: int | 0 <= c < 256

  datatype Pixel = Pixel(r: Channel, g: Channel, b: Channel, a: Channel)

  /** Pixels in row-major order. */
  datatype Image = Image(width: nat, height: nat, pixels: seq<Pixel>) {
    predicate Valid() {
      0 < width && 0 < height && |pixels| == width * height
    }
  }

  function Max(x: int, y: int): int {
    if x < y then y else x
  }

  predicate Dark(p: Pixel) {
    Max(p.r, Max(p.g, p.b)) <= DARK_THRESHOLD
  }

  /** A pixel is dark when none of its channels is above 24. */
  lemma DarkMeans(p: Pixel)
    ensures Dark(p) <==> p.r <= 24 && p.g <= 24 && p.b <= 24
  {
  }

  // ---- Reachability over any finite graph of dark and border vertices ----

  datatype Graph = Graph(size: nat, dark: nat -> bool, border: nat -> bool, adjacent: (nat, nat) -> bool) {
    predicate DarkAt(i: nat) {
      i < size && dark(i)
    }
  }

  ghost predicate DarkPath(g: Graph, path: seq<nat>) {
    && path != []
    && g.border(path[0])
    && (forall k :: 0 <= k < |path| ==> g.DarkAt(path[k]))
    && (forall k, l :: 0 <= k && l == k + 1 < |path| ==> g.adjacent(path[k], path[l]))
  }

  /** A dark path leads from the border to the vertex. */
  ghost predicate Joined(g: Graph, i: nat) {
    exists path :: DarkPath(g, path) && path[|path| - 1] == i
  }

  lemma JoinedAtBorder(g: Graph, i: nat)
    requires g.DarkAt(i) && g.border(i)
    ensures Joined(g, i)
  {
    assert DarkPath(g, [i]) && [i][|[i]| - 1] == i;
  }

  lemma JoinedIsDark(g: Graph, i: nat)
    requires Joined(g, i)
    ensures g.DarkAt(i)
  {
    var path :| DarkPath(g, path) && path[|path| - 1] == i;
    assert g.DarkAt(path[|path| - 1]);
  }

  lemma JoinedStep(g: Graph, i: nat, j: nat)
    requires Joined(g, i) && g.adjacent(i, j) && g.DarkAt(j)
    ensures Joined(g, j)
  {
    var path :| DarkPath(g, path) && path[|path| - 1] == i;
    var longer := path + [j];
    assert DarkPath(g, longer) && longer[|longer| - 1] == j;
  }

  /** A set that holds the dark border and is closed under dark neighbours holds
      the end of every dark path. */
  lemma {:induction false} ClosedHoldsPath(g: Graph, s: set<nat>, path: seq<nat>)
    requires DarkPath(g, path)
    requires forall i: nat :: g.DarkAt(i) && g.border(i) ==> i in s
    requires forall i: nat, j: nat :: i in s && g.adjacent(i, j) && g.DarkAt(j) ==> j in s
    ensures path[|path| - 1] in s
  {
    if |path| > 1 {
      ClosedHoldsPath(g, s, path[..|path| - 1]);
      assert g.adjacent(path[|path| - 2], path[|path| - 1]);
    }
  }

  ghost function DarkVertices(g: Graph): set<nat> {
    set i: nat | i < g.size && g.DarkAt(i)
  }

  /** What is known of the worklist between two pops. */
  ghost predicate Flooding(g: Graph, selected: set<nat>, pending: seq<nat>) {
    && (forall i :: i in selected ==> Joined(g, i))
    && (forall i :: i in pending ==> i < g.size && (g.DarkAt(i) ==> Joined(g, i)))
    && (forall i: nat :: g.DarkAt(i) && g.border(i) ==> i in selected || i in pending)
    && (forall i: nat, j: nat :: i in selected && g.adjacent(i, j) && g.DarkAt(j) ==> j in selected || j in pending)
  }

  lemma FloodingSkips(g: Graph, selected: set<nat>, pending: seq<nat>)
    requires pending != [] && Flooding(g, selected, pending)
    requires pending[0] in selected || !g.DarkAt(pending[0])
    ensures Flooding(g, selected, pending[1..])
  {
    HeadOrTail(pending);
  }

  lemma FloodingSelects(g: Graph, selected: set<nat>, pending: seq<nat>, next: seq<nat>)
    requires pending != [] && Flooding(g, selected, pending) && g.DarkAt(pending[0])
    requires forall j: nat :: j in next <==> j < g.size && g.adjacent(pending[0], j)
    requires pending[0] !in selected
    ensures Flooding(g, selected + {pending[0]}, pending[1..] + next)
    ensures DarkVertices(g) - (selected + {pending[0]}) < DarkVertices(g) - selected
  {
    HeadOrTail(pending);
    assert pending[0] in DarkVertices(g) - selected;
    forall j: nat | j in next && g.DarkAt(j)
      ensures Joined(g, j)
    {
      JoinedStep(g, pending[0], j);
    }
  }

  lemma FloodingEnds(g: Graph, selected: set<nat>)
    requires Flooding(g, selected, [])
    ensures forall i: nat :: i in selected <==> Joined(g, i)
  {
    forall i: nat | Joined(g, i)
      ensures i in selected
    {
      var path :| DarkPath(g, path) && path[|path| - 1] == i;
      ClosedHoldsPath(g, selected, path);
    }
  }

  // ---- The image as such a graph ----

  function Column(im: Image, i: nat): nat
    requires im.Valid()
  {
    i % im.width
  }

  function Row(im: Image, i: nat): nat
    requires im.Valid()
  {
    i / im.width
  }

  predicate OnBorder(im: Image, i: nat)
    requires im.Valid()
  {
    Column(im, i) == 0 || Column(im, i) == im.width - 1 || Row(im, i) == 0 || Row(im, i) == im.height - 1
  }

  function Distance(x: int, y: int): nat {
    if x < y then y - x else x - y
  }

  /** Four-connected: one step apart in the taxicab metric. */
  predicate Adjacent(im: Image, i: nat, j: nat)
    requires im.Valid()
  {
    Distance(Column(im, i), Column(im, j)) + Distance(Row(im, i), Row(im, j)) == 1
  }

  function Grid(im: Image): Graph
    requires im.Valid()
  {
    Graph(|im.pixels|,
          (i: nat) => i < |im.pixels| && Dark(im.pixels[i]),
          (i: nat) => OnBorder(im, i),
          (i: nat, j: nat) => Adjacent(im, i, j))
  }

  // ---- Index arithmetic ----

  lemma DivModOfSum(w: nat, y: nat, x: nat)
    requires x < w
    ensures (y * w + x) / w == y && (y * w + x) % w == x
  {
    var q, r := (y * w + x) / w, (y * w + x) % w;
    assert y * w + x == q * w + r;
    if q < y { MulMonotone(q + 1, y, w); }
    if y < q { MulMonotone(y + 1, q, w); }
  }

  lemma MulMonotone(a: nat, b: nat, c: nat)
    requires a <= b
    ensures a * c <= b * c
  {
  }

  /** The cell in column x of row y is a pixel of the image, and every pixel is such a cell. */
  lemma CellInImage(im: Image, y: nat, x: nat)
    requires im.Valid() && x < im.width && y < im.height
    ensures Index(im, y, x) < |im.pixels|
    ensures Column(im, Index(im, y, x)) == x && Row(im, Index(im, y, x)) == y
  {
    DivModOfSum(im.width, y, x);
    MulMonotone(y + 1, im.height, im.width);
  }

  lemma IndexIsCell(im: Image, i: nat)
    requires im.Valid() && i < |im.pixels|
    ensures Column(im, i) < im.width && Row(im, i) < im.height
    ensures i == Index(im, Row(im, i), Column(im, i))
  {
    if im.height <= Row(im, i) { MulMonotone(im.height, Row(im, i), im.width); }
  }

  // ---- The worklist's seeds and neighbours ----

  function Index(im: Image, y: nat, x: nat): nat {
    y * im.width + x
  }

  function Seeds(im: Image): seq<nat>
    requires im.Valid()
  {
    seq(im.width, x requires 0 <= x => Index(im, 0, x))
    + seq(im.width, x requires 0 <= x => Index(im, im.height - 1, x))
    + seq(im.height, y requires 0 <= y => Index(im, y, 0))
    + seq(im.height, y requires 0 <= y => Index(im, y, im.width - 1))
  }

  lemma SeedOnBorder(im: Image, k: nat)
    requires im.Valid() && k < |Seeds(im)|
    ensures Seeds(im)[k] < |im.pixels| && OnBorder(im, Seeds(im)[k])
  {
    var w, h := im.width, im.height;
    if k < w { CellInImage(im, 0, k); }
    else if k < 2 * w { CellInImage(im, h - 1, k - w); }
    else if k < 2 * w + h { CellInImage(im, k - 2 * w, 0); }
    else { CellInImage(im, k - 2 * w - h, w - 1); }
  }

  lemma BorderIsSeeded(im: Image, i: nat)
    requires im.Valid() && i < |im.pixels| && OnBorder(im, i)
    ensures i in Seeds(im)
  {
    IndexIsCell(im, i);
    var x, y := Column(im, i), Row(im, i);
    var s := Seeds(im);
    if y == 0 { assert s[x] == i; }
    else if y == im.height - 1 { assert s[im.width + x] == i; }
    else if x == 0 { assert s[2 * im.width + y] == i; }
    else { assert s[2 * im.width + im.height + y] == i; }
  }

  lemma SeedsAreTheBorder(im: Image, i: nat)
    requires im.Valid()
    ensures i in Seeds(im) <==> i < |im.pixels| && OnBorder(im, i)
  {
    if i in Seeds(im) {
      var k :| 0 <= k < |Seeds(im)| && Seeds(im)[k] == i;
      SeedOnBorder(im, k);
    }
    if i < |im.pixels| && OnBorder(im, i) { BorderIsSeeded(im, i); }
  }

  function Cell(im: Image, x: int, y: int): seq<nat>
    requires im.Valid()
  {
    if 0 <= x < im.width && 0 <= y < im.height then [Index(im, y, x)] else []
  }

  function Neighbours(im: Image, i: nat): seq<nat>
    requires im.Valid()
  {
    var x: int, y: int := i % im.width, i / im.width;
    Cell(im, x - 1, y) + Cell(im, x + 1, y) + Cell(im, x, y - 1) + Cell(im, x, y + 1)
  }

  lemma CellIsItsCoordinates(im: Image, x: int, y: int, j: nat)
    requires im.Valid()
    ensures j in Cell(im, x, y) <==> j < |im.pixels| && Column(im, j) == x && Row(im, j) == y
  {
    if j in Cell(im, x, y) { CellInImage(im, y, x); }
    if j < |im.pixels| { IndexIsCell(im, j); }
  }

  lemma NeighboursAreAdjacent(im: Image, i: nat, j: nat)
    requires im.Valid() && i < |im.pixels|
    ensures j in Neighbours(im, i) <==> j < |im.pixels| && Adjacent(im, i, j)
  {
    var x: int, y: int := Column(im, i), Row(im, i);
    CellIsItsCoordinates(im, x - 1, y, j);
    CellIsItsCoordinates(im, x + 1, y, j);
    CellIsItsCoordinates(im, x, y - 1, j);
    CellIsItsCoordinates(im, x, y + 1, j);
  }

  // ---- The worklist ----

  lemma FloodingStarts(im: Image)
    requires im.Valid()
    ensures Flooding(Grid(im), {}, Seeds(im))
  {
    forall i: nat
      ensures i in Seeds(im) <==> i < |im.pixels| && Grid(im).border(i)
      ensures i in Seeds(im) && Grid(im).DarkAt(i) ==> Joined(Grid(im), i)
    {
      SeedsAreTheBorder(im, i);
      if i in Seeds(im) && Grid(im).DarkAt(i) { JoinedAtBorder(Grid(im), i); }
    }
  }

  lemma NeighboursAreGridEdges(im: Image, i: nat)
    requires im.Valid() && i < |im.pixels|
    ensures forall j: nat :: j in Neighbours(im, i) <==> j < |im.pixels| && Grid(im).adjacent(i, j)
  {
    forall j: nat
      ensures j in Neighbours(im, i) <==> j < |im.pixels| && Grid(im).adjacent(i, j)
    {
      NeighboursAreAdjacent(im, i, j);
    }
  }

  /** The worklist ends for every image and selects exactly the joined pixels. */
  method Flood(im: Image) returns (selected: set<nat>)
    requires im.Valid()
    ensures forall i: nat :: i in selected <==> Joined(Grid(im), i)
  {
    selected := {};
    var pending := Seeds(im);
    ghost var g := Grid(im);
    FloodingStarts(im);
    while pending != []
      invariant Flooding(g, selected, pending)
      decreases DarkVertices(g) - selected, |pending|
    {
      var index := pending[0];
      if index in selected || !Dark(im.pixels[index]) {
        FloodingSkips(g, selected, pending);
        pending := pending[1..];
      } else {
        NeighboursAreGridEdges(im, index);
        FloodingSelects(g, selected, pending, Neighbours(im, index));
        selected, pending := selected + {index}, pending[1..] + Neighbours(im, index);
      }
    }
    FloodingEnds(g, selected);
  }

  // ---- The alpha rewrite ----

  function Transparent(p: Pixel): Pixel {
    p.(a := 0)
  }

  /** The cleaned image: joined pixels lose their alpha, all others keep every channel. */
  ghost function Cleaned(im: Image): Image
    requires im.Valid()
  {
    im.(pixels := seq(|im.pixels|, i requires 0 <= i < |im.pixels| =>
                        if Joined(Grid(im), i) then Transparent(im.pixels[i]) else im.pixels[i]))
  }

  predicate KeptWhenBright(p: Pixel, out: Pixel) {
    p.r > 24 || p.g > 24 || p.b > 24 ==> out == p
  }

  predicate ClearedWhenDark(p: Pixel, out: Pixel) {
    p.r <= 24 && p.g <= 24 && p.b <= 24 ==> out.a == 0 && (out.r, out.g, out.b) == (p.r, p.g, p.b)
  }

  /** A pixel with a channel above 24 keeps every channel; one without, on the border, loses its alpha and
      so does every such pixel beside one that lost it. */
  lemma CleanedKeepsBrightPixels(im: Image)
    requires im.Valid()
    ensures forall i :: 0 <= i < |im.pixels| ==> KeptWhenBright(im.pixels[i], Cleaned(im).pixels[i])
    ensures forall i: nat :: i < |im.pixels| && OnBorder(im, i) ==>
              ClearedWhenDark(im.pixels[i], Cleaned(im).pixels[i])
    ensures forall i: nat, j: nat :: Joined(Grid(im), i) && j < |im.pixels| && Adjacent(im, i, j) ==>
              ClearedWhenDark(im.pixels[j], Cleaned(im).pixels[j])
  {
    forall i: nat | i < |im.pixels|
      ensures KeptWhenBright(im.pixels[i], Cleaned(im).pixels[i])
      ensures OnBorder(im, i) ==> ClearedWhenDark(im.pixels[i], Cleaned(im).pixels[i])
    {
      DarkMeans(im.pixels[i]);
      if Joined(Grid(im), i) { JoinedIsDark(Grid(im), i); }
      if OnBorder(im, i) && Dark(im.pixels[i]) { JoinedAtBorder(Grid(im), i); }
    }
    forall i: nat, j: nat | Joined(Grid(im), i) && j < |im.pixels| && Adjacent(im, i, j)
      ensures ClearedWhenDark(im.pixels[j], Cleaned(im).pixels[j])
    {
      DarkMeans(im.pixels[j]);
      if Dark(im.pixels[j]) { JoinedStep(Grid(im), i, j); }
    }
  }

  datatype Report = Report(selectedPixels: nat, changedPixels: nat)

  /** The rewrite in place: the selected pixels lose their alpha. */
  method ClearSelected(im: Image, selected: set<nat>) returns (pixels: seq<Pixel>)
    requires forall i :: i in selected ==> i < |im.pixels|
    ensures |pixels| == |im.pixels|
    ensures forall i: nat :: i < |pixels| ==>
              pixels[i] == if i in selected then im.pixels[i].(a := 0) else im.pixels[i]
  {
    var result := new Pixel[|im.pixels|](i requires 0 <= i < |im.pixels| => im.pixels[i]);
    var todo := selected;
    while todo != {}
      invariant todo <= selected
      invariant forall i :: 0 <= i < result.Length ==>
                  result[i] == if i in selected && i !in todo then Transparent(im.pixels[i]) else im.pixels[i]
    {
      var index :| index in todo;
      result[index] := Transparent(im.pixels[index]);
      todo := todo - {index};
    }
    pixels := result[..];
  }

  method ChangedPixels(im: Image, output: Image) returns (changed: set<nat>)
    requires |output.pixels| == |im.pixels|
    ensures changed == set i: nat | i < |im.pixels| && output.pixels[i] != im.pixels[i]
  {
    changed := {};
    for i := 0 to |im.pixels|
      invariant changed == set j: nat | j < i && output.pixels[j] != im.pixels[j]
    {
      if output.pixels[i] != im.pixels[i] { changed := changed + {i}; }
    }
  }

  method Clean(im: Image) returns (output: Image, report: Report)
    requires im.Valid()
    ensures output == Cleaned(im)
    ensures exists selected: set<nat> ::
              && (forall i: nat :: i in selected <==> Joined(Grid(im), i))
              && report.selectedPixels == |selected|
    ensures report.changedPixels == |set i: nat | i < |im.pixels| && output.pixels[i] != im.pixels[i]|
    ensures output.width == im.width && output.height == im.height && |output.pixels| == |im.pixels|
    ensures forall i :: 0 <= i < |im.pixels| ==> KeptWhenBright(im.pixels[i], output.pixels[i])
    ensures forall i: nat :: i < |im.pixels| && OnBorder(im, i) ==> ClearedWhenDark(im.pixels[i], output.pixels[i])
  {
    CleanedKeepsBrightPixels(im);
    var selected := Flood(im);
    forall i: nat | i in selected
      ensures i < |im.pixels|
    {
      JoinedIsDark(Grid(im), i);
    }
    var pixels := ClearSelected(im, selected);
    output := im.(pixels := pixels);
    assert output.pixels == Cleaned(im).pixels;
    hide Grid, Cleaned, KeptWhenBright, ClearedWhenDark, OnBorder;
    var changed := ChangedPixels(im, output);
    report := Report(|selected|, |changed|);
  }

  // ---- What cleaning promises ----

  /** Only the alpha of joined pixels may change, so the check after saving never fails. */
  lemma CleanedTouchesOnlyJoinedAlpha(im: Image, i: nat)
    requires im.Valid() && i < |im.pixels|
    ensures var out := Cleaned(im).pixels[i];
            && (out.r, out.g, out.b) == (im.pixels[i].r, im.pixels[i].g, im.pixels[i].b)
            && (out != im.pixels[i] <==> Joined(Grid(im), i) && im.pixels[i].a != 0)
  {
  }

  lemma SamePathsAfterCleaning(im: Image, path: seq<nat>)
    requires im.Valid()
    ensures Cleaned(im).Valid()
    ensures DarkPath(Grid(im), path) <==> DarkPath(Grid(Cleaned(im)), path)
  {
    var g, out := Grid(im), Grid(Cleaned(im));
    assert forall i: nat :: g.DarkAt(i) <==> out.DarkAt(i);
    assert forall i: nat :: g.border(i) <==> out.border(i);
    assert forall i: nat, j: nat :: g.adjacent(i, j) <==> out.adjacent(i, j);
  }

  lemma SameSelectionAfterCleaning(im: Image, i: nat)
    requires im.Valid()
    ensures Cleaned(im).Valid()
    ensures Joined(Grid(im), i) <==> Joined(Grid(Cleaned(im)), i)
  {
    forall path: seq<nat>
      ensures DarkPath(Grid(im), path) <==> DarkPath(Grid(Cleaned(im)), path)
    {
      SamePathsAfterCleaning(im, path);
    }
  }

  /** A second run selects the same pixels and changes nothing. */
  lemma CleaningTwiceIsCleaningOnce(im: Image)
    requires im.Valid()
    ensures Cleaned(im).Valid()
    ensures Cleaned(Cleaned(im)) == Cleaned(im)
  {
    var once := Cleaned(im);
    forall i: nat | i < |im.pixels|
      ensures Cleaned(once).pixels[i] == once.pixels[i]
    {
      SameSelectionAfterCleaning(im, i);
    }
    assert Cleaned(once).pixels == once.pixels;
  }
}
