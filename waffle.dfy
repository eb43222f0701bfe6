/** The waffle chart (src/components/waffle.js): every voter is one cell;
    cells are laid out in quarters of 25 inside blocks of 100, one run of
    blocks per vote group, with a separator line between groups. The
    rendered markup is abstracted to the `Block` / `Quarter` / `Cell` tree;
    styles and React keys are not modelled. */
module WaffleChart {
  import opened Values

  function Min(a: int, b: int): int
  {
    if a <= b then a else b
  }

  /** `full_name(node)`: title and name run together, then one space, then the last name. */
  function FullName(node: Record): (r: string)
    ensures |r| == |Text(Get(node, "title"))| + |Text(Get(node, "name"))| + 1 + |Text(Get(node, "lastname"))|
    ensures "title" in node && node["title"].Str? && "name" in node && node["name"].Str? &&
            "lastname" in node && node["lastname"].Str? ==>
              r == node["title"].s + node["name"].s + " " + node["lastname"].s
  {
    Text(Get(node, "title")) + Text(Get(node, "name")) + " " + Text(Get(node, "lastname"))
  }

  /** `Math.ceil(n / d)` for a natural `n` and a positive `d`: the fewest
      groups of `d` that hold `n` items. */
  function CeilDiv(n: nat, d: nat): (k: nat)
    requires d > 0
    ensures k * d >= n
    ensures k == 0 || (k - 1) * d < n
  {
    (n + d - 1) / d
  }

  /** `a.slice(start, end)` for non-negative bounds: both are clamped to the length. */
  function Slice<T>(a: seq<T>, start: nat, end: nat): (r: seq<T>)
    ensures start <= end ==> |r| == Min(end, |a|) - Min(start, |a|)
    ensures end < start ==> r == []
    ensures forall i :: 0 <= i < |r| ==> start + i < end && start + i < |a| && r[i] == a[start + i]
  {
    var s := Min(start, |a|);
    var e := Min(end, |a|);
    if s <= e then a[s..e] else []
  }

  /** The chunks `split_array` hands to its callback:
      `Array(ceil(|a| / size))` indices, each mapped to `index * size` and then
      to `a.slice(start, start + size)`. */
  function Chunks<T>(a: seq<T>, size: nat): (r: seq<seq<T>>)
    requires size > 0
    ensures |r| == CeilDiv(|a|, size)
    ensures r == [] <==> a == []
    ensures forall i :: 0 <= i < |r| ==> |r[i]| <= size
  {
    seq(CeilDiv(|a|, size), index requires 0 <= index => Slice(a, index * size, index * size + size))
  }

  /** `split_array(a, size, callback)`: the callback applied to every chunk and its index. */
  function SplitArray<T, U>(a: seq<T>, size: nat, callback: (seq<T>, nat) -> U): (r: seq<U>)
    requires size > 0
    ensures |r| == CeilDiv(|a|, size)
    ensures forall i :: 0 <= i < |r| ==> r[i] == callback(Slice(a, i * size, i * size + size), i)
  {
    var chunks := Chunks(a, size);
    seq(|chunks|, index requires 0 <= index < |chunks| => callback(chunks[index], index))
  }

  /** The concatenation of a sequence of sequences. */
  function Flatten<T>(ss: seq<seq<T>>): seq<T>
  {
    if ss == [] then [] else Flatten(ss[..|ss| - 1]) + ss[|ss| - 1]
  }

  lemma MulMonotonic(x: nat, y: nat, d: nat)
    requires x <= y
    ensures x * d <= y * d
  {
  }

  /** `split_array` produces ceil(|a| / size) results; none for an empty array. */
  lemma SplitArrayCount<T, U>(a: seq<T>, size: nat, callback: (seq<T>, nat) -> U)
    requires size > 0
    ensures var r := SplitArray(a, size, callback);
      && |r| * size >= |a|
      && (|r| == 0 || (|r| - 1) * size < |a|)
      && (r == [] <==> a == [])
  {
  }

  /** Chunk `i` is `a[i * size .. min(i * size + size, |a|)]`: every chunk
      but the last holds exactly `size` elements, the last 1 to `size`. */
  lemma ChunkAt<T>(a: seq<T>, size: nat, i: nat)
    requires size > 0 && i < |Chunks(a, size)|
    ensures i * size < |a|
    ensures Chunks(a, size)[i] == a[i * size .. Min(i * size + size, |a|)]
    ensures i < |Chunks(a, size)| - 1 ==> |Chunks(a, size)[i]| == size
    ensures i == |Chunks(a, size)| - 1 ==> 1 <= |Chunks(a, size)[i]| <= size
  {
    var k := |Chunks(a, size)|;
    MulMonotonic(i, k - 1, size);
    if i < k - 1 {
      MulMonotonic(i + 1, k - 1, size);
      assert (i + 1) * size == i * size + size;
    } else {
      assert k * size == i * size + size;
    }
  }

  /** `split_array` calls its callback with chunk `i` and the index `i`. */
  lemma SplitArrayAt<T, U>(a: seq<T>, size: nat, callback: (seq<T>, nat) -> U, i: nat)
    requires size > 0 && i < |SplitArray(a, size, callback)|
    ensures |SplitArray(a, size, callback)| == |Chunks(a, size)|
    ensures SplitArray(a, size, callback)[i] == callback(a[i * size .. Min(i * size + size, |a|)], i)
  {
    ChunkAt(a, size, i);
  }

  /** The first `k` chunks concatenated are the first `k * size` elements. */
  lemma {:induction false} FlattenChunksPrefix<T>(a: seq<T>, size: nat, k: nat)
    requires size > 0 && k <= |Chunks(a, size)|
    ensures Flatten(Chunks(a, size)[..k]) == a[..Min(k * size, |a|)]
  {
    var c := Chunks(a, size);
    if k == 0 {
      assert c[..0] == [];
    } else {
      FlattenChunksPrefix(a, size, k - 1);
      assert c[..k][..k - 1] == c[..k - 1];
      ChunkAt(a, size, k - 1);
      assert (k - 1) * size + size == k * size;
      assert a[..(k - 1) * size] + a[(k - 1) * size .. Min(k * size, |a|)] == a[..Min(k * size, |a|)];
    }
  }

  /** Round trip: concatenating the chunks of `split_array`, before the
      callback, gives back the input. */
  lemma ChunksRoundTrip<T>(a: seq<T>, size: nat)
    requires size > 0
    ensures Flatten(Chunks(a, size)) == a
  {
    var c := Chunks(a, size);
    FlattenChunksPrefix(a, size, |c|);
    assert c[..|c|] == c;
  }

  // ---------------------------------------------------------------------
  // The rendered chart

  /** One voter's square, carrying the voter and the group's colours. */
  datatype Cell<T> = Cell(node: T, color: Option<string>, borderColor: Option<string>)

  /** A `quarter` div: up to 25 cells. */
  datatype Quarter<T> = Quarter(cells: seq<Cell<T>>)

  /** A `hundred` div of up to four quarters, or the `line` div between groups. */
  datatype Block<T> = Hundred(quarters: seq<Quarter<T>>) | Separator

  const HundredSize: nat := 100
  const QuarterSize: nat := 25

  /** The voters of a run of cells, left to right. */
  function CellNodes<T>(cells: seq<Cell<T>>): seq<T>
  {
    seq(|cells|, i requires 0 <= i < |cells| => cells[i].node)
  }

  /** The inner callback of `waffle`: a `quarter` div with one cell per
      element of its chunk, in order, all in the group's colours. */
  function QuarterCells<T>(quarter: seq<T>, color: Option<string>, borderColor: Option<string>): (q: Quarter<T>)
    ensures CellNodes(q.cells) == quarter
    ensures forall c :: c in q.cells ==> c.color == color && c.borderColor == borderColor
  {
    Quarter(seq(|quarter|, i requires 0 <= i < |quarter| => Cell(quarter[i], color, borderColor)))
  }

  /** `QuarterCells` in the shape `split_array` calls it; the index is only a React key. */
  function QuarterOf<T>(color: Option<string>, borderColor: Option<string>): (seq<T>, nat) -> Quarter<T>
  {
    (quarter: seq<T>, qi: nat) => QuarterCells(quarter, color, borderColor)
  }

  /** The outer callback of `waffle`: a `hundred` div holding its chunk split
      into quarters of 25, at most four of them for a chunk of at most 100. */
  function HundredBlock<T>(hundred: seq<T>, color: Option<string>, borderColor: Option<string>): (b: Block<T>)
    ensures b.Hundred? && |b.quarters| == CeilDiv(|hundred|, QuarterSize)
    ensures |hundred| <= HundredSize ==> |b.quarters| <= 4
    ensures forall j :: 0 <= j < |b.quarters| ==>
      forall c :: c in b.quarters[j].cells ==> c.color == color && c.borderColor == borderColor
  {
    Hundred(SplitArray(hundred, QuarterSize, QuarterOf(color, borderColor)))
  }

  /** `HundredBlock` in the shape `split_array` calls it; the index is only a React key. */
  function HundredOf<T>(color: Option<string>, borderColor: Option<string>): (seq<T>, nat) -> Block<T>
  {
    (hundred: seq<T>, hi: nat) => HundredBlock(hundred, color, borderColor)
  }

  /** A cell's tooltip: a link to `node.fields.slug` showing `full_name(node)`. */
  datatype Tooltip = Tooltip(slug: Option<Value>, text: string)

  /** The tooltip of the cell for `node`. Reading `node.fields.slug` throws
      (`None`) when `node.fields` is `undefined` or `null`; on any other
      non-object `fields` the slug is `undefined`. */
  function CellTooltip(node: Record): (r: Option<Tooltip>)
    ensures r.None? <==> "fields" !in node || node["fields"].Null?
    ensures r.Some? && node["fields"].Obj? ==> r.value.slug == Get(node["fields"].fields, "slug")
    ensures r.Some? ==> r.value.text == FullName(node)
  {
    if "fields" !in node || node["fields"].Null? then None
    else
      var fields := node["fields"];
      Some(Tooltip(if fields.Obj? then Get(fields.fields, "slug") else None, FullName(node)))
  }

  /** `waffle(data, color, borderColor, add_separator)`: the blocks of one
      group, followed by a separator when asked for. */
  function WaffleGroup<T>(data: seq<T>, color: Option<string>, borderColor: Option<string>,
                          addSeparator: bool): (result: seq<Block<T>>)
    ensures |result| == CeilDiv(|data|, HundredSize) + (if addSeparator then 1 else 0)
    ensures forall i :: 0 <= i < CeilDiv(|data|, HundredSize) ==> result[i].Hundred?
    ensures addSeparator ==> result[|result| - 1] == Separator
  {
    var result := SplitArray(data, HundredSize, HundredOf(color, borderColor));
    if addSeparator then result + [Separator] else result
  }

  /** `Waffle({data, colors, borderColors})`: one `waffle` per group, in
      order, with group `i` coloured by `colors[i]` and `borderColors[i]` and
      followed by a separator unless it is the last group. */
  function Waffle<T>(data: seq<seq<T>>, colors: seq<string>, borderColors: seq<string>): (r: seq<seq<Block<T>>>)
    ensures |r| == |data|
    ensures forall i :: 0 <= i < |r| ==>
      |r[i]| == CeilDiv(|data[i]|, HundredSize) + (if i < |data| - 1 then 1 else 0)
    ensures forall i, k :: 0 <= i < |r| && 0 <= k < CeilDiv(|data[i]|, HundredSize) ==> r[i][k].Hundred?
    ensures forall i :: 0 <= i < |r| - 1 ==> |r[i]| > 0 && r[i][|r[i]| - 1] == Separator
  {
    seq(|data|, i requires 0 <= i < |data| =>
      WaffleGroup(data[i], At(colors, i), At(borderColors, i), i < |data| - 1))
  }

  // ---------------------------------------------------------------------
  // Reading the chart back

  function BlockNodes<T>(b: Block<T>): seq<T>
  {
    match b
    case Separator => []
    case Hundred(qs) => Flatten(seq(|qs|, i requires 0 <= i < |qs| => CellNodes(qs[i].cells)))
  }

  /** The voters of a run of blocks, read left to right. */
  function Nodes<T>(blocks: seq<Block<T>>): seq<T>
  {
    Flatten(seq(|blocks|, i requires 0 <= i < |blocks| => BlockNodes(blocks[i])))
  }

  /** The number of separator lines in a run of blocks. */
  function Separators<T>(blocks: seq<Block<T>>): nat
  {
    if blocks == [] then 0
    else Separators(blocks[..|blocks| - 1]) + (if blocks[|blocks| - 1].Separator? then 1 else 0)
  }

  /** A hundred block holds the chunk it was built from, in order. */
  lemma HundredNodes<T>(hundred: seq<T>, color: Option<string>, borderColor: Option<string>)
    ensures BlockNodes(HundredBlock(hundred, color, borderColor)) == hundred
  {
    var qs := SplitArray(hundred, QuarterSize, QuarterOf(color, borderColor));
    var chunks := Chunks(hundred, QuarterSize);
    var quarterNodes := seq(|qs|, i requires 0 <= i < |qs| => CellNodes(qs[i].cells));
    forall j | 0 <= j < |qs|
      ensures quarterNodes[j] == chunks[j]
    {
      assert qs[j] == QuarterCells(chunks[j], color, borderColor);
    }
    assert quarterNodes == chunks;
    ChunksRoundTrip(hundred, QuarterSize);
  }

  /** The hundred blocks of a group, read in order, hold its data exactly. */
  lemma HundredsNodes<T>(data: seq<T>, color: Option<string>, borderColor: Option<string>)
    ensures Nodes(SplitArray(data, HundredSize, HundredOf(color, borderColor))) == data
  {
    var hundreds := SplitArray(data, HundredSize, HundredOf(color, borderColor));
    var chunks := Chunks(data, HundredSize);
    var perBlock := seq(|hundreds|, i requires 0 <= i < |hundreds| => BlockNodes(hundreds[i]));
    forall i | 0 <= i < |hundreds|
      ensures perBlock[i] == chunks[i]
    {
      HundredNodes(chunks[i], color, borderColor);
    }
    assert perBlock == chunks;
    ChunksRoundTrip(data, HundredSize);
  }

  /** A separator adds no voters. */
  lemma NodesWithSeparator<T>(blocks: seq<Block<T>>)
    ensures Nodes(blocks + [Separator]) == Nodes(blocks)
  {
    var all := blocks + [Separator];
    var perBlock := seq(|all|, i requires 0 <= i < |all| => BlockNodes(all[i]));
    assert perBlock[..|blocks|] == seq(|blocks|, i requires 0 <= i < |blocks| => BlockNodes(blocks[i]));
  }

  /** Reading the cells of `waffle`'s blocks in order gives back its data. */
  lemma WaffleGroupNodes<T>(data: seq<T>, color: Option<string>, borderColor: Option<string>, addSeparator: bool)
    ensures Nodes(WaffleGroup(data, color, borderColor, addSeparator)) == data
  {
    var hundreds := SplitArray(data, HundredSize, HundredOf(color, borderColor));
    HundredsNodes(data, color, borderColor);
    if addSeparator {
      NodesWithSeparator(hundreds);
    }
  }

  /** A hundred block built from one to 100 elements has one to four
      quarters of one to 25 cells, all in the given colours. */
  lemma HundredShape<T>(hundred: seq<T>, color: Option<string>, borderColor: Option<string>)
    requires 1 <= |hundred| <= HundredSize
    ensures var b := HundredBlock(hundred, color, borderColor);
      && 1 <= |b.quarters| <= 4
      && forall j :: 0 <= j < |b.quarters| ==>
           && 1 <= |b.quarters[j].cells| <= QuarterSize
           && forall c :: c in b.quarters[j].cells ==> c.color == color && c.borderColor == borderColor
  {
    var qs := SplitArray(hundred, QuarterSize, QuarterOf(color, borderColor));
    SplitArrayCount(hundred, QuarterSize, QuarterOf(color, borderColor));
    forall j | 0 <= j < |qs|
      ensures 1 <= |qs[j].cells| <= QuarterSize
    {
      ChunkAt(hundred, QuarterSize, j);
    }
  }

  /** Every hundred block of `waffle` has one to four quarters of one to 25
      cells, all in the group's colours. */
  lemma WaffleGroupShape<T>(data: seq<T>, color: Option<string>, borderColor: Option<string>, addSeparator: bool)
    ensures var result := WaffleGroup(data, color, borderColor, addSeparator);
      forall i, j :: 0 <= i < |result| && result[i].Hundred? && 0 <= j < |result[i].quarters| ==>
        && |result[i].quarters| <= 4
        && 1 <= |result[i].quarters[j].cells| <= QuarterSize
        && forall c :: c in result[i].quarters[j].cells ==> c.color == color && c.borderColor == borderColor
  {
    var result := WaffleGroup(data, color, borderColor, addSeparator);
    var chunks := Chunks(data, HundredSize);
    forall i | 0 <= i < |result| && result[i].Hundred?
      ensures var b := result[i];
        && |b.quarters| <= 4
        && forall j :: 0 <= j < |b.quarters| ==>
             && 1 <= |b.quarters[j].cells| <= QuarterSize
             && forall c :: c in b.quarters[j].cells ==> c.color == color && c.borderColor == borderColor
    {
      assert i < |chunks|;
      ChunkAt(data, HundredSize, i);
      HundredShape(chunks[i], color, borderColor);
    }
  }

  lemma {:induction false} SeparatorsAppend<T>(x: seq<Block<T>>, y: seq<Block<T>>)
    ensures Separators(x + y) == Separators(x) + Separators(y)
  {
    if y == [] {
      assert x + y == x;
    } else {
      var n := |y| - 1;
      assert (x + y)[..|x + y| - 1] == x + y[..n];
      SeparatorsAppend(x, y[..n]);
    }
  }

  lemma {:induction false} NoSeparators<T>(blocks: seq<Block<T>>)
    requires forall i :: 0 <= i < |blocks| ==> blocks[i].Hundred?
    ensures Separators(blocks) == 0
  {
    if blocks != [] {
      NoSeparators(blocks[..|blocks| - 1]);
    }
  }

  /** `waffle` draws exactly one separator line when asked to, and none otherwise. */
  lemma WaffleGroupSeparators<T>(data: seq<T>, color: Option<string>, borderColor: Option<string>, addSeparator: bool)
    ensures Separators(WaffleGroup(data, color, borderColor, addSeparator)) == if addSeparator then 1 else 0
  {
    var hundreds := SplitArray(data, HundredSize, HundredOf(color, borderColor));
    NoSeparators(hundreds);
    if addSeparator {
      var line: seq<Block<T>> := [Separator];
      assert line[..0] == [];
      SeparatorsAppend(hundreds, line);
    } else {
      assert WaffleGroup(data, color, borderColor, addSeparator) == hundreds;
    }
  }

  lemma {:induction false} WaffleSeparatorsPrefix<T>(data: seq<seq<T>>, colors: seq<string>, borderColors: seq<string>, k: nat)
    requires k <= |data|
    ensures Separators(Flatten(Waffle(data, colors, borderColors)[..k])) == if k == 0 then 0 else Min(k, |data| - 1)
  {
    var r := Waffle(data, colors, borderColors);
    if k == 0 {
      assert r[..0] == [];
    } else {
      WaffleSeparatorsPrefix(data, colors, borderColors, k - 1);
      assert r[..k][..k - 1] == r[..k - 1];
      assert Flatten(r[..k]) == Flatten(r[..k - 1]) + r[k - 1];
      assert r[k - 1] == WaffleGroup(data[k - 1], At(colors, k - 1), At(borderColors, k - 1), k - 1 < |data| - 1);
      SeparatorsAppend(Flatten(r[..k - 1]), r[k - 1]);
      WaffleGroupSeparators(data[k - 1], At(colors, k - 1), At(borderColors, k - 1), k - 1 < |data| - 1);
    }
  }

  /** `Waffle` lays the groups out in order: group `i` shows exactly the
      voters of `data[i]` in the colours `colors[i]` and `borderColors[i]`,
      is followed by a separator exactly when it is not the last group, and
      the chart holds max(|data| - 1, 0) separators in all. */
  lemma WaffleLayout<T>(data: seq<seq<T>>, colors: seq<string>, borderColors: seq<string>)
    ensures var r := Waffle(data, colors, borderColors);
      && |r| == |data|
      && (forall i :: 0 <= i < |r| ==> Nodes(r[i]) == data[i])
      && (forall i :: 0 <= i < |r| ==> (Separator in r[i] <==> i < |data| - 1))
      && (forall i :: 0 <= i < |r| - 1 ==> r[i][|r[i]| - 1] == Separator)
      && (forall i, k, j :: 0 <= i < |r| && 0 <= k < |r[i]| && r[i][k].Hundred? && 0 <= j < |r[i][k].quarters| ==>
            forall c :: c in r[i][k].quarters[j].cells ==> c.color == At(colors, i) && c.borderColor == At(borderColors, i))
      && Separators(Flatten(r)) == if |data| == 0 then 0 else |data| - 1
  {
    var r := Waffle(data, colors, borderColors);
    forall i | 0 <= i < |r|
      ensures Nodes(r[i]) == data[i]
      ensures Separator in r[i] <==> i < |data| - 1
      ensures forall k, j :: 0 <= k < |r[i]| && r[i][k].Hundred? && 0 <= j < |r[i][k].quarters| ==>
            forall c :: c in r[i][k].quarters[j].cells ==> c.color == At(colors, i) && c.borderColor == At(borderColors, i)
    {
      WaffleGroupNodes(data[i], At(colors, i), At(borderColors, i), i < |data| - 1);
      WaffleGroupShape(data[i], At(colors, i), At(borderColors, i), i < |data| - 1);
    }
    WaffleSeparatorsPrefix(data, colors, borderColors, |data|);
    assert r[..|data|] == r;
  }
}
