/** day3/src/main.rs: the engine schematic. Every number gets a fresh id,
    each of its digit cells maps to that id, every symbol cell is recorded,
    and the ids `get_adj` reports around each symbol are summed, each once:
    with the offsets as written, or with the corrected ones. */
module GearRatios {
  import opened Text
  import opened GridScan

  /** A cell as (row, column). */
  type Pos = (int, int)

  function Add(p: Pos, d: Pos): Pos { (p.0 + d.0, p.1 + d.1) }

  /** The offsets `get_adj` lists, as written: (1, 1) appears twice (once
      spelt `(1, 01)`) and (1, 0), the cell straight below, is missing. */
  const SourceOffsets: seq<Pos> := [(-1, -1), (-1, 0), (-1, 1), (0, -1), (0, 1), (1, -1), (1, 1), (1, 1)]

  /** The eight neighbouring offsets the list is meant to hold. */
  const NeighbourOffsets: seq<Pos> := [(-1, -1), (-1, 0), (-1, 1), (0, -1), (0, 1), (1, -1), (1, 0), (1, 1)]

  /** Two distinct cells that touch, across an edge or a corner. */
  predicate Neighbours(a: Pos, b: Pos)
  {
    a != b && -1 <= a.0 - b.0 <= 1 && -1 <= a.1 - b.1 <= 1
  }

  /** `get_adj` over a list of offsets: the values the graph holds at
      `pos` shifted by each offset, in the order of the list. */
  function GetAdjWith<T>(offsets: seq<Pos>, pos: Pos, graph: map<Pos, T>): (adj: seq<T>)
    ensures |adj| <= |offsets|
  {
    if |offsets| == 0 then []
    else
      var here := Add(pos, offsets[0]);
      (if here in graph then [graph[here]] else []) + GetAdjWith(offsets[1..], pos, graph)
  }

  /** `graph` holds `x` at `pos` shifted by one of the offsets. */
  ghost predicate Reaches<T>(offsets: seq<Pos>, pos: Pos, graph: map<Pos, T>, x: T)
  {
    exists k :: 0 <= k < |offsets| && Add(pos, offsets[k]) in graph && graph[Add(pos, offsets[k])] == x
  }

  /** What `get_adj` reports is exactly what the graph holds at the listed
      offsets. */
  lemma {:induction false} GetAdjMeaning<T>(offsets: seq<Pos>, pos: Pos, graph: map<Pos, T>, x: T)
    ensures x in GetAdjWith(offsets, pos, graph) <==> Reaches(offsets, pos, graph, x)
  {
    if |offsets| > 0 {
      var here := Add(pos, offsets[0]);
      GetAdjMeaning(offsets[1..], pos, graph, x);
      if Reaches(offsets[1..], pos, graph, x) {
        var k :| 0 <= k < |offsets| - 1 && Add(pos, offsets[1..][k]) in graph && graph[Add(pos, offsets[1..][k])] == x;
        assert offsets[k + 1] == offsets[1..][k];
      }
      if Reaches(offsets, pos, graph, x) && !(here in graph && graph[here] == x) {
        var k :| 0 <= k < |offsets| && Add(pos, offsets[k]) in graph && graph[Add(pos, offsets[k])] == x;
        assert k > 0 && offsets[1..][k - 1] == offsets[k];
      }
    }
  }

  /** `get_adj` as written. */
  function GetAdj(pos: Pos, graph: map<Pos, int>): (adj: seq<int>)
    ensures |adj| <= 8
  {
    GetAdjWith(SourceOffsets, pos, graph)
  }

  /** The corrected list holds exactly the offsets of the eight neighbours,
      each once. */
  lemma NeighbourOffsetsExact(d: Pos)
    ensures d in NeighbourOffsets <==> Neighbours(d, (0, 0))
    ensures forall i, j :: 0 <= i < j < |NeighbourOffsets| ==> NeighbourOffsets[i] != NeighbourOffsets[j]
  {
    if Neighbours(d, (0, 0)) {
      var k := NeighbourIndex(d);
    }
  }

  /** Where a neighbour's offset sits in the corrected list: row by row,
      skipping the centre. */
  lemma NeighbourIndex(d: Pos) returns (k: nat)
    requires Neighbours(d, (0, 0))
    ensures k < |NeighbourOffsets| && NeighbourOffsets[k] == d
  {
    var cell := (d.0 + 1) * 3 + (d.1 + 1);
    k := if cell > 4 then cell - 1 else cell;
  }

  /** As written, a number straight below a symbol is not reported. */
  lemma GetAdjMissesBelow()
    ensures GetAdj((0, 0), map[(1, 0) := 5]) == []
  {
    var below := map[(1, 0) := 5];
    var k := 8;
    while k > 0
      invariant 0 <= k <= 8
      invariant GetAdjWith(SourceOffsets[k..], (0, 0), below) == []
    {
      k := k - 1;
      assert SourceOffsets[k..][1..] == SourceOffsets[k + 1..];
    }
  }

  /** As written, a number down and to the right is reported twice. */
  lemma GetAdjRepeatsCorner()
    ensures GetAdj((0, 0), map[(1, 1) := 7]) == [7, 7]
  {
    var corner := map[(1, 1) := 7];
    var k := 8;
    while k > 0
      invariant 0 <= k <= 8
      invariant GetAdjWith(SourceOffsets[k..], (0, 0), corner) == if k <= 6 then [7, 7] else if k == 7 then [7] else []
    {
      k := k - 1;
      assert SourceOffsets[k..][1..] == SourceOffsets[k + 1..];
    }
  }

  /** The ids of the numbers that the listed offsets reach from the given
      symbol cells: the set `ids_adj_to_syms`. */
  function AdjacentIds(syms: set<Pos>, cells: map<Pos, int>, offsets: seq<Pos>): set<int>
  {
    set p, k | p in syms && 0 <= k < |offsets| && Add(p, offsets[k]) in cells :: cells[Add(p, offsets[k])]
  }

  /** The number with this id has a digit cell next to one of the symbols. */
  ghost predicate Touches(syms: set<Pos>, cells: map<Pos, int>, id: int)
  {
    exists s, c :: s in syms && c in cells && cells[c] == id && Neighbours(c, s)
  }

  /** With the corrected offsets, an id is collected exactly when its number
      touches a symbol. */
  lemma AdjacentIdsMeaning(syms: set<Pos>, cells: map<Pos, int>, id: int)
    ensures id in AdjacentIds(syms, cells, NeighbourOffsets) <==> Touches(syms, cells, id)
  {
    if id in AdjacentIds(syms, cells, NeighbourOffsets) {
      var p, k :| p in syms && 0 <= k < |NeighbourOffsets| && Add(p, NeighbourOffsets[k]) in cells
        && cells[Add(p, NeighbourOffsets[k])] == id;
      NeighbourOffsetsExact(NeighbourOffsets[k]);
      assert Neighbours(Add(p, NeighbourOffsets[k]), p);
    }
    if Touches(syms, cells, id) {
      var s, c :| s in syms && c in cells && cells[c] == id && Neighbours(c, s);
      var k := NeighbourIndex((c.0 - s.0, c.1 - s.1));
      assert Add(s, NeighbourOffsets[k]) == c;
    }
  }

  /** As written, a one-digit number straight below the only symbol touches
      it but is not collected. */
  lemma AdjacentIdsAsWritten()
    ensures Touches({(0, 0)}, map[(1, 0) := 1], 1)
    ensures AdjacentIds({(0, 0)}, map[(1, 0) := 1], SourceOffsets) == {}
    ensures AdjacentIds({(0, 0)}, map[(1, 0) := 1], NeighbourOffsets) == {1}
  {
    assert Neighbours((1, 0), (0, 0));
    assert Add((0, 0), NeighbourOffsets[6]) == (1, 0);
  }

  /** Collecting the ids around one more symbol adds what `get_adj` reports
      there. */
  lemma AdjacentIdsStep(done: set<Pos>, p: Pos, cells: map<Pos, int>, offsets: seq<Pos>)
    ensures AdjacentIds(done + {p}, cells, offsets)
         == AdjacentIds(done, cells, offsets) + (set x | x in GetAdjWith(offsets, p, cells))
  {
    var lhs := AdjacentIds(done + {p}, cells, offsets);
    var rhs := AdjacentIds(done, cells, offsets) + (set x | x in GetAdjWith(offsets, p, cells));
    forall x | x in lhs
      ensures x in rhs
    {
      var q, k :| q in done + {q} && q in done + {p} && 0 <= k < |offsets| && Add(q, offsets[k]) in cells
        && cells[Add(q, offsets[k])] == x;
      if q == p {
        GetAdjMeaning(offsets, p, cells, x);
      }
    }
    forall x | x in rhs
      ensures x in lhs
    {
      if x !in AdjacentIds(done, cells, offsets) {
        GetAdjMeaning(offsets, p, cells, x);
        var k :| 0 <= k < |offsets| && Add(p, offsets[k]) in cells && cells[Add(p, offsets[k])] == x;
      }
    }
  }

  ghost function Pick(ids: set<int>): int
    requires ids != {}
  {
    Inhabited(ids);
    var x :| x in ids; x
  }

  lemma Inhabited(ids: set<int>)
    requires ids != {}
    ensures exists x :: x in ids
  {
    if forall x :: x !in ids {
      assert false;
    }
  }

  /** The sum of the values of a set of ids. */
  ghost function SetSum(ids: set<int>, values: map<int, int>): int
    requires ids <= values.Keys
    decreases |ids|
  {
    if ids == {} then 0 else values[Pick(ids)] + SetSum(ids - {Pick(ids)}, values)
  }

  /** The sum of the values of a set of ids in any order: taking out any
      one id first gives the same total. */
  lemma {:induction false} SetSumRemove(ids: set<int>, values: map<int, int>, y: int)
    requires ids <= values.Keys && y in ids
    ensures SetSum(ids, values) == values[y] + SetSum(ids - {y}, values)
    decreases |ids|
  {
    var x := Pick(ids);
    if x != y {
      SetSumRemove(ids - {x}, values, y);
      SetSumRemove(ids - {y}, values, x);
      assert ids - {x} - {y} == ids - {y} - {x};
    }
  }

  /** The `map(unwrap).sum()` over a set of ids: None when an id has no
      value, as `unwrap` panics then. */
  ghost function SumOf(ids: set<int>, values: map<int, int>): Option<int>
  {
    if ids <= values.Keys then Some(SetSum(ids, values)) else None
  }

  /** The cells of one run of digits, all mapped to its id. */
  function CellsOf(row: int, r: Run, id: int): map<Pos, int>
  {
    CellSpan(row, r.start, |r.digits|, id)
  }

  /** The `n` cells of a row from column `start` on, all mapped to `id`. */
  function CellSpan(row: int, start: int, n: nat, id: int): map<Pos, int>
  {
    if n == 0 then map[] else CellSpan(row, start, n - 1, id)[(row, start + n - 1) := id]
  }

  lemma {:induction false} CellSpanMeaning(row: int, start: int, n: nat, id: int, q: Pos)
    ensures q in CellSpan(row, start, n, id) <==> q.0 == row && start <= q.1 < start + n
    ensures q in CellSpan(row, start, n, id) ==> CellSpan(row, start, n, id)[q] == id
  {
    if n > 0 {
      CellSpanMeaning(row, start, n - 1, id, q);
    }
  }

  /** The cells of a row's runs, the `k`-th run getting id `first + k`. */
  function RunCells(row: int, runs: seq<Run>, first: int): map<Pos, int>
  {
    if |runs| == 0 then map[]
    else RunCells(row, runs[..|runs| - 1], first) + CellsOf(row, runs[|runs| - 1], first + |runs| - 1)
  }

  /** The values of a row's runs by id. */
  function RunValues(runs: seq<Run>, first: int): map<int, int>
    requires forall r :: r in runs ==> AllDigits(r.digits)
  {
    if |runs| == 0 then map[]
    else RunValues(runs[..|runs| - 1], first)[first + |runs| - 1 := DigitsValue(runs[|runs| - 1].digits)]
  }

  /** The symbol cells of a row. */
  function SymbolCells(row: int, syms: seq<(nat, char)>): map<Pos, char>
  {
    if |syms| == 0 then map[]
    else SymbolCells(row, syms[..|syms| - 1])[(row, syms[|syms| - 1].0) := syms[|syms| - 1].1]
  }

  /** The cells of a row's runs are the columns the runs cover. */
  lemma {:induction false} RunCellsDomain(row: int, runs: seq<Run>, first: int, q: Pos)
    ensures q in RunCells(row, runs, first) <==> q.0 == row && Covered(runs, q.1)
  {
    if |runs| > 0 {
      var init, last := runs[..|runs| - 1], runs[|runs| - 1];
      RunCellsDomain(row, init, first, q);
      CellSpanMeaning(row, last.start, |last.digits|, first + |runs| - 1, q);
      if Covered(init, q.1) {
        var k :| 0 <= k < |init| && init[k].start <= q.1 < End(init[k]);
        assert runs[k] == init[k];
      }
      if Covered(runs, q.1) && !(last.start <= q.1 < End(last)) {
        var k :| 0 <= k < |runs| && runs[k].start <= q.1 < End(runs[k]);
        assert k < |init| && init[k] == runs[k];
      }
    }
  }

  /** Every cell of the `k`-th run maps to the id `first + k`: runs that are
      apart do not overwrite one another. */
  lemma {:induction false} RunCellsValue(row: int, runs: seq<Run>, first: int, k: nat, c: int)
    requires forall i, j :: 0 <= i < j < |runs| ==> End(runs[i]) < runs[j].start
    requires k < |runs| && runs[k].start <= c < End(runs[k])
    ensures (row, c) in RunCells(row, runs, first)
    ensures RunCells(row, runs, first)[(row, c)] == first + k
  {
    var init, last := runs[..|runs| - 1], runs[|runs| - 1];
    CellSpanMeaning(row, last.start, |last.digits|, first + |runs| - 1, (row, c));
    if k < |init| {
      assert init[k] == runs[k];
      RunCellsValue(row, init, first, k, c);
      assert End(runs[k]) < last.start;
    }
  }

  /** The `k`-th run's value is stored under `first + k`, and no other id
      is used. */
  lemma {:induction false} RunValuesValue(runs: seq<Run>, first: int, k: nat)
    requires forall r :: r in runs ==> AllDigits(r.digits)
    requires k < |runs|
    ensures first + k in RunValues(runs, first)
    ensures RunValues(runs, first)[first + k] == DigitsValue(runs[k].digits)
  {
    var init := runs[..|runs| - 1];
    if k < |init| {
      assert init[k] == runs[k];
      RunValuesValue(init, first, k);
    }
  }

  lemma {:induction false} RunValuesKeys(runs: seq<Run>, first: int, id: int)
    requires forall r :: r in runs ==> AllDigits(r.digits)
    ensures id in RunValues(runs, first) <==> first <= id < first + |runs|
  {
    if |runs| > 0 {
      RunValuesKeys(runs[..|runs| - 1], first, id);
    }
  }

  /** A digit of a line lies in a run, say the `k`-th, and its cell maps to
      the id `first + k` (which `RunValuesValue` maps to the value of the
      whole run). A cell of the row that is not a digit gets no id. */
  lemma LineNumber(row: int, line: string, first: int, c: int) returns (k: nat)
    requires 0 <= c < |line|
    ensures IsDigit(line[c]) <==> (row, c) in RunCells(row, Runs(line, 0), first)
    ensures IsDigit(line[c]) ==> k < |Runs(line, 0)| && Runs(line, 0)[k].start <= c < End(Runs(line, 0)[k])
    ensures IsDigit(line[c]) ==> RunCells(row, Runs(line, 0), first)[(row, c)] == first + k
  {
    var runs := Runs(line, 0);
    RunsCover(line, 0, c);
    RunCellsDomain(row, runs, first, (row, c));
    k := 0;
    if IsDigit(line[c]) {
      k :| 0 <= k < |runs| && runs[k].start <= c < End(runs[k]);
      RunCellsValue(row, runs, first, k, c);
    }
  }

  /** The symbol cells of a row, for entries that agree with the line: the
      listed columns, each holding the line's character there. */
  lemma {:induction false} SymbolCellsAt(row: int, line: string, syms: seq<(nat, char)>, q: Pos)
    requires forall j :: 0 <= j < |syms| ==> syms[j].0 < |line| && line[syms[j].0] == syms[j].1
    ensures q in SymbolCells(row, syms) <==> q.0 == row && exists j :: 0 <= j < |syms| && syms[j].0 == q.1
    ensures q in SymbolCells(row, syms) ==> 0 <= q.1 < |line| && SymbolCells(row, syms)[q] == line[q.1]
  {
    if |syms| > 0 {
      var init := syms[..|syms| - 1];
      SymbolCellsAt(row, line, init, q);
      if exists j :: 0 <= j < |init| && init[j].0 == q.1 {
        var j :| 0 <= j < |init| && init[j].0 == q.1;
        assert syms[j] == init[j];
      }
      if q.1 != syms[|syms| - 1].0 && exists j :: 0 <= j < |syms| && syms[j].0 == q.1 {
        var j :| 0 <= j < |syms| && syms[j].0 == q.1;
        assert init[j] == syms[j];
      }
    }
  }

  /** The symbol cells of a line are its symbol characters. */
  lemma LineSymbols(row: int, line: string, q: Pos)
    ensures q in SymbolCells(row, Symbols(line, 0))
      <==> q.0 == row && 0 <= q.1 < |line| && IsSymbol(line[q.1])
    ensures q in SymbolCells(row, Symbols(line, 0)) ==> SymbolCells(row, Symbols(line, 0))[q] == line[q.1]
  {
    var syms := Symbols(line, 0);
    SymbolCellsAt(row, line, syms, q);
    if q.0 == row && 0 <= q.1 < |line| && IsSymbol(line[q.1]) {
      var j :| 0 <= j < |syms| && syms[j] == (q.1, line[q.1]);
    }
  }

  /** Ids are handed out from 1 upwards, every digit cell's id has a value,
      and every id with a value has already been handed out. */
  ghost predicate Consistent(cells: map<Pos, int>, values: map<int, int>, nextId: int)
  {
    && nextId >= 1
    && (forall p :: p in cells ==> cells[p] in values)
    && (forall id :: id in values ==> 1 <= id < nextId)
  }

  /** The ids a row's runs give their cells are `first` up to the number of
      runs. */
  lemma {:induction false} RunCellsIds(row: int, runs: seq<Run>, first: int, q: Pos)
    requires q in RunCells(row, runs, first)
    ensures first <= RunCells(row, runs, first)[q] < first + |runs|
  {
    var init := runs[..|runs| - 1];
    CellSpanMeaning(row, runs[|runs| - 1].start, |runs[|runs| - 1].digits|, first + |runs| - 1, q);
    if q !in CellsOf(row, runs[|runs| - 1], first + |runs| - 1) {
      RunCellsIds(row, init, first, q);
    }
  }

  /** Adding a line's numbers with fresh ids keeps the maps consistent. */
  lemma ConsistentAfterNumbers(cells: map<Pos, int>, values: map<int, int>, first: int, row: int, runs: seq<Run>)
    requires Consistent(cells, values, first)
    requires forall r :: r in runs ==> AllDigits(r.digits)
    ensures Consistent(cells + RunCells(row, runs, first), values + RunValues(runs, first), first + |runs|)
  {
    var cells', values' := cells + RunCells(row, runs, first), values + RunValues(runs, first);
    forall p | p in cells'
      ensures cells'[p] in values'
    {
      if p in RunCells(row, runs, first) {
        RunCellsIds(row, runs, first, p);
        RunValuesKeys(runs, first, cells'[p]);
      }
    }
    forall id | id in values'
      ensures 1 <= id < first + |runs|
    {
      RunValuesKeys(runs, first, id);
    }
  }

  /** The three maps `main` fills, and the id counter (`COUNTER`, read and
      advanced by `get_id`) as a plain field. */
  class Schematic {
    /** `symbol_graph`: symbol cells and their characters. */
    var symbols: map<Pos, char>
    /** `num_graph`: digit cells and the ids of their numbers. */
    var cells: map<Pos, int>
    /** `id_map`: ids and the values of their numbers. */
    var values: map<int, int>
    /** The id `get_id` hands out next. */
    var nextId: int

    /** Ids are handed out from 1 upwards, every digit cell's id has a
        value, and every id with a value has already been handed out. */
    ghost predicate Valid()
      reads this
    {
      Consistent(cells, values, nextId)
    }

    constructor()
      ensures Valid()
      ensures symbols == map[] && cells == map[] && values == map[] && nextId == 1
    {
      symbols, cells, values, nextId := map[], map[], map[], 1;
    }

    /** Records the cells of one number under its id. */
    method PutRun(row: int, run: Run, id: int)
      modifies this
      ensures cells == old(cells) + CellsOf(row, run, id)
      ensures symbols == old(symbols) && values == old(values) && nextId == old(nextId)
    {
      var i := 0;
      while i < |run.digits|
        invariant 0 <= i <= |run.digits|
        invariant cells == old(cells) + CellSpan(row, run.start, i, id)
        invariant symbols == old(symbols) && values == old(values) && nextId == old(nextId)
      {
        UnionUpdate(old(cells), CellSpan(row, run.start, i, id), (row, run.start + i), id);
        cells := cells[(row, run.start + i) := id];
        i := i + 1;
      }
    }

    /** One number: `get_id`, then its value and its cells. */
    method AddNumber(row: int, run: Run) returns (id: int)
      requires AllDigits(run.digits)
      modifies this
      ensures id == old(nextId) && nextId == id + 1
      ensures values == old(values)[id := DigitsValue(run.digits)]
      ensures cells == old(cells) + CellsOf(row, run, id)
      ensures symbols == old(symbols)
    {
      var value := DigitsValue(run.digits);
      id := nextId;
      nextId := nextId + 1;
      values := values[id := value];
      PutRun(row, run, id);
    }

    /** The `k`-th number of a line, keeping the maps equal to the old ones
        plus the first `k + 1` numbers. */
    method AddNumberAt(row: int, runs: seq<Run>, k: nat, ghost values0: map<int, int>, ghost cells0: map<Pos, int>, ghost first: int)
      requires forall r :: r in runs ==> AllDigits(r.digits)
      requires k < |runs| && nextId == first + k
      requires values == values0 + RunValues(runs[..k], first)
      requires cells == cells0 + RunCells(row, runs[..k], first)
      modifies this
      ensures nextId == first + k + 1
      ensures values == values0 + RunValues(runs[..k + 1], first)
      ensures cells == cells0 + RunCells(row, runs[..k + 1], first)
      ensures symbols == old(symbols)
    {
      ghost var before := cells;
      var id := AddNumber(row, runs[k]);
      RunsSnoc(row, runs, first, k);
      UnionUpdate(values0, RunValues(runs[..k], first), id, DigitsValue(runs[k].digits));
      UnionChain(before, cells0, RunCells(row, runs[..k], first), CellsOf(row, runs[k], id), RunCells(row, runs[..k + 1], first), cells);
    }

    /** The numbers of one line, in order: each gets the next id, its value
        under that id and its cells. */
    method AddNumbers(row: int, runs: seq<Run>)
      requires Valid()
      requires forall r :: r in runs ==> AllDigits(r.digits)
      modifies this
      ensures Valid()
      ensures nextId == old(nextId) + |runs|
      ensures values == old(values) + RunValues(runs, old(nextId))
      ensures cells == old(cells) + RunCells(row, runs, old(nextId))
      ensures symbols == old(symbols)
    {
      ghost var values0, cells0, first := values, cells, nextId;
      var k := 0;
      while k < |runs|
        invariant 0 <= k <= |runs|
        invariant nextId == first + k
        invariant values == values0 + RunValues(runs[..k], first)
        invariant cells == cells0 + RunCells(row, runs[..k], first)
        invariant symbols == old(symbols)
      {
        AddNumberAt(row, runs, k, values0, cells0, first);
        k := k + 1;
      }
      assert runs[..k] == runs;
      ConsistentAfterNumbers(cells0, values0, first, row, runs);
    }

    /** The symbols of one line, each recorded at its cell. */
    method AddSymbols(row: int, syms: seq<(nat, char)>)
      requires Valid()
      modifies this
      ensures Valid()
      ensures symbols == old(symbols) + SymbolCells(row, syms)
      ensures cells == old(cells) && values == old(values) && nextId == old(nextId)
    {
      var j := 0;
      while j < |syms|
        invariant 0 <= j <= |syms|
        invariant symbols == old(symbols) + SymbolCells(row, syms[..j])
        invariant cells == old(cells) && values == old(values) && nextId == old(nextId)
      {
        symbols := symbols[(row, syms[j].0) := syms[j].1];
        assert syms[..j + 1][..j] == syms[..j];
        j := j + 1;
      }
      assert syms[..j] == syms;
    }

    /** One pass of `main`'s line loop: every number of the line gets the
        next id, its value and its cells; then every symbol of the line is
        recorded. */
    method AddLine(row: int, line: string)
      requires Valid()
      modifies this
      ensures Valid()
      ensures nextId == old(nextId) + |Runs(line, 0)|
      ensures values == old(values) + RunValues(Runs(line, 0), old(nextId))
      ensures cells == old(cells) + RunCells(row, Runs(line, 0), old(nextId))
      ensures symbols == old(symbols) + SymbolCells(row, Symbols(line, 0))
    {
      AddNumbers(row, Runs(line, 0));
      AddSymbols(row, Symbols(line, 0));
    }

    /** The end of `main`: the ids `get_adj` over `offsets` finds around
        each symbol, gathered into a set, and the sum of their values, each
        id once. `main` as written passes `SourceOffsets`; with
        `NeighbourOffsets` the ids are exactly those of the numbers touching
        a symbol. None stands for the panic of `unwrap` on an id without a
        value, which a valid schematic rules out. */
    method SumParts(offsets: seq<Pos>) returns (ids: set<int>, sum: Option<int>)
      ensures ids == AdjacentIds(symbols.Keys, cells, offsets)
      ensures offsets == NeighbourOffsets ==> forall id :: id in ids <==> Touches(symbols.Keys, cells, id)
      ensures sum == SumOf(ids, values)
      ensures Valid() ==> sum.Some?
    {
      ids := CollectIds(symbols.Keys, cells, offsets);
      sum := SumValues(ids, values);
      if Valid() {
        AdjacentIdsValued(symbols.Keys, cells, values, offsets);
      }
      if offsets == NeighbourOffsets {
        forall id
          ensures id in ids <==> Touches(symbols.Keys, cells, id)
        {
          AdjacentIdsMeaning(symbols.Keys, cells, id);
        }
      }
    }
  }

  /** The loop over `symbol_graph`: the ids `get_adj` reports around every
      symbol, inserted into one set. The order of the symbols is left open,
      as a `HashMap`'s is. */
  method CollectIds(syms: set<Pos>, cells: map<Pos, int>, offsets: seq<Pos>) returns (ids: set<int>)
    ensures ids == AdjacentIds(syms, cells, offsets)
  {
    ids := {};
    var todo := syms;
    while todo != {}
      invariant todo <= syms
      invariant ids == AdjacentIds(syms - todo, cells, offsets)
    {
      var p :| p in todo;
      var adj := GetAdjWith(offsets, p, cells);
      ids := InsertAll(ids, adj);
      AdjacentIdsStep(syms - todo, p, cells, offsets);
      assert syms - (todo - {p}) == (syms - todo) + {p};
      todo := todo - {p};
    }
    assert syms - todo == syms;
  }

  /** `for_each(insert)` over one `get_adj` result. */
  method InsertAll(ids: set<int>, adj: seq<int>) returns (ids': set<int>)
    ensures ids' == ids + set x | x in adj
  {
    ids' := ids;
    var i := 0;
    while i < |adj|
      invariant 0 <= i <= |adj|
      invariant ids' == ids + set x | x in adj[..i]
    {
      assert adj[..i + 1] == adj[..i] + [adj[i]];
      ids' := ids' + {adj[i]};
      i := i + 1;
    }
    assert adj[..i] == adj;
  }

  /** `map(unwrap).sum()` over a set of ids, in whatever order the set
      yields them. */
  method SumValues(ids: set<int>, values: map<int, int>) returns (sum: Option<int>)
    ensures sum == SumOf(ids, values)
  {
    var total := 0;
    var rest := ids;
    while rest != {}
      invariant rest <= ids && ids - rest <= values.Keys
      invariant ids <= values.Keys ==> total + SetSum(rest, values) == SetSum(ids, values)
    {
      Inhabited(rest);
      var id :| id in rest;
      if id !in values {
        return None;
      }
      if ids <= values.Keys {
        SetSumRemove(rest, values, id);
      }
      total := total + values[id];
      rest := rest - {id};
    }
    sum := Some(total);
  }

  lemma RunsSnoc(row: int, runs: seq<Run>, first: int, k: nat)
    requires forall r :: r in runs ==> AllDigits(r.digits)
    requires k < |runs|
    ensures RunValues(runs[..k + 1], first) == RunValues(runs[..k], first)[first + k := DigitsValue(runs[k].digits)]
    ensures RunCells(row, runs[..k + 1], first) == RunCells(row, runs[..k], first) + CellsOf(row, runs[k], first + k)
  {
    assert runs[..k + 1][..k] == runs[..k];
  }

  lemma UnionChain<K, V>(before: map<K, V>, base: map<K, V>, done: map<K, V>, next: map<K, V>, all: map<K, V>, after: map<K, V>)
    requires before == base + done && all == done + next && after == before + next
    ensures after == base + all
  {
  }

  lemma UnionUpdate<K, V>(a: map<K, V>, b: map<K, V>, k: K, v: V)
    ensures (a + b)[k := v] == a + b[k := v]
  {
  }

  /** Every collected id is the id of some digit cell. */
  lemma AdjacentIdsValued(syms: set<Pos>, cells: map<Pos, int>, values: map<int, int>, offsets: seq<Pos>)
    requires forall p :: p in cells ==> cells[p] in values
    ensures AdjacentIds(syms, cells, offsets) <= values.Keys
  {
  }

  /** The number of ids the first `n` lines hand out: one per run of
      digits. */
  function IdsUsed(lines: seq<string>, n: nat): nat
    requires n <= |lines|
  {
    if n == 0 then 0 else IdsUsed(lines, n - 1) + |Runs(lines[n - 1], 0)|
  }

  /** `num_graph` after the first `n` lines: each row's runs take the ids
      that follow those of the rows above, counting from 1. */
  function GridCells(lines: seq<string>, n: nat): map<Pos, int>
    requires n <= |lines|
  {
    if n == 0 then map[]
    else GridCells(lines, n - 1) + RunCells(n - 1, Runs(lines[n - 1], 0), 1 + IdsUsed(lines, n - 1))
  }

  /** `id_map` after the first `n` lines. */
  function GridValues(lines: seq<string>, n: nat): map<int, int>
    requires n <= |lines|
  {
    if n == 0 then map[]
    else GridValues(lines, n - 1) + RunValues(Runs(lines[n - 1], 0), 1 + IdsUsed(lines, n - 1))
  }

  /** `symbol_graph` after the first `n` lines. */
  function GridSymbols(lines: seq<string>, n: nat): map<Pos, char>
    requires n <= |lines|
  {
    if n == 0 then map[]
    else GridSymbols(lines, n - 1) + SymbolCells(n - 1, Symbols(lines[n - 1], 0))
  }

  /** Cell `q` of the lines holds a digit. */
  predicate DigitAt(lines: seq<string>, q: Pos)
  {
    0 <= q.0 < |lines| && 0 <= q.1 < |lines[q.0]| && IsDigit(lines[q.0][q.1])
  }

  /** The digit cells of the schematic are exactly the digits of the lines. */
  lemma {:induction false} GridCellsDomain(lines: seq<string>, n: nat, q: Pos)
    requires n <= |lines|
    ensures q in GridCells(lines, n) <==> q.0 < n && DigitAt(lines, q)
  {
    if n > 0 {
      GridCellsDomain(lines, n - 1, q);
      RowCells(lines, n - 1, 1 + IdsUsed(lines, n - 1), q);
    }
  }

  /** The cells one line's runs give are exactly that line's digits. */
  lemma RowCells(lines: seq<string>, row: nat, first: int, q: Pos)
    requires row < |lines|
    ensures q in RunCells(row, Runs(lines[row], 0), first) <==> q.0 == row && DigitAt(lines, q)
  {
    var line := lines[row];
    var runs := Runs(line, 0);
    RunCellsDomain(row, runs, first, q);
    if 0 <= q.1 < |line| {
      RunsCover(line, 0, q.1);
    }
    if Covered(runs, q.1) {
      var k :| 0 <= k < |runs| && runs[k].start <= q.1 < End(runs[k]);
      assert MaximalRun(line, 0, runs[k]);
    }
  }

  /** The symbol cells of the schematic are exactly the symbol characters
      of the lines, each holding its character. */
  lemma {:induction false} GridSymbolsDomain(lines: seq<string>, n: nat, q: Pos)
    requires n <= |lines|
    ensures q in GridSymbols(lines, n) <==>
      0 <= q.0 < n && 0 <= q.1 < |lines[q.0]| && IsSymbol(lines[q.0][q.1])
    ensures q in GridSymbols(lines, n) ==> GridSymbols(lines, n)[q] == lines[q.0][q.1]
  {
    if n > 0 {
      GridSymbolsDomain(lines, n - 1, q);
      LineSymbols(n - 1, lines[n - 1], q);
    }
  }

  /** The maps after one more line: that line's cells, values and symbols
      added, its ids following those already used. */
  lemma GridStep(lines: seq<string>, row: nat)
    requires row < |lines|
    ensures IdsUsed(lines, row + 1) == IdsUsed(lines, row) + |Runs(lines[row], 0)|
    ensures GridCells(lines, row + 1)
         == GridCells(lines, row) + RunCells(row, Runs(lines[row], 0), 1 + IdsUsed(lines, row))
    ensures GridValues(lines, row + 1)
         == GridValues(lines, row) + RunValues(Runs(lines[row], 0), 1 + IdsUsed(lines, row))
    ensures GridSymbols(lines, row + 1)
         == GridSymbols(lines, row) + SymbolCells(row, Symbols(lines[row], 0))
  {
  }

  /** One pass of the loop of `main`: line `row` added, so the maps describe
      one more line. */
  method ScanRow(s: Schematic, lines: seq<string>, row: nat)
    requires row < |lines|
    requires s.Valid()
    requires s.cells == GridCells(lines, row) && s.values == GridValues(lines, row)
    requires s.symbols == GridSymbols(lines, row) && s.nextId == 1 + IdsUsed(lines, row)
    modifies s
    ensures s.Valid()
    ensures s.cells == GridCells(lines, row + 1) && s.values == GridValues(lines, row + 1)
    ensures s.symbols == GridSymbols(lines, row + 1) && s.nextId == 1 + IdsUsed(lines, row + 1)
  {
    GridStep(lines, row);
    s.AddLine(row, lines[row]);
  }

  /** The loop of `main`: every line added in order with its index as row. */
  method Scan(lines: seq<string>) returns (s: Schematic)
    ensures fresh(s) && s.Valid()
    ensures s.cells == GridCells(lines, |lines|) && s.values == GridValues(lines, |lines|)
    ensures s.symbols == GridSymbols(lines, |lines|) && s.nextId == 1 + IdsUsed(lines, |lines|)
  {
    s := new Schematic();
    var row := 0;
    while row < |lines|
      invariant 0 <= row <= |lines|
      invariant s.Valid()
      invariant s.cells == GridCells(lines, row) && s.values == GridValues(lines, row)
      invariant s.symbols == GridSymbols(lines, row) && s.nextId == 1 + IdsUsed(lines, row)
      modifies s
    {
      ScanRow(s, lines, row);
      row := row + 1;
    }
  }

  /** `main` without the file and the printing: the lines scanned, then the
      ids `get_adj` over `offsets` reports summed. `main` as written is
      `Solve(lines, SourceOffsets)`. */
  method Solve(lines: seq<string>, offsets: seq<Pos>) returns (s: Schematic, sum: Option<int>)
    ensures fresh(s) && s.Valid()
    ensures s.cells == GridCells(lines, |lines|) && s.values == GridValues(lines, |lines|)
    ensures s.symbols == GridSymbols(lines, |lines|) && s.nextId == 1 + IdsUsed(lines, |lines|)
    ensures sum.Some?
    ensures sum == SumOf(AdjacentIds(s.symbols.Keys, s.cells, offsets), s.values)
  {
    s := Scan(lines);
    var ids;
    ids, sum := s.SumParts(offsets);
  }

  /** The sum `main` prints for the lines, with the offsets as written and
      with the corrected ones. */
  ghost function PartSum(lines: seq<string>, offsets: seq<Pos>): Option<int>
  {
    SumOf(AdjacentIds(GridSymbols(lines, |lines|).Keys, GridCells(lines, |lines|), offsets), GridValues(lines, |lines|))
  }

  /** The two example lines scanned: no run and one symbol in the first,
      the single digit 5 in the second. */
  lemma ExampleRows()
    ensures Runs("*", 0) == [] && Symbols("*", 0) == [(0, '*')]
    ensures Runs("5", 0) == [Run(0, "5")] && Symbols("5", 0) == []
    ensures AllDigits("5") && DigitsValue("5") == 5
  {
    assert Runs("*", 1) == [];
    assert IsDigit("5"[0]);
    assert RunEnd("5", 0) == 1;
    assert Runs("5", 1) == [];
    assert "5"[0..1] == "5";
    assert "5"[..0] == [];
  }

  /** The cells `main` gives the example lines: the 5 below the symbol,
      with id 1. */
  lemma ExampleCells(lines: seq<string>)
    requires |lines| == 2 && lines[0] == "*" && lines[1] == "5"
    ensures GridCells(lines, 2) == map[(1, 0) := 1]
  {
    ExampleRows();
    GridStep(lines, 0);
    var none: map<Pos, int> := map[];
    assert GridCells(lines, 1) == none + none;
    assert none + none == none;
    GridStep(lines, 1);
    var one: map<Pos, int> := map[(1, 0) := 1];
    assert RunCells(1, [Run(0, "5")], 1) == one by {
      assert [Run(0, "5")][..0] == [];
      assert CellSpan(1, 0, 1, 1) == one;
    }
    assert GridCells(lines, 2) == none + one;
    assert none + one == one;
  }

  /** The value `main` stores for the example lines: 5 under id 1. */
  lemma ExampleValues()
    ensures GridValues(["*", "5"], 2) == map[1 := 5]
  {
    var lines := ["*", "5"];
    ExampleRows();
    GridStep(lines, 0);
    assert GridValues(lines, 1) == map[] && IdsUsed(lines, 1) == 0;
    GridStep(lines, 1);
    assert RunValues([Run(0, "5")], 1) == map[1 := 5] by {
      assert [Run(0, "5")][..0] == [];
    }
  }

  /** The symbol cells of the example lines: the `*` at (0, 0). */
  lemma ExampleSymbols()
    ensures GridSymbols(["*", "5"], 2).Keys == {(0, 0)}
  {
    var lines := ["*", "5"];
    ExampleRows();
    GridStep(lines, 0);
    GridStep(lines, 1);
    assert GridSymbols(lines, 1) == map[(0, 0) := '*'];
  }

  /** `main` as written on a symbol with a digit straight below it: the
      number touches the symbol, yet the sum is 0; the corrected offsets
      give 5. */
  lemma PartSumMissesBelow()
    ensures PartSum(["*", "5"], SourceOffsets) == Some(0)
    ensures PartSum(["*", "5"], NeighbourOffsets) == Some(5)
  {
    ExampleCells(["*", "5"]);
    ExampleValues();
    ExampleSymbols();
    AdjacentIdsAsWritten();
    assert Pick({1}) == 1;
    assert SetSum({1}, map[1 := 5]) == 5 by {
      assert {1} - {1} == {};
    }
  }
}
