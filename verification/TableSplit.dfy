/**
 Splitting tables into chunks of rows (`chunkTableBlock` and `chunkHtmlTableBlock` of
 `internal/biz/rag/chunk.go`).

 Both loops close a group as soon as the next row would break the row cap or the character budget.
 A split that never closes a group early is proved to have the fewest groups of all permitted splits.
 */
module TableSplit {
  import opened Basics

  const DEFAULT_CHUNK_SIZE := 512
  const DEFAULT_ROWS_PER_CHUNK := 50

  // ----- Splits -----

  function Cost(costs: seq<nat>): nat {
    if costs == [] then 0 else Cost(costs[..|costs| - 1]) + costs[|costs| - 1]
  }

  /** A group of rows, given by their costs, that may stand in one chunk: one row always may. */
  predicate Fits(group: seq<nat>, overhead: nat, budget: int, maxRows: nat) {
    0 < |group| <= maxRows && (|group| == 1 || overhead + Cost(group) <= budget)
  }

  ghost predicate IsSplit(groups: seq<seq<nat>>, rows: seq<nat>, overhead: nat, budget: int, maxRows: nat) {
    Concat(groups) == rows && forall g :: 0 <= g < |groups| ==> Fits(groups[g], overhead, budget, maxRows)
  }

  /** No group could have taken the first row of the next one. */
  ghost predicate NeverEarly(groups: seq<seq<nat>>, overhead: nat, budget: int, maxRows: nat) {
    forall g :: 0 <= g < |groups| - 1 && groups[g + 1] != [] ==>
      !Fits(groups[g] + [groups[g + 1][0]], overhead, budget, maxRows)
  }

  lemma {:induction false} CostConcat(a: seq<nat>, b: seq<nat>)
    ensures Cost(a + b) == Cost(a) + Cost(b)
  {
    if b == [] {
      assert a + b == a;
    } else {
      assert (a + b)[..|a + b| - 1] == a + b[..|b| - 1];
      CostConcat(a, b[..|b| - 1]);
    }
  }

  /** Part of a permitted group is permitted. */
  lemma PartFits(whole: seq<nat>, from: nat, to: nat, overhead: nat, budget: int, maxRows: nat)
    requires Fits(whole, overhead, budget, maxRows) && from < to <= |whole|
    ensures Fits(whole[from..to], overhead, budget, maxRows)
  {
    assert whole == whole[..from] + whole[from..to] + whole[to..];
    CostConcat(whole[..from] + whole[from..to], whole[to..]);
    CostConcat(whole[..from], whole[from..to]);
  }

  /** A permitted first group of all rows ends no later than a first group that was not closed early. */
  lemma RivalEndsFirst(groups: seq<seq<nat>>, r: seq<nat>, rows: seq<nat>, ahead: nat, overhead: nat, budget: int,
                       maxRows: nat)
    requires ahead <= |rows| && groups != [] && r <= rows && Fits(r, overhead, budget, maxRows)
    requires IsSplit(groups, rows[ahead..], overhead, budget, maxRows) && NeverEarly(groups, overhead, budget, maxRows)
    ensures |r| <= ahead + |groups[0]|
  {
    var first := groups[0];
    if |r| > ahead + |first| {
      NextRow(groups, rows[ahead..]);
      assert r[ahead..ahead + |first| + 1] == rows[ahead..][..|first| + 1] == first + [groups[1][0]];
      PartFits(r, ahead, ahead + |first| + 1, overhead, budget, maxRows);
    }
  }

  /**
   Staying ahead: a split that never closes a group early needs no more groups for what is left of
   the rows after `ahead` of them than any rival split needs for all of them.
   */
  lemma {:induction false} StaysAhead(groups: seq<seq<nat>>, rival: seq<seq<nat>>, rows: seq<nat>, ahead: nat,
                                      overhead: nat, budget: int, maxRows: nat)
    requires ahead <= |rows|
    requires IsSplit(groups, rows[ahead..], overhead, budget, maxRows) && NeverEarly(groups, overhead, budget, maxRows)
    requires IsSplit(rival, rows, overhead, budget, maxRows)
    ensures |groups| <= |rival|
    decreases |rival|
  {
    if groups != [] {
      ConcatCons(groups);
      assert groups[0] <= rows[ahead..];
      assert rival != [];
      ConcatCons(rival);
      var first, r := groups[0], rival[0];
      RivalEndsFirst(groups, r, rows, ahead, overhead, budget, maxRows);
      var rest := rows[|r|..];
      assert Concat(rival[1..]) == rest;
      assert Concat(groups[1..]) == rows[ahead..][|first|..] == rows[ahead + |first|..] ==
        rest[ahead + |first| - |r|..];
      forall g | 0 <= g < |groups[1..]|
        ensures Fits(groups[1..][g], overhead, budget, maxRows)
      {
        assert groups[1..][g] == groups[g + 1];
      }
      forall g | 0 <= g < |rival[1..]|
        ensures Fits(rival[1..][g], overhead, budget, maxRows)
      {
        assert rival[1..][g] == rival[g + 1];
      }
      forall g | 0 <= g < |groups[1..]| - 1 && groups[1..][g + 1] != []
        ensures !Fits(groups[1..][g] + [groups[1..][g + 1][0]], overhead, budget, maxRows)
      {
        assert groups[1..][g] == groups[g + 1] && groups[1..][g + 1] == groups[g + 2];
      }
      StaysAhead(groups[1..], rival[1..], rest, ahead + |first| - |r|, overhead, budget, maxRows);
    }
  }

  /** The row after the first group opens the second group. */
  lemma NextRow(groups: seq<seq<nat>>, rows: seq<nat>)
    requires groups != [] && Concat(groups) == rows && |groups[0]| < |rows|
    requires forall g :: 0 <= g < |groups| ==> groups[g] != []
    ensures |groups| > 1 && rows[..|groups[0]| + 1] == groups[0] + [groups[1][0]]
  {
    ConcatCons(groups);
    assert Concat<nat>([]) == [];
    assert groups[1..] != [];
    ConcatCons(groups[1..]);
    assert groups[1..][0] == groups[1];
  }

  /** Minimality: no permitted split of the rows has fewer groups. */
  lemma NeverEarlyIsMinimal(groups: seq<seq<nat>>, rival: seq<seq<nat>>, rows: seq<nat>, overhead: nat, budget: int,
                            maxRows: nat)
    requires IsSplit(groups, rows, overhead, budget, maxRows) && NeverEarly(groups, overhead, budget, maxRows)
    requires IsSplit(rival, rows, overhead, budget, maxRows)
    ensures |groups| <= |rival|
  {
    assert rows[0..] == rows;
    StaysAhead(groups, rival, rows, 0, overhead, budget, maxRows);
  }

  // ----- Rows and what they cost -----

  function Costs<Row>(rows: seq<Row>, cost: Row -> nat): seq<nat> {
    seq(|rows|, k requires 0 <= k < |rows| => cost(rows[k]))
  }

  function GroupCosts<Row>(groups: seq<seq<Row>>, cost: Row -> nat): seq<seq<nat>> {
    seq(|groups|, g requires 0 <= g < |groups| => Costs(groups[g], cost))
  }

  /** The groups hold all rows in order, and their number is the least possible. */
  ghost predicate IsBestSplit<Row>(groups: seq<seq<Row>>, rows: seq<Row>, cost: Row -> nat, overhead: nat, budget: int,
                                   maxRows: nat) {
    && Concat(groups) == rows
    && IsSplit(GroupCosts(groups, cost), Costs(rows, cost), overhead, budget, maxRows)
    && NeverEarly(GroupCosts(groups, cost), overhead, budget, maxRows)
    && forall rival :: IsSplit(rival, Costs(rows, cost), overhead, budget, maxRows) ==> |groups| <= |rival|
  }

  lemma {:induction false} CostsOfConcat<Row>(groups: seq<seq<Row>>, cost: Row -> nat)
    ensures Costs(Concat(groups), cost) == Concat(GroupCosts(groups, cost))
  {
    if groups != [] {
      var front := groups[..|groups| - 1];
      CostsOfConcat(front, cost);
      assert GroupCosts(groups, cost)[..|groups| - 1] == GroupCosts(front, cost);
    }
  }

  lemma BestSplit<Row>(groups: seq<seq<Row>>, rows: seq<Row>, cost: Row -> nat, overhead: nat, budget: int,
                       maxRows: nat)
    requires Concat(groups) == rows
    requires forall g :: 0 <= g < |groups| ==> Fits(Costs(groups[g], cost), overhead, budget, maxRows)
    requires NeverEarly(GroupCosts(groups, cost), overhead, budget, maxRows)
    ensures IsBestSplit(groups, rows, cost, overhead, budget, maxRows)
  {
    CostsOfConcat(groups, cost);
    var all, split := Costs(rows, cost), GroupCosts(groups, cost);
    assert IsSplit(split, all, overhead, budget, maxRows);
    LeastOfAll(split, all, overhead, budget, maxRows);
  }

  lemma LeastOfAll(split: seq<seq<nat>>, all: seq<nat>, overhead: nat, budget: int, maxRows: nat)
    requires IsSplit(split, all, overhead, budget, maxRows) && NeverEarly(split, overhead, budget, maxRows)
    ensures forall rival :: IsSplit(rival, all, overhead, budget, maxRows) ==> |split| <= |rival|
  {
    forall rival | IsSplit(rival, all, overhead, budget, maxRows) ensures |split| <= |rival| {
      NeverEarlyIsMinimal(split, rival, all, overhead, budget, maxRows);
    }
  }

  lemma CostsSnoc<Row>(group: seq<Row>, row: Row, cost: Row -> nat)
    ensures Costs(group + [row], cost) == Costs(group, cost) + [cost(row)]
    ensures Cost(Costs(group + [row], cost)) == Cost(Costs(group, cost)) + cost(row)
  {
    assert Costs(group + [row], cost) == Costs(group, cost) + [cost(row)];
    assert (Costs(group, cost) + [cost(row)])[..|group|] == Costs(group, cost);
  }

  /** What the loops keep: the closed groups and the open one hold the rows seen so far. */
  ghost predicate Progress<Row>(closed: seq<seq<Row>>, group: seq<Row>, seen: seq<Row>, cost: Row -> nat,
                                overhead: nat, budget: int, maxRows: nat) {
    && Concat(closed) + group == seen
    && (forall g :: 0 <= g < |closed| ==> Fits(Costs(closed[g], cost), overhead, budget, maxRows))
    && (group != [] ==> Fits(Costs(group, cost), overhead, budget, maxRows))
    && (seen != [] ==> group != [])
    && NeverEarly(GroupCosts(closed + [group], cost), overhead, budget, maxRows)
  }

  lemma Flush<Row>(closed: seq<seq<Row>>, group: seq<Row>, row: Row, seen: seq<Row>, cost: Row -> nat, overhead: nat,
                   budget: int, maxRows: nat)
    requires Progress(closed, group, seen, cost, overhead, budget, maxRows) && group != [] && 1 <= maxRows
    requires |group| >= maxRows || overhead + Cost(Costs(group, cost)) + cost(row) > budget
    ensures Progress(closed + [group], [row], seen + [row], cost, overhead, budget, maxRows)
  {
    ConcatSnoc(closed, group);
    CostsSnoc(group, row, cost);
    var a, b := GroupCosts(closed + [group], cost), GroupCosts(closed + [group] + [[row]], cost);
    assert b == a + [[cost(row)]] by { assert Costs([row], cost) == [cost(row)]; }
    assert a[|closed|] == Costs(group, cost);
    assert Cost([cost(row)]) == cost(row) by { assert [cost(row)][..0] == []; }
  }

  lemma Extend<Row>(closed: seq<seq<Row>>, group: seq<Row>, row: Row, seen: seq<Row>, cost: Row -> nat, overhead: nat,
                    budget: int, maxRows: nat)
    requires Progress(closed, group, seen, cost, overhead, budget, maxRows) && 1 <= maxRows
    requires group == [] || (|group| < maxRows && overhead + Cost(Costs(group, cost)) + cost(row) <= budget)
    ensures Progress(closed, group + [row], seen + [row], cost, overhead, budget, maxRows)
  {
    CostsSnoc(group, row, cost);
    var a, b := GroupCosts(closed + [group], cost), GroupCosts(closed + [group + [row]], cost);
    assert a[..|closed|] == b[..|closed|];
    assert a[|closed|] == Costs(group, cost) && b[|closed|] == Costs(group, cost) + [cost(row)];
    assert group == [] ==> closed == [];
  }

  lemma Finish<Row>(closed: seq<seq<Row>>, group: seq<Row>, rows: seq<Row>, cost: Row -> nat, overhead: nat,
                    budget: int, maxRows: nat)
    requires Progress(closed, group, rows, cost, overhead, budget, maxRows) && rows != []
    ensures IsBestSplit(closed + [group], rows, cost, overhead, budget, maxRows)
  {
    ConcatSnoc(closed, group);
    BestSplit(closed + [group], rows, cost, overhead, budget, maxRows);
  }

  function OrDefault(value: int, default: nat): (r: nat)
    requires default > 0
    ensures r > 0
  {
    if value <= 0 then default else value
  }

  /** The larger of the two sizes: `toleranceSize` never makes the budget smaller. */
  function Tolerance(chunkSize: int, toleranceSize: int): nat {
    var budget := OrDefault(chunkSize, DEFAULT_CHUNK_SIZE);
    if toleranceSize < budget then budget else toleranceSize
  }

  /**
   The budget that `chunkTableBlock` works with. A table that is short enough gets the larger
   tolerance, but only its first row is held against it.
   */
  function TableBudget(costs: seq<nat>, chunkSize: int, toleranceSize: int, rowsPerChunk: int): nat {
    var tolerance := Tolerance(chunkSize, toleranceSize);
    if costs != [] && |costs| <= OrDefault(rowsPerChunk, DEFAULT_ROWS_PER_CHUNK) && costs[0] <= tolerance then tolerance
    else OrDefault(chunkSize, DEFAULT_CHUNK_SIZE)
  }

  lemma BudgetFromFirstRow<Row>(rows: seq<Row>, cost: Row -> nat, chunkSize: int, toleranceSize: int, rowsPerChunk: int)
    requires rows != []
    ensures TableBudget(Costs(rows, cost), chunkSize, toleranceSize, rowsPerChunk) ==
            var budget := OrDefault(chunkSize, DEFAULT_CHUNK_SIZE);
            var tolerance := if toleranceSize < budget then budget else toleranceSize;
            if |rows| <= OrDefault(rowsPerChunk, DEFAULT_ROWS_PER_CHUNK) &&
               cost(rows[0]) <= tolerance then tolerance else budget
  {
  }

  lemma NothingSplit<Row>(rows: seq<Row>, cost: Row -> nat, overhead: nat, budget: int, maxRows: nat)
    requires rows != []
    ensures Progress([], [], rows[..0], cost, overhead, budget, maxRows) && Cost(Costs<Row>([], cost)) == 0
    ensures rows[..|rows|] == rows
  {
  }

  /** The row loop of `chunkTableBlock`; `cost` is the length of the row rendered as key-value text. */
  method SplitTableData<Row>(rows: seq<Row>, cost: Row -> nat, chunkSize: int, toleranceSize: int, rowsPerChunk: int)
    returns (result: seq<seq<Row>>)
    requires rows != []
    ensures IsBestSplit(result, rows, cost, 0, TableBudget(Costs(rows, cost), chunkSize, toleranceSize, rowsPerChunk),
                        OrDefault(rowsPerChunk, DEFAULT_ROWS_PER_CHUNK))
  {
    hide Progress, Costs, Cost, IsBestSplit, TableBudget;
    BudgetFromFirstRow(rows, cost, chunkSize, toleranceSize, rowsPerChunk);
    NothingSplit(rows, cost, 0, TableBudget(Costs(rows, cost), chunkSize, toleranceSize, rowsPerChunk),
                 OrDefault(rowsPerChunk, DEFAULT_ROWS_PER_CHUNK));
    var budget := OrDefault(chunkSize, DEFAULT_CHUNK_SIZE);
    var tolerance := if toleranceSize < budget then budget else toleranceSize;
    var maxRows := OrDefault(rowsPerChunk, DEFAULT_ROWS_PER_CHUNK);
    ghost var limit := TableBudget(Costs(rows, cost), chunkSize, toleranceSize, rowsPerChunk);
    result := [];
    var group: seq<Row> := [];
    var groupCost := 0;
    for i := 0 to |rows|
      invariant i > 0 ==> budget == limit && group != []
      invariant i == 0 ==> group == [] && result == [] && budget == OrDefault(chunkSize, DEFAULT_CHUNK_SIZE)
      invariant groupCost == Cost(Costs(group, cost))
      invariant Progress(result, group, rows[..i], cost, 0, limit, maxRows)
    {
      var row := rows[i];
      assert rows[..i + 1] == rows[..i] + [row];
      var rowCost := cost(row);
      var overCap := |group| >= maxRows;
      var overBudget := |group| > 0 && groupCost + rowCost > budget;
      if |group| == 0 && |rows| <= maxRows && rowCost <= tolerance {
        budget := tolerance;
        overBudget := false;
      }
      if overCap || overBudget {
        Flush(result, group, row, rows[..i], cost, 0, limit, maxRows);
        result := result + [group];
        group := [];
        groupCost := 0;
      } else {
        Extend(result, group, row, rows[..i], cost, 0, limit, maxRows);
      }
      CostsSnoc(group, row, cost);
      assert [] + [row] == [row];
      group := group + [row];
      groupCost := groupCost + rowCost;
    }
    assert rows[..|rows|] == rows;
    Finish(result, group, rows, cost, 0, limit, maxRows);
    result := result + [group];
  }

  /** `chunkTableBlock`: a table without rows is still one chunk. */
  method SplitTableRows<Row>(rows: seq<Row>, cost: Row -> nat, chunkSize: int, toleranceSize: int, rowsPerChunk: int)
    returns (result: seq<seq<Row>>)
    ensures rows == [] ==> result == [[]]
    ensures rows != [] ==>
              IsBestSplit(result, rows, cost, 0, TableBudget(Costs(rows, cost), chunkSize, toleranceSize, rowsPerChunk),
                          OrDefault(rowsPerChunk, DEFAULT_ROWS_PER_CHUNK))
  {
    hide IsBestSplit;
    if |rows| == 0 {
      return [[]];
    }
    result := SplitTableData(rows, cost, chunkSize, toleranceSize, rowsPerChunk);
  }

  // ----- HTML tables -----

  const HTML_TABLE_CLOSE := "</table>"

  function Length(s: string): nat {
    |s|
  }

  function Join(group: seq<string>): string {
    if group == [] then "" else Join(group[..|group| - 1]) + group[|group| - 1]
  }

  lemma {:induction false} JoinLength(group: seq<string>)
    ensures |Join(group)| == Cost(Costs(group, Length))
  {
    if group != [] {
      JoinLength(group[..|group| - 1]);
      CostsSnoc(group[..|group| - 1], group[|group| - 1], Length);
      assert group[..|group| - 1] + [group[|group| - 1]] == group;
    }
  }

  function Rendered(open: string, header: string, group: seq<string>): string {
    open + header + Join(group) + HTML_TABLE_CLOSE
  }

  function RenderedAll(open: string, header: string, groups: seq<seq<string>>): seq<string> {
    seq(|groups|, g requires 0 <= g < |groups| => Rendered(open, header, groups[g]))
  }

  lemma RenderedAllSnoc(open: string, header: string, groups: seq<seq<string>>, group: seq<string>)
    ensures RenderedAll(open, header, groups + [group]) ==
              RenderedAll(open, header, groups) + [Rendered(open, header, group)]
  {
  }

  lemma OneRow(row: string)
    ensures Cost(Costs([row], Length)) == |row|
  {
    CostsSnoc([], row, Length);
    assert [] + [row] == [row];
  }

  /** A chunk that is over the budget has a single row. */
  ghost predicate WithinBudget(result: seq<string>, groups: seq<seq<string>>, budget: int) {
    |result| == |groups| && forall g :: 0 <= g < |groups| ==> |groups[g]| == 1 || |result[g]| <= budget
  }

  /** The rendered groups of a best split of the data rows, each within the budget or of one row. */
  ghost predicate IsBestHtmlSplit(result: seq<string>, open: string, header: string, data: seq<string>, budget: int,
                                  maxRows: nat) {
    exists groups ::
      && IsBestSplit(groups, data, Length, |open| + |HTML_TABLE_CLOSE| + |header|, budget, maxRows)
      && result == RenderedAll(open, header, groups) && WithinBudget(result, groups, budget)
  }

  lemma RenderedWithinBudget(open: string, header: string, groups: seq<seq<string>>, rows: seq<string>, budget: int,
                             maxRows: nat)
    requires IsBestSplit(groups, rows, Length, |open| + |HTML_TABLE_CLOSE| + |header|, budget, maxRows)
    ensures WithinBudget(RenderedAll(open, header, groups), groups, budget)
  {
    forall g | 0 <= g < |groups| ensures |groups[g]| == 1 || |RenderedAll(open, header, groups)[g]| <= budget {
      JoinLength(groups[g]);
      assert Fits(GroupCosts(groups, Length)[g], |open| + |HTML_TABLE_CLOSE| + |header|, budget, maxRows);
    }
  }

  function HtmlBudget(htmlLength: nat, dataRows: nat, chunkSize: int, toleranceSize: int, rowsPerChunk: int): nat {
    var tolerance := Tolerance(chunkSize, toleranceSize);
    if dataRows <= OrDefault(rowsPerChunk, DEFAULT_ROWS_PER_CHUNK) && htmlLength <= tolerance then tolerance
    else OrDefault(chunkSize, DEFAULT_CHUNK_SIZE)
  }

  lemma NothingRendered(open: string, header: string)
    ensures RenderedAll(open, header, []) == []
  {
  }

  lemma {:induction false} AllRendered(open: string, header: string, groups: seq<seq<string>>, rows: seq<string>,
                                       budget: int, maxRows: nat)
    requires IsBestSplit(groups, rows, Length, |open| + |HTML_TABLE_CLOSE| + |header|, budget, maxRows)
    ensures IsBestHtmlSplit(RenderedAll(open, header, groups), open, header, rows, budget, maxRows)
  {
    hide IsBestSplit;
    RenderedWithinBudget(open, header, groups, rows, budget, maxRows);
  }

  /** The row loop of `chunkHtmlTableBlock`: the shell and the header are repeated in every chunk and charged to it. */
  method SplitHtmlData(open: string, header: string, data: seq<string>, budget: int, maxRows: nat)
    returns (result: seq<string>)
    requires data != [] && 1 <= maxRows
    ensures IsBestHtmlSplit(result, open, header, data, budget, maxRows)
  {
    hide Progress, Costs, Cost, IsBestSplit, IsBestHtmlSplit, RenderedAll, Rendered;
    var overhead := |open| + |HTML_TABLE_CLOSE| + |header|;
    NothingSplit(data, Length, overhead, budget, maxRows);
    NothingRendered(open, header);
    result := [];
    ghost var groups: seq<seq<string>> := [];
    var group: seq<string> := [];
    var groupLen := 0;
    for i := 0 to |data|
      invariant i > 0 ==> group != []
      invariant groupLen == Cost(Costs(group, Length))
      invariant Progress(groups, group, data[..i], Length, overhead, budget, maxRows)
      invariant result == RenderedAll(open, header, groups)
    {
      var row := data[i];
      assert data[..i + 1] == data[..i] + [row];
      var rowLen := |row|;
      var overCap := |group| >= maxRows;
      var overBudget := |group| > 0 && overhead + groupLen + rowLen > budget;
      if overCap || overBudget {
        Flush(groups, group, row, data[..i], Length, overhead, budget, maxRows);
        RenderedAllSnoc(open, header, groups, group);
        result := result + [Rendered(open, header, group)];
        groups := groups + [group];
        group := [row];
        groupLen := rowLen;
        OneRow(row);
      } else {
        Extend(groups, group, row, data[..i], Length, overhead, budget, maxRows);
        CostsSnoc(group, row, Length);
        group := group + [row];
        groupLen := groupLen + rowLen;
      }
    }
    assert data[..|data|] == data;
    Finish(groups, group, data, Length, overhead, budget, maxRows);
    RenderedAllSnoc(open, header, groups, group);
    result := result + [Rendered(open, header, group)];
    groups := groups + [group];
    AllRendered(open, header, groups, data, budget, maxRows);
  }

  /**
   `chunkHtmlTableBlock` once the rows have been found. `rows[0]` is the header row. Every chunk is a
   whole table, within the budget unless it has a single row.
   */
  method SplitHtmlRows(html: string, open: string, rows: seq<string>, chunkSize: int, toleranceSize: int,
                       rowsPerChunk: int)
    returns (result: seq<string>)
    ensures |rows| < 2 ==> result == [html]
    ensures |rows| >= 2 ==>
              IsBestHtmlSplit(result, open, rows[0], rows[1..],
                              HtmlBudget(|html|, |rows| - 1, chunkSize, toleranceSize, rowsPerChunk),
                              OrDefault(rowsPerChunk, DEFAULT_ROWS_PER_CHUNK))
  {
    hide IsBestHtmlSplit;
    if |rows| < 2 {
      return [html];
    }
    var budget := OrDefault(chunkSize, DEFAULT_CHUNK_SIZE);
    var tolerance := if toleranceSize < budget then budget else toleranceSize;
    var maxRows := OrDefault(rowsPerChunk, DEFAULT_ROWS_PER_CHUNK);
    if |rows| - 1 <= maxRows && |html| <= tolerance {
      budget := tolerance;
    }
    result := SplitHtmlData(open, rows[0], rows[1..], budget, maxRows);
  }

  // ----- What the chunks are -----

  /** Groups of at most `maxRows` rows, within the budget or of one row, none of which could have taken the next row. */
  ghost predicate ClosedLate<Row>(groups: seq<seq<Row>>, cost: Row -> nat, overhead: nat, budget: int, maxRows: nat) {
    && (forall g :: 0 <= g < |groups| ==>
          && 0 < |groups[g]| <= maxRows
          && (|groups[g]| == 1 || overhead + Cost(Costs(groups[g], cost)) <= budget))
    && (forall g :: 0 <= g < |groups| - 1 ==>
          || |groups[g]| == maxRows
          || overhead + Cost(Costs(groups[g], cost)) + cost(groups[g + 1][0]) > budget)
  }

  lemma BestIsSplit<Row>(groups: seq<seq<Row>>, rows: seq<Row>, cost: Row -> nat, overhead: nat, budget: int,
                         maxRows: nat)
    requires IsBestSplit(groups, rows, cost, overhead, budget, maxRows)
    ensures Concat(groups) == rows
    ensures forall g :: 0 <= g < |groups| ==> Fits(Costs(groups[g], cost), overhead, budget, maxRows)
    ensures NeverEarly(GroupCosts(groups, cost), overhead, budget, maxRows)
  {
    forall g | 0 <= g < |groups| ensures Fits(Costs(groups[g], cost), overhead, budget, maxRows) {
      assert GroupCosts(groups, cost)[g] == Costs(groups[g], cost);
    }
  }

  lemma {:induction false} NextRowIsTooMuch<Row>(groups: seq<seq<Row>>, g: nat, cost: Row -> nat, overhead: nat,
                                                 budget: int, maxRows: nat)
    requires g < |groups| - 1 && NeverEarly(GroupCosts(groups, cost), overhead, budget, maxRows)
    requires Fits(Costs(groups[g], cost), overhead, budget, maxRows) && groups[g + 1] != []
    ensures |groups[g]| == maxRows || overhead + Cost(Costs(groups[g], cost)) + cost(groups[g + 1][0]) > budget
  {
    hide Cost;
    var split := GroupCosts(groups, cost);
    assert split[g] == Costs(groups[g], cost) && split[g + 1][0] == cost(groups[g + 1][0]);
    CostsSnoc(groups[g], groups[g + 1][0], cost);
  }

  lemma {:induction false} BestIsClosedLate<Row>(groups: seq<seq<Row>>, rows: seq<Row>, cost: Row -> nat,
                                                 overhead: nat, budget: int, maxRows: nat)
    requires IsBestSplit(groups, rows, cost, overhead, budget, maxRows)
    ensures ClosedLate(groups, cost, overhead, budget, maxRows)
  {
    BestIsSplit(groups, rows, cost, overhead, budget, maxRows);
    hide IsBestSplit, NeverEarly, Cost;
    forall g | 0 <= g < |groups| - 1
      ensures |groups[g]| == maxRows || overhead + Cost(Costs(groups[g], cost)) + cost(groups[g + 1][0]) > budget
    {
      NextRowIsTooMuch(groups, g, cost, overhead, budget, maxRows);
    }
  }

  /**
   The chunks of a table: a chunk size of 0 or less counts as 512 and a row cap of 0 or less as 50; a table of no
   more rows than the cap may use the tolerance, if it is the larger size and the first row is within it.
   */
  lemma TableChunksAre<Row>(groups: seq<seq<Row>>, rows: seq<Row>, cost: Row -> nat, chunkSize: int,
                            toleranceSize: int, rowsPerChunk: int)
    requires rows != []
    requires IsBestSplit(groups, rows, cost, 0, TableBudget(Costs(rows, cost), chunkSize, toleranceSize, rowsPerChunk),
                         OrDefault(rowsPerChunk, DEFAULT_ROWS_PER_CHUNK))
    ensures Concat(groups) == rows
    ensures var size := if chunkSize <= 0 then 512 else chunkSize;
            var maxRows := if rowsPerChunk <= 0 then 50 else rowsPerChunk;
            var tolerance := if toleranceSize < size then size else toleranceSize;
            ClosedLate(groups, cost, 0, if |rows| <= maxRows && cost(rows[0]) <= tolerance then tolerance else size,
                       maxRows)
  {
    BestIsClosedLate(groups, rows, cost, 0, TableBudget(Costs(rows, cost), chunkSize, toleranceSize, rowsPerChunk),
                     OrDefault(rowsPerChunk, DEFAULT_ROWS_PER_CHUNK));
  }

  /** The row numbered `k` of a rendered group stands behind the shell, the header and the rows before it. */
  lemma {:induction false} RowsStandInOrder(open: string, header: string, group: seq<string>, k: nat)
    requires k < |group|
    ensures var html, from := Rendered(open, header, group),
                              |open| + |header| + Cost(Costs(group[..k], Length));
            && open + header <= html && html[|html| - 8..] == "</table>"
            && |html| == |open| + |header| + Cost(Costs(group, Length)) + 8
            && from + |group[k]| <= |html| && html[from..from + |group[k]|] == group[k]
  {
    hide Cost, Join;
    JoinLength(group);
    JoinAt(group, k);
    var html, body, before := Rendered(open, header, group), Join(group), Cost(Costs(group[..k], Length));
    assert html[|open| + |header|..|open| + |header| + |body|] == body;
    assert html[|open| + |header| + before..|open| + |header| + before + |group[k]|] ==
           body[before..before + |group[k]|];
  }

  lemma {:induction false} JoinAt(group: seq<string>, k: nat)
    requires k < |group|
    ensures var from := Cost(Costs(group[..k], Length));
            from + |group[k]| <= |Join(group)| && Join(group)[from..from + |group[k]|] == group[k]
  {
    var front := group[..|group| - 1];
    JoinLength(front);
    if k < |front| {
      JoinAt(front, k);
      assert front[..k] == group[..k];
    }
  }

  /** The chunks of an HTML table with data rows: whole tables of the groups that the row loop makes. */
  lemma {:induction false} HtmlChunksAre(html: string, open: string, rows: seq<string>, chunkSize: int,
                                         toleranceSize: int, rowsPerChunk: int, result: seq<string>)
      returns (groups: seq<seq<string>>)
    requires |rows| >= 2
    requires IsBestHtmlSplit(result, open, rows[0], rows[1..],
                             HtmlBudget(|html|, |rows| - 1, chunkSize, toleranceSize, rowsPerChunk),
                             OrDefault(rowsPerChunk, DEFAULT_ROWS_PER_CHUNK))
    ensures Concat(groups) == rows[1..] && |result| == |groups|
    ensures forall g :: 0 <= g < |groups| ==> result[g] == Rendered(open, rows[0], groups[g])
    ensures var size := if chunkSize <= 0 then 512 else chunkSize;
            var maxRows := if rowsPerChunk <= 0 then 50 else rowsPerChunk;
            var tolerance := if toleranceSize < size then size else toleranceSize;
            ClosedLate(groups, Length, |open| + |rows[0]| + 8,
                       if |rows| - 1 <= maxRows && |html| <= tolerance then tolerance else size, maxRows)
  {
    hide IsBestSplit, ClosedLate, Rendered;
    var budget, maxRows := HtmlBudget(|html|, |rows| - 1, chunkSize, toleranceSize, rowsPerChunk),
                           OrDefault(rowsPerChunk, DEFAULT_ROWS_PER_CHUNK);
    var overhead := |open| + |HTML_TABLE_CLOSE| + |rows[0]|;
    groups :| IsBestSplit(groups, rows[1..], Length, overhead, budget, maxRows) &&
              result == RenderedAll(open, rows[0], groups) && WithinBudget(result, groups, budget);
    BestIsClosedLate(groups, rows[1..], Length, overhead, budget, maxRows);
    BestIsSplit(groups, rows[1..], Length, overhead, budget, maxRows);
  }

  // ----- What the tolerance does to the groups -----

  lemma OneOfMany(costs: seq<nat>)
    requires costs != []
    ensures costs[0] <= Cost(costs) && Cost([costs[0]]) == costs[0]
  {
    assert costs == [costs[0]] + costs[1..];
    CostConcat([costs[0]], costs[1..]);
    assert [costs[0]][..0] == [];
  }

  lemma OneGroup(groups: seq<seq<nat>>)
    requires |groups| == 1
    ensures Concat(groups) == groups[0]
  {
    assert groups[..0] == [];
    assert Concat(groups) == [] + groups[0];
  }

  lemma OneGroupIff<Row>(groups: seq<seq<Row>>, rows: seq<Row>, cost: Row -> nat, overhead: nat, budget: int,
                         maxRows: nat)
    requires rows != [] && IsBestSplit(groups, rows, cost, overhead, budget, maxRows)
    ensures |groups| == 1 <==> Fits(Costs(rows, cost), overhead, budget, maxRows)
  {
    var all, split := Costs(rows, cost), GroupCosts(groups, cost);
    if |groups| == 1 { OneGroup(split); }
    if Fits(all, overhead, budget, maxRows) {
      OneGroup([all]);
      assert IsSplit([all], all, overhead, budget, maxRows);
      assert groups != [];
    }
  }

  /** A table stays one chunk exactly if it has one row, or few enough rows that fit the tolerance together. */
  lemma {:induction false} StaysWholeIff<Row>(groups: seq<seq<Row>>, rows: seq<Row>, cost: Row -> nat, chunkSize: int,
                                              toleranceSize: int, rowsPerChunk: int)
    requires rows != []
    requires IsBestSplit(groups, rows, cost, 0, TableBudget(Costs(rows, cost), chunkSize, toleranceSize, rowsPerChunk),
                         OrDefault(rowsPerChunk, DEFAULT_ROWS_PER_CHUNK))
    ensures |groups| == 1 <==>
              || |rows| == 1
              || (|rows| <= (if rowsPerChunk <= 0 then 50 else rowsPerChunk) &&
                  (Cost(Costs(rows, cost)) <= toleranceSize ||
                   Cost(Costs(rows, cost)) <= if chunkSize <= 0 then 512 else chunkSize))
  {
    hide IsBestSplit, Cost;
    OneGroupIff(groups, rows, cost, 0, TableBudget(Costs(rows, cost), chunkSize, toleranceSize, rowsPerChunk),
                OrDefault(rowsPerChunk, DEFAULT_ROWS_PER_CHUNK));
    OneOfMany(Costs(rows, cost));
  }

  lemma CostsOfThree(a: nat, b: nat, c: nat)
    ensures Cost([a, b]) == a + b && Cost([a, b, c]) == a + b + c
    ensures Concat([[a, b], [c]]) == [a, b, c] && Concat([[a], [b], [c]]) == [a, b, c]
  {
    OneOfMany([a]);
    OneOfMany([b]);
    OneOfMany([c]);
    CostConcat([a], [b]);
    CostConcat([a] + [b], [c]);
    assert [a] + [b] == [a, b] && [a, b] + [c] == [a, b, c];
    assert [[a], [b], [c]] == [[a], [b]] + [[c]] && [[a], [b]] == [[a]] + [[b]] && [[a, b], [c]] == [[a, b]] + [[c]];
    ConcatSnoc([[a, b]], [c]);
    ConcatSnoc([[a], [b]], [c]);
    ConcatSnoc([[a]], [b]);
    OneGroup([[a, b]]);
    OneGroup([[a]]);
  }

  /** All splits that close no group early have the same number of groups. */
  lemma SameNumber<Row>(groups: seq<seq<Row>>, rows: seq<Row>, cost: Row -> nat, split: seq<seq<nat>>, budget: int,
                        maxRows: nat)
    requires IsBestSplit(groups, rows, cost, 0, budget, maxRows)
    requires IsSplit(split, Costs(rows, cost), 0, budget, maxRows) && NeverEarly(split, 0, budget, maxRows)
    ensures |groups| == |split|
  {
    NeverEarlyIsMinimal(split, GroupCosts(groups, cost), Costs(rows, cost), 0, budget, maxRows);
  }

  /**
   Above the tolerance the order of the rows decides: three rows of which two fit the tolerance together,
   though not the chunk size, and the third is too long for either, make two chunks if the long one comes
   last and three if it comes first, as the first row alone decides whether the tolerance applies.
   */
  lemma {:induction false} LongRowFirstOrLast<Row>(x: Row, y: Row, long: Row, cost: Row -> nat, chunkSize: int,
                                                   toleranceSize: int, rowsPerChunk: int, last: seq<seq<Row>>,
                                                   first: seq<seq<Row>>)
    requires OrDefault(chunkSize, DEFAULT_CHUNK_SIZE) < cost(x) +
               cost(y) <= Tolerance(chunkSize, toleranceSize) < cost(long)
    requires OrDefault(rowsPerChunk, DEFAULT_ROWS_PER_CHUNK) >= 3
    requires IsBestSplit(last, [x, y, long], cost, 0,
        TableBudget(Costs([x, y, long], cost), chunkSize, toleranceSize, rowsPerChunk),
                         OrDefault(rowsPerChunk, DEFAULT_ROWS_PER_CHUNK))
    requires IsBestSplit(first, [long, x, y], cost, 0,
        TableBudget(Costs([long, x, y], cost), chunkSize, toleranceSize, rowsPerChunk),
                         OrDefault(rowsPerChunk, DEFAULT_ROWS_PER_CHUNK))
    ensures |last| == 2 && |first| == 3
  {
    hide IsBestSplit, Cost, Concat;
    var maxRows := OrDefault(rowsPerChunk, DEFAULT_ROWS_PER_CHUNK);
    CostsOfThree(cost(x), cost(y), cost(long));
    CostsOfThree(cost(long), cost(x), cost(y));
    assert Costs([x, y, long], cost) == [cost(x), cost(y), cost(long)];
    assert Costs([long, x, y], cost) == [cost(long), cost(x), cost(y)];
    assert [cost(x), cost(y)] + [cost(long)] == [cost(x), cost(y), cost(long)];
    assert [cost(long)] + [cost(x)] == [cost(long), cost(x)] && [cost(x)] + [cost(y)] == [cost(x), cost(y)];
    SameNumber(last, [x, y, long], cost, [[cost(x), cost(y)], [cost(long)]], Tolerance(chunkSize, toleranceSize),
        maxRows);
    SameNumber(first, [long, x, y], cost, [[cost(long)], [cost(x)], [cost(y)]],
        OrDefault(chunkSize, DEFAULT_CHUNK_SIZE), maxRows);
  }
}
