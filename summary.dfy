/**
 * The cross-executable summary (`summary_information`): one row of twelve
 * metrics per executable directory whose `func-info.csv` and
 * `inst-data.csv` load and whose metrics can be computed, in listing order.
 */
module Summary {
  import opened Order
  import opened Aggregation
  import opened Tables

  /** The row written to `summary.csv` for one executable. */
  datatype SummaryRow = SummaryRow(
    executable: string,
    avgBasicBlockSize: real,
    largestFunction: int,
    largestFunctionSize: int,
    numBasicBlocksInLargestFunc: nat,
    numInstructionsInLargestFunc: int,
    avgFunctionSize: real,
    largestInstructionAddress: int,
    largestInstructionMnemonic: string,
    mostReferencedBlock: int,
    mostReferencedCount: int,
    mostReferencedBlockSize: int)

  /** Why an executable gets no row: a table did not load, or `idxmax` met an empty table. */
  datatype Failure = LoadFailed | EmptyTable

  datatype SummaryResult = Computed(row: SummaryRow) | Failed(failure: Failure)

  /** `func_info.groupby("Function")["Size"].sum()`: per-function sizes, by ascending id. */
  function FunctionSizes(fi: seq<FuncInfoRow>): (r: Series<int>)
    ensures StrictlySorted(Index(r), IntLess)
    ensures forall f :: f in Index(r) <==> f in FunctionColumn(fi)
    ensures forall i :: 0 <= i < |r| ==> r[i].1 == FunctionSize(fi, r[i].0)
    ensures Sum(Values(r)) == Sum(SizeColumn(fi))
    ensures 0 < |r| <= |fi| || |fi| == 0 == |r|
  {
    IntLessIsStrictTotalOrder();
    GroupSum(FunctionColumn(fi), SizeColumn(fi), IntLess)
  }

  /** The summed size of the blocks of function `f`. */
  function FunctionSize(fi: seq<FuncInfoRow>, f: int): int
  {
    SumWhere(FunctionColumn(fi), SizeColumn(fi), f)
  }

  lemma FunctionColumnHasEveryRow(fi: seq<FuncInfoRow>)
    ensures forall i :: 0 <= i < |fi| ==> fi[i].functionId in FunctionColumn(fi)
  {
    forall i | 0 <= i < |fi| ensures fi[i].functionId in FunctionColumn(fi) {
      assert FunctionColumn(fi)[i] == fi[i].functionId;
    }
  }

  /**
   * `func_sizes.idxmax()` and `func_sizes.max()`: a function whose summed
   * size is at least every function's, the lowest id among those that tie.
   */
  function LargestFunction(fi: seq<FuncInfoRow>): (r: (int, int))
    requires |fi| > 0
    ensures r.0 in FunctionColumn(fi)
    ensures r.1 == FunctionSize(fi, r.0)
    ensures forall i :: 0 <= i < |fi| ==> FunctionSize(fi, fi[i].functionId) <= r.1
    ensures forall i :: 0 <= i < |fi| && FunctionSize(fi, fi[i].functionId) == r.1 ==> r.0 <= fi[i].functionId
  {
    var sizes := FunctionSizes(fi);
    var k := ArgMaxFirst(Values(sizes));
    IntLessIsStrictTotalOrder();
    GroupArgMax(FunctionColumn(fi), SizeColumn(fi), IntLess);
    FunctionColumnHasEveryRow(fi);
    (sizes[k].0, sizes[k].1)
  }

  /** `func_info[func_info["Function"] == f]["BasicBlock"]`, in row order. */
  function BlocksOf(fi: seq<FuncInfoRow>, f: int): (r: seq<int>)
    ensures |r| == CountOf(FunctionColumn(fi), f)
    ensures forall i :: 0 <= i < |fi| && fi[i].functionId == f ==> fi[i].basicBlock in r
    ensures forall b :: b in r ==> exists i :: 0 <= i < |fi| && fi[i].functionId == f && fi[i].basicBlock == b
  {
    if fi == [] then []
    else
      var rest := BlocksOf(fi[1..], f);
      assert FunctionColumn(fi)[1..] == FunctionColumn(fi[1..]);
      assert forall i :: 1 <= i < |fi| ==> fi[1..][i - 1] == fi[i];
      if fi[0].functionId == f then [fi[0].basicBlock] + rest else rest
  }

  /** The distinct block ids of function `f`. */
  function BlockSet(fi: seq<FuncInfoRow>, f: int): set<int>
  {
    set b | b in BlocksOf(fi, f)
  }

  lemma {:induction false} SetOfSeqBound(s: seq<int>)
    ensures |set b | b in s| <= |s|
  {
    if s != [] {
      SetOfSeqBound(s[1..]);
      assert (set b | b in s) == {s[0]} + (set b | b in s[1..]);
    }
  }

  /**
   * `nunique()` of the blocks of function `f`: at least one when `f` owns a
   * row, and at most the number of rows it owns.
   */
  function BlockCount(fi: seq<FuncInfoRow>, f: int): (n: nat)
    ensures n == |BlockSet(fi, f)|
    ensures forall b :: b in BlockSet(fi, f) <==>
              exists i :: 0 <= i < |fi| && fi[i].functionId == f && fi[i].basicBlock == b
    ensures n <= CountOf(FunctionColumn(fi), f)
    ensures f in FunctionColumn(fi) ==> n >= 1
    ensures forall i :: 0 <= i < |fi| && fi[i].functionId == f ==> fi[i].basicBlock in BlockSet(fi, f)
  {
    SetOfSeqBound(BlocksOf(fi, f));
    assert f in FunctionColumn(fi) ==> BlocksOf(fi, f)[0] in BlockSet(fi, f);
    |BlockSet(fi, f)|
  }

  /**
   * `inst_data[inst_data["Code"].isin(blocks)]["Count"].sum()`: the join of
   * instruction codes against block ids, as the summary performs it. With
   * non-negative counts it lies between 0 and the total count.
   */
  function InstructionsInBlocks(inst: seq<InstRow>, blocks: set<int>): (n: int)
    ensures n + SumIf(CodeColumn(inst), CountColumn(inst), blocks, false) == Sum(CountColumn(inst))
    ensures NonNegative(CountColumn(inst)) ==> 0 <= n <= Sum(CountColumn(inst))
  {
    SumIfPartition(CodeColumn(inst), CountColumn(inst), blocks);
    SumIfBounded(CodeColumn(inst), CountColumn(inst), blocks, true);
    SumIf(CodeColumn(inst), CountColumn(inst), blocks, true)
  }

  /** `inst_data["Length"].idxmax()`: the first row of greatest length. */
  function LargestInstruction(inst: seq<InstRow>): (k: nat)
    requires |inst| > 0
    ensures k < |inst|
    ensures forall j :: 0 <= j < |inst| ==> inst[j].length <= inst[k].length
    ensures forall j :: 0 <= j < k ==> inst[j].length < inst[k].length
  {
    var k := ArgMaxFirst(LengthColumn(inst));
    assert forall j :: 0 <= j < |inst| ==> LengthColumn(inst)[j] == inst[j].length;
    k
  }

  /** `func_info["ReferenceCount"].idxmax()`: the first row of greatest reference count. */
  function MostReferenced(fi: seq<FuncInfoRow>): (k: nat)
    requires |fi| > 0
    ensures k < |fi|
    ensures forall j :: 0 <= j < |fi| ==> fi[j].referenceCount <= fi[k].referenceCount
    ensures forall j :: 0 <= j < k ==> fi[j].referenceCount < fi[k].referenceCount
  {
    var k := ArgMaxFirst(ReferenceCountColumn(fi));
    assert forall j :: 0 <= j < |fi| ==> ReferenceCountColumn(fi)[j] == fi[j].referenceCount;
    k
  }

  /**
   * The metrics of one executable, or the failure that leaves it without a
   * row: `idxmax` raises on an empty table.
   */
  function Summarize(name: string, fi: seq<FuncInfoRow>, inst: seq<InstRow>): (r: SummaryResult)
    ensures r.Failed? <==> |fi| == 0 || |inst| == 0
    ensures r.Failed? ==> r.failure == EmptyTable
    ensures r.Computed? ==>
      var row := r.row;
      && row.executable == name
      && row.largestFunction in FunctionColumn(fi)
      && row.largestFunctionSize == FunctionSize(fi, row.largestFunction)
      && (forall i :: 0 <= i < |fi| ==> FunctionSize(fi, fi[i].functionId) <= row.largestFunctionSize)
      && (forall i :: 0 <= i < |fi| && FunctionSize(fi, fi[i].functionId) == row.largestFunctionSize ==>
            row.largestFunction <= fi[i].functionId)
      && row.numBasicBlocksInLargestFunc == |BlockSet(fi, row.largestFunction)|
      && 1 <= row.numBasicBlocksInLargestFunc <= CountOf(FunctionColumn(fi), row.largestFunction)
      && row.numInstructionsInLargestFunc
           == SumIf(CodeColumn(inst), CountColumn(inst), BlockSet(fi, row.largestFunction), true)
      && row.avgBasicBlockSize == Mean(SizeColumn(fi))
      && row.avgFunctionSize == Mean(Values(FunctionSizes(fi)))
      && row.largestInstructionAddress == inst[LargestInstruction(inst)].address
      && row.largestInstructionMnemonic == inst[LargestInstruction(inst)].mnemonic
      && row.mostReferencedBlock == fi[MostReferenced(fi)].basicBlock
      && row.mostReferencedCount == fi[MostReferenced(fi)].referenceCount
      && row.mostReferencedBlockSize == fi[MostReferenced(fi)].size
  {
    if |fi| == 0 || |inst| == 0 then Failed(EmptyTable)
    else
      var sizes := FunctionSizes(fi);
      var largest := LargestFunction(fi).0;
      var largestSize := LargestFunction(fi).1;
      var li := LargestInstruction(inst);
      var mr := MostReferenced(fi);
      Computed(SummaryRow(
        name,
        Mean(SizeColumn(fi)),
        largest,
        largestSize,
        BlockCount(fi, largest),
        InstructionsInBlocks(inst, BlockSet(fi, largest)),
        Mean(Values(sizes)),
        inst[li].address,
        inst[li].mnemonic,
        fi[mr].basicBlock,
        fi[mr].referenceCount,
        fi[mr].size))
  }

  /**
   * Regrouping the same values into no more groups keeps the total and, when
   * the total is non-negative, cannot lower the mean.
   */
  lemma MeanOfRegrouping(parts: seq<int>, groups: seq<int>)
    requires 0 < |groups| <= |parts| && Sum(groups) == Sum(parts)
    ensures Sum(parts) >= 0 ==> Mean(groups) >= Mean(parts)
  {
    if Sum(parts) >= 0 {
      MeanOverFewerParts(Sum(parts) as real, |parts| as real, |groups| as real, Mean(parts), Mean(groups));
    }
  }

  /** Dividing a non-negative total among fewer parts gives a mean at least as large. */
  lemma MeanOverFewerParts(total: real, n: real, g: real, byN: real, byG: real)
    requires 0.0 < g <= n && total >= 0.0
    requires byN * n == total && byG * g == total
    ensures byG >= byN
  {
    assert byN >= 0.0;
    assert byN * n >= byN * g;
    assert (byG - byN) * g >= 0.0;
  }

  /**
   * `AvgBasicBlockSize` and `AvgFunctionSize` divide the same total size, by
   * the number of blocks and by the number of functions; with a non-negative
   * total the mean function size is at least the mean block size, since
   * there are no more functions than blocks.
   */
  lemma SummaryAverages(fi: seq<FuncInfoRow>)
    requires |fi| > 0
    ensures 0 < |FunctionSizes(fi)| <= |fi|
    ensures Sum(Values(FunctionSizes(fi))) == Sum(SizeColumn(fi))
    ensures Sum(SizeColumn(fi)) >= 0 ==> Mean(Values(FunctionSizes(fi))) >= Mean(SizeColumn(fi))
  {
    var groups := Values(FunctionSizes(fi));
    assert |groups| == |FunctionSizes(fi)| <= |fi| == |SizeColumn(fi)|;
    MeanOfRegrouping(SizeColumn(fi), groups);
  }

  // ---------------------------------------------------------------------
  // The driver: one pass over the directory listing

  datatype LoadedTables = LoadedTables(funcInfo: seq<FuncInfoRow>, instData: seq<InstRow>)

  /**
   * One entry of the listing of the working directory: its name, whether it
   * is a directory, and its two tables if `read_csv` loaded both.
   */
  datatype DirEntry = DirEntry(name: string, isDirectory: bool, tables: Option<LoadedTables>)

  /** The line printed for a failed executable. */
  datatype ErrorLine = ErrorLine(executable: string, failure: Failure)

  datatype EntryOutcome = Skipped | Emitted(row: SummaryRow) | Logged(error: ErrorLine)

  predicate IsHidden(name: string)
  {
    |name| > 0 && name[0] == '.'
  }

  /** What the loop body does with one entry. */
  function ProcessEntry(e: DirEntry): (o: EntryOutcome)
    ensures o.Skipped? <==> !e.isDirectory || IsHidden(e.name)
    ensures o.Emitted? ==> o.row.executable == e.name && e.tables.Some?
    ensures o.Logged? ==> o.error.executable == e.name
    ensures !o.Skipped? && e.tables.None? ==> o == Logged(ErrorLine(e.name, LoadFailed))
    ensures !o.Skipped? && e.tables.Some? ==>
              var t := e.tables.value;
              match Summarize(e.name, t.funcInfo, t.instData)
              case Computed(row) => o == Emitted(row)
              case Failed(f) => o == Logged(ErrorLine(e.name, f))
  {
    if !e.isDirectory || IsHidden(e.name) then Skipped
    else
      match e.tables
      case None => Logged(ErrorLine(e.name, LoadFailed))
      case Some(t) =>
        match Summarize(e.name, t.funcInfo, t.instData)
        case Computed(row) => Emitted(row)
        case Failed(f) => Logged(ErrorLine(e.name, f))
  }

  /** What the loop body does with each entry of `listing`, in order. */
  function Outcomes(listing: seq<DirEntry>): (outs: seq<EntryOutcome>)
    ensures |outs| == |listing|
    ensures forall i :: 0 <= i < |listing| ==> outs[i] == ProcessEntry(listing[i])
  {
    seq(|listing|, i requires 0 <= i < |listing| => ProcessEntry(listing[i]))
  }

  lemma OutcomesStep(listing: seq<DirEntry>, i: int)
    requires 0 <= i < |listing|
    ensures Outcomes(listing[..i + 1]) == Outcomes(listing[..i]) + [ProcessEntry(listing[i])]
  {
  }

  /** The rows appended for a run of outcomes. */
  function RowsOf(outs: seq<EntryOutcome>): seq<SummaryRow>
  {
    if outs == [] then []
    else
      var o := outs[|outs| - 1];
      RowsOf(outs[..|outs| - 1]) + (if o.Emitted? then [o.row] else [])
  }

  /** The error lines printed for a run of outcomes. */
  function ErrorsOf(outs: seq<EntryOutcome>): seq<ErrorLine>
  {
    if outs == [] then []
    else
      var o := outs[|outs| - 1];
      ErrorsOf(outs[..|outs| - 1]) + (if o.Logged? then [o.error] else [])
  }

  /** The positions of the outcomes that produced a row. */
  function OriginsOf(outs: seq<EntryOutcome>): seq<int>
  {
    if outs == [] then []
    else
      var n := |outs| - 1;
      OriginsOf(outs[..n]) + (if outs[n].Emitted? then [n] else [])
  }

  /** `aggregated_data` after the loop has visited `listing`. */
  function AggregatedRows(listing: seq<DirEntry>): seq<SummaryRow>
  {
    RowsOf(Outcomes(listing))
  }

  /** The error lines printed while the loop visited `listing`. */
  function ErrorLog(listing: seq<DirEntry>): seq<ErrorLine>
  {
    ErrorsOf(Outcomes(listing))
  }

  /** The positions of the listing entries that produced a row. */
  function Origins(listing: seq<DirEntry>): seq<int>
  {
    OriginsOf(Outcomes(listing))
  }

  /** `summary_information`: visits the listing in order, appending a row per success. */
  method SummaryInformation(listing: seq<DirEntry>) returns (aggregated: seq<SummaryRow>, log: seq<ErrorLine>)
    ensures aggregated == AggregatedRows(listing)
    ensures log == ErrorLog(listing)
  {
    aggregated, log := [], [];
    for i := 0 to |listing|
      invariant aggregated == AggregatedRows(listing[..i])
      invariant log == ErrorLog(listing[..i])
    {
      OutcomesStep(listing, i);
      var outs := Outcomes(listing[..i + 1]);
      assert outs[..i] == Outcomes(listing[..i]);
      var entry := listing[i];
      if !entry.isDirectory || IsHidden(entry.name) {
        continue;
      }
      match entry.tables {
        case None =>
          log := log + [ErrorLine(entry.name, LoadFailed)];
        case Some(t) =>
          var result := Summarize(entry.name, t.funcInfo, t.instData);
          match result {
            case Computed(row) =>
              aggregated := aggregated + [row];
            case Failed(f) =>
              log := log + [ErrorLine(entry.name, f)];
          }
      }
    }
    assert listing[..|listing|] == listing;
  }

  /**
   * Row k of a run of outcomes comes from outcome Origins[k]; the origins
   * are increasing and the outcomes at no origin produced no row.
   */
  lemma {:induction false} RowsFollowOutcomes(outs: seq<EntryOutcome>)
    ensures var rows, o := RowsOf(outs), OriginsOf(outs);
            && |o| == |rows| <= |outs|
            && (forall k :: 0 <= k < |o| ==> 0 <= o[k] < |outs|)
            && (forall k, l :: 0 <= k < l < |o| ==> o[k] < o[l])
            && (forall k :: 0 <= k < |o| ==> outs[o[k]] == Emitted(rows[k]))
            && (forall i :: 0 <= i < |outs| && i !in o ==> !outs[i].Emitted?)
  {
    if outs != [] {
      var n := |outs| - 1;
      var init := outs[..n];
      RowsFollowOutcomes(init);
      assert forall i :: 0 <= i < n ==> init[i] == outs[i];
    }
  }

  /**
   * The summary has one row per entry that produced one, in listing order:
   * row k comes from entry Origins[k], the origins are increasing, and every
   * other entry was skipped or logged an error.
   */
  lemma SummaryFollowsListing(listing: seq<DirEntry>)
    ensures var rows, o := AggregatedRows(listing), Origins(listing);
            && |o| == |rows| <= |listing|
            && (forall k :: 0 <= k < |o| ==> 0 <= o[k] < |listing|)
            && (forall k, l :: 0 <= k < l < |o| ==> o[k] < o[l])
            && (forall k :: 0 <= k < |o| ==> ProcessEntry(listing[o[k]]) == Emitted(rows[k]))
            && (forall i :: 0 <= i < |listing| && i !in o ==> !ProcessEntry(listing[i]).Emitted?)
  {
    RowsFollowOutcomes(Outcomes(listing));
  }

  predicate DistinctNames(listing: seq<DirEntry>)
  {
    forall i, j :: 0 <= i < j < |listing| ==> listing[i].name != listing[j].name
  }

  /**
   * An executable directory that fails (a table missing or unreadable, or
   * empty) gets no row and an error line naming it; the other entries go on.
   */
  lemma FailedEntryHasNoRow(listing: seq<DirEntry>, i: int)
    requires DistinctNames(listing) && 0 <= i < |listing|
    requires ProcessEntry(listing[i]).Logged?
    ensures forall row :: row in AggregatedRows(listing) ==> row.executable != listing[i].name
    ensures ProcessEntry(listing[i]).error in ErrorLog(listing)
    ensures ProcessEntry(listing[i]).error.executable == listing[i].name
  {
    SummaryFollowsListing(listing);
    var rows, o := AggregatedRows(listing), Origins(listing);
    forall row | row in rows ensures row.executable != listing[i].name {
      var k :| 0 <= k < |rows| && rows[k] == row;
      assert ProcessEntry(listing[o[k]]) == Emitted(row);
      assert o[k] != i;
    }
    ErrorLogHasEntry(listing, i);
  }

  lemma ErrorLogHasEntry(listing: seq<DirEntry>, i: int)
    requires 0 <= i < |listing| && ProcessEntry(listing[i]).Logged?
    ensures ProcessEntry(listing[i]).error in ErrorLog(listing)
  {
    ErrorsOfHasEntry(Outcomes(listing), i);
  }

  lemma {:induction false} ErrorsOfHasEntry(outs: seq<EntryOutcome>, i: int)
    requires 0 <= i < |outs| && outs[i].Logged?
    ensures outs[i].error in ErrorsOf(outs)
  {
    var n := |outs| - 1;
    if i < n {
      ErrorsOfHasEntry(outs[..n], i);
    }
  }
}
