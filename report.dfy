/**
 * The per-executable report (`gen_program_results`): the series behind each
 * panel of `results.png`, computed from the three loaded tables.
 */
module Report {
  import opened Order
  import opened Aggregation
  import opened Tables
  import opened Text
  import Summary

  // ---------------------------------------------------------------------
  // Instructions

  /** The total `Count` of the instructions with mnemonic `m`. */
  function MnemonicCount(inst: seq<InstRow>, m: string): int
  {
    SumWhere(MnemonicColumn(inst), CountColumn(inst), m)
  }

  /** `groupby('Mnemonic')['Count'].sum().nlargest(10)`. */
  function TopMnemonics(inst: seq<InstRow>): (r: Series<string>)
    ensures IsTopGroups(r, MnemonicColumn(inst), CountColumn(inst), StrLess, 10)
    ensures forall i :: 0 <= i < |r| ==> r[i].1 == MnemonicCount(inst, r[i].0)
  {
    StrLessIsStrictTotalOrder();
    TopGroups(MnemonicColumn(inst), CountColumn(inst), StrLess, 10)
  }

  /** The row positions of an `nlargest` result (its index). */
  function Positions<T>(r: seq<(int, T)>): seq<int>
  {
    seq(|r|, i requires 0 <= i < |r| => r[i].0)
  }

  /**
   * `nlargest(11, 'Length')`: the rows, each with its position, of the 11
   * longest instructions (all of them when there are fewer), longest first
   * and the earlier row first on equal lengths; no row left out is longer
   * than a listed one, nor as long and earlier.
   */
  function LargestInstructions(inst: seq<InstRow>): (r: seq<(int, InstRow)>)
    ensures |r| == Min(11, |inst|)
    ensures Distinct(Positions(r))
    ensures forall i :: 0 <= i < |r| ==> 0 <= r[i].0 < |inst| && r[i].1 == inst[r[i].0]
    ensures forall i, j :: 0 <= i < j < |r| ==>
              r[i].1.length > r[j].1.length || (r[i].1.length == r[j].1.length && r[i].0 < r[j].0)
    ensures forall i, j :: 0 <= i < |r| && 0 <= j < |inst| && j !in Positions(r) ==>
              inst[j].length < r[i].1.length || (inst[j].length == r[i].1.length && r[i].0 < j)
  {
    var p := TopPositions(LengthColumn(inst), 11);
    assert forall k :: 0 <= k < |inst| ==> LengthColumn(inst)[k] == inst[k].length;
    var r := seq(|p|, i requires 0 <= i < |p| => (p[i], inst[p[i]]));
    assert Positions(r) == p;
    r
  }

  /**
   * The first bar of the "largest instructions" panel is the instruction
   * the summary reports as the largest (`idxmax` of `Length`).
   */
  lemma LargestInstructionsLead(inst: seq<InstRow>)
    requires |inst| > 0
    ensures |LargestInstructions(inst)| > 0
    ensures LargestInstructions(inst)[0].0 == Summary.LargestInstruction(inst)
  {
    var r := LargestInstructions(inst);
    var k := Summary.LargestInstruction(inst);
    var p0 := r[0].0;
    assert inst[p0].length <= inst[k].length;
  }

  /** How many instructions have length `len`. */
  function LengthCount(inst: seq<InstRow>, len: int): nat
  {
    CountOf(LengthColumn(inst), len)
  }

  /**
   * `['Length'].value_counts().sort_index()`: each length that occurs, in
   * ascending order, with the number of instructions of that length.
   */
  function LengthCounts(inst: seq<InstRow>): (r: Series<int>)
    ensures StrictlySorted(Index(r), IntLess)
    ensures forall len :: len in Index(r) <==> exists i :: 0 <= i < |inst| && inst[i].length == len
    ensures forall i :: 0 <= i < |r| ==> r[i].1 == LengthCount(inst, r[i].0) && r[i].1 >= 1
    ensures Sum(Values(r)) == |inst|
  {
    IntLessIsStrictTotalOrder();
    var r := GroupCount(LengthColumn(inst), IntLess);
    assert forall k :: 0 <= k < |inst| ==> LengthColumn(inst)[k] == inst[k].length;
    r
  }

  /**
   * `[['MemRead', 'MemWrite', 'CondMemRead', 'CondMemWrite']].sum()`: the
   * four flag columns, each with the number of rows that set it.
   */
  function MemoryAccessCounts(inst: seq<InstRow>): (r: Series<string>)
    ensures Index(r) == ["MemRead", "MemWrite", "CondMemRead", "CondMemWrite"]
    ensures forall i :: 0 <= i < |r| ==> 0 <= r[i].1 <= |inst|
    ensures r[0].1 == CountTrue(inst, MemRead) && r[1].1 == CountTrue(inst, MemWrite)
    ensures r[2].1 == CountTrue(inst, CondMemRead) && r[3].1 == CountTrue(inst, CondMemWrite)
  {
    [("MemRead", CountTrue(inst, MemRead)), ("MemWrite", CountTrue(inst, MemWrite)),
     ("CondMemRead", CountTrue(inst, CondMemRead)), ("CondMemWrite", CountTrue(inst, CondMemWrite))]
  }

  /** The memory-access counts do not depend on the order of the instruction rows. */
  lemma MemoryAccessCountsOrderFree(a: seq<InstRow>, b: seq<InstRow>)
    requires multiset(a) == multiset(b)
    ensures MemoryAccessCounts(a) == MemoryAccessCounts(b)
  {
    CountTruePermutation(a, b, MemRead);
    CountTruePermutation(a, b, MemWrite);
    CountTruePermutation(a, b, CondMemRead);
    CountTruePermutation(a, b, CondMemWrite);
  }

  // ---------------------------------------------------------------------
  // Basic blocks and functions

  /** The `TerminatorType` column: each terminator up to its first `(`. */
  function TerminatorTypeColumn(fi: seq<FuncInfoRow>): (c: seq<string>)
    ensures |c| == |fi|
    ensures forall i :: 0 <= i < |fi| ==>
              c[i] == TerminatorType(fi[i].terminator) && c[i] <= fi[i].terminator && '(' !in c[i]
  {
    seq(|fi|, i requires 0 <= i < |fi| => TerminatorType(fi[i].terminator))
  }

  /**
   * `['TerminatorType'].value_counts()`: every category that occurs, once,
   * with the number of blocks in it, most frequent first; the counts add up
   * to the number of blocks.
   */
  function TerminatorCounts(fi: seq<FuncInfoRow>): (r: Series<string>)
    ensures Distinct(Index(r))
    ensures forall i :: 0 <= i < |fi| ==> TerminatorType(fi[i].terminator) in Index(r)
    ensures forall i :: 0 <= i < |r| ==> '(' !in r[i].0
    ensures forall i :: 0 <= i < |r| ==> r[i].1 == CountOf(TerminatorTypeColumn(fi), r[i].0) && r[i].1 >= 1
    ensures forall i, j :: 0 <= i < j < |r| ==> r[i].1 >= r[j].1
    ensures Sum(Values(r)) == |fi|
  {
    StrLessIsStrictTotalOrder();
    var c := TerminatorTypeColumn(fi);
    var r := ValueCounts(c, StrLess);
    assert forall i :: 0 <= i < |fi| ==> c[i] == TerminatorType(fi[i].terminator);
    forall i | 0 <= i < |r| ensures '(' !in r[i].0 {
      assert Index(r)[i] in c;
    }
    r
  }

  /** `groupby('Function')['Size'].sum().nlargest(10)`, before relabelling. */
  function TopFunctionIds(fi: seq<FuncInfoRow>): (r: Series<int>)
    ensures IsTopGroups(r, FunctionColumn(fi), SizeColumn(fi), IntLess, 10)
    ensures forall i :: 0 <= i < |r| ==> r[i].1 == Summary.FunctionSize(fi, r[i].0)
    ensures |fi| > 0 ==> |r| > 0
  {
    IntLessIsStrictTotalOrder();
    TopGroups(FunctionColumn(fi), SizeColumn(fi), IntLess, 10)
  }

  /** The ten largest functions with their `sub_<id>` labels; no two share a label. */
  function TopFunctions(fi: seq<FuncInfoRow>): (r: seq<(string, int)>)
    ensures |r| == |TopFunctionIds(fi)| <= 10
    ensures forall i :: 0 <= i < |r| ==>
              r[i].0 == FunctionLabel(TopFunctionIds(fi)[i].0) && r[i].1 == TopFunctionIds(fi)[i].1
    ensures forall i, j :: 0 <= i < j < |r| ==> r[i].0 != r[j].0
  {
    var t := TopFunctionIds(fi);
    var r := seq(|t|, i requires 0 <= i < |t| => (FunctionLabel(t[i].0), t[i].1));
    forall i, j | 0 <= i < j < |r| ensures r[i].0 != r[j].0 {
      assert Index(t)[i] == t[i].0 && Index(t)[j] == t[j].0;
      if r[i].0 == r[j].0 {
        FunctionLabelInjective(t[i].0, t[j].0);
      }
    }
    r
  }

  /**
   * The first bar of the "largest functions" panel is the function the
   * summary reports as the largest, with the same size.
   */
  lemma TopFunctionIdsLead(fi: seq<FuncInfoRow>)
    requires |fi| > 0
    ensures |TopFunctionIds(fi)| > 0
    ensures TopFunctionIds(fi)[0] == Summary.LargestFunction(fi)
  {
    var t := TopFunctionIds(fi);
    var big := Summary.LargestFunction(fi);
    var top := t[0];
    var col := FunctionColumn(fi);
    assert top.0 in col;
    var i :| 0 <= i < |col| && col[i] == top.0;
    assert fi[i].functionId == top.0;
    assert top.1 <= big.1;
    if big.0 in Index(t) {
      var k :| 0 <= k < |t| && Index(t)[k] == big.0;
      assert t[k].1 == big.1;
    }
    assert top.1 == big.1;
    assert big.0 <= top.0;
  }

  /**
   * `[['Leaf', 'FrameFunction', 'UnalignedFrameFunction']].sum()`: the three
   * function-type flags, each with the number of functions that set it.
   */
  function FunctionTypeCounts(leaf: seq<FuncLeafRow>): (r: Series<string>)
    ensures Index(r) == ["Leaf", "FrameFunction", "UnalignedFrameFunction"]
    ensures forall i :: 0 <= i < |r| ==> 0 <= r[i].1 <= |leaf|
    ensures r[0].1 == CountTrue(leaf, Leaf) && r[1].1 == CountTrue(leaf, FrameFunction)
    ensures r[2].1 == CountTrue(leaf, UnalignedFrameFunction)
  {
    [("Leaf", CountTrue(leaf, Leaf)), ("FrameFunction", CountTrue(leaf, FrameFunction)),
     ("UnalignedFrameFunction", CountTrue(leaf, UnalignedFrameFunction))]
  }

  /** The function-type counts do not depend on the order of the rows. */
  lemma FunctionTypeCountsOrderFree(a: seq<FuncLeafRow>, b: seq<FuncLeafRow>)
    requires multiset(a) == multiset(b)
    ensures FunctionTypeCounts(a) == FunctionTypeCounts(b)
  {
    CountTruePermutation(a, b, Leaf);
    CountTruePermutation(a, b, FrameFunction);
    CountTruePermutation(a, b, UnalignedFrameFunction);
  }

  /** The summed `ReferenceCount` of the rows of block `b`. */
  function BlockReferences(fi: seq<FuncInfoRow>, b: int): int
  {
    SumWhere(BasicBlockColumn(fi), ReferenceCountColumn(fi), b)
  }

  /** `groupby('BasicBlock')['ReferenceCount'].sum().nlargest(15)`. */
  function TopReferencedBlocks(fi: seq<FuncInfoRow>): (r: Series<int>)
    ensures IsTopGroups(r, BasicBlockColumn(fi), ReferenceCountColumn(fi), IntLess, 15)
    ensures forall i :: 0 <= i < |r| ==> r[i].1 == BlockReferences(fi, r[i].0)
  {
    IntLessIsStrictTotalOrder();
    TopGroups(BasicBlockColumn(fi), ReferenceCountColumn(fi), IntLess, 15)
  }

  // ---------------------------------------------------------------------
  // Instruction categories

  /** The conditional and unconditional jumps, as listed (`Jne` twice). */
  const JccInstructions: seq<string> :=
    ["Ja", "Jae", "Jb", "Jbe", "Jcxz", "Jecxz", "Jg", "Jge",
     "Jl", "Jle", "Jmp", "Jmpe", "Jne", "Jno", "Jnp", "Jns",
     "Jo", "Jp", "Jrcxz", "Js", "Je", "Jne"]

  const DataMovements: seq<string> := ["Mov", "Call", "Movsx", "Movzx"]

  /** The labels a category can get; `Other` is given to no kept row. */
  datatype Category = ControlFlowAndDataMovements | Other | OtherInstructions

  /** The text of a category label. */
  function CategoryName(c: Category): string
  {
    match c
    case ControlFlowAndDataMovements => "Control Flow and Data Movements"
    case Other => "Other"
    case OtherInstructions => "Other Instructions"
  }

  function CategoryRank(c: Category): nat
  {
    match c
    case ControlFlowAndDataMovements => 0
    case Other => 1
    case OtherInstructions => 2
  }

  /** The order `groupby` sorts category labels in. */
  predicate CategoryLess(a: Category, b: Category)
  {
    CategoryRank(a) < CategoryRank(b)
  }

  /** `CategoryLess` is Python's order of the label texts. */
  lemma CategoryLessIsNameOrder(a: Category, b: Category)
    ensures CategoryLess(a, b) <==> StrLess(CategoryName(a), CategoryName(b))
  {
    var o := CategoryName(Other);
    var oi := CategoryName(OtherInstructions);
    StrLessFirst(CategoryName(ControlFlowAndDataMovements), o);
    assert oi[..|o|] == o;
    StrLessPrefix(o, oi);
    RankedNames(CategoryName, a, b);
  }

  /** Names that ascend with the rank compare as the ranks do. */
  lemma RankedNames(name: Category -> string, a: Category, b: Category)
    requires StrLess(name(ControlFlowAndDataMovements), name(Other))
    requires StrLess(name(Other), name(OtherInstructions))
    ensures CategoryLess(a, b) <==> StrLess(name(a), name(b))
  {
    var c, o, oi := name(ControlFlowAndDataMovements), name(Other), name(OtherInstructions);
    StrLessTransitive(c, o, oi);
    StrLessAsymmetric(c, o);
    StrLessAsymmetric(o, oi);
    StrLessAsymmetric(c, oi);
    StrLessIrreflexive(name(a));
  }

  lemma CategoryLessIsStrictTotalOrder()
    ensures StrictTotalOrder(CategoryLess)
  {
  }

  /** The mnemonics the `isin` filter keeps. */
  function Categorised(): set<string>
  {
    set m | m in DataMovements + JccInstructions
  }

  /** The category a mnemonic is given: every kept one is in the first. */
  function CategoryOf(m: string): (c: Category)
    ensures m in Categorised() ==> c == ControlFlowAndDataMovements
  {
    if m in JccInstructions + DataMovements then ControlFlowAndDataMovements else Other
  }

  /** Every mnemonic of `keep` is labelled "Control Flow and Data Movements". */
  ghost predicate LabelledAlike(keep: set<string>)
  {
    forall m :: m in keep ==> CategoryOf(m) == ControlFlowAndDataMovements
  }

  lemma CategorisedLabelledAlike()
    ensures LabelledAlike(Categorised())
  {
  }

  /** `instructions_df[instructions_df['Mnemonic'].isin(keep)]`, in row order. */
  function FilteredRows(inst: seq<InstRow>, keep: set<string>): (f: seq<InstRow>)
    ensures Sum(CountColumn(f)) == SumIf(MnemonicColumn(inst), CountColumn(inst), keep, true)
  {
    if inst == [] then []
    else
      var rest := FilteredRows(inst[1..], keep);
      assert MnemonicColumn(inst)[1..] == MnemonicColumn(inst[1..]);
      assert CountColumn(inst)[1..] == CountColumn(inst[1..]);
      assert CountColumn([inst[0]] + rest)[1..] == CountColumn(rest);
      if inst[0].mnemonic in keep then [inst[0]] + rest else rest
  }

  /** The filter keeps exactly the rows whose mnemonic is listed. */
  lemma {:induction false} FilteredRowsMembers(inst: seq<InstRow>, keep: set<string>)
    ensures forall x :: x in FilteredRows(inst, keep) <==> x in inst && x.mnemonic in keep
  {
    if inst != [] {
      FilteredRowsMembers(inst[1..], keep);
      assert inst == [inst[0]] + inst[1..];
    }
  }

  /** The `Category` column of the filtered rows. */
  function CategoryColumn(f: seq<InstRow>): (c: seq<Category>)
    ensures |c| == |f|
    ensures forall i :: 0 <= i < |f| ==> c[i] == CategoryOf(f[i].mnemonic)
    ensures OtherInstructions !in c
  {
    seq(|f|, i requires 0 <= i < |f| => CategoryOf(f[i].mnemonic))
  }

  /**
   * `groupby('Category')['Count'].sum()` of the rows `keep` lets through,
   * with `'Other Instructions'` appended as the total less the grouped sum.
   * The entries add up to the total count.
   */
  function SplitCounts(inst: seq<InstRow>, keep: set<string>): (r: Series<Category>)
    ensures Sum(Values(r)) == Sum(CountColumn(inst))
  {
    CategoryLessIsStrictTotalOrder();
    var f := FilteredRows(inst, keep);
    WithRemainder(GroupSum(CategoryColumn(f), CountColumn(f), CategoryLess), OtherInstructions, Sum(CountColumn(inst)))
  }

  /** The category series of the report: the split by the listed mnemonics. */
  function CategoryCounts(inst: seq<InstRow>): (r: Series<Category>)
    ensures Sum(Values(r)) == Sum(CountColumn(inst))
  {
    SplitCounts(inst, Categorised())
  }

  /**
   * When every kept mnemonic is labelled alike, the split is that label with
   * the count of the kept rows, when any is kept, then "Other Instructions"
   * with the count of all the others.
   */
  lemma SplitCountsShape(inst: seq<InstRow>, keep: set<string>)
    requires LabelledAlike(keep)
    ensures var r := SplitCounts(inst, keep);
            && (|r| == 1 || |r| == 2)
            && r[|r| - 1] == (OtherInstructions, SumIf(MnemonicColumn(inst), CountColumn(inst), keep, false))
            && (|r| == 2 <==> exists i :: 0 <= i < |inst| && inst[i].mnemonic in keep)
            && (|r| == 2 ==> r[0] == (ControlFlowAndDataMovements, SumIf(MnemonicColumn(inst), CountColumn(inst), keep, true)))
            && Other !in Index(r) && Distinct(Index(r))
  {
    SplitCountsKept(inst, keep);
    SplitCountsRemainder(inst, keep);
  }

  /** The grouped part of the split: one entry with the kept Count, when a row is kept. */
  lemma SplitCountsKept(inst: seq<InstRow>, keep: set<string>)
    requires LabelledAlike(keep)
    ensures var r := SplitCounts(inst, keep);
            && (|r| == 1 || |r| == 2)
            && (|r| == 2 <==> exists i :: 0 <= i < |inst| && inst[i].mnemonic in keep)
            && (|r| == 2 ==> r[0] == (ControlFlowAndDataMovements, SumIf(MnemonicColumn(inst), CountColumn(inst), keep, true)))
  {
    CategoryLessIsStrictTotalOrder();
    var f := FilteredRows(inst, keep);
    KeptRowsShareCategory(inst, keep, f);
    GroupSumSingleKey(CategoryColumn(f), CountColumn(f), CategoryLess, ControlFlowAndDataMovements);
    SomeRowKept(inst, keep);
  }

  /** The appended part of the split: "Other Instructions" with the Count of the rows not kept. */
  lemma SplitCountsRemainder(inst: seq<InstRow>, keep: set<string>)
    requires LabelledAlike(keep)
    ensures var r := SplitCounts(inst, keep);
            && |r| > 0
            && r[|r| - 1] == (OtherInstructions, SumIf(MnemonicColumn(inst), CountColumn(inst), keep, false))
            && Other !in Index(r) && Distinct(Index(r))
  {
    CategoryLessIsStrictTotalOrder();
    var f := FilteredRows(inst, keep);
    var grouped := GroupSum(CategoryColumn(f), CountColumn(f), CategoryLess);
    KeptRowsShareCategory(inst, keep, f);
    GroupSumSingleKey(CategoryColumn(f), CountColumn(f), CategoryLess, ControlFlowAndDataMovements);
    SumIfPartition(MnemonicColumn(inst), CountColumn(inst), keep);
    NoRemainderKey(f);
    RemainderAfterOne(grouped, OtherInstructions, Sum(CountColumn(inst)));
    RemainderEntry(grouped, OtherInstructions, Sum(CountColumn(inst)),
      SumIf(MnemonicColumn(inst), CountColumn(inst), keep, true),
      SumIf(MnemonicColumn(inst), CountColumn(inst), keep, false));
  }

  /** The appended entry holds what the existing entries leave of the total. */
  lemma RemainderEntry<K>(g: Series<K>, key: K, total: int, kept: int, rest: int)
    requires key !in Index(g) && Sum(Values(g)) == kept && kept + rest == total
    ensures var r := WithRemainder(g, key, total);
            |r| > 0 && r[|r| - 1] == (key, rest)
  {
  }

  /** No filtered row is grouped under "Other Instructions", so that label is new. */
  lemma NoRemainderKey(f: seq<InstRow>)
    requires StrictTotalOrder(CategoryLess)
    ensures OtherInstructions !in Index(GroupSum(CategoryColumn(f), CountColumn(f), CategoryLess))
  {
  }

  /**
   * The category series is "Control Flow and Data Movements" with the count
   * of the listed mnemonics, when any occurs, then "Other Instructions" with
   * the count of all the others; the "Other" label is never produced.
   */
  lemma CategoryCountsShape(inst: seq<InstRow>)
    ensures var r := CategoryCounts(inst);
            && (|r| == 1 || |r| == 2)
            && r[|r| - 1] == (OtherInstructions, SumIf(MnemonicColumn(inst), CountColumn(inst), Categorised(), false))
            && (|r| == 2 <==> exists i :: 0 <= i < |inst| && inst[i].mnemonic in Categorised())
            && (|r| == 2 ==> r[0] == (ControlFlowAndDataMovements, SumIf(MnemonicColumn(inst), CountColumn(inst), Categorised(), true)))
            && Other !in Index(r) && Distinct(Index(r))
  {
    CategorisedLabelledAlike();
    SplitCountsShape(inst, Categorised());
  }

  /** Appending the remainder to a series of at most one entry. */
  lemma RemainderAfterOne<K>(g: Series<K>, key: K, total: int)
    requires |g| <= 1 && key !in Index(g)
    ensures var r := WithRemainder(g, key, total);
            && |r| == |g| + 1
            && r[|g|] == (key, total - Sum(Values(g)))
            && (|g| == 1 ==> r[0] == g[0] && Sum(Values(g)) == g[0].1)
            && Index(r) == Index(g) + [key]
  {
    if |g| == 1 {
      assert Values(g) == [g[0].1];
      assert Sum(Values(g)) == g[0].1 + Sum([]);
    }
  }

  /** Every kept row is in the one category "Control Flow and Data Movements". */
  lemma KeptRowsShareCategory(inst: seq<InstRow>, keep: set<string>, f: seq<InstRow>)
    requires LabelledAlike(keep) && f == FilteredRows(inst, keep)
    ensures forall j :: 0 <= j < |f| ==> CategoryColumn(f)[j] == ControlFlowAndDataMovements
  {
    FilteredRowsMembers(inst, keep);
    forall j | 0 <= j < |f| ensures CategoryColumn(f)[j] == ControlFlowAndDataMovements {
      assert f[j] in f;
    }
  }

  /** Some row is kept exactly when some mnemonic is listed. */
  lemma SomeRowKept(inst: seq<InstRow>, keep: set<string>)
    ensures |FilteredRows(inst, keep)| > 0 <==> exists i :: 0 <= i < |inst| && inst[i].mnemonic in keep
  {
    var f := FilteredRows(inst, keep);
    FilteredRowsMembers(inst, keep);
    if exists i :: 0 <= i < |inst| && inst[i].mnemonic in keep {
      var i :| 0 <= i < |inst| && inst[i].mnemonic in keep;
      assert inst[i] in f;
    }
    if |f| > 0 {
      assert f[0] in f;
      var i :| 0 <= i < |inst| && inst[i] == f[0];
      assert inst[i].mnemonic in keep;
    }
  }

  /** The total of a column of reals. */
  function RealSum(vals: seq<real>): real
  {
    if vals == [] then 0.0 else vals[0] + RealSum(vals[1..])
  }

  /** `(c / total) * 100`: the share of `c` in `total`, in percent. */
  function Share(c: int, total: int): (p: real)
    requires total != 0
    ensures p * (total as real) == (c as real) * 100.0
  {
    Percent(c as real, total as real);
    (c as real / total as real) * 100.0
  }

  lemma Percent(c: real, t: real)
    requires t != 0.0
    ensures (c / t) * 100.0 * t == c * 100.0
  {
  }

  lemma ShareAdd(a: int, b: int, total: int)
    requires total != 0
    ensures Share(a, total) + Share(b, total) == Share(a + b, total)
  {
    var t := total as real;
    assert (a as real / t) + (b as real / t) == ((a + b) as real) / t;
  }

  /** A total is 100 percent of itself. */
  lemma ShareOfTotal(total: int)
    requires total != 0
    ensures Share(total, total) == 100.0
  {
    var t := total as real;
    assert t / t == 1.0;
  }

  /** A part between 0 and a positive total is between 0 and 100 percent of it. */
  lemma ShareBounds(c: int, total: int)
    requires 0 <= c <= total && total != 0
    ensures 0.0 <= Share(c, total) <= 100.0
  {
    var t := total as real;
    assert 0.0 <= (c as real) / t <= 1.0;
  }

  /** `(s / total) * 100`: each entry's share of `total`, in percent. */
  function Shares<K>(s: Series<K>, total: int): (r: seq<(K, real)>)
    requires total != 0
    ensures |r| == |s|
    ensures forall i :: 0 <= i < |r| ==> r[i] == (s[i].0, Share(s[i].1, total))
  {
    seq(|s|, i requires 0 <= i < |s| => (s[i].0, Share(s[i].1, total)))
  }

  function ShareValues<K>(r: seq<(K, real)>): seq<real>
  {
    seq(|r|, i requires 0 <= i < |r| => r[i].1)
  }

  /** The shares of the entries add up to the share of their sum. */
  lemma {:induction false} SharesSum<K>(s: Series<K>, total: int)
    requires total != 0
    ensures RealSum(ShareValues(Shares(s, total))) == Share(Sum(Values(s)), total)
  {
    if s == [] {
      ShareOfZero(total);
    } else {
      assert ShareValues(Shares(s, total))[1..] == ShareValues(Shares(s[1..], total));
      assert Values(s)[1..] == Values(s[1..]);
      SharesSum(s[1..], total);
      ShareAdd(s[0].1, Sum(Values(s[1..])), total);
    }
  }

  lemma ShareOfZero(total: int)
    requires total != 0
    ensures Share(0, total) == 0.0
  {
  }

  /**
   * The "instruction category distribution" panel: each category's name
   * with its share of the total count in percent, or nothing when the total
   * is 0 (pandas divides by zero into NaN or infinity).
   */
  function CategoryPercentages(inst: seq<InstRow>): (r: Option<seq<(string, real)>>)
    ensures r.None? <==> Sum(CountColumn(inst)) == 0
    ensures r.Some? ==>
              var counts := CategoryCounts(inst);
              && |r.value| == |counts|
              && forall i :: 0 <= i < |counts| ==>
                   r.value[i] == (CategoryName(counts[i].0), Share(counts[i].1, Sum(CountColumn(inst))))
  {
    var counts := CategoryCounts(inst);
    var total := Sum(CountColumn(inst));
    if total == 0 then None
    else
      var sh := Shares(counts, total);
      Some(seq(|sh|, i requires 0 <= i < |sh| => (CategoryName(sh[i].0), sh[i].1)))
  }

  /** The percentages of the category panel add up to 100. */
  lemma CategoryPercentagesTotal(inst: seq<InstRow>)
    requires Sum(CountColumn(inst)) != 0
    ensures var r := CategoryPercentages(inst);
            r.Some? && RealSum(ShareValues(r.value)) == 100.0
  {
    var counts := CategoryCounts(inst);
    var total := Sum(CountColumn(inst));
    var r := CategoryPercentages(inst);
    assert ShareValues(r.value) == ShareValues(Shares(counts, total));
    SharesSum(counts, total);
    ShareOfTotal(total);
  }

  /** With non-negative counts every category's share lies between 0 and 100 percent. */
  lemma CategoryPercentagesBounded(inst: seq<InstRow>)
    requires Sum(CountColumn(inst)) != 0 && NonNegative(CountColumn(inst))
    ensures var r := CategoryPercentages(inst);
            r.Some? && forall i :: 0 <= i < |r.value| ==> 0.0 <= r.value[i].1 <= 100.0
  {
    var counts := CategoryCounts(inst);
    var total := Sum(CountColumn(inst));
    CategoryCountsShape(inst);
    SumIfBounded(MnemonicColumn(inst), CountColumn(inst), Categorised(), true);
    SumIfBounded(MnemonicColumn(inst), CountColumn(inst), Categorised(), false);
    var r := CategoryPercentages(inst);
    forall i | 0 <= i < |r.value| ensures 0.0 <= r.value[i].1 <= 100.0 {
      assert 0 <= counts[i].1 <= total;
      ShareBounds(counts[i].1, total);
    }
  }
}
