/**
 * The three per-executable tables, as loaded from `func-info.csv`,
 * `inst-data.csv` and `func-leaf.csv`, and the columns the metrics read.
 */
module Tables {

  datatype Option<T> = None | Some(value: T)

  /** One basic block (a row of `func-info.csv`). */
  datatype FuncInfoRow = FuncInfoRow(
    functionId: int,
    basicBlock: int,
    size: int,
    referenceCount: int,
    terminator: string)

  /** One instruction (a row of `inst-data.csv`). */
  datatype InstRow = InstRow(
    address: int,
    mnemonic: string,
    length: int,
    count: int,
    code: int,
    memRead: bool,
    memWrite: bool,
    condMemRead: bool,
    condMemWrite: bool)

  /** One function's classification (a row of `func-leaf.csv`). */
  datatype FuncLeafRow = FuncLeafRow(
    leaf: bool,
    frameFunction: bool,
    unalignedFrameFunction: bool)

  function FunctionColumn(fi: seq<FuncInfoRow>): seq<int>
  {
    seq(|fi|, i requires 0 <= i < |fi| => fi[i].functionId)
  }

  function BasicBlockColumn(fi: seq<FuncInfoRow>): seq<int>
  {
    seq(|fi|, i requires 0 <= i < |fi| => fi[i].basicBlock)
  }

  function SizeColumn(fi: seq<FuncInfoRow>): seq<int>
  {
    seq(|fi|, i requires 0 <= i < |fi| => fi[i].size)
  }

  function ReferenceCountColumn(fi: seq<FuncInfoRow>): seq<int>
  {
    seq(|fi|, i requires 0 <= i < |fi| => fi[i].referenceCount)
  }

  function MnemonicColumn(inst: seq<InstRow>): seq<string>
  {
    seq(|inst|, i requires 0 <= i < |inst| => inst[i].mnemonic)
  }

  function LengthColumn(inst: seq<InstRow>): seq<int>
  {
    seq(|inst|, i requires 0 <= i < |inst| => inst[i].length)
  }

  function CountColumn(inst: seq<InstRow>): seq<int>
  {
    seq(|inst|, i requires 0 <= i < |inst| => inst[i].count)
  }

  function CodeColumn(inst: seq<InstRow>): seq<int>
  {
    seq(|inst|, i requires 0 <= i < |inst| => inst[i].code)
  }

  predicate MemRead(r: InstRow) { r.memRead }
  predicate MemWrite(r: InstRow) { r.memWrite }
  predicate CondMemRead(r: InstRow) { r.condMemRead }
  predicate CondMemWrite(r: InstRow) { r.condMemWrite }

  predicate Leaf(r: FuncLeafRow) { r.leaf }
  predicate FrameFunction(r: FuncLeafRow) { r.frameFunction }
  predicate UnalignedFrameFunction(r: FuncLeafRow) { r.unalignedFrameFunction }
}
