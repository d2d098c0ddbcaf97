/**
  Address arithmetic of LLVM's getelementptr over the storage the code generator
  allocates for arrays, `[N x double]`. The instruction log abstracts an element
  access as "element i of this storage"; this module relates that to the byte
  offsets the source's getelementptr calls compute.
 */
module ArrayLayout {
  import opened Options
  import Ir

  /** The IR types an array access goes through. */
  datatype IrType = Double | ArrayOf(len: nat, elem: IrType)

  function SizeOf(t: IrType): nat {
    match t
    case Double => 8
    case ArrayOf(len, elem) => len * SizeOf(elem)
  }

  /**
    Byte offset of a getelementptr whose source element type is `t`: the first
    index steps over whole values of type `t`; each further index steps inside the
    current array. `None` when an index would step into a scalar.
   */
  function GepOffset(t: IrType, indices: seq<int>): Option<int> {
    if |indices| == 0 then Some(0)
    else match InnerOffset(t, indices[1..])
      case None => None
      case Some(inner) => Some(indices[0] * SizeOf(t) + inner)
  }

  function InnerOffset(t: IrType, indices: seq<int>): Option<int>
    decreases |indices|
  {
    if |indices| == 0 then Some(0)
    else match t
      case Double => None
      case ArrayOf(_, elem) =>
        match InnerOffset(elem, indices[1..])
        case None => None
        case Some(inner) => Some(indices[0] * SizeOf(elem) + inner)
  }

  /** The storage of an array of `len` doubles. */
  function Storage(len: nat): IrType {
    ArrayOf(len, Double)
  }

  /** A double read or written at byte offset `off` lies inside the storage of `len` doubles. */
  predicate InBounds(len: nat, off: int) {
    0 <= off && off + 8 <= SizeOf(Storage(len))
  }

  /**
    As written: every element access passes the element index as the only index
    of a getelementptr over the array type, so it is scaled by the size of the
    whole array.
   */
  function ElementOffsetAsWritten(len: nat, i: int): Option<int> {
    GepOffset(Storage(len), [i])
  }

  /** As intended: index 0 selects the array itself, then `i` selects the element. */
  function ElementOffset(len: nat, i: int): Option<int> {
    GepOffset(Storage(len), [0, i])
  }

  /** Element `i` of the written access lands `i` whole arrays past the start. */
  lemma {:induction false} AsWrittenStridesByWholeArray(len: nat, i: int)
    ensures ElementOffsetAsWritten(len, i) == Some(i * (8 * len))
  {
    assert [i][1..] == [];
    assert InnerOffset(Storage(len), []) == Some(0);
    assert SizeOf(Storage(len)) == len * SizeOf(Double) == 8 * len;
  }

  /** Every index other than 0 makes the written access leave a non-empty array. */
  lemma {:induction false} AsWrittenLeavesArray(len: nat, i: int)
    requires len > 0 && i != 0
    ensures !InBounds(len, ElementOffsetAsWritten(len, i).value)
  {
    AsWrittenStridesByWholeArray(len, i);
    if i >= 1 {
      assert i * (8 * len) >= 8 * len by { MulMonotone(i, 8 * len); }
    } else {
      assert i * (8 * len) <= -(8 * len) by { MulMonotone(-i, 8 * len); }
    }
  }

  lemma MulMonotone(a: int, b: nat)
    requires a >= 1
    ensures a * b >= b
  {
  }

  /**
    `var a[2]` followed by the read `a[1]`: the access as written loads 8 bytes at
    offset 16, just past the end of the 16-byte array; the intended one loads them
    at offset 8.
   */
  lemma SecondElementOfPairOutOfBounds()
    ensures ElementOffsetAsWritten(2, 1) == Some(16)
    ensures !InBounds(2, 16)
    ensures ElementOffset(2, 1) == Some(8) && InBounds(2, 8)
  {
    AsWrittenStridesByWholeArray(2, 1);
    IntendedAddressesElement(2, 1);
  }

  /** The intended access addresses element `i` at 8 * i bytes, inside the array. */
  lemma {:induction false} IntendedAddressesElement(len: nat, i: int)
    ensures ElementOffset(len, i) == Some(8 * i)
    ensures 0 <= i < len ==> InBounds(len, 8 * i)
  {
    assert [0, i][1..] == [i];
    assert [i][1..] == [];
    assert InnerOffset(Double, []) == Some(0);
    assert InnerOffset(Storage(len), [i]) == Some(i * 8);
    assert SizeOf(Storage(len)) == len * SizeOf(Double) == 8 * len;
  }

  /** Distinct in-range elements occupy disjoint bytes. */
  lemma IntendedElementsDisjoint(len: nat, i: int, j: int)
    requires 0 <= i < len && 0 <= j < len && i != j
    ensures ElementOffset(len, i).Some? && ElementOffset(len, j).Some?
    ensures ElementOffset(len, i).value + 8 <= ElementOffset(len, j).value
         || ElementOffset(len, j).value + 8 <= ElementOffset(len, i).value
  {
    IntendedAddressesElement(len, i);
    IntendedAddressesElement(len, j);
  }

  /**
    The byte offset the source's getelementptr gives a logged element access with a
    constant index into storage of `len` doubles; `None` for any other instruction.
   */
  function LoggedOffsetAsWritten(i: Ir.Instr, len: nat): Option<int> {
    if (i.LoadElem? || i.StoreElem?) && i.index.Int? then ElementOffsetAsWritten(len, i.index.n) else None
  }

  /**
    A logged element access at constant index k, say one of the stores an array
    binding's initialisation logs, is at byte 8·len·k in the code as written, and so
    outside a non-empty array for every k other than 0.
   */
  lemma LoggedElementAccessAsWritten(i: Ir.Instr, len: nat)
    requires (i.LoadElem? || i.StoreElem?) && i.index.Int?
    ensures LoggedOffsetAsWritten(i, len) == Some(i.index.n * (8 * len))
    ensures len > 0 && i.index.n != 0 ==> !InBounds(len, LoggedOffsetAsWritten(i, len).value)
  {
    AsWrittenStridesByWholeArray(len, i.index.n);
    if len > 0 && i.index.n != 0 {
      AsWrittenLeavesArray(len, i.index.n);
    }
  }
}
