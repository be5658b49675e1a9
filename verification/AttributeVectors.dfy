/** Vectors of value ids of a fitted width of 8, 16 or 32 bits. */
module AttributeVectors {
  import opened Wrappers

  datatype Width = Width8 | Width16 | Width32

  /** `std::numeric_limits<T>::max()`. */
  function MaxOf(width: Width): nat {
    match width
    case Width8 => 0xFF
    case Width16 => 0xFFFF
    case Width32 => 0xFFFF_FFFF
  }

  /** The value id that stands for "no such value". */
  const INVALID_VALUE_ID: nat := 0xFFFF_FFFF

  /** `static_cast<T>` of a 32-bit id. */
  function Narrow(width: Width, id: nat): nat {
    match width
    case Width8 => id % 0x100
    case Width16 => id % 0x1_0000
    case Width32 => id % 0x1_0000_0000
  }

  /** The width chosen for a column of `rows` rows. */
  function FitWidth(rows: nat): Width {
    if rows < MaxOf(Width8) then Width8 else if rows < MaxOf(Width16) then Width16 else Width32
  }

  /** The choice is safe: the size fits the vector, and the ids of a column of `rows` rows, all below
      `rows`, are stored exactly and stay apart from the largest number of the width, which is what the
      invalid id looks like after narrowing. */
  lemma FittedWidthIsSafe(rows: nat, id: nat)
    requires rows < INVALID_VALUE_ID && id < rows
    ensures rows < MaxOf(FitWidth(rows))
    ensures Narrow(FitWidth(rows), id) == id
    ensures Narrow(FitWidth(rows), id) != Narrow(FitWidth(rows), INVALID_VALUE_ID) == MaxOf(FitWidth(rows))
  {
  }

  /** What becomes of a write. */
  datatype Write = Stored | Refused | Undefined

  class FittedAttributeVector {
    const width: Width
    const data: array<nat>

    constructor (width: Width, size: nat)
      ensures this.width == width && fresh(data) && data.Length == size
      ensures forall i :: 0 <= i < size ==> data[i] == 0
    {
      this.width := width;
      this.data := new nat[size](_ => 0);
    }

    /** Refuses a size that the width cannot count. */
    static method Create(width: Width, size: nat) returns (r: Result<FittedAttributeVector>)
      ensures r.Ok? <==> size <= MaxOf(width)
      ensures r.Ok? ==> fresh(r.value) && fresh(r.value.data) && r.value.width == width && r.value.data.Length == size
      ensures r.Ok? ==> forall i :: 0 <= i < size ==> r.value.data[i] == 0
    {
      if size > MaxOf(width) {
        return Err("Size too large for vector of this width!");
      }
      var v := new FittedAttributeVector(width, size);
      return Ok(v);
    }

    /** Stores a narrowed id. The guard lets one position too many through, and the write at that
        position is undefined: nothing is said about the state after it. */
    method Set(i: nat, valueId: nat) returns (outcome: Write)
      modifies data
      ensures outcome == if i < data.Length then Stored else if i == data.Length then Undefined else Refused
      ensures outcome == Stored ==> data[..] == old(data[..])[i := Narrow(width, valueId)]
      ensures outcome == Refused ==> data[..] == old(data[..])
    {
      if i > data.Length {
        return Refused;
      }
      if i == data.Length {
        return Undefined;
      }
      data[i] := Narrow(width, valueId);
      return Stored;
    }
  }
}
