/** Hint flags.  The library passes them as a bitmask.  The four flags the
    public header defines are distinct single bits (0x1 to 0x8), and for
    those the mask is the same thing as the set of flags it switches on.
    The model carries every hint as such a set; for the other six flags it
    takes their bits to be distinct as well. */
module Hints {

  datatype Hint =
    | CpuBackend        // force the sequential (CPU) backend at initialization
    | GpuMemManaged     // use managed device memory
    | ValuesSorted      // build input already arrives in (row, col) order
    | Accumulate        // OR the product into the result instead of replacing it
    | RelaxedFinalize   // finalize releases every live object implicitly
    | NoDuplicates      // build input has no repeated pairs
    | TimeCheck         // time the operation (no effect on its result)
    | LogError          // log filter: let error messages through
    | LogWarning        // log filter: let warning messages through
    | LogAll            // log filter: let every message through

  type HintSet = set<Hint>

  /** The four flags whose bit values the public header fixes. */
  const HeaderHints: HintSet := {CpuBackend, GpuMemManaged, ValuesSorted, Accumulate}

  /** The bit of a header flag. */
  function Bit(h: Hint): bv32
    requires h in HeaderHints
  {
    match h
    case CpuBackend => 0x1
    case GpuMemManaged => 0x2
    case ValuesSorted => 0x4
    case Accumulate => 0x8
  }

  /** Packs a set of header flags into the bitmask the header describes. */
  function Encode(hs: HintSet): (mask: bv32)
    requires hs <= HeaderHints
    ensures mask & 0xFFFF_FFF0 == 0
  {
    (if CpuBackend in hs then 0x1 else 0)
    | (if GpuMemManaged in hs then 0x2 else 0)
    | (if ValuesSorted in hs then 0x4 else 0)
    | (if Accumulate in hs then 0x8 else 0)
  }

  /** Reads the header flags out of a bitmask; other bits are ignored. */
  function Decode(mask: bv32): (hs: HintSet)
    ensures hs <= HeaderHints
    ensures forall h :: h in HeaderHints ==> (h in hs <==> mask & Bit(h) != 0)
  {
    (if mask & 0x1 != 0 then {CpuBackend} else {})
    + (if mask & 0x2 != 0 then {GpuMemManaged} else {})
    + (if mask & 0x4 != 0 then {ValuesSorted} else {})
    + (if mask & 0x8 != 0 then {Accumulate} else {})
  }

  /** Encoding a set of header flags and decoding it gives the set back. */
  lemma DecodeEncode(hs: HintSet)
    requires hs <= HeaderHints
    ensures Decode(Encode(hs)) == hs
  {
    var m := Encode(hs);
    forall h | h in HeaderHints
      ensures h in Decode(m) <==> h in hs
    {
      assert m & Bit(h) != 0 <==> h in hs;
    }
  }

  /** Decoding then encoding keeps exactly the four header bits. */
  lemma EncodeDecode(mask: bv32)
    ensures Encode(Decode(mask)) == mask & 0xF
  {
  }

  /** OR-ing two masks unions their flags: independent flags compose. */
  lemma DecodeOr(a: bv32, b: bv32)
    ensures Decode(a | b) == Decode(a) + Decode(b)
  {
  }
}
