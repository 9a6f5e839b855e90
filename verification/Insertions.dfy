/** The values a stream accepts, and the text each of them writes. */
module Insertions {
  import opened Decimal
  import opened StreamSpec
  import opened Wrappers

  datatype IntegerKind = Int8 | UInt8 | Int16 | UInt16 | Int32 | UInt32 | Int64 | UInt64 {
    function Min(): int {
      match this
      case Int8 => -0x80
      case Int16 => -0x8000
      case Int32 => -0x8000_0000
      case Int64 => -0x8000_0000_0000_0000
      case _ => 0
    }

    function Max(): int {
      match this
      case Int8 => 0x7F
      case UInt8 => 0xFF
      case Int16 => 0x7FFF
      case UInt16 => 0xFFFF
      case Int32 => 0x7FFF_FFFF
      case UInt32 => 0xFFFF_FFFF
      case Int64 => 0x7FFF_FFFF_FFFF_FFFF
      case UInt64 => 0xFFFF_FFFF_FFFF_FFFF
    }

    /** `std::numeric_limits<T>::digits10` */
    function Digits10(): nat {
      match this
      case Int8 => 2
      case UInt8 => 2
      case Int16 => 4
      case UInt16 => 4
      case Int32 => 9
      case UInt32 => 9
      case Int64 => 18
      case UInt64 => 19
    }
  }

  /** A floating value as far as printing it goes: `std::to_chars` either writes some text or fails. */
  datatype FloatingValue = NaN | Infinite(negative: bool) | Finite(text: Option<string>)

  /** One insertion, by the overload it selects. */
  datatype Insertion =
    | Characters(text: string)
    | CString(pointer: Option<string>)
    | Character(c: char)
    | Boolean(b: bool)
    | Integer(value: int, kind: IntegerKind)
    | Floating(f: FloatingValue)
  {
    predicate Valid() {
      match this
      case Integer(value, kind) => kind.Min() <= value <= kind.Max()
      case Floating(Finite(Some(text))) => text != ""
      case _ => true
    }

    /** What the insertion writes, or its failure: an integer goes through a buffer of
        `digits10 + 2` characters. */
    function Rendering(): Piece {
      match this
      case Characters(text) => Some(text)
      case CString(pointer) => pointer
      case Character(c) => Some([c])
      case Boolean(b) => Some(if b then "true" else "false")
      case Integer(value, kind) => ToCharsWithin(value, kind.Digits10() + 2)
      case Floating(NaN) => Some("nan")
      case Floating(Infinite(negative)) => Some(if negative then "-inf" else "inf")
      case Floating(Finite(text)) => text
    }
  }

  /** `std::to_chars` into a buffer of `capacity` characters. */
  function ToCharsWithin(value: int, capacity: nat): Option<string> {
    if |ToChars(value)| <= capacity then Some(ToChars(value)) else None
  }

  lemma SmallPowers()
    ensures Pow10(3) == 1000 && Pow10(5) == 100000 && Pow10(10) == 10000000000
  {
    ThreeMore(0);
    assert Pow10(4) == 10 * Pow10(3) && Pow10(5) == 10 * Pow10(4);
    assert Pow10(6) == 10 * Pow10(5) && Pow10(7) == 10 * Pow10(6);
    ThreeMore(7);
  }

  /** The `digits10 + 2` characters set aside for an integer are always enough: no integer of any
      width fails to print. */
  lemma IntegerTextFits(value: int, kind: IntegerKind)
    requires kind.Min() <= value <= kind.Max()
    ensures Integer(value, kind).Rendering() == Some(ToChars(value))
  {
    var magnitude := if value < 0 then -value else value;
    SmallPowers();
    LargePowers();
    NaturalLength(magnitude, 3);
    NaturalLength(magnitude, 5);
    NaturalLength(magnitude, 10);
    NaturalLength(magnitude, 19);
    NaturalLength(magnitude, 20);
  }
}
