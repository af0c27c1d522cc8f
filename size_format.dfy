/**
 * `format_size`: which unit a byte count is shown in, and the number shown
 * before it is rounded to one decimal place.
 */
module SizeFormat {
  datatype Unit = Bytes | KB | MB | GB

  const KiB: int := 1024

  /** The size that one of the unit stands for. */
  function Scale(u: Unit): (s: int)
    ensures s > 0
  {
    match u
    case Bytes => 1
    case KB => KiB
    case MB => KiB * KiB
    case GB => KiB * KiB * KiB
  }

  function Rank(u: Unit): nat
  {
    match u
    case Bytes => 0
    case KB => 1
    case MB => 2
    case GB => 3
  }

  /** The threshold chain of `format_size`. */
  function UnitOf(sizeBytes: int): (u: Unit)
    ensures u == Bytes <==> sizeBytes < KiB
    ensures u == KB <==> KiB <= sizeBytes < KiB * KiB
    ensures u == MB <==> KiB * KiB <= sizeBytes < KiB * KiB * KiB
    ensures u == GB <==> KiB * KiB * KiB <= sizeBytes
  {
    if sizeBytes < 1024 then Bytes
    else if sizeBytes < 1024 * 1024 then KB
    else if sizeBytes < 1024 * 1024 * 1024 then MB
    else GB
  }

  /** The number shown before its unit: exact for bytes, a quotient otherwise. */
  datatype Formatted = Formatted(magnitude: real, unit: Unit)

  function FormatSize(sizeBytes: int): (f: Formatted)
    ensures f.unit == UnitOf(sizeBytes)
    ensures f.magnitude * Scale(f.unit) as real == sizeBytes as real
  {
    var u := UnitOf(sizeBytes);
    Formatted(sizeBytes as real / Scale(u) as real, u)
  }

  /**
   * The chosen unit is the largest one the size reaches (up to GB): the
   * magnitude is at least 1 for every unit but bytes and below 1024 for
   * every unit but GB.
   */
  lemma FormatSizeInRange(sizeBytes: int)
    ensures FormatSize(sizeBytes).unit == Bytes ==> FormatSize(sizeBytes).magnitude == sizeBytes as real
    ensures FormatSize(sizeBytes).unit != Bytes ==> 1.0 <= FormatSize(sizeBytes).magnitude
    ensures FormatSize(sizeBytes).unit != GB ==> FormatSize(sizeBytes).magnitude < 1024.0
  {
    var u := UnitOf(sizeBytes);
    var s := Scale(u) as real;
    var m := sizeBytes as real / s;
    assert m * s == sizeBytes as real;
    if u != Bytes {
      assert s <= sizeBytes as real;
    }
    if u != GB {
      assert sizeBytes as real < 1024.0 * s;
    }
  }

  /** A larger size is never shown in a smaller unit. */
  lemma UnitOfMonotonic(a: int, b: int)
    requires a <= b
    ensures Rank(UnitOf(a)) <= Rank(UnitOf(b))
  {
  }
}
