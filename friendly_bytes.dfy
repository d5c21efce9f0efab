/** Unit-tier selection for a byte count, `GetFriendlyBytesAmount`
    (Program.cs:98-116) with its constants (Program.cs:14-16).

    Only the tier and the divisor are integer logic.  The two-decimal text of
    `(double)bytes / divisor` is floating point; it enters the model as the
    parameter `fixed2`, an arbitrary function of the byte count and the
    divisor. */
module FriendlyBytes {
  import opened Basics

  const Kilobyte: nat := 1024
  const Megabyte: nat := 1048576
  const Gigabyte: nat := 1073741824

  datatype Unit = Bytes | KB | MB | GB

  function Divisor(u: Unit): (n: nat)
    ensures n >= 1
  {
    match u
    case Bytes => 1
    case KB => Kilobyte
    case MB => Megabyte
    case GB => Gigabyte
  }

  function UnitName(u: Unit): string
  {
    match u
    case Bytes => "bytes"
    case KB => "KB"
    case MB => "MB"
    case GB => "GB"
  }

  /** `GetFriendlyBytesAmount(bytes)`: the thresholds are tried from the
      largest down, each with `>=`; below a kilobyte the count is written as
      an integer followed by " bytes". */
  function FriendlyBytesAmount(bytes: nat, fixed2: (nat, nat) -> string): string
  {
    if bytes >= Gigabyte then fixed2(bytes, Gigabyte) + " GB"
    else if bytes >= Megabyte then fixed2(bytes, Megabyte) + " MB"
    else if bytes >= Kilobyte then fixed2(bytes, Kilobyte) + " KB"
    else DecimalString(bytes) + " bytes"
  }

  // ---------------------------------------------------------------------------
  // Reference definition of the tier: the power of 1024 that the count reaches
  // ---------------------------------------------------------------------------

  /** How many times 1024 divides into `bytes` before it drops below 1024. */
  function Log1024(bytes: nat): nat
  {
    if bytes < 1024 then 0 else 1 + Log1024(bytes / 1024)
  }

  /** The unit of a count: its base-1024 magnitude, capped at gigabytes. */
  function UnitOf(bytes: nat): Unit
  {
    var e := Log1024(bytes);
    if e == 0 then Bytes else if e == 1 then KB else if e == 2 then MB else GB
  }

  lemma Log1024Thresholds(bytes: nat)
    ensures Log1024(bytes) >= 1 <==> bytes >= Kilobyte
    ensures Log1024(bytes) >= 2 <==> bytes >= Megabyte
    ensures Log1024(bytes) >= 3 <==> bytes >= Gigabyte
  {
    if bytes >= 1024 {
      var q := bytes / 1024;
      assert q >= 1024 <==> bytes >= Megabyte;
      assert q >= Megabyte <==> bytes >= Gigabyte;
      if q >= 1024 {
        var q2 := q / 1024;
        assert q2 >= 1024 <==> q >= Megabyte;
      }
    }
  }

  /** The tiers are exclusive and are the ranges between consecutive `>=`
      thresholds, tried from the largest down. */
  lemma {:induction false} UnitRanges(bytes: nat)
    ensures UnitOf(bytes) == GB <==> bytes >= Gigabyte
    ensures UnitOf(bytes) == MB <==> Megabyte <= bytes < Gigabyte
    ensures UnitOf(bytes) == KB <==> Kilobyte <= bytes < Megabyte
    ensures UnitOf(bytes) == Bytes <==> bytes < Kilobyte
  {
    Log1024Thresholds(bytes);
  }

  /** The chosen divisor is the largest of the four that does not exceed the
      count (for a count of at least one byte), and the count is below 1024
      times it unless the unit is already gigabytes. */
  lemma {:induction false} DivisorIsLargestFitting(bytes: nat, u: Unit)
    requires bytes >= 1
    ensures Divisor(UnitOf(bytes)) <= bytes
    ensures UnitOf(bytes) != GB ==> bytes < Divisor(UnitOf(bytes)) * 1024
    ensures Divisor(u) <= bytes ==> Divisor(u) <= Divisor(UnitOf(bytes))
  {
    UnitRanges(bytes);
  }

  /** The text is the rendering of the count in the unit of its magnitude:
      an exact integer numeral for counts below a kilobyte, otherwise the
      two-decimal quotient by that unit's divisor followed by its name. */
  lemma {:induction false} FriendlyIsUnitOf(bytes: nat, fixed2: (nat, nat) -> string)
    ensures var u := UnitOf(bytes);
      FriendlyBytesAmount(bytes, fixed2)
        == if u == Bytes then DecimalString(bytes) + " bytes"
           else fixed2(bytes, Divisor(u)) + " " + UnitName(u)
  {
    UnitRanges(bytes);
  }

  /** Below a kilobyte the count is written exactly: the text is a numeral
      followed by " bytes", and reading the numeral back gives the count. */
  lemma {:induction false} BytesTierIsExact(bytes: nat, fixed2: (nat, nat) -> string)
    requires bytes < Kilobyte
    ensures var s := FriendlyBytesAmount(bytes, fixed2);
      && |s| > 6
      && s[|s| - 6..] == " bytes"
      && AllDigits(s[..|s| - 6])
      && DecimalValue(s[..|s| - 6]) == bytes
  {
    var s := FriendlyBytesAmount(bytes, fixed2);
    assert s[..|s| - 6] == DecimalString(bytes);
    DecimalRoundTrip(bytes);
  }

  /** Two counts below a kilobyte have the same text only when they are equal. */
  lemma BytesTierInjective(m: nat, n: nat, fixed2: (nat, nat) -> string)
    requires m < Kilobyte && n < Kilobyte
    requires FriendlyBytesAmount(m, fixed2) == FriendlyBytesAmount(n, fixed2)
    ensures m == n
  {
    var s, t := FriendlyBytesAmount(m, fixed2), FriendlyBytesAmount(n, fixed2);
    assert s[..|s| - 6] == DecimalString(m);
    assert t[..|t| - 6] == DecimalString(n);
    DecimalStringInjective(m, n);
  }

  lemma ZeroBytes(fixed2: (nat, nat) -> string)
    ensures FriendlyBytesAmount(0, fixed2) == "0 bytes"
  {
  }

  lemma LargestByteCount(fixed2: (nat, nat) -> string)
    ensures FriendlyBytesAmount(1023, fixed2) == "1023 bytes"
  {
    assert DecimalString(1023) == "1023" by {
      assert DecimalString(102) == "102" by {
        assert DecimalString(10) == "10";
      }
    }
  }

  /** The boundaries: each threshold itself already belongs to the larger unit,
      and one byte below it still belongs to the smaller one.  (1048575 bytes
      is thus in kilobytes, although its two-decimal rendering is "1024.00".) */
  lemma Boundaries(fixed2: (nat, nat) -> string)
    ensures FriendlyBytesAmount(1024, fixed2) == fixed2(1024, 1024) + " KB"
    ensures FriendlyBytesAmount(1048575, fixed2) == fixed2(1048575, 1024) + " KB"
    ensures FriendlyBytesAmount(1048576, fixed2) == fixed2(1048576, 1048576) + " MB"
    ensures FriendlyBytesAmount(1073741823, fixed2) == fixed2(1073741823, 1048576) + " MB"
    ensures FriendlyBytesAmount(1073741824, fixed2) == fixed2(1073741824, 1073741824) + " GB"
    ensures FriendlyBytesAmount(1610612736, fixed2) == fixed2(1610612736, 1073741824) + " GB"
  {
  }

  // ---------------------------------------------------------------------------
  // Reading the unit back from the text
  // ---------------------------------------------------------------------------

  predicate EndsWith(s: string, suffix: string)
  {
    |suffix| <= |s| && s[|s| - |suffix|..] == suffix
  }

  /** The unit that a size text ends with, if any. */
  function UnitOfText(s: string): Option<Unit>
  {
    if EndsWith(s, " GB") then Some(GB)
    else if EndsWith(s, " MB") then Some(MB)
    else if EndsWith(s, " KB") then Some(KB)
    else if EndsWith(s, " bytes") then Some(Bytes)
    else None
  }

  /** Whatever the two-decimal rendering produces, the text ends with the
      name of the count's unit, so the unit can be read back from it. */
  lemma {:induction false} UnitReadBack(bytes: nat, fixed2: (nat, nat) -> string)
    ensures UnitOfText(FriendlyBytesAmount(bytes, fixed2)) == Some(UnitOf(bytes))
  {
    UnitRanges(bytes);
    var s := FriendlyBytesAmount(bytes, fixed2);
    var u := UnitOf(bytes);
    if u == Bytes {
      assert s[|s| - 6..] == " bytes";
      assert s[|s| - 3..] == "tes";
    } else {
      var p := fixed2(bytes, Divisor(u));
      assert s == p + (" " + UnitName(u));
      assert s[|s| - 3..] == " " + UnitName(u);
    }
  }
}
