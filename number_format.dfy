/**
 * The suffix choice of the services' `formatNumber` and `formatBytes` helpers.
 */
module NumberFormat {
  import opened Wrappers
  import opened Text

  /** A number as the page shows it. `Scaled(n, unit, suffix)` stands for
      `(n / unit).toFixed(1) + suffix`, whose digits are not modelled; `Exact(text)` is
      text the model spells out. */
  datatype Shown = Scaled(n: int, unit: nat, suffix: string) | Exact(text: string)

  /** `formatNumber`: "M" from one million, "K" from one thousand, else the integer. */
  function FormatNumber(num: int): (r: Shown)
    ensures r.Scaled? <==> num >= 1000
    ensures r.Scaled? ==> r.n == num && r.unit > 0 && r.n / r.unit >= 1
    ensures r.Scaled? ==> (r.suffix == "M" <==> num >= 1000000)
    ensures r.Scaled? && r.suffix != "M" ==> r.suffix == "K" && r.n / r.unit < 1000
    ensures r.Exact? ==> ParseInt(r.text) == Some(num)
  {
    if num >= 1000000 then Scaled(num, 1000000, "M")
    else if num >= 1000 then Scaled(num, 1000, "K")
    else
      ParseIntRoundTrip(num);
      Exact(IntToString(num))
  }

  const KiB: nat := 1024
  const MiB: nat := 1024 * 1024

  /** `formatBytes`: "MB" from 1024 * 1024, "KB" from 1024, else the exact count and " B". */
  function FormatBytes(bytes: int): (r: Shown)
    ensures r.Scaled? <==> bytes >= KiB
    ensures r.Scaled? ==> r.n == bytes && r.unit > 0 && r.n / r.unit >= 1
    ensures r.Scaled? ==> (r.suffix == " MB" <==> bytes >= MiB)
    ensures r.Scaled? && r.suffix != " MB" ==> r.suffix == " KB" && r.n / r.unit < KiB
    ensures r.Exact? ==> r.text == IntToString(bytes) + " B" && ParseInt(r.text) == Some(bytes)
  {
    if bytes >= MiB then Scaled(bytes, MiB, " MB")
    else if bytes >= KiB then Scaled(bytes, KiB, " KB")
    else
      ParseIntOfNumberThen(bytes, " B");
      Exact(IntToString(bytes) + " B")
  }

  /** The unit a shown number is divided by (1 for exact text). */
  function UnitOf(r: Shown): nat {
    match r case Scaled(_, unit, _) => unit case Exact(_) => 1
  }

  /** A larger number never gets a smaller unit. */
  lemma UnitsMonotone(a: int, b: int)
    requires a <= b
    ensures UnitOf(FormatNumber(a)) <= UnitOf(FormatNumber(b))
    ensures UnitOf(FormatBytes(a)) <= UnitOf(FormatBytes(b))
  {
  }
}
