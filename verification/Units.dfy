/** Device units and the SI units they become. */
module Units {
  import opened Prelude
  import opened Text

  /** `si = raw * scale + offset`, in exact arithmetic. */
  datatype Conversion = Conversion(scale: real, offset: real) {
    function Apply(raw: real): real {
      raw * scale + offset
    }

    /** From an SI value back to what the device wants written. */
    function Unapply(si: real): real
      requires scale != 0.0
    {
      (si - offset) / scale
    }
  }

  const IDENTITY: Conversion := Conversion(1.0, 0.0)

  datatype Si = Si(unit: string, conv: Conversion)

  /** A unit as devices report it, trimmed and in one spelling. */
  function Normalize(unit: string): string {
    var t := Trim(unit);
    if t == "RPM" || t == "rpm" then "rpm"
    else if t == "C" then "\U{B0}C"
    else t
  }

  function Scaled(unit: string, scale: real): Option<Si> {
    Some(Si(unit, Conversion(scale, 0.0)))
  }

  /** The SI unit a normalised unit becomes, and how. */
  function ToSiOf(dev: string): Option<Si> {
    if dev == "V" || dev == "A" || dev == "W" || dev == "Hz" || dev == "s" || dev == "K" || dev == "ratio" then
      Some(Si(dev, IDENTITY))
    else if dev == "\U{B0}C" then Some(Si("K", Conversion(1.0, 273.15)))
    else if dev == "%" then Scaled("ratio", 0.01)
    else if dev == "Ah" then Scaled("C", 3600.0)
    else if dev == "rpm" then Scaled("Hz", 1.0 / 60.0)
    else if dev == "kWh" then Scaled("J", 3600000.0)
    else if dev == "Wh" then Scaled("J", 3600.0)
    else if dev == "kW" then Scaled("W", 1000.0)
    else if dev == "mV" then Scaled("V", 0.001)
    else if dev == "mA" then Scaled("A", 0.001)
    else if dev == "min" then Scaled("s", 60.0)
    else if dev == "h" then Scaled("s", 3600.0)
    else None
  }

  function ToSi(unit: string): Option<Si> {
    ToSiOf(Normalize(unit))
  }

  /** A conversion undoes itself. */
  lemma UnapplyUndoes(c: Conversion, x: real)
    requires c.scale != 0.0
    ensures c.Unapply(c.Apply(x)) == x && c.Apply(c.Unapply(x)) == x
  {
  }

  /** Every conversion in the table can be undone. */
  lemma ConversionsInvert(unit: string)
    ensures ToSi(unit).Some? ==> ToSi(unit).value.conv.scale != 0.0
  {
  }

  /** What so much of a unit is in the SI unit it becomes. */
  function Worth(dev: string, n: real): Option<(string, real)> {
    match ToSiOf(dev)
    case None => None
    case Some(si) => Some((si.unit, si.conv.Apply(n)))
  }

  /** Units of the SI, and the ratio, are kept. */
  lemma SiUnitsAreKept(n: real)
    ensures forall si :: si in ["V", "A", "W", "Hz", "s", "K", "ratio"] ==> Worth(si, n) == Some((si, n))
  {
    forall si | si in ["V", "A", "W", "Hz", "s", "K", "ratio"]
      ensures Worth(si, n) == Some((si, n))
    {
      assert ToSiOf(si) == Some(Si(si, IDENTITY));
    }
  }

  /** A thousand of the small units make a large one, a hundred percent the whole, and temperatures differ by an
      offset only. */
  lemma LargeAndSmall(n: real)
    ensures Worth("mV", 1000.0 * n) == Worth("V", n) && Worth("mA", 1000.0 * n) == Worth("A", n)
    ensures Worth("kW", n) == Worth("W", 1000.0 * n) && Worth("%", 100.0 * n) == Worth("ratio", n)
    ensures Worth("\U{B0}C", n) == Worth("K", n + 273.15)
  {
  }

  /** A minute is sixty seconds, an hour sixty minutes, and sixty turns a minute are one a second. */
  lemma TimesAgree(n: real)
    ensures Worth("min", n) == Worth("s", 60.0 * n) && Worth("h", n) == Worth("min", 60.0 * n)
    ensures Worth("rpm", 60.0 * n) == Worth("Hz", n)
  {
  }

  /** Energy is power times time, and charge current times time. */
  lemma ProductsAgree(n: real)
    ensures Worth("Wh", n) == Some(("J", Worth("W", n).value.1 * Worth("h", 1.0).value.1))
    ensures Worth("Ah", n) == Some(("C", Worth("A", n).value.1 * Worth("h", 1.0).value.1))
    ensures Worth("kWh", n) == Worth("Wh", 1000.0 * n)
  {
  }

  /** Two spellings of turns a minute are one unit, a plain "C" is degrees, and the space around a unit is not
      part of it. */
  lemma SpellingsAreOne(unit: string)
    ensures Trim(unit) in ["RPM", "rpm"] ==> Normalize(unit) == "rpm"
    ensures Trim(unit) in ["C", "\U{B0}C"] ==> Normalize(unit) == "\U{B0}C"
    ensures Trim(unit) !in ["RPM", "C"] ==> Normalize(unit) == Trim(unit)
  {
  }
}
