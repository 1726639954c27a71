/**
 * Values shared by the collector, the web service and the setup wizard: what
 * the sensor driver's `status()` call yields, and the Python numbers that a
 * raw data-point becomes once it is multiplied by its catalog scale.
 */
module Common {

  datatype Option<T> = None | Some(value: T)

  /**
   * The dictionary returned by the driver's `status()`: an optional "Error"
   * entry and an optional "dps" entry (data-point id -> raw integer).
   */
  datatype DeviceStatus = DeviceStatus(error: Option<string>, dps: Option<map<string, int>>)

  /** One call of `status()`: it either raises or returns a status dictionary. */
  datatype StatusCall = Raised(message: string) | Returned(status: DeviceStatus)

  /** `{}` */
  const EmptyStatus := DeviceStatus(None, None)

  /**
   * A catalog scale factor as written in the source: the literal `1` is a
   * Python int, the others (`0.1`, `0.01`, `0.001`) are floats.
   */
  datatype Scale = IntScale(n: int) | FloatScale(f: real)

  /** A Python number: an int stays an int when multiplied by an int. */
  datatype Number = Int(i: int) | Float(r: real)

  function Factor(s: Scale): real {
    match s
    case IntScale(n) => n as real
    case FloatScale(f) => f
  }

  function AsReal(x: Number): real {
    match x
    case Int(i) => i as real
    case Float(r) => r
  }

  /** `raw * scale`: numerically raw times the factor, an int exactly when the scale is. */
  function ScaleRaw(raw: int, s: Scale): (v: Number)
    ensures AsReal(v) == raw as real * Factor(s)
    ensures v.Int? <==> s.IntScale?
  {
    match s
    case IntScale(n) => Int(raw * n)
    case FloatScale(f) => Float(raw as real * f)
  }
}
