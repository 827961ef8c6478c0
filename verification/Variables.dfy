/** The dynamically typed process variables that every part of the engine passes around. */
module Variables {

  /** A 64-bit float, as far as comparison can tell: rounding is not modelled, NaN and infinities are. */
  datatype Float = NaN | NegInf | Finite(value: real) | PosInf

  /** A value behind Go's empty interface; Other stands for every type the engine does not inspect. */
  datatype Value = Nil | Bool(b: bool) | Int(i: int) | Number(f: Float) | Text(s: string) | Other(tag: int)

  type Vars = map<string, Value>
}
