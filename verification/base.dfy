/** Shared vocabulary of the model: optional values, bytes, the JSON values that
    level metadata carries, and the constant pi used by the angle helpers. */
module Base {

  /** Conventional Some/None, standing for a JavaScript value that may be null. */
  datatype Option<+T> = None | Some(value: T)

  /** One channel of an RGBA pixel. */
  type Byte = b: int | 0 <= b < 256

  /** Math.PI, to the precision of an IEEE double. */
  const Pi: real := 3.141592653589793

  /** A JSON value as read from level metadata. `Undefined` stands for a
      property the object does not have. */
  datatype Value =
    | Undefined
    | Null
    | Str(s: string)
    | Num(n: real)
    | Bool(b: bool)

  /** JavaScript truthiness: `undefined`, `null`, `""`, `0` and `false` are falsy. */
  predicate Truthy(v: Value)
  {
    match v
    case Undefined => false
    case Null => false
    case Str(s) => s != ""
    case Num(n) => n != 0.0
    case Bool(b) => b
  }

  /** A parameter bag: a JSON object. */
  type Params = map<string, Value>

  /** Property read `obj[key]` on a JSON object. */
  function Get(p: Params, key: string): (v: Value)
    ensures key !in p ==> v == Undefined
    ensures key in p ==> v == p[key]
  {
    if key in p then p[key] else Undefined
  }

  /** A line of the text overlay: a line of the level's entry text, a
      non-string value drawn as its JavaScript string conversion, or the
      message `"Picked up " + name` shown by a pickup. */
  datatype OverlayLine = Plain(text: string) | Shown(value: Value) | PickedUp(item: Value)

  /** The transient text overlay: a countdown and its lines. */
  datatype Overlay = Overlay(timer: real, lines: seq<OverlayLine>)
}
