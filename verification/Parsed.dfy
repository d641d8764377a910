// Values read from JSON files, as the player's extractors look at them.

module Parsed {
  import opened Text

  /** What json.loads returns. */
  datatype Raw =
    | RNull
    | RBool(b: bool)
    | RInt(n: int)
    | RReal
    | RStr(s: string)
    | RList(xs: seq<Raw>)
    | RObj(m: map<string, Raw>)

  /** isinstance(raw, int): a boolean is an integer too. */
  function AsInt(raw: Raw): Option<int> {
    match raw
    case RInt(n) => Some(n)
    case RBool(b) => Some(if b then 1 else 0)
    case _ => None
  }

  function Get(m: map<string, Raw>, key: string, default: Raw): Raw {
    if key in m then m[key] else default
  }
}
