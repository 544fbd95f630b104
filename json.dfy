/** The parsed JSON data the catalog is built from. */
module Json {
  import opened Seqs

  /**
   * A JSON value as Python holds it after `json.load`. Strings, booleans,
   * integers and `null` are modelled exactly; any other value (a float, a
   * list, a nested object) is kept opaque, with the text `str()` renders for
   * it and its truth value.
   */
  datatype Value =
    | Null
    | Bool(b: bool)
    | Int(i: int)
    | Str(s: string)
    | Other(text: string, truthy: bool)

  /** Python truthiness, as used by `if site.is_nsfw`. */
  predicate Truthy(v: Value) {
    match v
    case Null => false
    case Bool(b) => b
    case Int(i) => i != 0
    case Str(s) => s != ""
    case Other(_, t) => t
  }

  /** What an f-string inserts for the value (`str(v)`). */
  function Display(v: Value): string {
    match v
    case Null => "None"
    case Bool(b) => if b then "True" else "False"
    case Int(i) => if i < 0 then "-" + Digits(-i) else Digits(i)
    case Str(s) => s
    case Other(t, _) => t
  }

  /** Decimal digits of a natural number, without leading zeros. */
  function Digits(n: nat): string
    decreases n
  {
    var d := ['0' + (n % 10) as char];
    if n < 10 then d else Digits(n / 10) + d
  }

  /**
   * One top-level entry of the data file. `site_data[name]["urlMain"]` raises
   * `KeyError` on a dict without the key and `TypeError` on any other value,
   * so only the distinction "dict or not" matters.
   */
  datatype Entry = Mapping(fields: map<string, Value>) | NotMapping

  /** A parsed top-level JSON object: its keys in file order, and its entries. */
  datatype RawDocument = RawDocument(order: seq<string>, entries: map<string, Entry>)
  {
    predicate WellFormed() {
      && Distinct(order)
      && (forall k :: k in entries ==> k in order)
      && (forall k :: k in order ==> k in entries)
    }
  }

  /** A Python `dict`: every key once, in insertion order. */
  type Document = d: RawDocument | d.WellFormed() witness RawDocument([], map[])
}
