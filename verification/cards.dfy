/** Memory cards as the store holds them (clozn/memory/cards.py). */
module Cards {
  import opened Common

  /** A JSON value; of an array or an object only whether it is empty matters here. */
  datatype Value =
    | Str(text: string)
    | Int(count: int)
    | Real(number: real)
    | NonFinite
    | Flag(on: bool)
    | Compound(empty: bool)
    | Null

  /** A card is a JSON object. */
  type Card = map<string, Value>
  type Cards = seq<Card>
  type Fields = seq<(string, Value)>

  predicate HasId(c: Card, id: string) {
    "id" in c && c["id"] == Str(id)
  }

  /** c.get("id"), when it is a string. */
  function IdOf(c: Card): Option<string> {
    if "id" in c && c["id"].Str? then Some(c["id"].text) else None
  }

  function Get(c: Card, field: string): Value {
    if field in c then c[field] else Null
  }
}
