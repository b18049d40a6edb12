/** Parsed JSON values as the descriptor files deliver them. Floating-point
    numbers play no role in the modelled logic and are not represented. */
module Json {

  datatype JVal =
    | JNull
    | JBool(b: bool)
    | JNum(n: int)
    | JStr(s: string)
    | JArr(items: seq<JVal>)
    | JObj(fields: map<string, JVal>)

  /** A JSON object: field name to value. */
  type Object = map<string, JVal>
}
