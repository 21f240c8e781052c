/** Parsed JSON documents: the seed file and the message bodies the consumer receives. */
module JsonValue {

  datatype Json =
    | JNull
    | JBool(b: bool)
    | JNum(n: real)
    | JStr(s: string)
    | JArr(items: seq<Json>)
    | JObj(fields: map<string, Json>)
}
