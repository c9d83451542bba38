/** The JSON documents the window reads (`alerts.json`, `watchlist.json`), as `json.load` returns them. */
module Json {

  datatype Value =
    | Null
    | Bool(b: bool)
    | Number(n: real)
    | Str(s: string)
    | Array(items: seq<Value>)
    | Object(fields: map<string, Value>)

  /** Reading a JSON file: it does not exist (`os.path.exists` is false), it cannot be read or is
    * not JSON (`IOError`, `json.JSONDecodeError`), its bytes are not UTF-8 (`UnicodeDecodeError`,
    * which is neither of the two), or it decodes to a document. */
  datatype FileRead = Missing | Unreadable | Undecodable | Parsed(doc: Value)
}
