/** A JSON value as `encoding/json` decodes it into a generic object. */
module Json {
  /**
   * A number is kept as an uninterpreted literal and the model never computes
   * with it. The program decodes numbers to float64 and `json.MarshalIndent`
   * writes them back in Go's own format, so "unchanged" in the manifest
   * properties is about the decoded value, not the text of `package.json`.
   */
  datatype Json =
    | Null
    | Bool(b: bool)
    | Number(literal: string)
    | String(text: string)
    | Array(items: seq<Json>)
    | Object(fields: map<string, Json>)
}
