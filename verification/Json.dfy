/**
 JSON documents as encoding/json hands them to the service: an empty interface
 holding null, a boolean, a number, a string, a slice or a map.
 */
module Json {
  datatype Json =
    | Null
    | Boolean(truth: bool)
    | Number(value: real)
    | String(text: string)
    | Array(items: seq<Json>)
    | Object(fields: map<string, Json>)
}
