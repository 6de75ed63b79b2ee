/** JSON values as the program holds them after decoding. */
module JsonValues {

  /** raw is a number or a boolean, as it prints. */
  datatype Json = Null | Text(text: string) | Raw(raw: string) | List(items: seq<Json>) |
    Object(fields: map<string, Json>)
}
