// Values of the fields of documents and of rows.
module Values {
  datatype Value = Number(n: int) | Text(s: string) | Flag(b: bool)
}
