/** The attribute values a table stores. */
module AttributeValues {

  newtype byte = x: int | 0 <= x < 256

  datatype AV =
    | S(s: string)
    | N(n: string)
    | B(b: seq<byte>)
    | BOOL(flag: bool)
    | NULL
    | L(list: seq<AV>)
    | M(fields: map<string, AV>)
    | SS(strings: seq<string>)
    | NS(numbers: seq<string>)
    | BS(binaries: seq<seq<byte>>)
}
