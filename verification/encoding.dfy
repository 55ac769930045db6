/**
 The values the ledger hashes and the foreign primitives it hashes them with.

 The service hashes `json.dumps(data, sort_keys=True)`, `str(timestamp)` and the
 hex digest of SHA-256. None of these is modelled internally: they are carried as
 function values in a `Primitives` record, so every property proved about the
 ledger holds for ANY choice of encoder, float formatter and hash function.
 */
module Encoding {

  /** A JSON document as `json.load` returns it and `json.dumps` accepts it.
      Objects are maps, so two dicts built in different key orders are the same
      value; this is the order-independence that `sort_keys=True` provides. */
  datatype Json =
    | JNull
    | JBool(b: bool)
    | JNum(n: real)
    | JStr(s: string)
    | JArray(items: seq<Json>)
    | JObject(fields: map<string, Json>)

  /** The foreign calls the ledger makes, left uninterpreted.
      H     : hex SHA-256 digest of the UTF-8 bytes of its argument
      Enc   : `json.dumps(_, sort_keys=True)`
      TsStr : `str(float)` of an epoch-seconds timestamp
      Hashing the concatenation of three strings stands for hashing the
      concatenation of their UTF-8 encodings, which is the same byte string. */
  datatype Primitives = Primitives(
    H: string -> string,
    Enc: Json -> string,
    TsStr: real -> string)

  /** The two strings `a` and `b` do not collide under the hash. This is
      stated per pair: SHA-256 has collisions, but none is known or feasible
      to find, and that is all a tamper-evidence argument may rely on. */
  ghost predicate NoHashCollision(p: Primitives, a: string, b: string)
  {
    p.H(a) == p.H(b) ==> a == b
  }

  /** The two values `x` and `y` do not share a canonical encoding. */
  ghost predicate NoEncodingCollision(p: Primitives, x: Json, y: Json)
  {
    p.Enc(x) == p.Enc(y) ==> x == y
  }
}
