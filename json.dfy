/** The slice of nlohmann::json the client and the API rely on.

    Objects keep their members in ascending key order, as nlohmann::json's
    default std::map storage does, so iterating an object visits its values
    in key order. Numbers are integers; floating-point numbers are not part
    of this model. */
module Json {
  import opened Common

  datatype Json =
    | JNull
    | JBool(b: bool)
    | JNum(n: int)
    | JStr(s: string)
    | JArr(items: seq<Json>)
    | JObj(members: seq<(string, Json)>)

  /** The exception nlohmann::json raises for a value of the wrong kind. */
  datatype TypeError = TypeError(expected: string)

  const U32: nat := 0x1_0000_0000
  const U64: nat := 0x1_0000_0000_0000_0000

  /** A well-formed object keeps distinct keys in ascending order. */
  predicate WellFormedObject(j: Json)
  {
    j.JObj? ==> KeysAscending(j.members)
  }

  /** json::contains: true only for an object that has the key. */
  predicate Has(j: Json, key: string)
  {
    j.JObj? && key in KeySet(j.members)
  }

  /** The value under `key` (operator[] on an object known to contain it). */
  function Member(j: Json, key: string): (r: Option<Json>)
    ensures r.Some? <==> Has(j, key)
    ensures r.Some? ==> (key, r.value) in j.members
  {
    if j.JObj? then Lookup(j.members, key) else None
  }

  /** get<std::string>(): only a string converts; anything else throws. */
  function AsString(j: Json): (r: Result<string, TypeError>)
    ensures r.Ok? <==> j.JStr?
    ensures r.Ok? ==> r.value == j.s
  {
    if j.JStr? then Ok(j.s) else Err(TypeError("string"))
  }

  /** get<T>() for an unsigned T narrower than 64 bits, whose values lie below
      `modulus` (nlohmann's generic arithmetic from_json): numbers convert with
      the static_cast wrap-around, booleans read as 0 or 1, anything else throws. */
  function AsUnsigned(j: Json, modulus: nat): (r: Result<nat, TypeError>)
    requires modulus > 1
    ensures r.Ok? <==> j.JNum? || j.JBool?
    ensures r.Ok? ==> r.value < modulus
    ensures j.JNum? ==> r == Ok(j.n % modulus)
    ensures j.JNum? && 0 <= j.n < modulus ==> r == Ok(j.n)
    ensures j.JBool? ==> r == Ok(if j.b then 1 else 0)
  {
    match j
    case JNum(n) => Ok(n % modulus)
    case JBool(b) => Ok(if b then 1 else 0)
    case _ => Err(TypeError("number"))
  }

  /** get<uint64_t>(): uint64_t is nlohmann's own unsigned number type, read
      through get_arithmetic_value, which converts numbers only; a boolean
      throws like any other kind. */
  function AsU64(j: Json): (r: Result<nat, TypeError>)
    ensures r.Ok? <==> j.JNum?
    ensures r.Ok? ==> r.value < U64 && r.value == j.n % U64
    ensures j.JNum? && 0 <= j.n < U64 ==> r == Ok(j.n)
  {
    if j.JNum? then Ok(j.n % U64) else Err(TypeError("number"))
  }

  /** static_cast<int> of a stored integer: the value modulo 2^32, read
      back as a two's-complement 32-bit int. */
  function ToInt32(n: int): (r: int)
    ensures -0x8000_0000 <= r < 0x8000_0000
    ensures (n - r) % U32 == 0
    ensures -0x8000_0000 <= n < 0x8000_0000 ==> r == n
  {
    (n + 0x8000_0000) % U32 - 0x8000_0000
  }

  /** Whether get<double>() succeeds: double is nlohmann's own floating-point
      type, read through get_arithmetic_value, so only numbers convert. */
  predicate IsArithmetic(j: Json)
  {
    j.JNum?
  }

  /** The values a range-for over `j` visits: the items of an array, the
      member values of an object in key order, nothing for null, and the
      value itself for any other value. */
  function Elements(j: Json): (r: seq<Json>)
    ensures j.JArr? ==> r == j.items
    ensures j.JObj? ==> |r| == |j.members| && forall i :: 0 <= i < |r| ==> r[i] == j.members[i].1
    ensures j.JNull? ==> r == []
    ensures !j.JArr? && !j.JObj? && !j.JNull? ==> r == [j]
  {
    match j
    case JArr(items) => items
    case JObj(members) => seq(|members|, i requires 0 <= i < |members| => members[i].1)
    case JNull => []
    case _ => [j]
  }
}
