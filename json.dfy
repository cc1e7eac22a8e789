/**
 * The JSON values that Foundation's JSONEncoder writes and JSONDecoder reads,
 * and the three ways a `Decodable` initializer asks a keyed container for one
 * field: `decode` (must be there and of the type), `decodeIfPresent` (may be
 * missing or null, otherwise must be of the type) and `try? decode` (never throws).
 * JSON numbers are whole numbers here.
 */
module Json {
  import opened Wrappers

  datatype Json =
    | JNull
    | JBool(b: bool)
    | JNum(n: int)
    | JStr(s: string)
    | JArr(items: seq<Json>)
    | JObj(fields: map<string, Json>)

  /** The outcome of a `throws` decoding step; usable with `:-`. */
  datatype Decoded<+T> = Decoded(value: T) | DecodeFailure {
    predicate IsFailure() { DecodeFailure? }

    function PropagateFailure<U>(): Decoded<U>
      requires DecodeFailure?
    {
      DecodeFailure
    }

    function Extract(): T
      requires Decoded?
    {
      value
    }
  }

  /** `container.decode(String.self, forKey: key)`. */
  function RequiredString(f: map<string, Json>, key: string): (r: Decoded<string>)
    ensures r.Decoded? <==> key in f && f[key].JStr?
    ensures r.Decoded? ==> r.value == f[key].s
  {
    if key in f && f[key].JStr? then Decoded(f[key].s) else DecodeFailure
  }

  /** `container.decode(Bool.self, forKey: key)`. */
  function RequiredBool(f: map<string, Json>, key: string): (r: Decoded<bool>)
    ensures r.Decoded? <==> key in f && f[key].JBool?
    ensures r.Decoded? ==> r.value == f[key].b
  {
    if key in f && f[key].JBool? then Decoded(f[key].b) else DecodeFailure
  }

  /** `container.decodeIfPresent(String.self, forKey: key)`. */
  function OptionalString(f: map<string, Json>, key: string): (r: Decoded<Option<string>>)
    ensures r.Decoded? <==> key !in f || f[key].JNull? || f[key].JStr?
    ensures r == Decoded(None) <==> key !in f || f[key].JNull?
    ensures r.Decoded? && r.value.Some? ==> f[key] == JStr(r.value.value)
  {
    if key !in f || f[key].JNull? then Decoded(None)
    else if f[key].JStr? then Decoded(Some(f[key].s))
    else DecodeFailure
  }

  /** An optional string field as the synthesized encoder writes it (`encodeIfPresent`). */
  function PutOptionalString(f: map<string, Json>, key: string, v: Option<string>): (r: map<string, Json>)
    ensures OptionalString(r, key) == Decoded(v)
    ensures forall k :: k != key ==> (k in r <==> k in f) && (k in f ==> r[k] == f[k])
  {
    match v
    case Some(s) => f[key := JStr(s)]
    case None => f - {key}
  }

  /**
   * What the app's models need to decode dates: the current time (the `Date()`
   * fallback) and Foundation's ISO8601DateFormatter, a foreign parser.
   */
  datatype DecodeContext = DecodeContext(now: int, parseIso8601: string -> Option<int>)

  /**
   * The `dataCriacao` decoding shared by Card and Idioma: a number is seconds
   * since 1970; else an ISO-8601 string; else `decodeIfPresent(Date.self)`,
   * which gives `now` for a missing or null key and throws otherwise (a JSON
   * number, the only form a Date takes, was already taken by the first branch).
   */
  function DecodeDate(f: map<string, Json>, key: string, ctx: DecodeContext): (r: Decoded<int>)
    ensures (key !in f || f[key].JNull?) ==> r == Decoded(ctx.now)
    ensures key in f && f[key].JNum? ==> r == Decoded(f[key].n)
    ensures key in f && f[key].JStr? && ctx.parseIso8601(f[key].s).Some? ==>
      r == Decoded(ctx.parseIso8601(f[key].s).value)
    ensures r.DecodeFailure? <==>
      key in f && !f[key].JNull? && !f[key].JNum? &&
      !(f[key].JStr? && ctx.parseIso8601(f[key].s).Some?)
  {
    if key in f && f[key].JNum? then Decoded(f[key].n)
    else if key in f && f[key].JStr? && ctx.parseIso8601(f[key].s).Some? then
      Decoded(ctx.parseIso8601(f[key].s).value)
    else if key !in f || f[key].JNull? then Decoded(ctx.now)
    else DecodeFailure
  }
}
