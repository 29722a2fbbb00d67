/** Values shared by the validator, the auth helpers, the error classifier and
    the resolvers: JavaScript values as the handlers see them, the `{field,
    message}` error entry and the thrown error object. */
module Common {

  datatype Option<+T> = None | Some(value: T)

  datatype Result<+T, +E> = Ok(value: T) | Err(error: E)

  /** A JavaScript value stored in an argument bag or an employee document.
      `undefined` is not a value here: it is a key missing from the map.
      `Date(source)` stands for `new Date(source)`, left uninterpreted. */
  datatype Value = Null | Str(s: string) | Num(x: real) | Date(source: string)

  /** A nullable GraphQL argument: not sent (undefined), sent as null, or given. */
  datatype Arg<+T> = Omitted | NullArg | Given(value: T)

  /** JavaScript truthiness of a nullable string argument. */
  predicate TruthyText(a: Arg<string>) {
    a.Given? && a.value != ""
  }

  /** An uploaded file as the GraphQL upload scalar hands it over (opaque). */
  datatype Upload = Upload(handle: nat)

  /** One entry of a payload's `errors` list. */
  datatype ErrorDetail = ErrorDetail(field: string, message: string)

  /** The `code` property of a thrown error: absent, a string or a number. */
  datatype Code = NoCode | StrCode(text: string) | NumCode(n: int)

  /** A thrown JavaScript error: its `message`, `code`, `details` (None when it
      is not an array) and the keys of its `keyPattern` object, in order. */
  datatype Exception = Exception(message: string, code: Code, details: Option<seq<ErrorDetail>>, keyPattern: seq<string>)

  /** Lower-casing of one character (ASCII letters only). */
  function LowerChar(c: char): (r: char)
    ensures 'A' <= c <= 'Z' ==> 'a' <= r <= 'z' && r as int == c as int + 32
    ensures !('A' <= c <= 'Z') ==> r == c
  {
    if 'A' <= c <= 'Z' then (c as int + 32) as char else c
  }

  /** `String.prototype.toLowerCase`, restricted to ASCII letters. */
  function Lower(s: string): (r: string)
    ensures |r| == |s|
    ensures forall i :: 0 <= i < |s| ==> r[i] == LowerChar(s[i])
  {
    seq(|s|, i requires 0 <= i < |s| => LowerChar(s[i]))
  }

  /** Lower-casing twice is lower-casing once. */
  lemma LowerIdempotent(s: string)
    ensures Lower(Lower(s)) == Lower(s)
  {
    var once := Lower(s);
    var twice := Lower(once);
    forall i | 0 <= i < |s|
      ensures twice[i] == once[i]
    {
      assert once[i] == LowerChar(s[i]);
    }
  }
}
