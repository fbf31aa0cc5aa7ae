/**
 * Shared vocabulary of the model: optional values, results, record identifiers,
 * time, HTTP replies, and the JavaScript truthiness rules the controllers use
 * when they write `a || b`.
 */
module Base {

  /** `undefined` versus a present value. */
  datatype Option<+T> = None | Some(value: T) {
    function GetOr(default: T): T {
      match this
      case Some(v) => v
      case None => default
    }
  }

  /** A computation that either yields a value or fails with an error. */
  datatype Result<+T, +E> = Ok(value: T) | Err(error: E)

  /** A database object id (`_id`); ids are opaque and only compared. */
  type Id = nat

  /** A timestamp in whole seconds since the epoch. */
  type Time = int

  /** An HTTP reply: the status code and the JSON body sent with it. */
  datatype Reply<+B> = Reply(status: int, body: B)

  /** JavaScript truthiness of an optional string: `undefined` and `""` are falsy. */
  predicate Truthy(s: Option<string>) {
    s.Some? && s.value != ""
  }

  /** `${x}` for an optional string: an absent value prints as "undefined". */
  function Show(x: Option<string>): string
  {
    x.GetOr("undefined")
  }

  /** `update || current` for an optional field. */
  function Merge<T>(update: Option<T>, current: Option<T>): (r: Option<T>)
    ensures update.Some? ==> r == update
    ensures update.None? ==> r == current
  {
    if update.Some? then update else current
  }

  /** `update || current` for an optional string field: an empty update keeps the current value. */
  function MergeText(update: Option<string>, current: Option<string>): (r: Option<string>)
    ensures Truthy(update) ==> r == update
    ensures !Truthy(update) ==> r == current
  {
    if Truthy(update) then update else current
  }

  /** `update || current` for a string field that is always present. */
  function MergeRequired(update: Option<string>, current: string): (r: string)
    ensures Truthy(update) ==> r == update.value
    ensures !Truthy(update) ==> r == current
  {
    if Truthy(update) then update.value else current
  }

  /** Number of occurrences of `x` in `s`. */
  function Count<T(==)>(s: seq<T>, x: T): nat
  {
    if |s| == 0 then 0 else (if s[0] == x then 1 else 0) + Count(s[1..], x)
  }

  lemma {:induction false} CountAppend<T>(a: seq<T>, b: seq<T>, x: T)
    ensures Count(a + b, x) == Count(a, x) + Count(b, x)
  {
    if |a| == 0 {
      assert a + b == b;
    } else {
      assert (a + b)[1..] == a[1..] + b;
      CountAppend(a[1..], b, x);
    }
  }

  lemma {:induction false} CountZeroIffAbsent<T>(s: seq<T>, x: T)
    ensures Count(s, x) == 0 <==> x !in s
  {
    if |s| > 0 {
      CountZeroIffAbsent(s[1..], x);
      assert s == [s[0]] + s[1..];
    }
  }
}
