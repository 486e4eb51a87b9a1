// The JavaScript values, exceptions and built-in behaviours that the
// NIfTI loader relies on: nested arrays, truthiness, `.length`, indexing,
// loose equality, `flat(Infinity)`, and number-to-string conversion for
// error messages.

module JsValues {

  datatype Option<T> = None | Some(value: T)

  /** A computation that either returns a value or throws. */
  datatype Result<T, E> = Ok(value: T) | Err(error: E)
  {
    predicate IsFailure() { Err? }
    function PropagateFailure<U>(): Result<U, E> requires Err? { Err(error) }
    function Extract(): T requires Ok? { value }
  }

  /** What a JavaScript `throw` can carry in this code base. */
  datatype Exception =
    | Thrown(text: string)          // `throw 'literal text'`
    | ErrorObject(message: string)  // `throw new Error(message)`
    | TypeError                     // e.g. a property read on undefined, a call of undefined
    | ReferenceError                // a read of, or an assignment to, an undeclared identifier
    | RangeError                    // a DataView access outside its buffer

  type Outcome<T> = Result<T, Exception>

  /**
   * A JavaScript value as far as this code base distinguishes them.
   * Numbers are modelled by `real`, so NaN and the infinities are absent.
   */
  datatype Value =
    | Num(x: real)
    | Str(s: string)
    | Bool(b: bool)
    | Null
    | Undefined
    | Arr(items: seq<Value>)

  predicate Nullish(v: Value) { v.Null? || v.Undefined? }

  /** JavaScript truthiness: what `!v` negates. */
  predicate Truthy(v: Value)
  {
    match v
    case Num(x) => x != 0.0
    case Str(s) => s != ""
    case Bool(b) => b
    case Null => false
    case Undefined => false
    case Arr(_) => true
  }

  /** `v.length`: defined for arrays and strings, `undefined` for other non-nullish values. */
  function JsLength(v: Value): Option<nat>
  {
    match v
    case Arr(items) => Some(|items|)
    case Str(s) => Some(|s|)
    case _ => None
  }

  /** `v[i]`: throws on null/undefined, gives `undefined` past the end or on a primitive. */
  function Index(v: Value, i: int): (r: Outcome<Value>)
    ensures r.Err? <==> Nullish(v)
    ensures v.Arr? && 0 <= i < |v.items| ==> r == Ok(v.items[i])
  {
    match v
    case Null => Err(TypeError)
    case Undefined => Err(TypeError)
    case Arr(items) => if 0 <= i < |items| then Ok(items[i]) else Ok(Undefined)
    case Str(s) => if 0 <= i < |s| then Ok(Str([s[i]])) else Ok(Undefined)
    case _ => Ok(Undefined)
  }

  /**
   * Abstract equality `a == b` on the values this code base compares.
   * Coercions of strings and arrays to numbers are not modelled and
   * compare unequal here.
   */
  predicate LooseEq(a: Value, b: Value)
  {
    match (a, b)
    case (Num(x), Num(y)) => x == y
    case (Str(s), Str(t)) => s == t
    case (Bool(p), Bool(q)) => p == q
    case (Num(x), Bool(q)) => x == (if q then 1.0 else 0.0)
    case (Bool(p), Num(y)) => y == (if p then 1.0 else 0.0)
    case (Arr(_), Arr(_)) => a == b
    case _ => Nullish(a) && Nullish(b)
  }

  /** Strict equality `a === b`; two arrays are never the same object here. */
  predicate StrictEq(a: Value, b: Value)
  {
    !a.Arr? && !b.Arr? && a == b
  }

  // ----- flat(Infinity) -----

  /** The non-array leaves of a nested array in depth-first order: `[v].flat(Infinity)`. */
  function Leaves(v: Value): seq<Value>
  {
    match v
    case Arr(items) => LeavesSeq(items)
    case _ => [v]
  }

  function LeavesSeq(items: seq<Value>): seq<Value>
  {
    if items == [] then [] else Leaves(items[0]) + LeavesSeq(items[1..])
  }

  lemma {:induction false} LeavesSeqAppend(a: seq<Value>, b: seq<Value>)
    ensures LeavesSeq(a + b) == LeavesSeq(a) + LeavesSeq(b)
  {
    if a == [] {
      assert a + b == b;
    } else {
      assert (a + b)[1..] == a[1..] + b;
      LeavesSeqAppend(a[1..], b);
    }
  }

  lemma {:induction false} LeavesAreLeaves(v: Value)
    ensures forall l :: l in Leaves(v) ==> !l.Arr?
  {
    match v
    case Arr(items) => LeavesSeqAreLeaves(items);
    case _ =>
  }

  lemma {:induction false} LeavesSeqAreLeaves(items: seq<Value>)
    ensures forall l :: l in LeavesSeq(items) ==> !l.Arr?
  {
    if items != [] {
      LeavesAreLeaves(items[0]);
      LeavesSeqAreLeaves(items[1..]);
    }
  }

  lemma {:induction false} LeavesSeqOfLeaves(items: seq<Value>)
    requires forall i :: 0 <= i < |items| ==> !items[i].Arr?
    ensures LeavesSeq(items) == items
  {
    if items != [] {
      LeavesSeqOfLeaves(items[1..]);
    }
  }

  // ----- arithmetic facts the solver needs spelled out -----

  lemma MulSucc(a: int, m: int)
    ensures (a + 1) * m == m + a * m
  {
  }

  lemma MulLeMono(a: int, b: int, c: int)
    requires a <= b && c >= 0
    ensures a * c <= b * c
  {
  }

  lemma MulLtMono(a: int, b: int, c: int)
    requires a < b && c > 0
    ensures a * c < b * c
  {
  }

  // ----- small sequence helpers -----

  function Min(a: int, b: int): int { if a <= b then a else b }
  function Max(a: int, b: int): int { if a >= b then a else b }

  function Reverse<T>(s: seq<T>): (r: seq<T>)
    ensures |r| == |s|
    ensures forall i :: 0 <= i < |s| ==> r[i] == s[|s| - 1 - i]
  {
    if s == [] then [] else Reverse(s[1..]) + [s[0]]
  }

  /** `a.reverse()`. */
  method ReverseInPlace<T>(a: array<T>)
    modifies a
    ensures a[..] == Reverse(old(a[..]))
  {
    var n := a.Length;
    var i := 0;
    while i < n / 2
      invariant 0 <= i <= n / 2
      invariant forall k :: 0 <= k < i || n - i <= k < n ==> a[k] == old(a[n - 1 - k])
      invariant forall k :: i <= k < n - i ==> a[k] == old(a[k])
    {
      a[i], a[n - 1 - i] := a[n - 1 - i], a[i];
      i := i + 1;
    }
  }

  /** `Array.from(Array(n).keys())`: 0, 1, ..., n-1. */
  function Range(n: nat): (r: seq<int>)
    ensures |r| == n && forall i :: 0 <= i < n ==> r[i] == i
  {
    seq(n, i => i)
  }

  predicate NoDuplicates<T(==)>(s: seq<T>)
  {
    forall i, j :: 0 <= i < j < |s| ==> s[i] != s[j]
  }

  // ----- number to string, as in template literals -----

  function DigitChar(d: nat): char
    requires d < 10
  {
    "0123456789"[d]
  }

  function NatToString(n: nat): (r: string)
    ensures |r| >= 1
    ensures forall k :: 0 <= k < |r| ==> '0' <= r[k] <= '9'
    decreases n
  {
    if n < 10 then [DigitChar(n)] else NatToString(n / 10) + [DigitChar(n % 10)]
  }

  /** The decimal text of an integer, as `${n}` prints it. */
  function IntToString(n: int): string
  {
    if n < 0 then "-" + NatToString(-n) else NatToString(n)
  }

  /** `s.substr(start)` with a negative start counted from the end. */
  function Substr(s: string, start: int): (r: string)
    ensures |r| <= |s|
  {
    var b := if start < 0 then Max(|s| + start, 0) else Min(start, |s|);
    s[b..]
  }

  /** `s.slice(0, -k)` for k > 0. */
  function SliceDropLast(s: string, k: nat): (r: string)
    requires k > 0
    ensures |r| == Max(|s| - k, 0)
  {
    if |s| <= k then "" else s[..|s| - k]
  }
}
