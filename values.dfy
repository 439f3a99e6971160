/** The decoded JSON values the pipeline handles, and the few Python
    operations on them that lambda.py relies on: truthiness, `dict.get`
    with and without a default, and `str()` as used by f-strings. */
module Values {

  datatype Option<T> = None | Some(value: T)

  /** A JSON scalar as Python sees it after `response.json()`. */
  datatype Json = JNull | JBool(b: bool) | JInt(i: int) | JStr(s: string)

  /** A JSON object (a Python dict with string keys). */
  type Object = map<string, Json>

  /** The one exception the collection step can raise: `needle in v` where
      `v` is not a string. */
  datatype Error = TypeError(operand: Json)

  /** A computation that either returns a value or raises. */
  datatype Result<T> = Ok(value: T) | Raised(error: Error)

  /** Running two list-building steps one after the other: the first
      exception wins, otherwise the lists are concatenated. */
  function Append<T>(a: Result<seq<T>>, b: Result<seq<T>>): Result<seq<T>>
  {
    match a
    case Raised(e) => Raised(e)
    case Ok(x) =>
      match b
      case Raised(e) => Raised(e)
      case Ok(y) => Ok(x + y)
  }

  lemma AppendAssociative<T>(a: Result<seq<T>>, b: Result<seq<T>>, c: Result<seq<T>>)
    ensures Append(Append(a, b), c) == Append(a, Append(b, c))
  {
    if a.Ok? && b.Ok? && c.Ok? {
      assert (a.value + b.value) + c.value == a.value + (b.value + c.value);
    }
  }

  lemma AppendNothing<T>(a: Result<seq<T>>)
    ensures Append(a, Ok([])) == a
  {
    if a.Ok? {
      assert a.value + [] == a.value;
    }
  }

  /** One list-building step per element of `xs[..n]`, run in order: the
      lists concatenated, or the first exception. */
  function Gather<X, T>(f: X -> Result<seq<T>>, xs: seq<X>, n: nat): Result<seq<T>>
    requires n <= |xs|
    decreases n
  {
    if n == 0 then Ok([]) else Append(Gather(f, xs, n - 1), f(xs[n - 1]))
  }

  /** Only the first `n` elements matter. */
  lemma {:induction false} GatherOfPrefix<X, T>(f: X -> Result<seq<T>>, a: seq<X>, b: seq<X>, n: nat)
    requires n <= |a|
    ensures Gather(f, a + b, n) == Gather(f, a, n)
    decreases n
  {
    if n > 0 {
      assert (a + b)[n - 1] == a[n - 1];
      GatherOfPrefix(f, a, b, n - 1);
    }
  }

  /** Gathering over a concatenation is gathering over each part in turn. */
  lemma GatherConcat<X, T>(f: X -> Result<seq<T>>, a: seq<X>, b: seq<X>)
    ensures Gather(f, a + b, |a + b|) == Append(Gather(f, a, |a|), Gather(f, b, |b|))
  {
    GatherOfPrefix(f, a, b, |a|);
    GatherSuffix(f, a, b, |b|);
  }

  lemma {:induction false} GatherSuffix<X, T>(f: X -> Result<seq<T>>, a: seq<X>, b: seq<X>, m: nat)
    requires m <= |b|
    requires Gather(f, a + b, |a|) == Gather(f, a, |a|)
    ensures Gather(f, a + b, |a| + m) == Append(Gather(f, a, |a|), Gather(f, b, m))
    decreases m
  {
    if m == 0 {
      AppendNothing(Gather(f, a, |a|));
    } else {
      GatherSuffix(f, a, b, m - 1);
      assert (a + b)[|a| + m - 1] == b[m - 1];
      AppendAssociative(Gather(f, a, |a|), Gather(f, b, m - 1), f(b[m - 1]));
    }
  }

  /** The run raises iff some step raises, and then with the exception of
      the first step that does. */
  lemma {:induction false} GatherRaises<X, T>(f: X -> Result<seq<T>>, xs: seq<X>, n: nat)
    requires n <= |xs|
    ensures Gather(f, xs, n).Raised? <==> exists i :: 0 <= i < n && f(xs[i]).Raised?
    ensures Gather(f, xs, n).Raised? ==>
      exists i :: 0 <= i < n && f(xs[i]) == Gather(f, xs, n) &&
        forall k :: 0 <= k < i ==> f(xs[k]).Ok?
    decreases n
  {
    if n > 0 {
      GatherRaises(f, xs, n - 1);
    }
  }

  /** Without an exception, the result holds exactly what the steps return. */
  lemma {:induction false} GatherHolds<X, T>(f: X -> Result<seq<T>>, xs: seq<X>, n: nat, x: T)
    requires n <= |xs| && Gather(f, xs, n).Ok?
    ensures x in Gather(f, xs, n).value <==> exists i :: 0 <= i < n && f(xs[i]).Ok? && x in f(xs[i]).value
    decreases n
  {
    if n > 0 {
      GatherHolds(f, xs, n - 1, x);
    }
  }

  /** Once the first `n` steps raise, the whole run raises the same. */
  lemma {:induction false} GatherRaisedSticks<X, T>(f: X -> Result<seq<T>>, xs: seq<X>, n: nat)
    requires n <= |xs| && Gather(f, xs, n).Raised?
    ensures Gather(f, xs, |xs|) == Gather(f, xs, n)
    decreases |xs| - n
  {
    if n < |xs| {
      GatherRaisedSticks(f, xs, n + 1);
    }
  }

  /** Python truthiness of a scalar. */
  predicate Truthy(v: Json)
  {
    match v
    case JNull => false
    case JBool(b) => b
    case JInt(i) => i != 0
    case JStr(s) => s != ""
  }

  /** `o.get(key)`: a missing key reads as `None`. */
  function Get(o: Object, key: string): Json
  {
    if key in o then o[key] else JNull
  }

  /** `o.get(key, default)`: the default is used only when the key is missing,
      not when it is present with the value `null`. */
  function GetOr(o: Object, key: string, default: Json): Json
  {
    if key in o then o[key] else default
  }

  function DigitChar(d: nat): (c: char)
    requires d < 10
    ensures '0' <= c <= '9'
  {
    "0123456789"[d]
  }

  /** Decimal digits of a natural number, most significant first. */
  function DecimalDigits(n: nat): (r: string)
    ensures |r| >= 1
    ensures forall k :: 0 <= k < |r| ==> '0' <= r[k] <= '9'
    decreases n
  {
    if n < 10 then [DigitChar(n)] else DecimalDigits(n / 10) + [DigitChar(n % 10)]
  }

  /** `str(v)`, which is what an f-string placeholder produces. */
  function Str(v: Json): string
  {
    match v
    case JNull => "None"
    case JBool(b) => if b then "True" else "False"
    case JInt(i) => if i < 0 then "-" + DecimalDigits(-i) else DecimalDigits(i)
    case JStr(s) => s
  }

  lemma StrOfIntIsSingleLine(i: int)
    ensures '\n' !in Str(JInt(i))
  {
    var d := if i < 0 then DecimalDigits(-i) else DecimalDigits(i);
    assert forall k :: 0 <= k < |d| ==> d[k] != '\n';
    if i < 0 {
      assert Str(JInt(i)) == "-" + d;
      assert forall k :: 0 <= k < |Str(JInt(i))| ==> Str(JInt(i))[k] != '\n' by {
        forall k | 0 <= k < |Str(JInt(i))| ensures Str(JInt(i))[k] != '\n' {
          if k > 0 { assert Str(JInt(i))[k] == d[k - 1]; }
        }
      }
    }
  }
}
