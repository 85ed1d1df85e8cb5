/** Shared value types: optional values, results with the error a Django call raises, money. */
module Common
{
  datatype Option<T> = None | Some(value: T)

  /** What a call raises instead of returning. */
  datatype Error =
    | ValidationError(message: string)
    | ValueError(message: string)
    | NameError(name: string)
    | IntegrityError(message: string)
    | DoesNotExist(model: string)
    | OverflowError(message: string)
    | AttributeError(name: string)
    | RuntimeError(message: string)

  datatype Result<T> = Ok(value: T) | Err(error: Error)

  /** Decimal amounts of money, exact. */
  type Money = real

  /** Python truthiness of an optional number: `None` and zero are both false. */
  predicate Truthy(x: Option<int>)
  {
    x.Some? && x.value != 0
  }

  predicate TruthyMoney(x: Option<Money>)
  {
    x.Some? && x.value != 0.0
  }

  /** The positions of the set flags, increasing: where a filter keeps an element of a list. */
  function Positions(flags: seq<bool>): (ix: seq<nat>)
    ensures forall i :: 0 <= i < |ix| ==> ix[i] < |flags| && flags[ix[i]]
    ensures forall k :: 0 <= k < |flags| && flags[k] ==> k in ix
    ensures forall i, j :: 0 <= i < j < |ix| ==> ix[i] < ix[j]
    ensures |ix| <= |flags|
  {
    if flags == [] then []
    else
      var n := |flags| - 1;
      var rest := Positions(flags[..n]);
      assert forall i :: 0 <= i < |rest| ==> flags[..n][rest[i]] == flags[rest[i]];
      rest + (if flags[n] then [n] else [])
  }

  /** The elements of `xs` whose flag is set, in their order in `xs`. */
  function Keep<T>(xs: seq<T>, flags: seq<bool>): (r: seq<T>)
    requires |flags| == |xs|
    ensures |r| == |Positions(flags)|
    ensures forall i :: 0 <= i < |r| ==> r[i] == xs[Positions(flags)[i]]
  {
    if xs == [] then []
    else
      var n := |xs| - 1;
      var prefix := Positions(flags[..n]);
      var rest := Keep(xs[..n], flags[..n]);
      assert Positions(flags) == prefix + (if flags[n] then [n] else []);
      assert forall i :: 0 <= i < |rest| ==> rest[i] == xs[prefix[i]];
      rest + (if flags[n] then [xs[n]] else [])
  }

  /** `num / den * 100` when `den` is positive, otherwise 0: every rate the application reports. */
  function Rate(num: real, den: real): (r: real)
    ensures den <= 0.0 ==> r == 0.0
    ensures den > 0.0 ==> r * den == num * 100.0
  {
    if den > 0.0 then num / den * 100.0 else 0.0
  }

  lemma RateBounds(num: real, den: real)
    requires 0.0 <= num <= den
    ensures 0.0 <= Rate(num, den) <= 100.0
    ensures den > 0.0 && num == den ==> Rate(num, den) == 100.0
  {
    if den > 0.0 {
      var r := Rate(num, den);
      assert r * den == num * 100.0;
      assert r * den <= den * 100.0;
      assert r * den >= 0.0;
    }
  }
}
