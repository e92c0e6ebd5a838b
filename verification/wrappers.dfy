/** Failure-carrying values used throughout the model: an optional value (a
    resolver that may fail) and a result that is either a value or an error (a
    visitor that may hit an empty scope stack). */
module Wrappers {

  datatype Option<+T> = None | Some(value: T)

  datatype Result<+T, +E> = Ok(value: T) | Err(error: E)

  /** The top of a stack kept as a sequence whose last element is the top. */
  function Top<T>(stack: seq<T>): Option<T>
  {
    if |stack| == 0 then None else Some(stack[|stack| - 1])
  }

  /** The top element of a non-empty stack. */
  function Last<T>(stack: seq<T>): T
    requires |stack| > 0
  {
    stack[|stack| - 1]
  }

  /** The stack without its top element. */
  function Pop<T>(stack: seq<T>): (rest: seq<T>)
    requires |stack| > 0
    ensures |rest| == |stack| - 1
    ensures rest + [stack[|stack| - 1]] == stack
  {
    stack[..|stack| - 1]
  }

  /** The values of all the results in order, or the first error among them:
      a loop whose first exception escapes. */
  function Collect<T, E>(rs: seq<Result<T, E>>): (r: Result<seq<T>, E>)
    ensures r.Ok? <==> forall k :: 0 <= k < |rs| ==> rs[k].Ok?
    ensures r.Ok? ==> |r.value| == |rs| && forall k :: 0 <= k < |rs| ==> rs[k] == Ok(r.value[k])
    ensures r.Err? ==> exists k :: 0 <= k < |rs| && rs[k] == Err(r.error) && forall j :: 0 <= j < k ==> rs[j].Ok?
    decreases |rs|
  {
    if |rs| == 0 then Ok([])
    else
      match rs[0]
      case Err(e) => Err(e)
      case Ok(v) =>
        match Collect(rs[1..])
        case Err(e) => Err(e)
        case Ok(vs) => Ok([v] + vs)
  }

  /** Collecting a concatenation: the first error of the first part, else the
      first error of the second, else all the values in order. */
  lemma CollectAppend<T, E>(a: seq<Result<T, E>>, b: seq<Result<T, E>>)
    ensures Collect(a).Err? ==> Collect(a + b) == Collect(a)
    ensures Collect(a).Ok? && Collect(b).Err? ==> Collect(a + b) == Collect(b)
    ensures Collect(a).Ok? && Collect(b).Ok? ==> Collect(a + b) == Ok(Collect(a).value + Collect(b).value)
  {
    var ab := a + b;
    assert forall k :: 0 <= k < |a| ==> ab[k] == a[k];
    assert forall k :: |a| <= k < |ab| ==> ab[k] == b[k - |a|];
    var r := Collect(ab);
    if Collect(a).Err? {
      var i :| 0 <= i < |a| && a[i] == Err(Collect(a).error) && forall j :: 0 <= j < i ==> a[j].Ok?;
      assert r.Err? by { assert !ab[i].Ok?; }
      var k :| 0 <= k < |ab| && ab[k] == Err(r.error) && forall j :: 0 <= j < k ==> ab[j].Ok?;
      assert !ab[i].Ok? && !ab[k].Ok?;
      assert k == i;
    } else if Collect(b).Err? {
      var i :| 0 <= i < |b| && b[i] == Err(Collect(b).error) && forall j :: 0 <= j < i ==> b[j].Ok?;
      assert r.Err? by { assert !ab[|a| + i].Ok?; }
      var k :| 0 <= k < |ab| && ab[k] == Err(r.error) && forall j :: 0 <= j < k ==> ab[j].Ok?;
      assert !ab[|a| + i].Ok? && !ab[k].Ok?;
      assert forall j :: 0 <= j < |a| ==> ab[j].Ok?;
      assert forall j :: |a| <= j < |a| + i ==> ab[j].Ok?;
      assert k == |a| + i;
    } else {
      var va, vb := Collect(a).value, Collect(b).value;
      assert r.Ok? by {
        forall k | 0 <= k < |ab| ensures ab[k].Ok? {
          if k < |a| { assert a[k].Ok?; } else { assert b[k - |a|].Ok?; }
        }
      }
      assert r.value == va + vb by {
        forall k | 0 <= k < |ab| ensures r.value[k] == (va + vb)[k] {
          if k < |a| { assert ab[k] == a[k]; } else { assert ab[k] == b[k - |a|]; }
        }
      }
    }
  }

  /** The sequences one after the other. */
  function Concat<T>(ss: seq<seq<T>>): seq<T>
    decreases |ss|
  {
    if |ss| == 0 then [] else ss[0] + Concat(ss[1..])
  }

  lemma {:induction false} ConcatAppend<T>(a: seq<seq<T>>, b: seq<seq<T>>)
    ensures Concat(a + b) == Concat(a) + Concat(b)
    decreases |a|
  {
    if |a| == 0 {
      assert a + b == b;
    } else {
      assert (a + b)[0] == a[0] && (a + b)[1..] == a[1..] + b;
      ConcatAppend(a[1..], b);
    }
  }
}
