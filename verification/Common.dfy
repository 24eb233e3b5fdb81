/** Small vocabulary shared by the models. */
module Common {
  datatype Option<+T> = None | Some(value: T)

  function Reverse<T>(s: seq<T>): (r: seq<T>)
    ensures |r| == |s|
  {
    if s == [] then [] else Reverse(s[1..]) + [s[0]]
  }

  lemma ReverseConcat<T>(a: seq<T>, b: seq<T>)
    ensures Reverse(a + b) == Reverse(b) + Reverse(a)
  {
    if a == [] {
      assert a + b == b;
    } else {
      assert (a + b)[1..] == a[1..] + b;
      ReverseConcat(a[1..], b);
    }
  }

  /** The first item of that name. */
  function FirstNamed<T>(items: seq<T>, nameOf: T -> string, name: string): (r: Option<nat>)
    ensures r.Some? ==> r.value < |items| && nameOf(items[r.value]) == name
    ensures forall i :: 0 <= i < (if r.Some? then r.value else |items|) ==> nameOf(items[i]) != name
  {
    if items == [] then None
    else
      var n := |items| - 1;
      var earlier := FirstNamed(items[..n], nameOf, name);
      if earlier.Some? then earlier else if nameOf(items[n]) == name then Some(n) else None
  }
}
