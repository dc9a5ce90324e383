/** What several modules of this project share. */
module Prelude {
  datatype Option<+T> = None | Some(value: T)

  function Max(a: int, b: int): (m: int)
    ensures m >= a && m >= b && (m == a || m == b)
  {
    if a >= b then a else b
  }

  /** Go's byte(n) of a number that fits. */
  function Octet(n: nat): bv8
    requires n < 256
  {
    n as bv8
  }

  lemma OctetOfValue(b: bv8)
    ensures Octet(b as int) == b
  {
  }

  lemma NextValue(b: bv8)
    requires b < 255
    ensures (b + 1) as int == b as int + 1
  {
  }

  lemma {:induction false} SomeOctet(n: nat) returns (b: bv8)
    requires n < 256
    ensures b as int == n
  {
    b := 0;
    if n > 0 {
      var before := SomeOctet(n - 1);
      NextValue(before);
      b := before + 1;
    }
  }

  lemma OctetValue(n: nat)
    requires n < 256
    ensures Octet(n) as int == n
  {
    var b := SomeOctet(n);
    OctetOfValue(b);
  }

  // ---------------------------------------------------------------- lists

  function Count<T(==)>(list: seq<T>, x: T): nat {
    if list == [] then 0 else Count(list[..|list| - 1], x) + if list[|list| - 1] == x then 1 else 0
  }

  lemma CountAppend<T>(list: seq<T>, last: T, x: T)
    ensures Count(list + [last], x) == Count(list, x) + if last == x then 1 else 0
  {
    assert (list + [last])[..|list|] == list;
  }

  lemma {:induction false} CountConcat<T>(a: seq<T>, b: seq<T>, x: T)
    ensures Count(a + b, x) == Count(a, x) + Count(b, x)
  {
    if b == [] {
      assert a + b == a;
    } else {
      var n := |b| - 1;
      assert a + b == (a + b[..n]) + [b[n]];
      CountConcat(a, b[..n], x);
      CountAppend(a + b[..n], b[n], x);
    }
  }

  lemma {:induction false} CountedIsIn<T>(list: seq<T>, x: T)
    ensures Count(list, x) > 0 <==> x in list
  {
    if list != [] {
      var n := |list| - 1;
      CountedIsIn(list[..n], x);
      assert list == list[..n] + [list[n]];
    }
  }

  function Without<T(==)>(list: seq<T>, x: T): (r: seq<T>)
    ensures x !in r
    ensures x !in list ==> r == list
  {
    if list == [] then []
    else
      var last := list[|list| - 1];
      var rest := Without(list[..|list| - 1], x);
      if last == x then rest else rest + [last]
  }

  lemma {:induction false} WithoutCounts<T>(list: seq<T>, gone: T, x: T)
    ensures Count(Without(list, gone), x) == if x == gone then 0 else Count(list, x)
  {
    if list != [] {
      var n := |list| - 1;
      WithoutCounts(list[..n], gone, x);
      CountAppend(Without(list[..n], gone), list[n], x);
    }
  }

  lemma {:induction false} WithoutConcat<T>(a: seq<T>, b: seq<T>, x: T)
    ensures Without(a + b, x) == Without(a, x) + Without(b, x)
  {
    if b == [] {
      assert a + b == a;
    } else {
      var init := b[..|b| - 1];
      assert (a + b)[..|a + b| - 1] == a + init;
      WithoutConcat(a, init, x);
    }
  }
}
