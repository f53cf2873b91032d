// Small datatypes shared by the modules of the model.
module Common {

  datatype Option<+T> = None | Some(value: T)

  // The outcome of an operation that may refuse: the source throws where the model returns Failure.
  datatype Result<+T, +E> = Success(value: T) | Failure(error: E)

  // ----- Finite sets -----

  lemma {:induction false} SubsetSize<T>(a: set<T>, b: set<T>)
    requires a <= b
    ensures |a| <= |b|
  {
    if a != {} {
      var x :| x in a;
      SubsetSize(a - {x}, b - {x});
    }
  }

  lemma SubsetFull<T>(a: set<T>, b: set<T>)
    requires a <= b && |a| == |b|
    ensures a == b
  {
    if x :| x in b && x !in a {
      SubsetSize(a, b - {x});
    }
  }

  // The numbers from 1 to n.
  function UpTo(n: int): set<int> {
    if n <= 0 then {} else UpTo(n - 1) + {n}
  }

  lemma {:induction false} UpToSize(n: int)
    ensures |UpTo(n)| == if n <= 0 then 0 else n
    ensures forall k :: k in UpTo(n) <==> 1 <= k <= n
    decreases if n <= 0 then 0 else n
  {
    if n > 0 {
      UpToSize(n - 1);
    }
  }
}
