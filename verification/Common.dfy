/** Wrappers, string order and sorting shared by every module of the model. */
module Common {

  datatype Option<+T> = None | Some(value: T)

  datatype Result<+T, +E> = Ok(value: T) | Err(error: E)

  function Min(a: int, b: int): int { if a <= b then a else b }

  function Max(a: int, b: int): int { if a >= b then a else b }

  function Last<T>(s: seq<T>): T
    requires s != []
  {
    s[|s| - 1]
  }

  function Flatten<T>(ss: seq<seq<T>>): seq<T>
  {
    if ss == [] then [] else ss[0] + Flatten(ss[1..])
  }

  lemma {:induction false} FlattenConcat<T>(a: seq<seq<T>>, b: seq<seq<T>>)
    ensures Flatten(a + b) == Flatten(a) + Flatten(b)
  {
    if a == [] {
      assert a + b == b && [] + Flatten(b) == Flatten(b);
    } else {
      var x, y := Flatten(a[1..]), Flatten(b);
      FlattenConcat(a[1..], b);
      assert (a + b)[1..] == a[1..] + b && (a + b)[0] == a[0];
      assert a[0] + (x + y) == (a[0] + x) + y;
    }
  }

  lemma {:induction false} FlattenOne<T>(x: seq<T>)
    ensures Flatten([x]) == x
  {
    assert Flatten([x]) == x + Flatten([x][1..]) == x + [];
  }

  /** The state when storage fails after a number of successful writes. */
  function Stopped<S>(st: S, writes: seq<S>, budget: nat): S
  {
    if budget == 0 || writes == [] then st else writes[Min(budget, |writes|) - 1]
  }

  lemma {:induction false} StoppedConcat<S>(st: S, a: seq<S>, b: seq<S>, budget: nat)
    requires a != []
    ensures Stopped(st, a + b, budget) ==
      if budget < |a| then Stopped(st, a, budget) else Stopped(Last(a), b, budget - |a|)
  {
  }

  function EndOf<S>(st: S, writes: seq<S>): S
  {
    if writes == [] then st else Last(writes)
  }

  lemma {:induction false} StoppedAppend<S>(st: S, a: seq<S>, b: seq<S>, budget: nat)
    ensures Stopped(st, a + b, budget) ==
      if budget < |a| then Stopped(st, a, budget) else Stopped(EndOf(st, a), b, budget - |a|)
    ensures EndOf(st, a + b) == EndOf(EndOf(st, a), b)
  {
  }

  ghost predicate IsMax(s: set<nat>, m: nat)
  {
    m in s && forall x :: x in s ==> x <= m
  }

  /** The largest member of a non-empty finite set of naturals. */
  ghost function MaxOf(s: set<nat>): (m: nat)
    requires s != {}
    ensures IsMax(s, m)
  {
    MaxExists(s);
    var m :| IsMax(s, m);
    m
  }

  lemma {:induction false} MaxExists(s: set<nat>)
    requires s != {}
    ensures exists m :: IsMax(s, m)
    decreases |s|
  {
    var y :| y in s;
    var rest := s - {y};
    assert forall x :: x in s ==> x == y || x in rest;
    if rest == {} {
      assert IsMax(s, y);
    } else {
      MaxExists(rest);
      var m :| IsMax(rest, m);
      assert IsMax(s, if y <= m then m else y);
    }
  }

  // ---------------------------------------------------------------------------------------
  // Lexicographic string order (Go's < on strings)
  // ---------------------------------------------------------------------------------------

  predicate StrLe(a: string, b: string)
  {
    a == [] || (b != [] && (a[0] < b[0] || (a[0] == b[0] && StrLe(a[1..], b[1..]))))
  }

  lemma {:induction false} StrLeTotal(a: string, b: string)
    ensures StrLe(a, b) || StrLe(b, a)
  {
    if a != [] && b != [] && a[0] == b[0] {
      StrLeTotal(a[1..], b[1..]);
    }
  }

  lemma {:induction false} StrLeAntisymmetric(a: string, b: string)
    requires StrLe(a, b) && StrLe(b, a)
    ensures a == b
  {
    if a != [] {
      StrLeAntisymmetric(a[1..], b[1..]);
      assert a == [a[0]] + a[1..] && b == [b[0]] + b[1..];
    }
  }

  lemma {:induction false} StrLeTransitive(a: string, b: string, c: string)
    requires StrLe(a, b) && StrLe(b, c)
    ensures StrLe(a, c)
  {
    if a != [] && a[0] == b[0] && b[0] == c[0] {
      StrLeTransitive(a[1..], b[1..], c[1..]);
    }
  }

  /** The lexicographic order: a proper prefix, or a smaller character at the first difference. */
  ghost predicate Smaller(a: string, b: string) { exists k :: DiffersAt(a, b, k) }

  ghost predicate DiffersAt(a: string, b: string, k: nat)
  {
    k < |b| && k <= |a| && (forall i :: 0 <= i < k ==> a[i] == b[i]) && (k < |a| ==> a[k] < b[k])
  }

  lemma {:induction false} SmallerMeans(a: string, b: string)
    ensures Smaller(a, b) <==> !StrLe(b, a)
  {
    if a != [] && b != [] && a[0] == b[0] {
      SmallerMeans(a[1..], b[1..]);
      if k: nat :| DiffersAt(a, b, k) {
        assert k > 0;
        assert DiffersAt(a[1..], b[1..], k - 1);
      }
      if k: nat :| DiffersAt(a[1..], b[1..], k) {
        forall i | 0 <= i < k + 1 ensures a[i] == b[i] {
          assert i > 0 ==> a[1..][i - 1] == b[1..][i - 1];
        }
        assert DiffersAt(a, b, k + 1);
      }
    } else if b != [] && (a == [] || a[0] < b[0]) {
      assert DiffersAt(a, b, 0);
    }
  }

  // ---------------------------------------------------------------------------------------
  // Sorting by a total preorder
  // ---------------------------------------------------------------------------------------

  ghost predicate TotalPreorder<T(!new)>(le: (T, T) -> bool)
  {
    && (forall x, y :: le(x, y) || le(y, x))
    && (forall x, y, z :: le(x, y) && le(y, z) ==> le(x, z))
  }

  ghost predicate SortedBy<T>(s: seq<T>, le: (T, T) -> bool)
  {
    forall i, j :: 0 <= i < j < |s| ==> le(s[i], s[j])
  }

  /** What a sort may return: a permutation of its input, in order. Go's sort.Slice promises no more. */
  ghost predicate IsSortOf<T>(out: seq<T>, s: seq<T>, le: (T, T) -> bool)
  {
    multiset(out) == multiset(s) && SortedBy(out, le)
  }

  function Insert<T>(x: T, s: seq<T>, le: (T, T) -> bool): seq<T>
  {
    if s == [] then [x]
    else if le(s[0], x) then [s[0]] + Insert(x, s[1..], le)
    else [x] + s
  }

  function Sort<T>(s: seq<T>, le: (T, T) -> bool): seq<T>
  {
    if s == [] then [] else Insert(s[0], Sort(s[1..], le), le)
  }

  lemma {:induction false} InsertMembers<T>(x: T, s: seq<T>, le: (T, T) -> bool)
    ensures multiset(Insert(x, s, le)) == multiset(s) + multiset{x}
  {
    if s != [] {
      assert s == [s[0]] + s[1..];
      if le(s[0], x) {
        InsertMembers(x, s[1..], le);
      }
    }
  }

  lemma {:induction false} InsertSorted<T(!new)>(x: T, s: seq<T>, le: (T, T) -> bool)
    requires TotalPreorder(le) && SortedBy(s, le)
    ensures SortedBy(Insert(x, s, le), le)
  {
    if s == [] {
    } else if le(s[0], x) {
      var rest := Insert(x, s[1..], le);
      InsertSorted(x, s[1..], le);
      InsertMembers(x, s[1..], le);
      forall y | y in rest ensures le(s[0], y) {
        assert y in multiset(rest);
        assert y == x || y in multiset(s[1..]);
      }
      ConsSorted(s[0], rest, le);
    } else {
      assert le(x, s[0]);
      forall y | y in s ensures le(x, y) {
        var i :| 0 <= i < |s| && s[i] == y;
        assert i == 0 || le(s[0], s[i]);
      }
      ConsSorted(x, s, le);
    }
  }

  lemma {:induction false} ConsSorted<T>(x: T, s: seq<T>, le: (T, T) -> bool)
    requires SortedBy(s, le)
    requires forall y :: y in s ==> le(x, y)
    ensures SortedBy([x] + s, le)
  {
    var t := [x] + s;
    forall i, j | 0 <= i < j < |t| ensures le(t[i], t[j]) {
      assert t[j] == s[j - 1];
      if i > 0 {
        assert t[i] == s[i - 1];
      }
    }
  }

  lemma {:induction false} SortIsSort<T(!new)>(s: seq<T>, le: (T, T) -> bool)
    requires TotalPreorder(le)
    ensures IsSortOf(Sort(s, le), s, le)
  {
    if s != [] {
      SortIsSort(s[1..], le);
      InsertMembers(s[0], Sort(s[1..], le), le);
      InsertSorted(s[0], Sort(s[1..], le), le);
      assert s == [s[0]] + s[1..];
    }
  }

  lemma {:induction false} SameMembers<T>(out: seq<T>, s: seq<T>)
    requires multiset(out) == multiset(s)
    ensures forall x :: x in out <==> x in s
  {
    forall x ensures x in out <==> x in s {
      assert x in multiset(out) <==> x in multiset(s);
    }
  }

  ghost predicate Separates<T>(s: seq<T>, le: (T, T) -> bool)
  {
    forall x, y :: x in s && y in s && le(x, y) && le(y, x) ==> x == y
  }

  lemma {:induction false} SortedHead<T>(s: seq<T>, le: (T, T) -> bool, x: T)
    requires SortedBy(s, le) && x in s
    ensures x == s[0] || le(s[0], x)
  {
    var i :| 0 <= i < |s| && s[i] == x;
  }

  lemma {:induction false} TailMultiset<T>(s: seq<T>)
    requires s != []
    ensures multiset(s[1..]) == multiset(s) - multiset{s[0]}
  {
    assert s == [s[0]] + s[1..];
  }

  lemma {:induction false} SameHeads<T>(a: seq<T>, b: seq<T>, le: (T, T) -> bool)
    requires multiset(a) == multiset(b) && SortedBy(a, le) && SortedBy(b, le)
    requires Separates(a, le) && a != [] && b != []
    ensures a[0] == b[0]
  {
    SameMembers(a, b);
    assert a[0] in a && b[0] in b;
    SortedHead(a, le, b[0]);
    SortedHead(b, le, a[0]);
  }

  /** Sorting has one possible outcome when the order separates the elements being sorted. */
  lemma {:induction false} SortUnique<T>(a: seq<T>, b: seq<T>, le: (T, T) -> bool)
    requires multiset(a) == multiset(b) && SortedBy(a, le) && SortedBy(b, le)
    requires Separates(a, le)
    ensures a == b
  {
    SameLength(a, b);
    if a != [] {
      SameHeads(a, b, le);
      TailMultiset(a);
      TailMultiset(b);
      TailSeparates(a, le);
      TailSorted(a, le);
      TailSorted(b, le);
      SortUnique(a[1..], b[1..], le);
      Rebuilt(a, b);
    }
  }

  lemma {:induction false} SameLength<T>(a: seq<T>, b: seq<T>)
    requires multiset(a) == multiset(b)
    ensures |a| == |b|
  {
    assert |multiset(a)| == |a| && |multiset(b)| == |b|;
  }

  lemma {:induction false} TailSeparates<T>(s: seq<T>, le: (T, T) -> bool)
    requires Separates(s, le) && s != []
    ensures Separates(s[1..], le)
  {
    assert forall x :: x in s[1..] ==> x in s;
  }

  lemma {:induction false} TailSorted<T>(s: seq<T>, le: (T, T) -> bool)
    requires SortedBy(s, le) && s != []
    ensures SortedBy(s[1..], le)
  {
  }

  lemma {:induction false} Rebuilt<T>(a: seq<T>, b: seq<T>)
    requires a != [] && b != [] && a[0] == b[0] && a[1..] == b[1..]
    ensures a == b
  {
    assert a == [a[0]] + a[1..] && b == [b[0]] + b[1..];
  }
}
