/** The ordered-set queries that `std::set` and `std::map` offer through iterators. */
module OrderedSets {
  import opened Common

  lemma AnElement<T>(s: set<T>) returns (x: T)
    requires s != {}
    ensures x in s
  {
    x :| x in s;
  }

  ghost predicate IsLeast(s: set<int>, m: int) {
    m in s && forall j :: j in s ==> m <= j
  }

  ghost predicate IsGreatest(s: set<int>, m: int) {
    m in s && forall j :: j in s ==> j <= m
  }

  lemma {:induction false} LeastExists(s: set<int>) returns (m: int)
    requires s != {}
    ensures IsLeast(s, m)
    decreases |s|
  {
    var x := AnElement(s);
    var rest := s - {x};
    assert forall j :: j in s ==> j == x || j in rest;
    m := x;
    if rest != {} {
      var n := LeastExists(rest);
      m := Min(x, n);
    }
  }

  lemma {:induction false} GreatestExists(s: set<int>) returns (m: int)
    requires s != {}
    ensures IsGreatest(s, m)
    decreases |s|
  {
    var x := AnElement(s);
    var rest := s - {x};
    assert forall j :: j in s ==> j == x || j in rest;
    m := x;
    if rest != {} {
      var n := GreatestExists(rest);
      m := Max(x, n);
    }
  }

  /** `*begin()` */
  function Least(s: set<int>): (m: int)
    requires s != {}
    ensures IsLeast(s, m)
  {
    assert exists m :: IsLeast(s, m) by { var m := LeastExists(s); }
    var m :| m in s && forall j :: j in s ==> m <= j;
    m
  }

  /** `*--end()` */
  function Greatest(s: set<int>): (m: int)
    requires s != {}
    ensures IsGreatest(s, m)
  {
    assert exists m :: IsGreatest(s, m) by { var m := GreatestExists(s); }
    var m :| m in s && forall j :: j in s ==> j <= m;
    m
  }

  ghost predicate IsFloor(s: set<int>, t: int, m: int) {
    m in s && m <= t && forall j :: j in s && j <= t ==> j <= m
  }

  /** The greatest element at or below `t`. */
  ghost function Floor(s: set<int>, t: int): (r: Option<int>)
    ensures r.None? <==> forall j :: j in s ==> t < j
    ensures r.Some? ==> IsFloor(s, t, r.value)
  {
    FloorExists(s, t);
    if exists m :: IsFloor(s, t, m) then
      var m :| IsFloor(s, t, m);
      Some(m)
    else
      None
  }

  lemma FloorExists(s: set<int>, t: int)
    ensures (exists m :: IsFloor(s, t, m)) || forall j :: j in s ==> t < j
  {
    var below := set j | j in s && j <= t;
    assert forall j :: j in s && j <= t ==> j in below;
    if below != {} {
      var m := GreatestExists(below);
      assert IsFloor(s, t, m);
    }
  }

  /** The element before `at`, which is not the first one: `*--it`. */
  method Predecessor(s: set<int>, at: int) returns (m: int)
    requires exists j :: j in s && j < at
    ensures IsFloor(s, at - 1, m)
  {
    var below := set j | j in s && j < at;
    assert forall j :: j in s && j < at ==> j in below;
    m := Greatest(below);
  }

  /** `r` is the iterator `lower_bound(t)` returns, None standing for `end()`. */
  ghost predicate IsLowerBound(s: set<int>, t: int, r: Option<int>) {
    match r
    case None => forall j :: j in s ==> j < t
    case Some(m) => m in s && t <= m && forall j :: j in s && t <= j ==> m <= j
  }

  method LowerBound(s: set<int>, t: int) returns (r: Option<int>)
    ensures IsLowerBound(s, t, r)
  {
    var above := set j | j in s && t <= j;
    assert forall j :: j in s && t <= j ==> j in above;
    if above == {} {
      r := None;
    } else {
      r := Some(Least(above));
    }
  }

  /** `r` is the iterator `upper_bound(t)` returns, None standing for `end()`. */
  ghost predicate IsUpperBound(s: set<int>, t: int, r: Option<int>) {
    match r
    case None => forall j :: j in s ==> j <= t
    case Some(m) => m in s && t < m && forall j :: j in s && t < j ==> m <= j
  }

  method UpperBound(s: set<int>, t: int) returns (r: Option<int>)
    ensures IsUpperBound(s, t, r)
  {
    r := LowerBound(s, t + 1);
  }
}
