/** `distance` of object_database/util.py: the edit distance of two strings, computed one row at a time. */
module EditDistance {
  import opened Common

  function Front(s: string): string
    requires s != []
  {
    s[..|s| - 1]
  }

  function Last(s: string): char
    requires s != []
  {
    s[|s| - 1]
  }

  function Mismatch(x: char, y: char): nat {
    if x != y then 1 else 0
  }

  /** The textbook recursion. */
  function Levenshtein(a: string, b: string): nat
    decreases |a| + |b|
  {
    if a == [] then |b|
    else if b == [] then |a|
    else
      Min(Min(Levenshtein(Front(a), b) + 1, Levenshtein(a, Front(b)) + 1),
          Levenshtein(Front(a), Front(b)) + Mismatch(Last(a), Last(b)))
  }

  /** The distance between the first `i` and the first `j` characters. */
  ghost function Cell(s1: string, s2: string, i: nat, j: nat): nat
    requires i <= |s1| && j <= |s2|
  {
    Levenshtein(s1[..i], s2[..j])
  }

  lemma CellStep(s1: string, s2: string, i: nat, j: nat)
    requires i < |s1| && j < |s2|
    ensures Cell(s1, s2, i + 1, j + 1)
            == Min(Min(Cell(s1, s2, i, j + 1) + 1, Cell(s1, s2, i + 1, j) + 1),
                   Cell(s1, s2, i, j) + Mismatch(s1[i], s2[j]))
  {
    assert Front(s1[..i + 1]) == s1[..i] && Front(s2[..j + 1]) == s2[..j];
  }

  lemma CellBorder(s1: string, s2: string, i: nat)
    requires i <= |s1|
    ensures Cell(s1, s2, i, 0) == i
    ensures forall j :: 0 <= j <= |s2| ==> Cell(s1, s2, 0, j) == j
    ensures Cell(s1, s2, |s1|, |s2|) == Levenshtein(s1, s2)
  {
    assert s1[..|s1|] == s1 && s2[..|s2|] == s2;
  }

  /** The loop with its rolling row, and the swap that keeps the row short. */
  method Distance(s1: string, s2: string) returns (d: nat)
    ensures d == Levenshtein(s1, s2)
    decreases if |s1| < |s2| then 1 else 0
  {
    if |s1| < |s2| {
      d := Distance(s2, s1);
      Symmetric(s1, s2);
      return;
    }
    if |s2| == 0 {
      return |s1|;
    }
    CellBorder(s1, s2, 0);
    hide Cell, Levenshtein;
    var prev: seq<nat> := seq(|s2| + 1, j requires 0 <= j => j);
    var i := 0;
    while i < |s1|
      invariant 0 <= i <= |s1| && |prev| == |s2| + 1
      invariant forall j :: 0 <= j <= |s2| ==> prev[j] == Cell(s1, s2, i, j)
    {
      CellBorder(s1, s2, i + 1);
      var cur: seq<nat> := [i + 1];
      var j := 0;
      while j < |s2|
        invariant 0 <= j <= |s2| && |cur| == j + 1
        invariant forall k :: 0 <= k <= j ==> cur[k] == Cell(s1, s2, i + 1, k)
      {
        CellStep(s1, s2, i, j);
        cur := cur + [Min(Min(prev[j + 1] + 1, cur[j] + 1), prev[j] + (if s1[i] != s2[j] then 1 else 0))];
        j := j + 1;
      }
      prev := cur;
      i := i + 1;
    }
    d := prev[|prev| - 1];
  }

  lemma {:induction false} Symmetric(a: string, b: string)
    ensures Levenshtein(a, b) == Levenshtein(b, a)
    decreases |a| + |b|
  {
    if a != [] && b != [] {
      Symmetric(Front(a), b);
      Symmetric(a, Front(b));
      Symmetric(Front(a), Front(b));
    }
  }

  /** One step of rewriting a string from left to right. */
  datatype Edit = Keep | Replace(c: char) | Insert(c: char) | Delete

  /** The script, read from left to right, uses up all of `a` and writes `b`. */
  ghost predicate Transforms(a: string, script: seq<Edit>, b: string)
    decreases |script|
  {
    if script == [] then a == [] && b == []
    else
      var before := script[..|script| - 1];
      match script[|script| - 1]
      case Keep => a != [] && b != [] && Last(a) == Last(b) && Transforms(Front(a), before, Front(b))
      case Replace(c) => a != [] && b != [] && Last(b) == c && Transforms(Front(a), before, Front(b))
      case Insert(c) => b != [] && Last(b) == c && Transforms(a, before, Front(b))
      case Delete => a != [] && Transforms(Front(a), before, b)
  }

  ghost function Cost(script: seq<Edit>): nat {
    if script == [] then 0
    else Cost(script[..|script| - 1]) + if script[|script| - 1].Keep? then 0 else 1
  }

  /** No script is cheaper than the distance. */
  lemma {:induction false} NoCheaperScript(a: string, script: seq<Edit>, b: string)
    requires Transforms(a, script, b)
    ensures Levenshtein(a, b) <= Cost(script)
    decreases |script|
  {
    if script != [] {
      var before := script[..|script| - 1];
      match script[|script| - 1]
      case Keep => NoCheaperScript(Front(a), before, Front(b));
      case Replace(c) => NoCheaperScript(Front(a), before, Front(b));
      case Insert(c) =>
        NoCheaperScript(a, before, Front(b));
        Neighbours(a, b);
      case Delete =>
        NoCheaperScript(Front(a), before, b);
        Neighbours(a, b);
    }
  }

  /** And some script costs exactly the distance. */
  lemma {:induction false} CheapestScript(a: string, b: string) returns (script: seq<Edit>)
    ensures Transforms(a, script, b) && Cost(script) == Levenshtein(a, b)
    decreases |a| + |b|
  {
    var before: seq<Edit>, step: Edit;
    if a == [] && b == [] {
      return [];
    } else if b == [] || (a != [] && Levenshtein(a, b) == Levenshtein(Front(a), b) + 1) {
      before := CheapestScript(Front(a), b);
      step := Delete;
    } else if a == [] || Levenshtein(a, b) == Levenshtein(a, Front(b)) + 1 {
      before := CheapestScript(a, Front(b));
      step := Insert(Last(b));
    } else {
      before := CheapestScript(Front(a), Front(b));
      step := if Last(a) == Last(b) then Keep else Replace(Last(b));
    }
    script := before + [step];
    assert script[..|script| - 1] == before;
  }

  /** Dropping the last character of either side changes the distance by at most one. */
  lemma {:induction false} Neighbours(a: string, b: string)
    ensures a != [] ==> Levenshtein(a, b) <= Levenshtein(Front(a), b) + 1
    ensures b != [] ==> Levenshtein(a, b) <= Levenshtein(a, Front(b)) + 1
  {
  }

  lemma {:induction false} LengthDifference(a: string, b: string)
    ensures |a| - |b| <= Levenshtein(a, b) && |b| - |a| <= Levenshtein(a, b) <= |a| + |b|
    decreases |a| + |b|
  {
    if a != [] && b != [] {
      LengthDifference(Front(a), b);
      LengthDifference(a, Front(b));
      LengthDifference(Front(a), Front(b));
    }
  }

  lemma {:induction false} Triangle(a: string, b: string, c: string)
    ensures Levenshtein(a, c) <= Levenshtein(a, b) + Levenshtein(b, c)
    decreases |a| + |b| + |c|
  {
    LengthDifference(a, b);
    LengthDifference(b, c);
    LengthDifference(a, c);
    if a != [] && b != [] && c != [] {
      var (a', b', c') := (Front(a), Front(b), Front(c));
      Triangle(a', b, c);
      Triangle(a, b, c');
      Triangle(a, b', c);
      Triangle(a, b', c');
      Triangle(a', b', c);
      Triangle(a', b', c');
    }
  }

  lemma {:induction false} ZeroMeansEqual(a: string, b: string)
    ensures Levenshtein(a, b) == 0 <==> a == b
    decreases |a| + |b|
  {
    if a != [] && b != [] {
      ZeroMeansEqual(Front(a), Front(b));
      assert a == Front(a) + [Last(a)] && b == Front(b) + [Last(b)];
    }
  }
}
