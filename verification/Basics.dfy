/** Shared vocabulary: optional values, trimming of text, and facts about sequences and finite sets. */
module Basics {

  datatype Option<+T> = None | Some(value: T)

  /** SQL's COALESCE(x, y) on a nullable timestamp. */
  function Coalesce<T>(x: Option<T>, y: T): Option<T> {
    if x.Some? then x else Some(y)
  }

  /** unicode.IsSpace; Trim is strings.TrimSpace. */
  predicate IsSpace(c: char) {
    var n := c as int;
    9 <= n <= 13 || n in {0x20, 0x85, 0xA0, 0x1680, 0x2028, 0x2029, 0x202F, 0x205F, 0x3000} || 0x2000 <= n <= 0x200A
  }

  function TrimLeft(s: string): string {
    if s != "" && IsSpace(s[0]) then TrimLeft(s[1..]) else s
  }

  function TrimRight(s: string): string {
    if s != "" && IsSpace(s[|s| - 1]) then TrimRight(s[..|s| - 1]) else s
  }

  function Trim(s: string): string {
    TrimRight(TrimLeft(s))
  }

  lemma ConcatAssoc<T>(a: seq<T>, b: seq<T>, c: seq<T>)
    ensures (a + b) + c == a + (b + c)
  {
  }

  lemma ConcatInit<T>(a: seq<T>, b: seq<T>)
    requires b != []
    ensures (a + b)[..|a + b| - 1] == a + b[..|b| - 1]
    ensures (a + b)[|a + b| - 1] == b[|b| - 1]
  {
  }

  /** The pairs (x, k) with x in s and 1 <= k <= m. */
  function Grid(s: set<string>, m: nat): set<(string, nat)> {
    set x, k: nat | x in s && 1 <= k <= m :: (x, k)
  }

  lemma {:induction false} GridColumn(x: string, m: nat)
    ensures |Grid({x}, m)| == m
  {
    if m == 0 {
      assert Grid({x}, 0) == {};
    } else {
      GridColumn(x, m - 1);
      assert Grid({x}, m) == Grid({x}, m - 1) + {(x, m)};
    }
  }

  lemma GridSplit(s: set<string>, x: string, m: nat)
    requires x in s
    ensures |Grid(s, m)| == |Grid(s - {x}, m)| + m
  {
    GridColumn(x, m);
    assert Grid(s, m) == Grid(s - {x}, m) + Grid({x}, m);
    assert Grid(s - {x}, m) !! Grid({x}, m);
  }

  lemma {:induction false} GridSize(s: set<string>, m: nat)
    ensures |Grid(s, m)| == |s| * m
    decreases |s|
  {
    if s == {} {
      assert Grid(s, m) == {};
    } else {
      var x :| x in s;
      GridSplit(s, x, m);
      GridSize(s - {x}, m);
    }
  }

  lemma SizeWithout<T>(s: set<T>, x: T)
    ensures |s - {x}| == |s| - (if x in s then 1 else 0)
  {
    if x !in s {
      assert s - {x} == s;
    }
  }

  lemma {:induction false} SubsetSize<T>(a: set<T>, b: set<T>)
    requires a <= b
    ensures |a| <= |b|
    ensures |a| == |b| ==> a == b
  {
    assert b == a + (b - a);
    if a != b {
      var x :| x in b - a;
    }
  }
}
