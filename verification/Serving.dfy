/** Lanes and the work-items they run, when a kernel reads only some of an item's IDs.

    Lane number i is loaded with one word per ID the kernel reads, in order.  A group is served when its lanes can
    be given its items one to one so that every lane is loaded with the IDs of its own item.  Items and sizes are
    arranged here as the kernel has them: the IDs it reads come first.
 */
module Serving {
  import opened Bits
  import opened LocalIds
  import opened WorkGroup

  /** Word j that lane i is loaded with. */
  type Load = (nat, nat) -> nat

  /** The first n words are the first n IDs. */
  predicate Agrees(load: Load, n: nat, i: nat, d: Id)
  {
    (n >= 1 ==> load(i, 0) == d.x) && (n >= 2 ==> load(i, 1) == d.y) && (n >= 3 ==> load(i, 2) == d.z)
  }

  function Items(size: Id): nat { size.x * size.y * size.z }

  predicate Inside(d: Id, size: Id) { InBox(d, size.x, size.y, size.z) }

  ghost predicate Assigns(item: nat -> Id, load: Load, n: nat, size: Id)
  {
    && (forall i | 0 <= i < Items(size) :: Inside(item(i), size) && Agrees(load, n, i, item(i)))
    && (forall d | Inside(d, size) :: exists i :: 0 <= i < Items(size) && item(i) == d)
    && (forall i, k | 0 <= i < Items(size) && 0 <= k < Items(size) && item(i) == item(k) :: i == k)
  }

  ghost predicate Served(load: Load, n: nat, size: Id) { exists item: nat -> Id :: Assigns(item, load, n, size) }

  /** Only the words of the lanes that run matter. */
  lemma SameLoads(load: Load, other: Load, n: nat, size: Id)
    requires n <= 3 && Served(load, n, size)
    requires forall i: nat, j: nat | i < Items(size) && j < n :: load(i, j) == other(i, j)
    ensures Served(other, n, size)
  {
    hide Items, Inside;
    var item: nat -> Id :| Assigns(item, load, n, size);
    forall i | 0 <= i < Items(size)
      ensures Agrees(other, n, i, item(i))
    {
      assert Agrees(load, n, i, item(i));
      assert n >= 1 ==> load(i, 0) == other(i, 0);
      assert n >= 2 ==> load(i, 1) == other(i, 1);
      assert n >= 3 ==> load(i, 2) == other(i, 2);
    }
    assert Assigns(item, other, n, size);
  }

  // ---------- what is loaded in a group that is served ----------

  /** Every lane is loaded with IDs of the group. */
  lemma LoadsInside(item: nat -> Id, load: Load, n: nat, size: Id, i: nat)
    requires Assigns(item, load, n, size) && i < Items(size)
    ensures n >= 1 ==> load(i, 0) < size.x
    ensures n >= 2 ==> load(i, 1) < size.y
    ensures n >= 3 ==> load(i, 2) < size.z
  {
    hide Items;
    assert Inside(item(i), size) && Agrees(load, n, i, item(i));
  }

  lemma {:induction false} DistinctBelow(s: seq<nat>, n: nat)
    requires forall i, k | 0 <= i < k < |s| :: s[i] != s[k]
    requires forall i | 0 <= i < |s| :: s[i] < n
    ensures |s| <= n
  {
    if s != [] {
      assert s[0] < n;
      var m: nat := n - 1;
      if j :| 0 <= j < |s| && s[j] == m {
        var rest := s[..j] + s[j + 1..];
        assert forall i | 0 <= i < |rest| :: rest[i] == s[if i < j then i else i + 1];
        DistinctBelow(rest, m);
      } else {
        DistinctBelow(s[..|s| - 1], m);
      }
    }
  }

  /** Lanes that are loaded with the same first ID run different pairs of the others. */
  lemma SameFirst(item: nat -> Id, load: Load, n: nat, size: Id, lanes: seq<nat>, v: nat)
    requires Assigns(item, load, n, size) && n >= 1
    requires forall i, k | 0 <= i < k < |lanes| :: lanes[i] != lanes[k]
    requires forall i | 0 <= i < |lanes| :: lanes[i] < Items(size) && load(lanes[i], 0) == v
    ensures |lanes| <= size.y * size.z
  {
    hide Items;
    var ranks := seq(|lanes|, i requires 0 <= i < |lanes| => Rank(item(lanes[i]), size));
    forall i | 0 <= i < |lanes| ensures ranks[i] < size.y * size.z && item(lanes[i]).x == v
    {
      assert Inside(item(lanes[i]), size) && Agrees(load, n, lanes[i], item(lanes[i]));
      RankBelow(item(lanes[i]), size);
    }
    forall i, k | 0 <= i < k < |lanes| ensures ranks[i] != ranks[k]
    {
      if ranks[i] == ranks[k] { SameRank(item(lanes[i]), item(lanes[k]), size); }
    }
    DistinctBelow(ranks, size.y * size.z);
  }

  /** Lanes that are loaded with the same two IDs run different third ones. */
  lemma SamePair(item: nat -> Id, load: Load, n: nat, size: Id, lanes: seq<nat>, v: nat, w: nat)
    requires Assigns(item, load, n, size) && n >= 2
    requires forall i, k | 0 <= i < k < |lanes| :: lanes[i] != lanes[k]
    requires forall i | 0 <= i < |lanes| :: lanes[i] < Items(size) && load(lanes[i], 0) == v && load(lanes[i], 1) == w
    ensures |lanes| <= size.z
  {
    hide Items;
    var thirds := seq(|lanes|, i requires 0 <= i < |lanes| => item(lanes[i]).z);
    forall i | 0 <= i < |lanes| ensures thirds[i] < size.z && item(lanes[i]).x == v && item(lanes[i]).y == w
    {
      assert Inside(item(lanes[i]), size) && Agrees(load, n, lanes[i], item(lanes[i]));
    }
    DistinctBelow(thirds, size.z);
  }

  /** The number of an item among those with the same first ID. */
  function Rank(d: Id, size: Id): nat { d.y + size.y * d.z }

  lemma RankBelow(d: Id, size: Id)
    requires Inside(d, size)
    ensures Rank(d, size) < size.y * size.z
  {
    DigitBelow(d.y, d.z, size.y, size.z);
  }

  lemma SameRank(d: Id, e: Id, size: Id)
    requires Inside(d, size) && Inside(e, size) && Rank(d, size) == Rank(e, size)
    ensures d.y == e.y && d.z == e.z
  {
    DivModUnique(Rank(d, size), size.y, d.z, d.y);
    DivModUnique(Rank(e, size), size.y, e.z, e.y);
  }

  /** The lanes that are loaded with v first, of the first `lanes`. */
  ghost function Fibre(load: Load, lanes: nat, v: nat): set<nat> { set i | 0 <= i < lanes && load(i, 0) == v }

  ghost predicate Hit(s: set<nat>, h: nat -> nat, r: nat) { exists i :: i in s && h(i) == r }

  /** A set that maps one to one onto the numbers below n has n elements. */
  lemma {:induction false} SetSize(s: set<nat>, h: nat -> nat, n: nat)
    requires forall i | i in s :: h(i) < n
    requires forall i, k | i in s && k in s && h(i) == h(k) :: i == k
    requires forall r: nat | r < n :: Hit(s, h, r)
    ensures |s| == n
  {
    if n == 0 {
      assert s == {};
    } else {
      var last: nat := n - 1;
      assert Hit(s, h, last);
      var i :| i in s && h(i) == last;
      forall r: nat | r < last ensures Hit(s - {i}, h, r)
      {
        assert Hit(s, h, r);
        var k :| k in s && h(k) == r;
        assert k in s - {i};
      }
      SetSize(s - {i}, h, last);
    }
  }

  /** A set that maps one to one into another is no larger. */
  lemma {:induction false} NotMore(s: set<nat>, h: nat -> nat, into: set<nat>)
    requires forall i | i in s :: h(i) in into
    requires forall i, k | i in s && k in s && h(i) == h(k) :: i == k
    ensures |s| <= |into|
    decreases |s|
  {
    if s != {} {
      var i :| i in s;
      NotMore(s - {i}, h, into - {h(i)});
    }
  }

  /** As many lanes are loaded with v first as there are items with it. */
  lemma FibreSize(item: nat -> Id, load: Load, n: nat, size: Id, v: nat)
    requires Assigns(item, load, n, size) && n >= 1 && v < size.x && size.y >= 1
    ensures |Fibre(load, Items(size), v)| == size.y * size.z
  {
    hide Items;
    var s, h := Fibre(load, Items(size), v), (i: nat) => Rank(item(i), size);
    forall i | i in s ensures h(i) < size.y * size.z && item(i).x == v && Inside(item(i), size)
    {
      assert Inside(item(i), size) && Agrees(load, n, i, item(i));
      RankBelow(item(i), size);
    }
    forall i, k | i in s && k in s && h(i) == h(k) ensures i == k { SameRank(item(i), item(k), size); }
    forall r: nat | r < size.y * size.z ensures Hit(s, h, r)
    {
      var d := ItemOfRank(v, r, size);
      var i :| 0 <= i < Items(size) && item(i) == d;
      assert Agrees(load, n, i, item(i));
      assert i in s && h(i) == r;
    }
    SetSize(s, h, size.y * size.z);
  }

  lemma ItemOfRank(v: nat, r: nat, size: Id) returns (d: Id)
    requires v < size.x && size.y >= 1 && r < size.y * size.z
    ensures Inside(d, size) && d.x == v && Rank(d, size) == r
  {
    d := Id(v, r % size.y, r / size.y);
    if d.z >= size.z { MulMonotone(size.y, size.z, d.z); }
  }

  // ---------- groups that are served ----------

  /** The item with a lane's first ID and this rank among those with it. */
  function RankedItem(load: Load, rank: nat -> nat, size: Id, i: nat): Id
    requires size.y >= 1
  {
    Id(load(i, 0), rank(i) % size.y, rank(i) / size.y)
  }

  lemma RankedItemInside(load: Load, rank: nat -> nat, size: Id, i: nat)
    requires size.y >= 1 && load(i, 0) < size.x && rank(i) < size.y * size.z
    ensures Inside(RankedItem(load, rank, size, i), size) && RankedItem(load, rank, size, i).x == load(i, 0)
    ensures Rank(RankedItem(load, rank, size, i), size) == rank(i)
  {
    hide Inside, Rank;
    var d := ItemOfRank(load(i, 0), rank(i), size);
    SameItem(d, RankedItem(load, rank, size, i), rank(i), size);
  }

  /** Lanes with a rank among those loaded alike, and back. */
  lemma ServedByRank(load: Load, rank: nat -> nat, back: (nat, nat) -> nat, size: Id)
    requires size.y >= 1
    requires forall i: nat | i < Items(size) ::
               load(i, 0) < size.x && rank(i) < size.y * size.z && back(load(i, 0), rank(i)) == i
    requires forall v: nat, r: nat | v < size.x && r < size.y * size.z ::
               back(v, r) < Items(size) && load(back(v, r), 0) == v && rank(back(v, r)) == r
    ensures Served(load, 1, size)
  {
    hide Items, RankedItem, Rank;
    var item := (i: nat) requires size.y >= 1 => RankedItem(load, rank, size, i);
    forall i: nat | i < Items(size)
      ensures Inside(item(i), size) && item(i).x == load(i, 0) && Rank(item(i), size) == rank(i)
    {
      RankedItemInside(load, rank, size, i);
    }
    forall d | Inside(d, size) ensures exists i :: 0 <= i < Items(size) && item(i) == d
    {
      RankBelow(d, size);
      var i := back(d.x, Rank(d, size));
      SameRank(item(i), d, size);
      assert item(i) == d;
    }
    assert Assigns(item, load, 1, size);
  }

  lemma SameItem(d: Id, e: Id, r: nat, size: Id)
    requires Inside(d, size) && size.y >= 1 && Rank(d, size) == r && e == Id(d.x, r % size.y, r / size.y)
    ensures d == e
  {
    DivModUnique(r, size.y, d.z, d.y);
  }

  /** When every lane is loaded with the leading IDs of the item of its own number. */
  lemma ServedInOrder(load: Load, n: nat, size: Id)
    requires size.x >= 1 && size.y >= 1
    requires forall i: nat | i < Items(size) :: Agrees(load, n, i, IdOf(i, size.x, size.y))
    ensures Served(load, n, size)
  {
    hide IdOf, Items, Agrees, Value;
    var item := (i: nat) requires size.x >= 1 && size.y >= 1 => IdOf(i, size.x, size.y);
    forall i: nat | i < Items(size) ensures Inside(item(i), size) && Value(item(i), size.x, size.y) == i
    {
      hide InBox;
      NumbersBelow(size, i);
      ItemOfNumber(i, size.x, size.y, size.z);
      IdOfInRange(i, size.x, size.y);
    }
    forall d | Inside(d, size) ensures exists i :: 0 <= i < Items(size) && item(i) == d
    {
      NumbersBelow(size, Value(d, size.x, size.y));
      NumberOfItem(d, size.x, size.y, size.z);
      assert item(Value(d, size.x, size.y)) == d;
    }
    assert Assigns(item, load, n, size);
  }

  lemma NumbersBelow(size: Id, i: nat)
    ensures i < Items(size) <==> i < size.x * size.y * size.z
  {
  }

  /** Digit j of a lane's number in mixed radix (P, Q). */
  function Digit(j: nat, i: nat, P: nat, Q: nat): nat
    requires P >= 1 && Q >= 1
  {
    if j == 0 then i % P else if j == 1 then i / P % Q else i / P / Q
  }

  /** When the words are a number's digits, a group is served exactly if the sizes of the IDs read are those of the
      digits they are loaded with. */
  lemma DigitsServeIff(load: Load, n: nat, size: Id, digits: Id)
    requires 1 <= n <= 3 && size.x >= 1 && size.y >= 1 && size.z >= 1 && digits.x >= 1 && digits.y >= 1 && digits.z >= 1
    requires Items(size) == Items(digits)
    requires forall i: nat, j: nat | i < Items(size) && j < n :: load(i, j) == Digit(j, i, digits.x, digits.y)
    ensures Served(load, n, size) <==> Leading(n, size, digits)
  {
    hide Items, Digit, Served;
    if Leading(n, size, digits) {
      forall i: nat | i < Items(size) ensures Agrees(load, n, i, IdOf(i, size.x, size.y))
      {
        DigitsOfItem(load, n, i, size, digits);
      }
      ServedInOrder(load, n, size);
    } else if Served(load, n, size) {
      var item := ServedBy(load, n, size);
      if size.x != digits.x {
        FirstFits(item, load, n, size, digits);
      } else if size.y != digits.y {
        SecondFits(item, load, n, size, digits);
      } else {
        ThirdSize(size, digits);
      }
    }
  }

  /** The first n sizes are the same. */
  predicate Leading(n: nat, size: Id, digits: Id)
  {
    (n >= 1 ==> size.x == digits.x) && (n >= 2 ==> size.y == digits.y) && (n >= 3 ==> size.z == digits.z)
  }

  lemma ServedBy(load: Load, n: nat, size: Id) returns (item: nat -> Id)
    requires Served(load, n, size)
    ensures Assigns(item, load, n, size)
  {
    item :| Assigns(item, load, n, size);
  }

  lemma DigitsOfItem(load: Load, n: nat, i: nat, size: Id, digits: Id)
    requires 1 <= n <= 3 && size.x >= 1 && size.y >= 1 && digits.x >= 1 && digits.y >= 1 && Leading(n, size, digits)
    requires forall j: nat | j < n :: load(i, j) == Digit(j, i, digits.x, digits.y)
    ensures Agrees(load, n, i, IdOf(i, size.x, size.y))
  {
    assert load(i, 0) == Digit(0, i, digits.x, digits.y);
    assert n >= 2 ==> load(i, 1) == Digit(1, i, digits.x, digits.y);
    assert n >= 3 ==> load(i, 2) == Digit(2, i, digits.x, digits.y);
  }

  lemma FirstFits(item: nat -> Id, load: Load, n: nat, size: Id, digits: Id)
    requires Assigns(item, load, n, size) && 1 <= n <= 3 && size.x >= 1 && size.y >= 1 && size.z >= 1
    requires digits.x >= 1 && digits.y >= 1 && digits.z >= 1 && Items(size) == Items(digits)
    requires forall i: nat, j: nat | i < Items(size) && j < n :: load(i, j) == Digit(j, i, digits.x, digits.y)
    ensures size.x == digits.x
  {
    hide Items, Digit;
    if size.x < digits.x {
      var i := LastOfFirst(digits);
      LoadsInside(item, load, n, size, i);
    } else if size.x > digits.x {
      var i := LaneOf(item, load, n, size, Id(size.x - 1, 0, 0));
      DigitsBelowRadix(i, digits);
    }
  }

  lemma SecondFits(item: nat -> Id, load: Load, n: nat, size: Id, digits: Id)
    requires Assigns(item, load, n, size) && 2 <= n <= 3 && size.x >= 1 && size.y >= 1 && size.z >= 1
    requires digits.x >= 1 && digits.y >= 1 && digits.z >= 1 && Items(size) == Items(digits)
    requires forall i: nat, j: nat | i < Items(size) && j < n :: load(i, j) == Digit(j, i, digits.x, digits.y)
    ensures size.y == digits.y
  {
    hide Items, Digit;
    if size.y < digits.y {
      var i := LastOfSecond(digits);
      LoadsInside(item, load, n, size, i);
    } else if size.y > digits.y {
      var i := LaneOf(item, load, n, size, Id(0, size.y - 1, 0));
      DigitsBelowRadix(i, digits);
    }
  }

  lemma LastOfFirst(digits: Id) returns (i: nat)
    requires digits.x >= 1 && digits.y >= 1 && digits.z >= 1
    ensures i < Items(digits) && Digit(0, i, digits.x, digits.y) == digits.x - 1
  {
    i := digits.x - 1;
    MulMonotone(digits.x, 1, digits.y);
    RowsInside(digits, i);
  }

  lemma LastOfSecond(digits: Id) returns (i: nat)
    requires digits.x >= 1 && digits.y >= 1 && digits.z >= 1
    ensures i < Items(digits) && Digit(1, i, digits.x, digits.y) == digits.y - 1
  {
    i := digits.x * (digits.y - 1);
    DivModUnique(i, digits.x, digits.y - 1, 0);
    Distribute(digits.x, digits.y - 1, 1);
    RowsInside(digits, i);
  }

  lemma DigitsBelowRadix(i: nat, digits: Id)
    requires digits.x >= 1 && digits.y >= 1
    ensures Digit(0, i, digits.x, digits.y) < digits.x && Digit(1, i, digits.x, digits.y) < digits.y
  {
  }

  lemma RowsInside(size: Id, i: nat)
    requires size.x >= 1 && size.y >= 1 && size.z >= 1 && i < size.x * size.y
    ensures i < Items(size)
    ensures size.x <= size.x * size.y
  {
    MulMonotone(size.x * size.y, 1, size.z);
    MulMonotone(size.x, 1, size.y);
  }

  lemma LaneOf(item: nat -> Id, load: Load, n: nat, size: Id, d: Id) returns (i: nat)
    requires Assigns(item, load, n, size) && Inside(d, size)
    ensures i < Items(size) && item(i) == d && Agrees(load, n, i, d)
  {
    hide Items, Inside;
    i :| 0 <= i < Items(size) && item(i) == d;
  }

  lemma ThirdSize(size: Id, digits: Id)
    requires Items(size) == Items(digits) && size.x == digits.x >= 1 && size.y == digits.y >= 1
    ensures size.z == digits.z
  {
    var a := size.x * size.y;
    MulMonotone(size.x, 1, size.y);
    if size.z < digits.z {
      MulMonotone(a, size.z + 1, digits.z);
    } else if digits.z < size.z {
      MulMonotone(a, digits.z + 1, size.z);
    }
  }
}
