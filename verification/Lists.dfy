/** The kernel's list primitive: a circular doubly linked list with a sentinel,
    kept in ascending item-value order by Insert and walked in a circle by a
    roving index.  The first half of the module says what the operations mean on
    plain sequences; the class then carries them out on links. */
module Lists {
  /** The largest tick value, and the value that marks the sentinel. */
  const MAX_DELAY: nat := 0xFFFF_FFFF

  /** A 32-bit tick count or list item value. */
  type Tick = n: nat | n <= MAX_DELAY

  // ---------------------------------------------------------------- sorted insertion

  /** What a sorted list holds at one position: the sort key and its owner. */
  datatype Entry<T> = Entry(value: Tick, owner: T)

  /** Insertion behind every leading entry whose value is not greater. */
  function InsertSorted<T>(s: seq<Entry<T>>, e: Entry<T>): (r: seq<Entry<T>>)
    ensures |r| == |s| + 1
  {
    if s == [] || s[0].value > e.value then [e] + s else [s[0]] + InsertSorted(s[1..], e)
  }

  predicate Sorted<T>(s: seq<Entry<T>>) {
    forall i, j | 0 <= i < j < |s| :: s[i].value <= s[j].value
  }

  /** The entries of `s` with one given value, in list order. */
  function WithValue<T>(s: seq<Entry<T>>, v: Tick): seq<Entry<T>> {
    if s == [] then [] else (if s[0].value == v then [s[0]] else []) + WithValue(s[1..], v)
  }

  /** The split that identifies the insertion point. */
  lemma {:induction false} InsertSortedAt<T>(s: seq<Entry<T>>, e: Entry<T>, p: nat)
    requires p <= |s|
    requires forall i | 0 <= i < p :: s[i].value <= e.value
    requires p < |s| ==> s[p].value > e.value
    ensures InsertSorted(s, e) == s[..p] + [e] + s[p..]
  {
    if p > 0 {
      InsertSortedAt(s[1..], e, p - 1);
      assert s[1..][..p - 1] == s[1..p];
      assert s[1..][p - 1..] == s[p..];
      assert s[..p] == [s[0]] + s[1..p];
    }
  }

  /** Insertion adds exactly one entry. */
  lemma {:induction false} InsertSortedContents<T>(s: seq<Entry<T>>, e: Entry<T>)
    ensures multiset(InsertSorted(s, e)) == multiset(s) + multiset{e}
  {
    if s == [] || s[0].value > e.value {
    } else {
      InsertSortedContents(s[1..], e);
      assert s == [s[0]] + s[1..];
    }
  }

  /** Insertion keeps the list in ascending order. */
  lemma {:induction false} InsertSortedOrder<T>(s: seq<Entry<T>>, e: Entry<T>)
    requires Sorted(s)
    ensures Sorted(InsertSorted(s, e))
  {
    if s == [] || s[0].value > e.value {
    } else {
      InsertSortedOrder(s[1..], e);
      InsertSortedContents(s[1..], e);
      var r := InsertSorted(s[1..], e);
      forall j | 0 <= j < |r| ensures s[0].value <= r[j].value {
        assert r[j] in multiset(r);
        assert r[j] in multiset(s[1..]) || r[j] == e;
      }
    }
  }

  /** Insertion is stable: among equal values the new entry comes last, and the
      order of the others is untouched. */
  lemma {:induction false} InsertSortedStable<T>(s: seq<Entry<T>>, e: Entry<T>, v: Tick)
    requires Sorted(s)
    ensures WithValue(InsertSorted(s, e), v) == WithValue(s, v) + (if v == e.value then [e] else [])
  {
    if s == [] {
    } else if s[0].value > e.value {
      if v == e.value { NoneWithValue(s, v); }
      assert ([e] + s)[1..] == s;
    } else {
      InsertSortedStable(s[1..], e, v);
      var r := InsertSorted(s, e);
      assert r[1..] == InsertSorted(s[1..], e);
    }
  }

  lemma {:induction false} NoneWithValue<T>(s: seq<Entry<T>>, v: Tick)
    requires forall i | 0 <= i < |s| :: s[i].value != v
    ensures WithValue(s, v) == []
  {
    if s != [] { NoneWithValue(s[1..], v); }
  }

  // ---------------------------------------------------------------- the roving index

  /** A list seen with its roving index: `pos` is 0 when the index rests on the
      sentinel, otherwise the index rests on items[pos - 1]. */
  datatype Ring<T(==)> = Ring(items: seq<T>, pos: nat) {
    predicate Ok() {
      && pos <= |items|
      && forall i, j | 0 <= i < j < |items| :: items[i] != items[j]
    }

    /** The items in the order in which the next selections visit them. */
    function Upcoming(): seq<T>
      requires pos <= |items|
    {
      items[pos..] + items[..pos]
    }

    predicate Indexed(x: T)
      requires pos <= |items|
    {
      pos > 0 && items[pos - 1] == x
    }

    function Select(): (Ring<T>, T)
      requires pos <= |items| && items != []
    {
      if pos == |items| then (Ring(items, 1), items[0]) else (Ring(items, pos + 1), items[pos])
    }

    function InsertEnd(x: T): Ring<T>
      requires pos <= |items|
    {
      if pos == 0 then Ring(items + [x], 0)
      else Ring(items[..pos - 1] + [x] + items[pos - 1..], pos + 1)
    }

    function Remove(k: nat): Ring<T>
      requires pos <= |items| && k < |items|
    {
      Ring(items[..k] + items[k + 1..], if k < pos then pos - 1 else pos)
    }
  }

  /** A selection takes the first upcoming item and sends it to the back. */
  lemma SelectRotates<T>(r: Ring<T>)
    requires r.Ok() && r.items != []
    ensures r.Select().0.Ok()
    ensures r.Select().1 == r.Upcoming()[0]
    ensures r.Select().0.Upcoming() == r.Upcoming()[1..] + [r.Upcoming()[0]]
    ensures r.Select().0.Indexed(r.Select().1)
  {
    var u, n := r.Upcoming(), r.Select().0;
    if r.pos < |r.items| {
      assert r.items[r.pos..][1..] == r.items[r.pos + 1..];
      assert n.Upcoming() == r.items[r.pos + 1..] + (r.items[..r.pos] + [r.items[r.pos]]);
    } else {
      assert u == r.items;
      assert n.Upcoming() == r.items[1..] + [r.items[0]];
    }
  }

  /** The items chosen by `n` successive selections. */
  function Selections<T>(r: Ring<T>, n: nat): seq<T>
    requires r.Ok() && r.items != []
    decreases n
  {
    if n == 0 then [] else
      var (r', x) := r.Select();
      [x] + Selections(r', n - 1)
  }

  /** Round robin: as many selections as there are items visit every item exactly
      once, in the upcoming order. */
  lemma RoundRobin<T>(r: Ring<T>)
    requires r.Ok() && r.items != []
    ensures Selections(r, |r.items|) == r.Upcoming()
    ensures multiset(Selections(r, |r.items|)) == multiset(r.items)
  {
    SelectionsArePrefix(r, |r.items|);
    assert r.items == r.items[..r.pos] + r.items[r.pos..];
  }

  lemma {:induction false} SelectionsArePrefix<T>(r: Ring<T>, n: nat)
    requires r.Ok() && r.items != [] && n <= |r.items|
    ensures Selections(r, n) == r.Upcoming()[..n]
    decreases n
  {
    if n > 0 {
      var (r', x) := r.Select();
      SelectRotates(r);
      SelectionsArePrefix(r', n - 1);
      var u := r.Upcoming();
      assert r'.Upcoming()[..n - 1] == u[1..n];
      assert u[..n] == [u[0]] + u[1..n];
    }
  }

  /** Where position `k` of the list stands in the upcoming order. */
  function Turn<T>(r: Ring<T>, k: nat): (d: nat)
    requires r.pos <= |r.items| && k < |r.items|
    ensures d < |r.items| && r.Upcoming()[d] == r.items[k]
  {
    if k >= r.pos then k - r.pos else k - r.pos + |r.items|
  }

  /** Removal, of the indexed item or any other, only deletes: the upcoming order
      of the rest is unchanged. */
  lemma RemoveKeepsOrder<T>(r: Ring<T>, k: nat)
    requires r.Ok() && k < |r.items|
    ensures r.Remove(k).Ok()
    ensures r.Remove(k).Upcoming() == r.Upcoming()[..Turn(r, k)] + r.Upcoming()[Turn(r, k) + 1..]
  {
    if k >= r.pos { RemoveAhead(r, k); } else { RemoveBehind(r, k); }
  }

  lemma RemoveAhead<T>(r: Ring<T>, k: nat)
    requires r.pos <= k < |r.items|
    ensures r.Remove(k).Upcoming() == r.Upcoming()[..k - r.pos] + r.Upcoming()[k - r.pos + 1..]
  {
    var n, a, b, d := r.Remove(k), r.items[r.pos..], r.items[..r.pos], k - r.pos;
    assert n.items[n.pos..] == a[..d] + a[d + 1..];
    assert n.items[..n.pos] == b;
    assert (a + b)[..d] == a[..d] && (a + b)[d + 1..] == a[d + 1..] + b;
  }

  lemma RemoveBehind<T>(r: Ring<T>, k: nat)
    requires k < r.pos <= |r.items|
    ensures var d := k - r.pos + |r.items|;
            r.Remove(k).Upcoming() == r.Upcoming()[..d] + r.Upcoming()[d + 1..]
  {
    var n, a, b, d := r.Remove(k), r.items[r.pos..], r.items[..r.pos], k - r.pos + |r.items|;
    assert n.items[n.pos..] == a;
    assert n.items[..n.pos] == b[..k] + b[k + 1..];
    assert (a + b)[..d] == a + b[..k] && (a + b)[d + 1..] == b[k + 1..];
  }

  /** An item inserted at the end is visited after every other item, except the one
      the index rests on. */
  lemma InsertEndIsLast<T>(r: Ring<T>, x: T)
    requires r.Ok() && x !in r.items
    ensures r.InsertEnd(x).Ok()
    ensures r.InsertEnd(x).Upcoming() ==
            if r.pos == 0 then r.Upcoming() + [x]
            else r.Upcoming()[..|r.items| - 1] + [x, r.items[r.pos - 1]]
  {
    var n := r.InsertEnd(x);
    if r.pos > 0 {
      assert r.items[..r.pos] == r.items[..r.pos - 1] + [r.items[r.pos - 1]];
      assert r.Upcoming()[..|r.items| - 1] == r.items[r.pos..] + r.items[..r.pos - 1];
      assert n.items[n.pos..] == r.items[r.pos..];
      assert n.items[..n.pos] == r.items[..r.pos - 1] + [x, r.items[r.pos - 1]];
    }
  }

  /** How many selections pass before `z` is chosen if nothing else happens. */
  function Wait<T>(r: Ring<T>, z: T): (d: nat)
    requires r.Ok() && z in r.items
    ensures d < |r.items| && r.Upcoming()[d] == z
  {
    var k :| 0 <= k < |r.items| && r.items[k] == z;
    Turn(r, k)
  }

  lemma UpcomingDistinct<T>(r: Ring<T>, i: nat, j: nat)
    requires r.Ok() && i < |r.items| && j < |r.items| && r.Upcoming()[i] == r.Upcoming()[j]
    ensures i == j
  {
    var n := |r.items|;
    var a := if i + r.pos < n then i + r.pos else i + r.pos - n;
    var b := if j + r.pos < n then j + r.pos else j + r.pos - n;
    assert r.Upcoming()[i] == r.items[a] && r.Upcoming()[j] == r.items[b];
  }

  datatype RingOp<T> = DoSelect | DoInsertEnd(x: T) | DoRemove(k: nat)

  predicate Applies<T>(r: Ring<T>, op: RingOp<T>)
    requires r.Ok()
  {
    match op
    case DoSelect => r.items != []
    case DoInsertEnd(x) => x !in r.items
    case DoRemove(k) => k < |r.items|
  }

  function Apply<T>(r: Ring<T>, op: RingOp<T>): (r': Ring<T>)
    requires r.Ok() && Applies(r, op)
    ensures r'.Ok()
  {
    match op
    case DoSelect => SelectRotates(r); r.Select().0
    case DoInsertEnd(x) => InsertEndIsLast(r, x); r.InsertEnd(x)
    case DoRemove(k) => RemoveKeepsOrder(r, k); r.Remove(k)
  }

  /** The wait for `z` is wherever `z` is found in the upcoming order. */
  lemma WaitIs<T>(r: Ring<T>, z: T, d: nat)
    requires r.Ok() && d < |r.items| && r.Upcoming()[d] == z
    ensures z in r.items && Wait(r, z) == d
  {
    InItems(r, d);
    UpcomingDistinct(r, Wait(r, z), d);
  }

  lemma WaitAfterSelect<T>(r: Ring<T>, z: T)
    requires r.Ok() && z in r.items && r.Select().1 != z
    ensures r.Select().0.Ok() && z in r.Select().0.items
    ensures Wait(r.Select().0, z) == Wait(r, z) - 1
  {
    SelectRotates(r);
    WaitIs(r.Select().0, z, Wait(r, z) - 1);
  }

  lemma WaitAfterInsertEnd<T>(r: Ring<T>, x: T, z: T)
    requires r.Ok() && z in r.items && x !in r.items
    ensures r.InsertEnd(x).Ok() && z in r.InsertEnd(x).items
    ensures Wait(r.InsertEnd(x), z) == Wait(r, z) + (if r.Indexed(z) then 1 else 0)
  {
    InsertEndIsLast(r, x);
    if r.pos > 0 { assert r.Upcoming()[|r.items| - 1] == r.items[r.pos - 1]; }
    if r.Indexed(z) {
      WaitIs(r, z, |r.items| - 1);
      WaitIs(r.InsertEnd(x), z, |r.items|);
    } else {
      WaitIs(r.InsertEnd(x), z, Wait(r, z));
    }
  }

  lemma WithoutOne<T>(u: seq<T>, c: nat, d: nat, v: seq<T>)
    requires c < |u| && d < |u| && c != d && v == u[..c] + u[c + 1..]
    ensures |v| == |u| - 1 && v[if d < c then d else d - 1] == u[d]
  {
  }

  lemma WaitAfterRemove<T>(r: Ring<T>, k: nat, z: T)
    requires r.Ok() && z in r.items && k < |r.items| && r.items[k] != z
    ensures r.Remove(k).Ok() && z in r.Remove(k).items
    ensures Wait(r.Remove(k), z) == Wait(r, z) - if Wait(r, r.items[k]) < Wait(r, z) then 1 else 0
  {
    RemoveKeepsOrder(r, k);
    var c, d := Turn(r, k), Wait(r, z);
    WaitIs(r, r.items[k], c);
    WithoutOne(r.Upcoming(), c, d, r.Remove(k).Upcoming());
    WaitIs(r.Remove(k), z, if d < c then d else d - 1);
  }

  /** Exactly what each operation does to a waiting item: a selection brings it one place
      nearer, a removal if the item removed was ahead; and only an insertion while the
      index rests on that very item delays it, by one place. */
  lemma WaitStep<T>(r: Ring<T>, op: RingOp<T>, z: T)
    requires r.Ok() && Applies(r, op) && z in r.items
    requires op.DoRemove? ==> r.items[op.k] != z
    requires op.DoSelect? ==> r.Select().1 != z
    ensures z in Apply(r, op).items
    ensures op.DoSelect? ==> Wait(Apply(r, op), z) == Wait(r, z) - 1
    ensures op.DoInsertEnd? ==> Wait(Apply(r, op), z) == Wait(r, z) + (if r.Indexed(z) then 1 else 0)
    ensures op.DoRemove? ==>
              Wait(Apply(r, op), z) == Wait(r, z) - if Wait(r, r.items[op.k]) < Wait(r, z) then 1 else 0
  {
    match op
    case DoSelect => WaitAfterSelect(r, z);
    case DoInsertEnd(x) => WaitAfterInsertEnd(r, x, z);
    case DoRemove(k) => WaitAfterRemove(r, k, z);
  }

  lemma InItems<T>(r: Ring<T>, d: nat)
    requires r.Ok() && d < |r.items|
    ensures r.Upcoming()[d] in r.items
  {
    var u := r.Upcoming();
    if d < |r.items| - r.pos { assert u[d] == r.items[r.pos + d]; }
    else { assert u[d] == r.items[d - (|r.items| - r.pos)]; }
  }

  /** A run in which `z` is never removed, never chosen, and never rested on by the
      index while something is inserted. */
  predicate PassedOver<T>(r: Ring<T>, ops: seq<RingOp<T>>, z: T)
    requires r.Ok() && z in r.items
    decreases |ops|
  {
    ops != [] ==>
      && Applies(r, ops[0])
      && (ops[0].DoRemove? ==> r.items[ops[0].k] != z)
      && (ops[0].DoSelect? ==> r.Select().1 != z)
      && (ops[0].DoInsertEnd? ==> !r.Indexed(z))
      && (WaitStep(r, ops[0], z); PassedOver(Apply(r, ops[0]), ops[1..], z))
  }

  function SelectCount<T>(ops: seq<RingOp<T>>): nat {
    if ops == [] then 0 else (if ops[0].DoSelect? then 1 else 0) + SelectCount(ops[1..])
  }

  /** Bounded waiting: an item can be passed over by at most as many selections as
      there were items ahead of it at the start, whatever is inserted and removed. */
  lemma {:induction false} NeverSkipped<T>(r: Ring<T>, ops: seq<RingOp<T>>, z: T)
    requires r.Ok() && z in r.items && PassedOver(r, ops, z)
    ensures SelectCount(ops) <= Wait(r, z)
    decreases |ops|
  {
    if ops != [] {
      WaitStep(r, ops[0], z);
      NeverSkipped(Apply(r, ops[0]), ops[1..], z);
    }
  }

  /** Without the proviso on insertion the bound fails: after the indexed item 2 has
      left, the index rests on 1, so re-inserting 2 puts it ahead of 1, and the
      cycle select, remove, insert passes 1 over again and again. */
  lemma SkippedWithoutProviso()
    ensures var r := Ring([1, 2], 1);
            var r2 := r.Select().0.Remove(1);
            var r3 := r2.InsertEnd(2);
            r.Select().1 == 2 && r2.Indexed(1) && r3.Select().1 == 2 &&
            Wait(r, 1) == 1 && Wait(r3, 1) == 1
  {
    var r := Ring([1, 2], 1);
    var r3 := r.Select().0.Remove(1).InsertEnd(2);
    assert r3 == Ring([2, 1], 2);
    WaitIs(r, 1, 1);
    WaitIs(r3, 1, 1);
  }

  // ---------------------------------------------------------------- linked representation

  class ListItem {
    var value: Tick
    var next: ListItem?
    var previous: ListItem?
    var container: List?

    constructor (value: Tick)
      ensures this.value == value && container == null
    {
      this.value := value;
      next, previous, container := null, null, null;
    }
  }

  ghost predicate Differ<T>(s: seq<T>, i: nat, j: nat)
    requires i < |s| && j < |s|
  {
    s[i] != s[j]
  }

  ghost predicate Distinct<T>(s: seq<T>) {
    forall i, j | 0 <= i < j < |s| :: Differ(s, i, j)
  }

  /** In a sequence without repetitions, what any other position holds differs from
      what position `p` holds. */
  lemma DistinctFrom<T>(s: seq<T>, p: nat)
    requires Distinct(s) && p < |s|
    ensures forall i | 0 <= i < |s| && i != p :: s[i] != s[p]
  {
    forall i | 0 <= i < |s| && i != p ensures s[i] != s[p] {
      assert if i < p then Differ(s, i, p) else Differ(s, p, i);
    }
  }

  function Succ(i: nat, n: nat): nat { if i + 1 == n then 0 else i + 1 }

  function Pred(i: nat, n: nat): int { if i == 0 then n - 1 else i - 1 }

  /** The nodes form a circle and the two link fields are mutually inverse. */
  ghost predicate Linked(n: seq<ListItem>)
    reads n`next, n`previous
  {
    NextLinked(n) && PreviousLinked(n)
  }

  ghost predicate NextLinked(n: seq<ListItem>)
    reads n`next
  {
    forall i {:trigger n[i].next} | 0 <= i < |n| :: n[i].next == n[Succ(i, |n|)]
  }

  ghost predicate PreviousLinked(n: seq<ListItem>)
    reads n`previous
  {
    forall i {:trigger n[i].previous} | 0 <= i < |n| :: n[i].previous == n[Pred(i, |n|)]
  }

  predicate IsSplice<T(==)>(n: seq<T>, p: nat, x: T, m: seq<T>) {
    && p < |n| && |m| == |n| + 1
    && (forall i | 0 <= i <= p :: m[i] == n[i])
    && m[p + 1] == x
    && (forall i {:trigger m[i]} | p + 1 < i < |m| :: m[i] == n[i - 1])
  }

  predicate IsCut<T(==)>(n: seq<T>, p: nat, m: seq<T>) {
    && p < |n| && |m| == |n| - 1
    && (forall i | 0 <= i < p :: m[i] == n[i])
    && (forall i {:trigger m[i]} | p <= i < |m| :: m[i] == n[i + 1])
  }

  /** The nodes with `x` behind position `p`. */
  lemma Splice<T>(n: seq<T>, p: nat, x: T) returns (m: seq<T>)
    requires p < |n| && Distinct(n) && forall i | 0 <= i < |n| :: n[i] != x
    ensures IsSplice(n, p, x, m) && Distinct(m) && m[0] == n[0]
  {
    m := n[..p + 1] + [x] + n[p + 1..];
    forall i, j | 0 <= i < j < |m| ensures Differ(m, i, j) {
      var a, b := if i <= p then i else i - 1, if j <= p then j else j - 1;
      if i != p + 1 && j != p + 1 { assert Differ(n, a, b); }
    }
  }

  /** The nodes without position `p`. */
  lemma Cut<T>(n: seq<T>, p: nat) returns (m: seq<T>)
    requires 0 < p < |n| && Distinct(n)
    ensures IsCut(n, p, m) && Distinct(m) && m[0] == n[0] && forall i | 0 <= i < |m| :: m[i] != n[p]
  {
    m := n[..p] + n[p + 1..];
    forall i, j | 0 <= i < j < |m| ensures Differ(m, i, j) {
      assert Differ(n, if i < p then i else i + 1, if j < p then j else j + 1);
    }
    DistinctFrom(n, p);
  }

  lemma SplicedItems<T>(n: seq<T>, pos: nat, x: T, m: seq<T>)
    requires pos < |n| && IsSplice(n, Pred(pos, |n|), x, m)
    ensures Ring(m[1..], if pos > 0 then pos + 1 else 0) == Ring(n[1..], pos).InsertEnd(x)
  {
    var r := Ring(n[1..], pos).InsertEnd(x);
    forall i | 0 <= i < |m| - 1 ensures m[1..][i] == r.items[i] {
      var p := Pred(pos, |n|);
      assert m[i + 1] == if i < p then n[i + 1] else if i == p then x else n[i];
    }
    assert m[1..] == r.items;
  }

  lemma CutItems<T>(n: seq<T>, pos: nat, p: nat, m: seq<T>)
    requires 0 < p && pos < |n| && IsCut(n, p, m)
    ensures Ring(m[1..], pos - (if p <= pos then 1 else 0)) == Ring(n[1..], pos).Remove(p - 1)
  {
    forall i | 0 <= i < |m| - 1 ensures m[1..][i] == (n[1..][..p - 1] + n[1..][p..])[i] {
      assert m[i + 1] == if i + 1 < p then n[i + 1] else n[i + 2];
    }
  }

  /** The values and owners of a sequence of items. */
  ghost function EntriesOf(s: seq<ListItem>): (r: seq<Entry<ListItem>>)
    reads s`value
    ensures |r| == |s|
    ensures forall i | 0 <= i < |s| :: r[i] == Entry(s[i].value, s[i])
  {
    if s == [] then [] else [Entry(s[0].value, s[0])] + EntriesOf(s[1..])
  }

  /** Position `p` is the last one in the leading run of values up to `v`. */
  ghost predicate Fits(n: seq<ListItem>, p: nat, v: Tick)
    reads n`value
  {
    && p < |n|
    && (forall i | 0 < i <= p :: n[i].value <= v)
    && (p + 1 < |n| ==> n[p + 1].value > v)
  }

  lemma SplicedEntries(n: seq<ListItem>, p: nat, x: ListItem, m: seq<ListItem>)
    requires IsSplice(n, p, x, m) && Fits(n, p, x.value)
    ensures EntriesOf(m[1..]) == InsertSorted(EntriesOf(n[1..]), Entry(x.value, x))
  {
    var e, f := EntriesOf(n[1..]), EntriesOf(m[1..]);
    InsertSortedAt(e, Entry(x.value, x), p);
    forall i | 0 <= i < |f| ensures f[i] == (e[..p] + [Entry(x.value, x)] + e[p..])[i] {
      assert m[i + 1] == if i < p then n[i + 1] else if i == p then x else n[i];
    }
    assert f == e[..p] + [Entry(x.value, x)] + e[p..];
  }

  /** Splicing a node in behind position `p` of a circle and repairing the forward
      links around it gives a circle again. */
  lemma SplicedNext(n: seq<ListItem>, p: nat, x: ListItem, m: seq<ListItem>)
    requires IsSplice(n, p, x, m)
    requires forall i | 0 <= i < |n| && i != p :: n[i].next == n[Succ(i, |n|)]
    requires n[p].next == x && x.next == n[Succ(p, |n|)]
    ensures NextLinked(m)
  {
    forall i | 0 <= i < |m| ensures m[i].next == m[Succ(i, |m|)] {
      if i < p { assert m[i] == n[i] && m[i + 1] == n[i + 1]; }
      else if i > p + 1 { assert m[i] == n[i - 1] && m[Succ(i, |m|)] == n[Succ(i - 1, |n|)]; }
    }
  }

  lemma SplicedPrevious(n: seq<ListItem>, p: nat, x: ListItem, m: seq<ListItem>)
    requires IsSplice(n, p, x, m)
    requires forall i | 0 <= i < |n| && i != Succ(p, |n|) :: n[i].previous == n[Pred(i, |n|)]
    requires n[Succ(p, |n|)].previous == x && x.previous == n[p]
    ensures PreviousLinked(m)
  {
    forall i | 0 <= i < |m| ensures m[i].previous == m[Pred(i, |m|)] {
      if i <= p { assert m[i] == n[i] && m[Pred(i, |m|)] == if i == 0 && p + 1 == |n| then x else n[Pred(i, |n|)]; }
      else if i > p + 1 { assert m[i] == n[i - 1] && m[i - 1] == if i == p + 2 then x else n[i - 2]; }
    }
  }

  /** Taking position `p` > 0 out of a circle and closing the gap. */
  lemma CutNext(n: seq<ListItem>, p: nat, m: seq<ListItem>)
    requires 0 < p && IsCut(n, p, m)
    requires forall i | 0 <= i < |n| && i != p - 1 :: n[i].next == n[Succ(i, |n|)]
    requires n[p - 1].next == n[Succ(p, |n|)]
    ensures NextLinked(m)
  {
    forall i | 0 <= i < |m| ensures m[i].next == m[Succ(i, |m|)] {
      var j := Succ(i, |m|);
      assert m[i] == if i < p then n[i] else n[i + 1];
      assert m[j] == if j < p then n[j] else n[j + 1];
    }
  }

  lemma CutPrevious(n: seq<ListItem>, p: nat, m: seq<ListItem>)
    requires 0 < p && IsCut(n, p, m)
    requires forall i | 0 <= i < |n| && i != Succ(p, |n|) :: n[i].previous == n[Pred(i, |n|)]
    requires n[Succ(p, |n|)].previous == n[p - 1]
    ensures PreviousLinked(m)
  {
    forall i | 0 <= i < |m| ensures m[i].previous == m[Pred(i, |m|)] {
      var k := Pred(i, |m|);
      assert m[i] == if i < p then n[i] else n[i + 1];
      assert m[k] == if k < p then n[k] else n[k + 1];
    }
  }

  /** The four link writes that put `x` between two neighbours. */
  method Link(before: ListItem, x: ListItem, after: ListItem, ghost n: seq<ListItem>, ghost p: nat)
    returns (ghost m: seq<ListItem>)
    requires p < |n| && Distinct(n) && Linked(n) && forall i | 0 <= i < |n| :: n[i] != x
    requires before == n[p] && after == n[Succ(p, |n|)]
    modifies before`next, after`previous, x`next, x`previous
    ensures IsSplice(n, p, x, m) && Distinct(m) && Linked(m) && m[0] == n[0]
  {
    m := Splice(n, p, x);
    DistinctFrom(n, p);
    DistinctFrom(n, Succ(p, |n|));
    x.next := after;
    x.previous := before;
    before.next := x;
    after.previous := x;
    SplicedNext(n, p, x, m);
    SplicedPrevious(n, p, x, m);
  }

  /** The two link writes that take `x` out from between its neighbours. */
  method Unlink(before: ListItem, x: ListItem, after: ListItem, ghost n: seq<ListItem>, ghost p: nat)
    returns (ghost m: seq<ListItem>)
    requires 0 < p < |n| && Distinct(n) && Linked(n)
    requires before == n[p - 1] && x == n[p] && after == n[Succ(p, |n|)]
    modifies before`next, after`previous
    ensures IsCut(n, p, m) && Distinct(m) && Linked(m) && m[0] == n[0]
    ensures forall i | 0 <= i < |m| :: m[i] != x
  {
    m := Cut(n, p);
    DistinctFrom(n, p - 1);
    DistinctFrom(n, Succ(p, |n|));
    after.previous := before;
    before.next := after;
    CutNext(n, p, m);
    CutPrevious(n, p, m);
  }

  class List {
    const end: ListItem
    var index: ListItem
    var count: nat
    /** The sentinel followed by the items from head to tail. */
    ghost var nodes: seq<ListItem>
    /** Where the index rests. */
    ghost var pos: nat
    ghost var repr: set<ListItem>

    ghost predicate ValidLinks()
      reads this`nodes, this`count, this`repr, repr
    {
      && |nodes| == count + 1 && nodes[0] == end
      && (forall i | 0 <= i <= count :: nodes[i] in repr && (i > 0 ==> nodes[i].container == this))
      && Distinct(nodes)
      && Linked(nodes)
      && end.value == MAX_DELAY && end.container == null
    }

    ghost predicate Valid()
      reads this, repr
    {
      ValidLinks() && pos <= count && index == nodes[pos]
    }

    ghost function View(): Ring<ListItem>
      requires nodes != []
      reads this`nodes, this`pos
    {
      Ring(nodes[1..], pos)
    }

    constructor ()
      ensures Valid() && View() == Ring([], 0) && fresh(repr)
    {
      end := new ListItem(MAX_DELAY);
      index := end;
      count, nodes, pos, repr := 0, [end], 0, {end};
      new;
      end.next, end.previous := end, end;
    }

    /** Takes `x` in between two neighbouring nodes and remembers it as a member. */
    method Adopt(before: ListItem, x: ListItem, after: ListItem, ghost p: nat)
      requires ValidLinks() && x !in repr && x.container == null
      requires p < |nodes| && before == nodes[p] && after == nodes[Succ(p, |nodes|)]
      modifies this`count, this`nodes, this`repr, repr`next, repr`previous, x`next, x`previous, x`container
      ensures ValidLinks() && IsSplice(old(nodes), p, x, nodes) && repr == old(repr) + {x}
    {
      ghost var n := nodes;
      ghost var m := Link(before, x, after, n, p);
      x.container := this;
      count := count + 1;
      nodes, repr := m, repr + {x};
      forall i | 0 <= i <= count ensures m[i] in repr && (i > 0 ==> m[i].container == this) {
        if i <= p { assert m[i] == n[i]; } else if i > p + 1 { assert m[i] == n[i - 1]; }
      }
    }

    /** Puts `x` in front of the node the index rests on. */
    method InsertEnd(x: ListItem)
      requires Valid() && x !in repr && x.container == null
      modifies this, repr`next, repr`previous, x`next, x`previous, x`container
      ensures Valid()
      ensures View() == old(View()).InsertEnd(x) && repr == old(repr) + {x}
    {
      ghost var n, p := nodes, Pred(pos, |nodes|);
      assert index == n[pos] && index.previous == n[p];
      Adopt(index.previous, x, index, p);
      if pos > 0 { pos := pos + 1; }
      assert index == nodes[pos];
      SplicedItems(n, old(pos), x, nodes);
    }

    /** The node behind which an item of the given value belongs.  The walk ends
        because the sentinel's value exceeds every value it is run for. */
    method InsertionPoint(value: Tick) returns (it: ListItem, ghost p: nat)
      requires ValidLinks()
      ensures Fits(nodes, p, value) && it == nodes[p] && it.next == nodes[Succ(p, |nodes|)]
    {
      it, p := end, 0;
      if value == MAX_DELAY {
        it := end.previous;
        p := count;
      } else {
        assert nodes[0].next == nodes[Succ(0, |nodes|)];
        while it.next.value <= value
          invariant p <= count && it == nodes[p] && it.next == nodes[Succ(p, |nodes|)]
          invariant forall i | 0 < i <= p :: nodes[i].value <= value
          decreases count - p
        {
          it := it.next;
          p := p + 1;
        }
      }
    }

    /** Puts `x` behind node `it`; the index stays on its node. */
    method InsertBehind(it: ListItem, x: ListItem, ghost p: nat)
      requires Valid() && x !in repr && x.container == null
      requires p < |nodes| && it == nodes[p] && it.next == nodes[Succ(p, |nodes|)]
      modifies this, repr`next, repr`previous, x`next, x`previous, x`container
      ensures Valid() && IsSplice(old(nodes), p, x, nodes)
      ensures index == old(index) && repr == old(repr) + {x}
    {
      ghost var n := nodes;
      Adopt(it, x, it.next, p);
      if pos > p {
        assert nodes[pos + 1] == n[pos];
        pos := pos + 1;
      } else {
        assert nodes[pos] == n[pos];
      }
    }

    /** Puts `x` behind every item whose value is not greater than its own. */
    method Insert(x: ListItem)
      requires Valid() && x !in repr && x.container == null
      modifies this, repr`next, repr`previous, x`next, x`previous, x`container
      ensures Valid()
      ensures EntriesOf(nodes[1..]) == InsertSorted(old(EntriesOf(nodes[1..])), Entry(x.value, x))
      ensures index == old(index) && repr == old(repr) + {x}
    {
      var it; ghost var p;
      it, p := InsertionPoint(x.value);
      InsertBehind(it, x, p);
      assert EntriesOf(old(nodes)[1..]) == old(EntriesOf(nodes[1..]));
      SplicedEntries(old(nodes), p, x, nodes);
    }

    /** Closes the gap around `x` and forgets it as a member. */
    method Expel(x: ListItem, ghost p: nat)
      requires ValidLinks() && 0 < p < |nodes| && nodes[p] == x
      modifies this`count, this`nodes, this`repr, repr`next, repr`previous, x`container
      ensures ValidLinks() && IsCut(old(nodes), p, nodes) && repr == old(repr) - {x}
      ensures x.container == null
    {
      ghost var n := nodes;
      assert x.next == n[Succ(p, |n|)] && x.previous == n[p - 1];
      ghost var m := Unlink(x.previous, x, x.next, n, p);
      x.container := null;
      count := count - 1;
      nodes, repr := m, repr - {x};
      forall i | 0 <= i <= count ensures m[i] in repr && (i > 0 ==> m[i].container == this) {
        if i < p { assert m[i] == n[i]; } else { assert m[i] == n[i + 1]; }
      }
    }

    /** Unlinks the item at node position `p`; the index steps back if it rested
        there. */
    method Remove(x: ListItem, ghost p: nat) returns (left: nat)
      requires Valid() && 0 < p < |nodes| && nodes[p] == x
      modifies this, repr`next, repr`previous, x`container
      ensures Valid() && left == |nodes| - 1
      ensures View() == old(View()).Remove(p - 1) && repr == old(repr) - {x}
      ensures x.container == null
    {
      ghost var n := nodes;
      assert x.next == n[Succ(p, |n|)] && x.previous == n[p - 1];
      assert index == x <==> pos == p by { DistinctFrom(n, p); }
      if index == x {
        index := x.previous;
      }
      Expel(x, p);
      if p <= pos { pos := pos - 1; }
      left := count;
      CutItems(n, old(pos), p, nodes);
    }

    /** Advances the index to the next item, stepping over the sentinel. */
    method OwnerOfNextEntry() returns (x: ListItem)
      requires Valid() && |nodes| > 1
      modifies this
      ensures Valid()
      ensures (View(), x) == old(View()).Select()
    {
      ghost var n := nodes;
      assert index == n[pos] && index.next == n[Succ(pos, |n|)] && n[0].next == n[1];
      index := index.next;
      pos := Succ(pos, |n|);
      if index == end {
        index := index.next;
        pos := 1;
      }
      x := index;
    }
  }
}
