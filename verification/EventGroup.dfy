/** Event groups: tasks wait for any or all of some bits, and setting bits wakes every
    task whose condition then holds.  Proved: after every operation no task is left
    waiting although its condition holds; a set wakes exactly the tasks that it
    satisfies, whatever the order of the list; each woken task gets a value that
    satisfies its condition; and the bits left are those set before or now, but for the
    ones that woken tasks asked to have cleared. */
module EventGroups {
  import opened Common

  /** The number of a bit in a 32-bit word; a word is the set of its bits here, and the
      words themselves are in EventGroupWords. */
  type Bit = bv5

  /** What a task waits for. */
  datatype Wish = Wish(wanted: set<Bit>, clear: bool, all: bool)
  {
    predicate Met(bits: set<Bit>) {
      if all then wanted <= bits else bits * wanted != {}
    }

    /** The bits it wants cleared once it has been woken. */
    function Mask(): set<Bit> { if clear then wanted else {} }
  }

  datatype Waiter = Waiter(task: TaskId, wish: Wish)

  // ---------------------------------------------------------------- scanning the list

  function Left(s: seq<Waiter>, bits: set<Bit>): seq<Waiter> {
    if s == [] then [] else (if s[0].wish.Met(bits) then [] else [s[0]]) + Left(s[1..], bits)
  }

  function Matched(s: seq<Waiter>, bits: set<Bit>): seq<Waiter> {
    if s == [] then [] else (if s[0].wish.Met(bits) then [s[0]] else []) + Matched(s[1..], bits)
  }

  function Mask(w: Waiter, bits: set<Bit>): set<Bit> { if w.wish.Met(bits) then w.wish.Mask() else {} }

  /** All the bits that woken tasks want cleared. */
  function ClearMask(s: seq<Waiter>, bits: set<Bit>): set<Bit> {
    if s == [] then {} else Mask(s[0], bits) + ClearMask(s[1..], bits)
  }

  /** How blocked tasks came to run again: with the bits that woke them, or without. */
  function Wake(woken: map<TaskId, Option<set<Bit>>>, s: seq<Waiter>, bits: set<Bit>): map<TaskId, Option<set<Bit>>>
    decreases |s|
  {
    if s == [] then woken else Wake(woken[s[0].task := Some(bits)], s[1..], bits)
  }

  /** What the scans say when they come by one waiter. */
  lemma Passing(woken: map<TaskId, Option<set<Bit>>>, w: Waiter, rest: seq<Waiter>, bits: set<Bit>)
    ensures Left([w] + rest, bits) == (if w.wish.Met(bits) then [] else [w]) + Left(rest, bits)
    ensures ClearMask([w] + rest, bits) == Mask(w, bits) + ClearMask(rest, bits)
    ensures Wake(woken, Matched([w] + rest, bits), bits) ==
              Wake(if w.wish.Met(bits) then woken[w.task := Some(bits)] else woken, Matched(rest, bits), bits)
  {
    assert ([w] + rest)[1..] == rest;
    var m := Matched(rest, bits);
    if w.wish.Met(bits) {
      assert Matched([w] + rest, bits) == [w] + m;
      assert ([w] + m)[1..] == m;
    } else {
      assert Matched([w] + rest, bits) == [] + m == m;
    }
  }

  /** A walk along the list `all` with `rest` still to come: what has been kept, woken and
      collected so far, together with what the scans say of the rest, makes up what they
      say of all. */
  ghost predicate Walked(all: seq<Waiter>, before: map<TaskId, Option<set<Bit>>>, kept: seq<Waiter>, rest: seq<Waiter>,
                         woken: map<TaskId, Option<set<Bit>>>, clear: set<Bit>, bits: set<Bit>)
  {
    && kept + Left(rest, bits) == Left(all, bits)
    && Wake(woken, Matched(rest, bits), bits) == Wake(before, Matched(all, bits), bits)
    && clear + ClearMask(rest, bits) == ClearMask(all, bits)
  }

  lemma WalkOn(all: seq<Waiter>, before: map<TaskId, Option<set<Bit>>>, kept: seq<Waiter>, rest: seq<Waiter>,
               woken: map<TaskId, Option<set<Bit>>>, clear: set<Bit>, bits: set<Bit>)
    requires Walked(all, before, kept, rest, woken, clear, bits) && rest != []
    ensures var w := rest[0];
            Walked(all, before, kept + (if w.wish.Met(bits) then [] else [w]), rest[1..],
                   if w.wish.Met(bits) then woken[w.task := Some(bits)] else woken, clear + Mask(w, bits), bits)
  {
    assert rest == [rest[0]] + rest[1..];
    Passing(woken, rest[0], rest[1..], bits);
    var more := if rest[0].wish.Met(bits) then [] else [rest[0]];
    assert kept + (more + Left(rest[1..], bits)) == (kept + more) + Left(rest[1..], bits);
  }

  lemma WalkDone(all: seq<Waiter>, before: map<TaskId, Option<set<Bit>>>, kept: seq<Waiter>,
                 woken: map<TaskId, Option<set<Bit>>>, clear: set<Bit>, bits: set<Bit>)
    requires Walked(all, before, kept, [], woken, clear, bits)
    ensures kept == Left(all, bits) && woken == Wake(before, Matched(all, bits), bits) && clear == ClearMask(all, bits)
  {
  }

  lemma {:induction false} LeftIs(s: seq<Waiter>, bits: set<Bit>)
    ensures forall w :: w in Left(s, bits) <==> w in s && !w.wish.Met(bits)
  {
    if s != [] { LeftIs(s[1..], bits); }
  }

  lemma {:induction false} MatchedIs(s: seq<Waiter>, bits: set<Bit>)
    ensures forall w :: w in Matched(s, bits) <==> w in s && w.wish.Met(bits)
  {
    if s != [] { MatchedIs(s[1..], bits); }
  }

  lemma {:induction false} WakeIs(woken: map<TaskId, Option<set<Bit>>>, s: seq<Waiter>, bits: set<Bit>, t: TaskId)
    ensures Listed(s, t) ==> t in Wake(woken, s, bits) && Wake(woken, s, bits)[t] == Some(bits)
    ensures !Listed(s, t) ==> (t in Wake(woken, s, bits) <==> t in woken)
    ensures !Listed(s, t) && t in woken ==> Wake(woken, s, bits)[t] == woken[t]
    decreases |s|
  {
    if s != [] { WakeIs(woken[s[0].task := Some(bits)], s[1..], bits, t); }
  }

  predicate Listed(s: seq<Waiter>, t: TaskId) { s != [] && (s[0].task == t || Listed(s[1..], t)) }

  lemma {:induction false} ListedIs(s: seq<Waiter>, t: TaskId)
    ensures Listed(s, t) <==> exists i :: 0 <= i < |s| && s[i].task == t
  {
    if s != [] {
      ListedIs(s[1..], t);
      if i :| 0 <= i < |s| && s[i].task == t { assert i == 0 || s[1..][i - 1].task == t; }
      if i :| 0 <= i < |s[1..]| && s[1..][i].task == t { assert s[i + 1].task == t; }
    }
  }

  // ---------------------------------------------------------------- the order of the list does not matter

  /** The bits cleared are the union of the woken tasks' masks. */
  lemma {:induction false} ClearMaskIsUnion(s: seq<Waiter>, bits: set<Bit>, bit: Bit)
    ensures bit in ClearMask(s, bits) <==> exists w :: w in s && bit in Mask(w, bits)
  {
    if s != [] {
      ClearMaskIsUnion(s[1..], bits, bit);
      if w :| w in s && bit in Mask(w, bits) { assert w == s[0] || w in s[1..]; }
      if w :| w in s[1..] && bit in Mask(w, bits) { assert w in s; }
      if bit in Mask(s[0], bits) { assert s[0] in s; }
    }
  }

  lemma {:induction false} MatchedCount(s: seq<Waiter>, bits: set<Bit>, w: Waiter)
    ensures multiset(Matched(s, bits))[w] == if w.wish.Met(bits) then multiset(s)[w] else 0
  {
    if s != [] {
      MatchedCount(s[1..], bits, w);
      assert s == [s[0]] + s[1..];
      assert multiset([s[0]])[w] == if w == s[0] then 1 else 0;
    }
  }

  /** Two lists with the same waiters in any order: the same tasks are woken and the same
      bits cleared. */
  lemma OrderIrrelevant(a: seq<Waiter>, b: seq<Waiter>, bits: set<Bit>)
    requires multiset(a) == multiset(b)
    ensures ClearMask(a, bits) == ClearMask(b, bits)
    ensures multiset(Matched(a, bits)) == multiset(Matched(b, bits))
  {
    forall w: Waiter ensures multiset(Matched(a, bits))[w] == multiset(Matched(b, bits))[w] {
      MatchedCount(a, bits, w);
      MatchedCount(b, bits, w);
    }
    forall w: Waiter ensures w in a <==> w in b {
      assert w in a <==> w in multiset(a);
      assert w in b <==> w in multiset(b);
    }
    forall bit ensures bit in ClearMask(a, bits) <==> bit in ClearMask(b, bits) {
      ClearMaskIsUnion(a, bits, bit);
      ClearMaskIsUnion(b, bits, bit);
    }
  }

  function Without<T>(s: seq<T>, i: nat): seq<T>
    requires i < |s|
  {
    s[..i] + s[i + 1..]
  }

  // ---------------------------------------------------------------- the group

  /** `woken` tells of tasks that have been woken or have timed out and have not run yet;
      `asked` remembers what each blocked task asked for. */
  datatype Group = Group(bits: set<Bit>, waiting: seq<Waiter>, woken: map<TaskId, Option<set<Bit>>>, asked: map<TaskId, Wish>)
  {
    function SetBits(more: set<Bit>): Group {
      var b := bits + more;
      this.(bits := b - ClearMask(waiting, b), waiting := Left(waiting, b), woken := Wake(woken, Matched(waiting, b), b))
    }

    function ClearBits(clear: set<Bit>): Group { this.(bits := bits - clear) }

    /** A task that cannot go on goes to the end of the list. */
    function Block(t: TaskId, wish: Wish): Group {
      this.(waiting := waiting + [Waiter(t, wish)], asked := asked[t := wish])
    }

    /** Waits for bits, or finds them set.  The result is None when the task blocks. */
    function WaitBits(t: TaskId, wish: Wish, mayBlock: bool): (Group, Option<set<Bit>>) {
      if wish.Met(bits) then (if wish.clear then ClearBits(wish.wanted) else this, Some(bits))
      else if !mayBlock then (this, Some(bits))
      else (Block(t, wish), None)
    }

    /** Sets bits and waits for all of a rendezvous. */
    function Sync(t: TaskId, more: set<Bit>, wanted: set<Bit>, mayBlock: bool): (Group, Option<set<Bit>>) {
      var g := SetBits(more);
      if Wish(wanted, true, true).Met(bits + more) then (g.ClearBits(wanted), Some(bits + more))
      else if !mayBlock then (g, Some(g.bits))
      else (g.Block(t, Wish(wanted, true, true)), None)
    }

    /** A waiter's time runs out: the tick takes it off the list. */
    function Expire(i: nat): Group
      requires i < |waiting|
    {
      this.(waiting := Without(waiting, i), woken := woken[waiting[i].task := None])
    }

    /** A task that had blocked runs again and returns from its call.  One that timed out
        looks at the bits once more. */
    function Resume(t: TaskId): (Group, set<Bit>)
      requires t in woken && t in asked
    {
      var g := this.(woken := woken - {t}, asked := asked - {t});
      match woken[t]
      case Some(seen) => (g, seen)
      case None => (if asked[t].Met(bits) && asked[t].clear then g.ClearBits(asked[t].wanted) else g, bits)
    }

    // ---- what always holds

    /** A blocked task is on the list once, or woken, and never both. */
    ghost predicate Orderly() {
      && (forall i, j | 0 <= i < j < |waiting| :: waiting[i].task != waiting[j].task)
      && (forall w | w in waiting :: w.task !in woken && w.task in asked && asked[w.task] == w.wish)
      && (forall t | t in woken :: t in asked)
    }

    /** No task is left waiting although its condition holds. */
    ghost predicate NoneForgotten() {
      forall w | w in waiting :: !w.wish.Met(bits)
    }

    /** A woken task that will report success was woken by bits that it asked for. */
    ghost predicate NoneDeceived() {
      forall t | t in woken && t in asked && woken[t].Some? :: asked[t].Met(woken[t].value)
    }

    ghost predicate Inv() { Orderly() && NoneForgotten() && NoneDeceived() }
  }

  // ---------------------------------------------------------------- the operations keep it

  /** Fewer bits meet no more wishes. */
  lemma FewerBits(wish: Wish, bits: set<Bit>, clear: set<Bit>)
    requires !wish.Met(bits)
    ensures !wish.Met(bits - clear)
  {
  }

  lemma ClearInv(g: Group, clear: set<Bit>)
    requires g.Inv()
    ensures g.ClearBits(clear).Inv()
  {
    forall w | w in g.waiting ensures !w.wish.Met(g.bits - clear) { FewerBits(w.wish, g.bits, clear); }
  }

  lemma {:induction false} LeftDistinct(s: seq<Waiter>, bits: set<Bit>)
    requires forall i, j | 0 <= i < j < |s| :: s[i].task != s[j].task
    ensures forall i, j | 0 <= i < j < |Left(s, bits)| :: Left(s, bits)[i].task != Left(s, bits)[j].task
  {
    if s != [] {
      var l := Left(s[1..], bits);
      LeftDistinct(s[1..], bits);
      LeftIs(s[1..], bits);
      forall j | 0 <= j < |l| ensures l[j].task != s[0].task {
        assert l[j] in l;
        var k :| 0 <= k < |s[1..]| && s[1..][k] == l[j];
        assert s[k + 1] == l[j];
      }
    }
  }

  /** A waiter that stays is none of those that are woken. */
  lemma LeftNotMatched(g: Group, bits: set<Bit>, w: Waiter)
    requires g.Orderly() && w in g.waiting && !w.wish.Met(bits)
    ensures !Listed(Matched(g.waiting, bits), w.task)
  {
    var m := Matched(g.waiting, bits);
    MatchedIs(g.waiting, bits);
    ListedIs(m, w.task);
    forall i | 0 <= i < |m| ensures m[i].task != w.task {
      assert m[i] in m;
      OneEach(g, m[i], w);
    }
  }

  lemma OneEach(g: Group, v: Waiter, w: Waiter)
    requires g.Orderly() && v in g.waiting && w in g.waiting
    ensures v.task == w.task ==> v == w
  {
  }

  /** A task that is woken had asked for what it got. */
  lemma MatchedAsked(g: Group, bits: set<Bit>, t: TaskId)
    requires g.Orderly() && Listed(Matched(g.waiting, bits), t)
    ensures t in g.asked && g.asked[t].Met(bits)
  {
    var m := Matched(g.waiting, bits);
    MatchedIs(g.waiting, bits);
    ListedIs(m, t);
    var i :| 0 <= i < |m| && m[i].task == t;
    assert m[i] in m;
  }

  lemma SetInv(g: Group, more: set<Bit>)
    requires g.Inv()
    ensures g.SetBits(more).Inv()
  {
    var b := g.bits + more;
    var r := g.SetBits(more);
    var m := Matched(g.waiting, b);
    LeftIs(g.waiting, b);
    LeftDistinct(g.waiting, b);
    forall w | w in r.waiting ensures !w.wish.Met(r.bits) && w.task !in r.woken {
      FewerBits(w.wish, b, ClearMask(g.waiting, b));
      WakeIs(g.woken, m, b, w.task);
      LeftNotMatched(g, b, w);
    }
    forall t | t in r.woken ensures t in r.asked && (r.woken[t].Some? ==> r.asked[t].Met(r.woken[t].value)) {
      WakeIs(g.woken, m, b, t);
      if Listed(m, t) { MatchedAsked(g, b, t); }
    }
  }

  lemma BlockInv(g: Group, t: TaskId, wish: Wish)
    requires g.Inv() && !wish.Met(g.bits) && t !in g.asked
    ensures g.Block(t, wish).Inv()
  {
  }

  lemma WaitInv(g: Group, t: TaskId, wish: Wish, mayBlock: bool)
    requires g.Inv() && t !in g.asked
    ensures g.WaitBits(t, wish, mayBlock).0.Inv()
  {
    if wish.Met(g.bits) { ClearInv(g, wish.wanted); } else { BlockInv(g, t, wish); }
  }

  lemma SyncInv(g: Group, t: TaskId, more: set<Bit>, wanted: set<Bit>, mayBlock: bool)
    requires g.Inv() && t !in g.asked
    ensures g.Sync(t, more, wanted, mayBlock).0.Inv()
  {
    var s := g.SetBits(more);
    var wish := Wish(wanted, true, true);
    SetInv(g, more);
    if wish.Met(g.bits + more) {
      ClearInv(s, wanted);
    } else {
      FewerBits(wish, g.bits + more, ClearMask(g.waiting, g.bits + more));
      BlockInv(s, t, wish);
    }
  }

  lemma ExpireInv(g: Group, i: nat)
    requires g.Inv() && i < |g.waiting|
    ensures g.Expire(i).Inv()
  {
    var r := g.Expire(i);
    forall k | 0 <= k < |r.waiting| ensures r.waiting[k] == g.waiting[if k < i then k else k + 1] { }
  }

  lemma ResumeInv(g: Group, t: TaskId)
    requires g.Inv() && t in g.woken
    ensures t in g.asked && g.Resume(t).0.Inv()
  {
    var r := g.(woken := g.woken - {t}, asked := g.asked - {t});
    assert r.Inv();
    ClearInv(r, g.asked[t].wanted);
  }

  // ---------------------------------------------------------------- what callers see

  predicate Wakes(g: Group, b: set<Bit>, t: TaskId) { Listed(Matched(g.waiting, b), t) }

  lemma WakesIs(g: Group, b: set<Bit>, t: TaskId)
    ensures Wakes(g, b, t) <==> exists w :: w in g.waiting && w.wish.Met(b) && w.task == t
  {
    var m := Matched(g.waiting, b);
    MatchedIs(g.waiting, b);
    ListedIs(m, t);
    if i :| 0 <= i < |m| && m[i].task == t { assert m[i] in m; }
    if w :| w in g.waiting && w.wish.Met(b) && w.task == t { assert w in m; }
  }

  /** Setting bits: exactly the waiters whose wishes the new bits meet leave the list,
      each of them woken with those bits; nothing changes for any other task; and the bits
      that woken tasks want cleared are cleared afterwards, and no others. */
  lemma SetIsExact(g: Group, more: set<Bit>)
    requires g.Inv()
    ensures var r, b := g.SetBits(more), g.bits + more;
            && (forall w :: w in r.waiting <==> w in g.waiting && !w.wish.Met(b))
            && (forall t | Wakes(g, b, t) :: t in r.woken && r.woken[t] == Some(b))
            && (forall t | !Wakes(g, b, t) :: (t in r.woken <==> t in g.woken) && (t in g.woken ==> r.woken[t] == g.woken[t]))
            && (forall bit :: bit in r.bits <==> bit in b && !exists w :: w in g.waiting && bit in Mask(w, b))
    ensures forall t :: Wakes(g, g.bits + more, t) <==> exists w :: w in g.waiting && w.wish.Met(g.bits + more) && w.task == t
  {
    var b := g.bits + more;
    LeftIs(g.waiting, b);
    var r := g.SetBits(more);
    forall t | Wakes(g, b, t) ensures t in r.woken && r.woken[t] == Some(b) { WakeIs(g.woken, Matched(g.waiting, b), b, t); }
    forall t | !Wakes(g, b, t) ensures (t in r.woken <==> t in g.woken) && (t in g.woken ==> r.woken[t] == g.woken[t]) {
      WakeIs(g.woken, Matched(g.waiting, b), b, t);
    }
    forall t ensures Wakes(g, b, t) <==> exists w :: w in g.waiting && w.wish.Met(b) && w.task == t { WakesIs(g, b, t); }
    forall bit ensures bit in ClearMask(g.waiting, b) <==> exists w :: w in g.waiting && bit in Mask(w, b) {
      ClearMaskIsUnion(g.waiting, b, bit);
    }
  }

  /** A blocked call that returns because bits were set returns bits that meet what it
      asked for, and leaves the group alone. */
  lemma ResumeMeets(g: Group, t: TaskId)
    requires g.Inv() && t in g.woken && g.woken[t].Some?
    ensures t in g.asked && g.asked[t].Met(g.Resume(t).1) && g.Resume(t).0.bits == g.bits
  {
  }

  predicate IsWaiting(g: Group, t: TaskId) { exists w :: w in g.waiting && w.task == t }

  /** A wait returns at once if and only if its condition holds or it may not block, and
      then with the bits as they were; if the condition held, the bits that it wants
      cleared are cleared, and otherwise none; and if it does not return, its task waits
      behind all others. */
  lemma WaitIs(g: Group, t: TaskId, wish: Wish, mayBlock: bool)
    requires g.Inv() && t !in g.asked
    ensures var (r, value) := g.WaitBits(t, wish, mayBlock);
            && (value.Some? <==> wish.Met(g.bits) || !mayBlock)
            && (value.Some? ==> value.value == g.bits)
            && (forall bit :: bit in r.bits <==> bit in g.bits && !(wish.Met(g.bits) && bit in wish.Mask()))
            && r.waiting == (if value == None then g.waiting + [Waiter(t, wish)] else g.waiting)
            && (IsWaiting(r, t) <==> value == None) && r.woken == g.woken
  {
    var (r, value) := g.WaitBits(t, wish, mayBlock);
    forall w | w in g.waiting ensures w.task != t { assert w.task in g.asked; }
    if value == None { assert r.waiting[|g.waiting|] == Waiter(t, wish); }
  }

  /** A rendezvous does to the other tasks what a set does.  It returns if and only if all
      its bits have come or it may not block: with the old and the new bits together in the
      first case, after which its own are clear, and with what is left of them in the
      second. */
  lemma SyncIs(g: Group, t: TaskId, more: set<Bit>, wanted: set<Bit>, mayBlock: bool)
    requires g.Inv() && t !in g.asked
    ensures var (r, value) := g.Sync(t, more, wanted, mayBlock);
            var here, after := wanted <= g.bits + more, g.SetBits(more);
            && (value.Some? <==> here || !mayBlock)
            && (here ==> value == Some(g.bits + more) && forall bit :: bit in r.bits <==> bit in after.bits && bit !in wanted)
            && (!here ==> r.bits == after.bits && (!mayBlock ==> value == Some(after.bits)))
            && r.waiting == (if value == None then after.waiting + [Waiter(t, Wish(wanted, true, true))] else after.waiting)
            && (IsWaiting(r, t) <==> value == None) && r.woken == after.woken
  {
    var (r, value) := g.Sync(t, more, wanted, mayBlock);
    LeftIs(g.waiting, g.bits + more);
    forall w | w in g.SetBits(more).waiting ensures w.task != t { assert w.task in g.asked; }
    if value == None { assert r.waiting[|g.SetBits(more).waiting|] == Waiter(t, Wish(wanted, true, true)); }
  }

  lemma ClearIs(g: Group, clear: set<Bit>)
    ensures var r := g.ClearBits(clear);
            && (forall bit :: bit in r.bits <==> bit in g.bits && bit !in clear)
            && r.waiting == g.waiting && r.woken == g.woken && r.asked == g.asked
  {
  }

  /** A timeout takes just the one task off the list, with nothing to show for it. */
  lemma ExpireIs(g: Group, i: nat)
    requires g.Inv() && i < |g.waiting|
    ensures var r, t := g.Expire(i), g.waiting[i].task;
            && r.bits == g.bits && t in r.woken && r.woken[t] == None && !IsWaiting(r, t)
            && (forall w :: w in r.waiting <==> w in g.waiting && w.task != t)
            && (forall u | u != t :: (u in r.woken <==> u in g.woken) && (u in g.woken ==> r.woken[u] == g.woken[u]))
  {
    var r, t := g.Expire(i), g.waiting[i].task;
    forall w | w in g.waiting && w.task != t ensures w in r.waiting {
      var j :| 0 <= j < |g.waiting| && g.waiting[j] == w;
      assert w == r.waiting[if j < i then j else j - 1];
    }
    forall j | 0 <= j < |r.waiting| ensures r.waiting[j] in g.waiting && r.waiting[j].task != t {
      assert r.waiting[j] == g.waiting[if j < i then j else j + 1];
    }
  }

  /** A call that had blocked returns: with the bits that woke it, and then it clears none,
      or after a timeout with the bits as they are, of which it clears what it would have
      cleared if they meet its wish by now. */
  lemma ResumeIs(g: Group, t: TaskId)
    requires g.Inv() && t in g.woken
    ensures t in g.asked
    ensures var (r, value) := g.Resume(t);
            var late := g.woken[t] == None && g.asked[t].Met(g.bits);
            && value == (if g.woken[t].Some? then g.woken[t].value else g.bits)
            && (forall bit :: bit in r.bits <==> bit in g.bits && !(late && bit in g.asked[t].Mask()))
            && r.waiting == g.waiting && t !in r.woken && t !in r.asked
            && (forall u | u != t :: (u in r.woken <==> u in g.woken) && (u in g.woken ==> r.woken[u] == g.woken[u]))
  {
  }

  // ---------------------------------------------------------------- whole runs

  datatype Op =
    | Set(bits: set<Bit>)
    | Clear(bits: set<Bit>)
    | Wait(t: TaskId, wish: Wish, mayBlock: bool)
    | Rendezvous(t: TaskId, bits: set<Bit>, wanted: set<Bit>, mayBlock: bool)
    | TimeOut(i: nat)
    | Return(t: TaskId)

  /** A blocked task makes no calls, only waiting tasks time out, and only tasks that have
      been woken return. */
  predicate Enabled(g: Group, op: Op) {
    match op
    case Wait(t, _, _) => t !in g.asked
    case Rendezvous(t, _, _, _) => t !in g.asked
    case TimeOut(i) => i < |g.waiting|
    case Return(t) => t in g.woken && t in g.asked
    case _ => true
  }

  function Next(g: Group, op: Op): Group
    requires Enabled(g, op)
  {
    match op
    case Set(bits) => g.SetBits(bits)
    case Clear(bits) => g.ClearBits(bits)
    case Wait(t, wish, mayBlock) => g.WaitBits(t, wish, mayBlock).0
    case Rendezvous(t, bits, wanted, mayBlock) => g.Sync(t, bits, wanted, mayBlock).0
    case TimeOut(i) => g.Expire(i)
    case Return(t) => g.Resume(t).0
  }

  lemma NextInv(g: Group, op: Op)
    requires g.Inv() && Enabled(g, op)
    ensures Next(g, op).Inv()
  {
    match op
    case Set(bits) => SetInv(g, bits);
    case Clear(bits) => ClearInv(g, bits);
    case Wait(t, wish, mayBlock) => WaitInv(g, t, wish, mayBlock);
    case Rendezvous(t, bits, wanted, mayBlock) => SyncInv(g, t, bits, wanted, mayBlock);
    case TimeOut(i) => ExpireInv(g, i);
    case Return(t) => ResumeInv(g, t);
  }

  function Run(g: Group, ops: seq<Op>): (bool, Group)
    decreases |ops|
  {
    if ops == [] then (true, g)
    else if !Enabled(g, ops[0]) then (false, g)
    else Run(Next(g, ops[0]), ops[1..])
  }

  /** A task that is in a call, for the given wish: it waits or is on its way out. */
  ghost predicate InCall(g: Group, t: TaskId, wish: Wish) {
    t in g.asked && g.asked[t] == wish && (Waiter(t, wish) in g.waiting || t in g.woken)
  }

  lemma StaysInCall(g: Group, op: Op, t: TaskId, wish: Wish)
    requires g.Inv() && Enabled(g, op) && op != Return(t) && InCall(g, t, wish)
    ensures InCall(Next(g, op), t, wish)
  {
    match op
    case Set(bits) => SetKeepsCall(g, bits, t, wish);
    case Clear(bits) =>
    case Wait(u, other, mayBlock) => WaitIs(g, u, other, mayBlock);
    case Rendezvous(u, bits, wanted, mayBlock) =>
      SetKeepsCall(g, bits, t, wish);
      SyncIs(g, u, bits, wanted, mayBlock);
    case TimeOut(i) => ExpireIs(g, i);
    case Return(u) => ResumeIs(g, u);
  }

  lemma SetKeepsCall(g: Group, more: set<Bit>, t: TaskId, wish: Wish)
    requires g.Inv() && InCall(g, t, wish)
    ensures InCall(g.SetBits(more), t, wish)
  {
    SetIsExact(g, more);
    if Waiter(t, wish) in g.waiting && wish.Met(g.bits + more) { assert Wakes(g, g.bits + more, t); }
  }

  lemma {:induction false} InCallThrough(g: Group, ops: seq<Op>, t: TaskId, wish: Wish)
    requires g.Inv() && InCall(g, t, wish) && Return(t) !in ops
    ensures Run(g, ops).0 ==> Run(g, ops).1.Inv() && InCall(Run(g, ops).1, t, wish)
    decreases |ops|
  {
    if ops != [] && Enabled(g, ops[0]) {
      NextInv(g, ops[0]);
      StaysInCall(g, ops[0], t, wish);
      InCallThrough(Next(g, ops[0]), ops[1..], t, wish);
    }
  }

  /** A wait that blocks, whatever is called before it returns: its task is on the list as
      long as its condition does not hold; and if it then returns because bits were set,
      these bits meet just what it asked for. */
  lemma WaitHonoured(g: Group, t: TaskId, wish: Wish, ops: seq<Op>)
    requires g.Inv() && t !in g.asked && !wish.Met(g.bits) && Return(t) !in ops
    requires Run(g.WaitBits(t, wish, true).0, ops).0
    ensures var r := Run(g.WaitBits(t, wish, true).0, ops).1;
            && InCall(r, t, wish)
            && (Waiter(t, wish) in r.waiting ==> !wish.Met(r.bits))
            && (t in r.woken && r.woken[t].Some? ==> wish.Met(r.Resume(t).1) && r.Resume(t).0.bits == r.bits)
  {
    var g1 := g.WaitBits(t, wish, true).0;
    WaitIs(g, t, wish, true);
    WaitInv(g, t, wish, true);
    assert g1.waiting[|g.waiting|] == Waiter(t, wish);
    InCallThrough(g1, ops, t, wish);
  }

  function NewGroup(): Group { Group({}, [], map[], map[]) }

  lemma NewGroupInv()
    ensures NewGroup().Inv()
  {
  }

  lemma {:induction false} RunKeeps(ops: seq<Op>, g: Group)
    requires g.Inv()
    ensures Run(g, ops).0 ==> Run(g, ops).1.Inv()
    decreases |ops|
  {
    if ops != [] && Enabled(g, ops[0]) {
      NextInv(g, ops[0]);
      RunKeeps(ops[1..], Next(g, ops[0]));
    }
  }

  /** From a new group on, whatever is called, no waiting task is forgotten and no woken
      task is deceived. */
  lemma RunInv(ops: seq<Op>)
    ensures Run(NewGroup(), ops).0 ==> Run(NewGroup(), ops).1.Inv()
  {
    NewGroupInv();
    RunKeeps(ops, NewGroup());
  }
}
