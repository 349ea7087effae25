/** The EventQueue of more_blarg.py: the same ordered list of [countdown,
    handler] pairs as the main engine's. Its `enqueue` scans for the first
    entry due strictly later (`when < entry[0]`); these lemmas say what that
    choice means for a sequence of enqueues: entries with equal delays stay
    side by side in arrival order, and entries with different delays land in
    the same places whichever is enqueued first. */
module MoreBlarg {
  import opened EventQueue

  /** The target of the two enqueue lemmas: `q` with `e` inserted at `i`. */
  function InsertAt<H>(q: Queue<H>, i: nat, e: Entry<H>): (r: Queue<H>)
    requires i <= |q|
    ensures |r| == |q| + 1 && r[i] == e
  {
    q[..i] + [e] + q[i..]
  }

  /** Every other entry keeps its place before `i` and moves one on after it. */
  lemma InsertAtElements<H>(q: Queue<H>, i: nat, e: Entry<H>)
    requires i <= |q|
    ensures var r := InsertAt(q, i, e);
            && (forall k {:trigger r[k]} :: 0 <= k < i ==> r[k] == q[k])
            && (forall k {:trigger r[k]} :: i < k < |r| ==> r[k] == q[k - 1])
  {
  }

  /** Enqueue is insertion at the insertion point. */
  lemma EnqueueIsInsertAt<H>(q: Queue<H>, when: int, h: H)
    ensures Enqueue(q, when, h) == InsertAt(q, InsertionPoint(q, when), Entry(when, h))
  {
  }

  /** Inserting `e2` just behind a freshly inserted `e1` places the two side by side. */
  lemma InsertBehind<H>(q: Queue<H>, i: nat, e1: Entry<H>, e2: Entry<H>)
    requires i <= |q|
    ensures InsertAt(InsertAt(q, i, e1), i + 1, e2) == q[..i] + [e1, e2] + q[i..]
  {
    var r := InsertAt(InsertAt(q, i, e1), i + 1, e2);
    var s := q[..i] + [e1, e2] + q[i..];
    InsertAtElements(q, i, e1);
    InsertAtElements(InsertAt(q, i, e1), i + 1, e2);
    assert |r| == |s|;
    forall k | 0 <= k < |r|
      ensures r[k] == s[k]
    {
      if k > i + 1 {
        assert r[k] == InsertAt(q, i, e1)[k - 1] == q[k - 2];
      }
    }
  }

  /** Insertions at two positions `i <= j` of the original queue commute,
      once the later position is shifted past the earlier insertion. */
  lemma InsertionsCommute<H>(q: Queue<H>, i: nat, j: nat, ea: Entry<H>, eb: Entry<H>)
    requires i <= j <= |q|
    ensures InsertAt(InsertAt(q, i, ea), j + 1, eb) == InsertAt(InsertAt(q, j, eb), i, ea)
  {
    var xa := InsertAt(q, i, ea);
    var yb := InsertAt(q, j, eb);
    var xy := InsertAt(xa, j + 1, eb);
    var yx := InsertAt(yb, i, ea);
    InsertAtElements(q, i, ea);
    InsertAtElements(q, j, eb);
    InsertAtElements(xa, j + 1, eb);
    InsertAtElements(yb, i, ea);
    assert |xy| == |yx|;
    forall k | 0 <= k < |xy|
      ensures xy[k] == yx[k]
    {
      if k < i {
      } else if k == i {
      } else if k <= j {
        assert xy[k] == xa[k] == q[k - 1];
        assert yx[k] == yb[k - 1] == q[k - 1];
      } else if k == j + 1 {
        assert yx[k] == yb[k - 1];
      } else {
        assert xy[k] == xa[k - 1] == q[k - 2];
        assert yx[k] == yb[k - 1] == q[k - 2];
      }
    }
  }

  /** Enqueueing `a` and then `b` with the same delay puts `b` directly
      behind `a`, both where `a` alone would have gone: behind every entry
      due no later, ahead of every entry due later. */
  lemma EnqueueTiesAdjacent<H>(q: Queue<H>, when: int, a: H, b: H)
    ensures var i := InsertionPoint(q, when);
            Enqueue(Enqueue(q, when, a), when, b) == q[..i] + [Entry(when, a), Entry(when, b)] + q[i..]
  {
    var i := InsertionPoint(q, when);
    EnqueueAt(q, when, a, i);
    InsertionPointShifts(q, i, Entry(when, a), when, i);
    EnqueueAt(InsertAt(q, i, Entry(when, a)), when, b, i + 1);
    InsertBehind(q, i, Entry(when, a), Entry(when, b));
  }

  /** A sooner delay's insertion point is no later than a later delay's. */
  lemma InsertionPointMonotone<H>(q: Queue<H>, x: int, y: int)
    requires Sorted(q) && x < y
    ensures InsertionPoint(q, x) <= InsertionPoint(q, y)
  {
  }

  /** Any index with the two properties of the insertion point is where enqueue inserts. */
  lemma EnqueueAt<H>(q: Queue<H>, when: int, h: H, i: nat)
    requires i <= |q|
    requires forall k :: 0 <= k < i ==> q[k].countdown <= when
    requires i < |q| ==> when < q[i].countdown
    ensures Enqueue(q, when, h) == InsertAt(q, i, Entry(when, h))
  {
    InsertionPointUnique(q, when, i);
    EnqueueIsInsertAt(q, when, h);
  }

  /** Inserting an entry due no later than `when` at or before the insertion
      point `j` of `when` moves that insertion point to `j + 1`. */
  lemma InsertionPointShifts<H>(q: Queue<H>, i: nat, e: Entry<H>, when: int, j: nat)
    requires i <= j <= |q| && e.countdown <= when
    requires forall k :: 0 <= k < j ==> q[k].countdown <= when
    requires j < |q| ==> when < q[j].countdown
    ensures var r := InsertAt(q, i, e);
            && (forall k :: 0 <= k < j + 1 ==> r[k].countdown <= when)
            && (j + 1 < |r| ==> when < r[j + 1].countdown)
  {
    var r := InsertAt(q, i, e);
    InsertAtElements(q, i, e);
    forall k | 0 <= k < j + 1
      ensures r[k].countdown <= when
    {
      if k > i {
        assert r[k] == q[k - 1];
      }
    }
  }

  /** Enqueueing the sooner entry first: the later one lands one place
      further on than it would have in `q`. */
  lemma SoonerThenLater<H>(q: Queue<H>, x: int, a: H, y: int, b: H)
    requires Sorted(q) && x < y
    ensures Enqueue(Enqueue(q, x, a), y, b)
            == InsertAt(InsertAt(q, InsertionPoint(q, x), Entry(x, a)), InsertionPoint(q, y) + 1, Entry(y, b))
  {
    var i := InsertionPoint(q, x);
    var j := InsertionPoint(q, y);
    InsertionPointMonotone(q, x, y);
    EnqueueAt(q, x, a, i);
    InsertionPointShifts(q, i, Entry(x, a), y, j);
    EnqueueAt(InsertAt(q, i, Entry(x, a)), y, b, j + 1);
  }

  /** Enqueueing the later entry first: the sooner one lands where it would have in `q`. */
  lemma LaterThenSooner<H>(q: Queue<H>, x: int, a: H, y: int, b: H)
    requires Sorted(q) && x < y
    ensures Enqueue(Enqueue(q, y, b), x, a)
            == InsertAt(InsertAt(q, InsertionPoint(q, y), Entry(y, b)), InsertionPoint(q, x), Entry(x, a))
  {
    var i := InsertionPoint(q, x);
    var j := InsertionPoint(q, y);
    InsertionPointMonotone(q, x, y);
    EnqueueAt(q, y, b, j);
    var yb := InsertAt(q, j, Entry(y, b));
    InsertAtElements(q, j, Entry(y, b));
    assert i < |yb| ==> x < yb[i].countdown;
    EnqueueAt(yb, x, a, i);
  }

  /** Two enqueues with different delays commute: the queue they leave does
      not depend on which came first. */
  lemma EnqueueDistinctCommute<H>(q: Queue<H>, x: int, a: H, y: int, b: H)
    requires Sorted(q) && x < y
    ensures Enqueue(Enqueue(q, x, a), y, b) == Enqueue(Enqueue(q, y, b), x, a)
  {
    var i := InsertionPoint(q, x);
    var j := InsertionPoint(q, y);
    calc {
      Enqueue(Enqueue(q, x, a), y, b);
    == { SoonerThenLater(q, x, a, y, b); }
      InsertAt(InsertAt(q, i, Entry(x, a)), j + 1, Entry(y, b));
    == { InsertionPointMonotone(q, x, y);
         InsertionsCommute(q, i, j, Entry(x, a), Entry(y, b)); }
      InsertAt(InsertAt(q, j, Entry(y, b)), i, Entry(x, a));
    == { LaterThenSooner(q, x, a, y, b); }
      Enqueue(Enqueue(q, y, b), x, a);
    }
  }
}
