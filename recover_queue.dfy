/**
 * The controller's recover queue: a FIFO list of row positions whose `add`
 * refuses a position already present, and the drain that pops every entry
 * and notifies the adapter of each one that is a real row (not the -1
 * "no row" sentinel).
 */
module RecoverQueue {

  /** No position occurs twice. */
  predicate NoDup(q: seq<int>)
  {
    forall i, j :: 0 <= i < j < |q| ==> q[i] != q[j]
  }

  /** The overridden `add`: a queued position is not added again; a new one goes to the back. */
  function Enqueue(q: seq<int>, p: int): (r: seq<int>)
    ensures p in q ==> r == q
    ensures p !in q ==> |r| == |q| + 1 && r[..|q|] == q && r[|q|] == p
    ensures forall x :: x in r <==> x in q || x == p
    ensures NoDup(q) ==> NoDup(r)
  {
    if p in q then q else q + [p]
  }

  /** The positions the drain of `q` notifies, in the order it notifies them. */
  function NotifiedPositions(q: seq<int>): (r: seq<int>)
    ensures |r| <= |q|
    ensures forall x :: x in r <==> x in q && x > -1
  {
    if q == [] then []
    else (if q[0] > -1 then [q[0]] else []) + NotifiedPositions(q[1..])
  }

  /** Draining `a + b` notifies `a`'s rows first, then `b`'s. */
  lemma {:induction false} NotifiedAppend(a: seq<int>, b: seq<int>)
    ensures NotifiedPositions(a + b) == NotifiedPositions(a) + NotifiedPositions(b)
  {
    if a == [] {
      assert a + b == b;
    } else {
      assert (a + b)[1..] == a[1..] + b;
      NotifiedAppend(a[1..], b);
    }
  }

  /** A queue of real rows is notified entry for entry, in FIFO order. */
  lemma {:induction false} NotifiedAllRows(q: seq<int>)
    requires forall i :: 0 <= i < |q| ==> q[i] >= 0
    ensures NotifiedPositions(q) == q
  {
    if q != [] {
      NotifiedAllRows(q[1..]);
    }
  }

  /** A queue without duplicates notifies each row at most once. */
  lemma {:induction false} NotifiedNoDup(q: seq<int>)
    requires NoDup(q)
    ensures NoDup(NotifiedPositions(q))
  {
    if q != [] {
      assert NoDup(q[1..]) by {
        forall i, j | 0 <= i < j < |q[1..]| ensures q[1..][i] != q[1..][j] {
          assert q[1..][i] == q[i + 1] && q[1..][j] == q[j + 1];
        }
      }
      NotifiedNoDup(q[1..]);
      assert q[0] !in q[1..] by {
        forall k | 0 <= k < |q[1..]| ensures q[1..][k] != q[0] {
          assert q[1..][k] == q[k + 1];
        }
      }
      var tail := NotifiedPositions(q[1..]);
      if q[0] > -1 {
        assert NotifiedPositions(q) == [q[0]] + tail;
        assert q[0] !in tail;
        forall i, j | 0 <= i < j < |[q[0]] + tail|
          ensures ([q[0]] + tail)[i] != ([q[0]] + tail)[j]
        {
          if i == 0 {
            assert ([q[0]] + tail)[j] == tail[j - 1];
          } else {
            assert ([q[0]] + tail)[i] == tail[i - 1];
            assert ([q[0]] + tail)[j] == tail[j - 1];
          }
        }
      } else {
        assert NotifiedPositions(q) == tail;
      }
    }
  }

  /**
   * Adding the same position twice before a drain is the same as adding it
   * once, so that row is notified exactly once, and only if it is a real row.
   */
  lemma DuplicateSuppression(q: seq<int>, p: int)
    requires NoDup(q)
    ensures Enqueue(Enqueue(q, p), p) == Enqueue(q, p)
    ensures NoDup(NotifiedPositions(Enqueue(Enqueue(q, p), p)))
    ensures p in NotifiedPositions(Enqueue(Enqueue(q, p), p)) <==> p > -1
  {
    NotifiedNoDup(Enqueue(q, p));
  }
}
